/** The theme store: one dark-mode flag and the action that flips it. */
module ThemeStore {

  datatype ThemeState = ThemeState(darkMode: bool)

  /** The app starts in light mode. */
  const InitialTheme := ThemeState(false)

  /** `toggleDarkMode`. */
  function ToggleDarkMode(s: ThemeState): (r: ThemeState)
    ensures r.darkMode != s.darkMode
  {
    ThemeState(!s.darkMode)
  }

  /** The state after `n` toggles. */
  function ToggleTimes(s: ThemeState, n: nat): ThemeState {
    if n == 0 then s else ToggleDarkMode(ToggleTimes(s, n - 1))
  }

  lemma ToggleDarkModeTwice(s: ThemeState)
    ensures ToggleDarkMode(ToggleDarkMode(s)) == s
  {
  }

  /** `n` toggles flip the flag exactly when `n` is odd. */
  lemma {:induction false} ToggleTimesParity(s: ThemeState, n: nat)
    ensures ToggleTimes(s, n).darkMode == (s.darkMode != (n % 2 == 1))
  {
    if n > 0 {
      ToggleTimesParity(s, n - 1);
    }
  }

  /** From the initial state, dark mode is on after `n` toggles exactly when
      `n` is odd; with no toggles it is off. */
  lemma DarkModeAfterToggles(n: nat)
    ensures ToggleTimes(InitialTheme, n).darkMode <==> n % 2 == 1
    ensures !InitialTheme.darkMode
  {
    ToggleTimesParity(InitialTheme, n);
  }
}
