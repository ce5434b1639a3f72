/** The colour theme: its initial value and the toggle. */
module Theme {
  import opened Options

  const Light := "light"
  const Dark := "dark"

  /** `localStorage.getItem(key) || 'light'`: a non-empty stored value is used
      as it is (it is not checked to be a known theme). */
  function InitialTheme(saved: Option<string>): (t: string)
    ensures t != ""
    ensures saved.Some? && saved.value != "" ==> t == saved.value
    ensures saved.None? || saved.value == "" ==> t == Light
  {
    if saved.Some? && saved.value != "" then saved.value else Light
  }

  /** `prev === 'light' ? 'dark' : 'light'`. */
  function Toggle(t: string): (r: string)
    ensures r == Light || r == Dark
    ensures r == Dark <==> t == Light
  {
    if t == Light then Dark else Light
  }

  /** Toggling twice restores either known theme. */
  lemma ToggleTwice(t: string)
    requires t == Light || t == Dark
    ensures Toggle(Toggle(t)) == t
  {
  }

  /** An unknown stored theme is not restored by two toggles: the first one
      normalises it to light. */
  lemma ToggleTwiceUnknown(t: string)
    requires t != Light && t != Dark
    ensures Toggle(t) == Light && Toggle(Toggle(t)) == Dark
  {
  }
}
