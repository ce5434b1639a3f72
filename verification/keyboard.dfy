/** The global keydown handler of the keyboard-shortcut hook, as a function of
    the key, the kind of element the event targets and which callbacks were
    supplied. */
module Keyboard {
  import opened Options
  import opened Text

  /** Whether the event target is an `<input>` / `<textarea>`. */
  datatype Target = TextField | OtherElement

  datatype Shortcut = Approve | Reject | Next | Prev | SearchFocus

  /** The shortcut a key selects. On a text field only `/` is recognised;
      elsewhere the key is lower-cased first. */
  function Match(key: string, target: Target): Option<Shortcut> {
    if target == TextField then
      if key == "/" then Some(SearchFocus) else None
    else
      var k := ToLower(key);
      if k == "a" then Some(Approve)
      else if k == "d" then Some(Reject)
      else if k == "arrowright" then Some(Next)
      else if k == "arrowleft" then Some(Prev)
      else if k == "/" then Some(SearchFocus)
      else None
  }

  /** What one keydown does: whether `preventDefault` is called and which
      callback runs. */
  datatype Reaction = Reaction(preventDefault: bool, invoked: Option<Shortcut>)

  /** A recognised key always prevents the default action; its callback runs
      only when it was supplied (`?.()`). */
  function HandleKeyDown(key: string, target: Target, supplied: set<Shortcut>): (r: Reaction)
    ensures r.preventDefault <==> Match(key, target).Some?
    ensures r.invoked.Some? <==> Match(key, target).Some? && Match(key, target).value in supplied
    ensures r.invoked.Some? ==> r.invoked == Match(key, target)
  {
    match Match(key, target)
    case None => Reaction(false, None)
    case Some(s) => Reaction(true, if s in supplied then Some(s) else None)
  }

  /** On a text field nothing but `/` has any effect. */
  lemma TextFieldOnlySlash(key: string, supplied: set<Shortcut>)
    ensures key != "/" ==> HandleKeyDown(key, TextField, supplied) == Reaction(false, None)
    ensures HandleKeyDown("/", TextField, supplied).preventDefault
    ensures SearchFocus in supplied ==> HandleKeyDown("/", TextField, supplied).invoked == Some(SearchFocus)
  {
  }

  lemma LowerSingleLetter(key: string, lower: char, upper: char)
    requires 'a' <= lower <= 'z' && upper as int == lower as int - 32
    ensures ToLower(key) == [lower] <==> key == [lower] || key == [upper]
  {
    if ToLower(key) == [lower] {
      assert |key| == 1 && LowerChar(key[0]) == lower;
    }
  }

  /** Elsewhere, approve is bound to `a` and `A`, and to nothing else. */
  lemma ApproveKeys(key: string)
    ensures Match(key, OtherElement) == Some(Approve) <==> key == "a" || key == "A"
  {
    LowerSingleLetter(key, 'a', 'A');
  }

  /** Elsewhere, reject is bound to `d` and `D`, and to nothing else. */
  lemma RejectKeys(key: string)
    ensures Match(key, OtherElement) == Some(Reject) <==> key == "d" || key == "D"
  {
    LowerSingleLetter(key, 'd', 'D');
    LowerSingleLetter(key, 'a', 'A');
  }

  /** The arrows navigate and `/` focuses the search field. */
  lemma NavigationKeys()
    ensures Match("ArrowRight", OtherElement) == Some(Next)
    ensures Match("ArrowLeft", OtherElement) == Some(Prev)
    ensures Match("/", OtherElement) == Some(SearchFocus)
    ensures Match("/", TextField) == Some(SearchFocus)
  {
    assert ToLower("ArrowRight") == "arrowright";
    assert ToLower("ArrowLeft") == "arrowleft";
    assert ToLower("/") == "/";
  }

  /** An unrecognised key neither prevents the default nor calls anything. */
  lemma OtherKeysIgnored(key: string, target: Target, supplied: set<Shortcut>)
    requires Match(key, target).None?
    ensures HandleKeyDown(key, target, supplied) == Reaction(false, None)
  {
  }
}
