/** The `Input` component's derived attributes: the element id and the class
    list. */
module InputField {
  import opened Options
  import opened Text
  import Seqs

  /** Truthiness of an optional string prop: present and non-empty. */
  predicate Truthy(s: Option<string>) {
    s.Some? && s.value != ""
  }

  /** The id derived from a label: `input-` followed by the lower-cased label
      with every whitespace run replaced by one `-`. */
  function LabelSlug(caption: string): (slug: string)
    ensures |slug| >= 6 && slug[..6] == "input-"
    ensures forall i :: 6 <= i < |slug| ==> !IsWhitespace(slug[i])
  {
    CollapseLeavesNoWhitespace(ToLower(caption), '-');
    "input-" + CollapseWhitespace(ToLower(caption), '-')
  }

  /** How the slug reads a label, run by run: a whitespace-free head is
      lower-cased, the whitespace run after it (however long) becomes one
      `-`, and the rest is read the same way. With an empty head this covers
      a leading run, and with an empty rest a trailing one. */
  lemma SlugRun(a: string, w: string, b: string)
    requires NoWhitespace(a)
    requires w != [] && IsBlank(w)
    requires b == [] || !IsWhitespace(b[0])
    ensures CollapseWhitespace(ToLower(a + w + b), '-')
      == ToLower(a) + "-" + CollapseWhitespace(ToLower(b), '-')
  {
    var la, lw, lb := ToLower(a), ToLower(w), ToLower(b);
    assert ToLower(a + w + b) == la + (lw + lb);
    assert NoWhitespace(la);
    assert lw != [] && IsBlank(lw);
    assert lb == [] || !IsWhitespace(lb[0]);
    CollapseAfterPlain(la, lw + lb, '-');
    CollapseRun(lw, lb, '-');
    Seqs.Assoc(la, "-", CollapseWhitespace(lb, '-'));
  }

  /** `id || (label ? slug(label) : undefined)`. An explicit id wins, a label
      gives a whitespace-free slug, and with neither there is no id. */
  function InputId(id: Option<string>, caption: Option<string>): (r: Option<string>)
    ensures Truthy(id) ==> r == id
    ensures !Truthy(id) && !Truthy(caption) ==> r.None?
    ensures !Truthy(id) && Truthy(caption) ==> r == Some(LabelSlug(caption.value))
  {
    if Truthy(id) then id
    else if Truthy(caption) then
      Some(LabelSlug(caption.value))
    else None
  }

  /** A label without whitespace only gets lower-cased. */
  lemma InputIdOfPlainLabel(caption: string)
    requires caption != ""
    requires NoWhitespace(caption)
    ensures InputId(None, Some(caption)) == Some("input-" + ToLower(caption))
  {
    CollapseWithoutWhitespace(ToLower(caption), '-');
  }

  /** A two-word label gives the lower-cased words joined by `-`. */
  lemma SlugOfTwoWords(a: string, b: string)
    requires NoWhitespace(a)
    requires NoWhitespace(b)
    ensures LabelSlug(a + " " + b) == "input-" + ToLower(a) + "-" + ToLower(b)
  {
    assert ToLower(a + " " + b) == ToLower(a) + [' '] + ToLower(b);
    CollapseWords(ToLower(a), ToLower(b), '-');
  }

  /** The component's documented example: `Test Label` gives `input-test-label`. */
  lemma InputIdExample()
    ensures InputId(None, Some("Test Label")) == Some("input-test-label")
  {
    SlugTestLabel();
  }

  lemma SlugTestLabel()
    ensures LabelSlug("Test Label") == "input-test-label"
  {
    TestLabelWords();
    SlugOfTwoWords("Test", "Label");
    LowerTestLabel();
  }

  lemma TestLabelWords()
    ensures "Test Label" == "Test" + " " + "Label"
    ensures NoWhitespace("Test") && NoWhitespace("Label")
  {
  }

  lemma LowerTestLabel()
    ensures "input-" + ToLower("Test") + "-" + ToLower("Label") == "input-test-label"
  {
    assert ToLower("Test") == "test" by {
      assert ToLower("Test")[0] == LowerChar('T');
    }
    assert ToLower("Label") == "label" by {
      assert ToLower("Label")[0] == LowerChar('L');
    }
  }

  /** `[base, error && errorClass, className].filter(Boolean)`: the class list
      without empty entries. */
  function ClassList(base: string, errorClass: string, error: Option<string>, className: string): (r: seq<string>)
    ensures forall i :: 0 <= i < |r| ==> r[i] != ""
    ensures Truthy(error) && errorClass != "" ==> errorClass in r
    ensures !Truthy(error) ==> r == NonEmpty([base, className])
  {
    assert [base, "", className][1..] == ["", className];
    assert [base, className][1..] == [className];
    assert ["", className][1..] == [className];
    assert NonEmpty(["", className]) == NonEmpty([className]);
    NonEmpty([base, if Truthy(error) then errorClass else "", className])
  }

  /** The non-empty entries of `xs`, in order. */
  function NonEmpty(xs: seq<string>): (r: seq<string>)
    ensures forall i :: 0 <= i < |r| ==> r[i] != ""
    ensures forall x :: x in r <==> x in xs && x != ""
    decreases |xs|
  {
    if xs == [] then []
    else if xs[0] == "" then NonEmpty(xs[1..])
    else [xs[0]] + NonEmpty(xs[1..])
  }

  /** When the error class is distinct from the other two, it is in the class
      list exactly when the error prop is truthy. */
  lemma ErrorClassIffError(base: string, errorClass: string, error: Option<string>, className: string)
    requires errorClass != "" && errorClass != base && errorClass != className
    ensures errorClass in ClassList(base, errorClass, error, className) <==> Truthy(error)
  {
  }

  /** The `className` attribute: the class list joined by spaces. */
  function ClassName(base: string, errorClass: string, error: Option<string>, className: string): string {
    Join(ClassList(base, errorClass, error, className), ' ')
  }
}
