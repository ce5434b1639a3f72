/** String helpers with the meaning JavaScript gives them: `trim`, `toLowerCase`,
    `split`/`join` on one separator character, the `\s+` replacement, decimal
    rendering of integers (`String(n)`) and the integer part of `Number(s)`. */
module Text {
  import opened Options
  import Seqs

  /** The characters `String.prototype.trim` removes and `\s` matches: the
      ECMAScript WhiteSpace and LineTerminator code points. */
  predicate IsWhitespace(c: char) {
    || c == ' ' || c == '\t' || c == '\n' || c == '\r'
    || c == '\U{000B}' || c == '\U{000C}' || c == '\U{00A0}' || c == '\U{1680}'
    || ('\U{2000}' <= c <= '\U{200A}')
    || c == '\U{2028}' || c == '\U{2029}' || c == '\U{202F}' || c == '\U{205F}'
    || c == '\U{3000}' || c == '\U{FEFF}'
  }

  /** Every character of `s` is whitespace (the empty string included). */
  predicate IsBlank(s: string) {
    forall i :: 0 <= i < |s| ==> IsWhitespace(s[i])
  }

  /** No character of `s` is whitespace. */
  predicate NoWhitespace(s: string) {
    forall i :: 0 <= i < |s| ==> !IsWhitespace(s[i])
  }

  // ---------------------------------------------------------------- trimming

  /** Drops the leading whitespace run. */
  function TrimStart(s: string): (r: string)
    ensures |r| <= |s| && r == s[|s| - |r|..]
    ensures forall i :: 0 <= i < |s| - |r| ==> IsWhitespace(s[i])
    ensures r == [] || !IsWhitespace(r[0])
    decreases |s|
  {
    if |s| > 0 && IsWhitespace(s[0]) then TrimStart(s[1..]) else s
  }

  /** Drops the trailing whitespace run. */
  function TrimEnd(s: string): (r: string)
    ensures |r| <= |s| && r == s[..|r|]
    ensures forall i :: |r| <= i < |s| ==> IsWhitespace(s[i])
    ensures r == [] || !IsWhitespace(r[|r| - 1])
    decreases |s|
  {
    if |s| > 0 && IsWhitespace(s[|s| - 1]) then TrimEnd(s[..|s| - 1]) else s
  }

  /** `s.trim()`: the result is empty exactly when `s` is blank, and otherwise
      neither starts nor ends with whitespace. */
  function Trim(s: string): (r: string)
    ensures r == [] <==> IsBlank(s)
    ensures r == [] || (!IsWhitespace(r[0]) && !IsWhitespace(r[|r| - 1]))
  {
    var t := TrimStart(s);
    var r := TrimEnd(t);
    assert r == [] <==> IsBlank(s) by {
      BlankTrimStart(s);
      BlankTrimEnd(t);
      if t != [] { assert !IsWhitespace(t[0]); }
    }
    assert r == [] || (!IsWhitespace(r[0]) && !IsWhitespace(r[|r| - 1])) by {
      if r != [] { assert r[0] == t[0]; }
    }
    r
  }

  lemma {:induction false} BlankTrimStart(s: string)
    ensures TrimStart(s) == [] <==> IsBlank(s)
    decreases |s|
  {
    if |s| > 0 && IsWhitespace(s[0]) {
      BlankTrimStart(s[1..]);
      assert IsBlank(s) <==> IsBlank(s[1..]);
    }
  }

  lemma {:induction false} BlankTrimEnd(s: string)
    ensures TrimEnd(s) == [] <==> IsBlank(s)
    decreases |s|
  {
    if |s| > 0 && IsWhitespace(s[|s| - 1]) {
      BlankTrimEnd(s[..|s| - 1]);
      assert IsBlank(s) <==> IsBlank(s[..|s| - 1]);
    }
  }

  /** A string that neither starts nor ends with whitespace is its own trim. */
  lemma TrimOfTrimmed(s: string)
    requires s == [] || (!IsWhitespace(s[0]) && !IsWhitespace(s[|s| - 1]))
    ensures Trim(s) == s
  {
  }

  // ---------------------------------------------------------------- lower case

  /** `toLowerCase` on one character, for the Latin and Russian alphabets;
      every other character is left as it is. */
  function LowerChar(c: char): (r: char)
    ensures IsWhitespace(r) <==> IsWhitespace(c)
  {
    if 'A' <= c <= 'Z' then (c as int + 32) as char
    else if 'А' <= c <= 'Я' then (c as int + 32) as char
    else if c == 'Ё' then 'ё'
    else c
  }

  function ToLower(s: string): (r: string)
    ensures |r| == |s|
    ensures forall i :: 0 <= i < |s| ==> r[i] == LowerChar(s[i])
  {
    seq(|s|, i requires 0 <= i < |s| => LowerChar(s[i]))
  }

  // ---------------------------------------------------------------- split / join

  /** `s.split(sep)` for a one-character separator: the pieces between
      separators, so there is always one more piece than separators. */
  function Split(s: string, sep: char): (parts: seq<string>)
    ensures |parts| >= 1
    ensures forall i :: 0 <= i < |parts| ==> sep !in parts[i]
    decreases |s|
  {
    if s == [] then [[]]
    else
      var rest := Split(s[1..], sep);
      if s[0] == sep then [[]] + rest else [[s[0]] + rest[0]] + rest[1..]
  }

  /** `parts.join(sep)` for a one-character separator. */
  function Join(parts: seq<string>, sep: char): string
    decreases |parts|
  {
    if |parts| == 0 then []
    else if |parts| == 1 then parts[0]
    else parts[0] + [sep] + Join(parts[1..], sep)
  }

  lemma JoinConsChar(c: char, x: string, ys: seq<string>, sep: char)
    ensures Join([[c] + x] + ys, sep) == [c] + Join([x] + ys, sep)
  {
    if |ys| > 0 {
      assert ([[c] + x] + ys)[1..] == ys;
      assert ([x] + ys)[1..] == ys;
    }
  }

  /** Joining the pieces of a split gives back the string. */
  lemma {:induction false} JoinSplit(s: string, sep: char)
    ensures Join(Split(s, sep), sep) == s
    decreases |s|
  {
    if s != [] {
      var rest := Split(s[1..], sep);
      JoinSplit(s[1..], sep);
      if s[0] == sep {
        assert ([[]] + rest)[1..] == rest;
      } else {
        assert [rest[0]] + rest[1..] == rest;
        JoinConsChar(s[0], rest[0], rest[1..], sep);
      }
    }
  }

  lemma {:induction false} SplitPrefix(p: string, t: string, sep: char)
    requires sep !in p
    ensures Split(p + t, sep) == [p + Split(t, sep)[0]] + Split(t, sep)[1..]
    decreases |p|
  {
    if p != [] {
      assert (p + t)[1..] == p[1..] + t;
      assert (p + t)[0] == p[0] && p[0] != sep;
      SplitPrefix(p[1..], t, sep);
      var x := Split(t, sep);
      var rest := Split(p[1..] + t, sep);
      assert rest[0] == p[1..] + x[0];
      assert rest[1..] == x[1..];
      assert Split(p + t, sep) == [[p[0]] + rest[0]] + rest[1..];
      assert [p[0]] + (p[1..] + x[0]) == p + x[0];
    } else {
      var x := Split(t, sep);
      assert p + t == t && p + x[0] == x[0];
      assert [x[0]] + x[1..] == x;
    }
  }

  /** Splitting a join gives back the pieces, provided no piece contains the
      separator. */
  lemma {:induction false} SplitJoin(parts: seq<string>, sep: char)
    requires |parts| >= 1
    requires forall i :: 0 <= i < |parts| ==> sep !in parts[i]
    ensures Split(Join(parts, sep), sep) == parts
    decreases |parts|
  {
    if |parts| == 1 {
      SplitPrefix(parts[0], [], sep);
      assert Split([], sep) == [[]];
      assert parts[0] + [] == parts[0];
    } else {
      var tail := Join(parts[1..], sep);
      SplitJoin(parts[1..], sep);
      SplitPrefix(parts[0], [sep] + tail, sep);
      assert ([sep] + tail)[1..] == tail;
      assert Split([sep] + tail, sep) == [[]] + Split(tail, sep);
      assert Join(parts, sep) == parts[0] + [sep] + tail;
      assert parts[0] + [sep] + tail == parts[0] + ([sep] + tail);
      var sp := Split([sep] + tail, sep);
      assert sp[0] == [] && sp[1..] == parts[1..];
      assert parts[0] + sp[0] == parts[0];
      assert [parts[0]] + parts[1..] == parts;
    }
  }

  /** A character that is neither the separator nor in any piece is not in
      the join. */
  lemma {:induction false} JoinAvoids(parts: seq<string>, sep: char, c: char)
    requires c != sep
    requires forall i :: 0 <= i < |parts| ==> c !in parts[i]
    ensures c !in Join(parts, sep)
    decreases |parts|
  {
    if |parts| > 1 {
      JoinAvoids(parts[1..], sep, c);
      assert Join(parts, sep) == parts[0] + [sep] + Join(parts[1..], sep);
    }
  }

  /** The position of the first `c` in `s`, or `|s|` when there is none. */
  function IndexOf(s: string, c: char): (i: nat)
    ensures i <= |s|
    ensures i < |s| ==> s[i] == c
    ensures forall j :: 0 <= j < i ==> s[j] != c
    decreases |s|
  {
    if s == [] then 0 else if s[0] == c then 0 else 1 + IndexOf(s[1..], c)
  }

  // ---------------------------------------------------------------- whitespace runs

  /** `s.replace(/\s+/g, dash)`: every maximal whitespace run becomes one `dash`. */
  function CollapseWhitespace(s: string, dash: char): (r: string)
    requires !IsWhitespace(dash)
    ensures IsBlank(s) && s != [] ==> r == [dash]
    decreases |s|
  {
    if s == [] then []
    else if IsWhitespace(s[0]) then
      var rest := TrimStart(s);
      BlankTrimStart(s);
      assert rest != s;
      [dash] + CollapseWhitespace(rest, dash)
    else [s[0]] + CollapseWhitespace(s[1..], dash)
  }

  /** No whitespace is left after the replacement. */
  lemma {:induction false} CollapseLeavesNoWhitespace(s: string, dash: char)
    requires !IsWhitespace(dash)
    ensures NoWhitespace(CollapseWhitespace(s, dash))
    decreases |s|
  {
    if s != [] {
      if IsWhitespace(s[0]) {
        var rest := TrimStart(s);
        BlankTrimStart(s);
        CollapseLeavesNoWhitespace(rest, dash);
        NoWhitespaceCons(dash, CollapseWhitespace(rest, dash));
      } else {
        CollapseLeavesNoWhitespace(s[1..], dash);
        NoWhitespaceCons(s[0], CollapseWhitespace(s[1..], dash));
      }
    }
  }

  lemma NoWhitespaceCons(c: char, s: string)
    ensures NoWhitespace([c] + s) <==> !IsWhitespace(c) && NoWhitespace(s)
  {
    var t := [c] + s;
    assert t[0] == c;
    assert forall i :: 0 <= i < |s| ==> t[i + 1] == s[i];
    assert forall i :: 1 <= i < |t| ==> t[i] == s[i - 1];
  }

  /** A leading character that is not whitespace is kept as it is. */
  lemma CollapsePlainHead(c: char, rest: string, dash: char)
    requires !IsWhitespace(dash) && !IsWhitespace(c)
    ensures CollapseWhitespace([c] + rest, dash) == [c] + CollapseWhitespace(rest, dash)
  {
    assert ([c] + rest)[1..] == rest;
  }

  /** A whitespace-free prefix is kept as it is. */
  lemma {:induction false} CollapseAfterPlain(a: string, rest: string, dash: char)
    requires !IsWhitespace(dash)
    requires NoWhitespace(a)
    ensures CollapseWhitespace(a + rest, dash) == a + CollapseWhitespace(rest, dash)
    decreases |a|
  {
    if a != [] {
      NoWhitespaceTail(a);
      Seqs.ConsAppend(a, rest);
      CollapsePlainHead(a[0], a[1..] + rest, dash);
      CollapseAfterPlain(a[1..], rest, dash);
      Seqs.ConsAppend(a, CollapseWhitespace(rest, dash));
    } else {
      assert a + rest == rest;
    }
  }

  lemma NoWhitespaceTail(a: string)
    requires a != [] && NoWhitespace(a)
    ensures !IsWhitespace(a[0]) && NoWhitespace(a[1..])
  {
    assert forall i :: 0 <= i < |a| - 1 ==> a[1..][i] == a[i + 1];
  }


  /** A whitespace run followed by a character that is not whitespace (or by
      nothing) becomes one `dash`, however long the run. */
  lemma CollapseRun(w: string, b: string, dash: char)
    requires !IsWhitespace(dash)
    requires w != [] && IsBlank(w)
    requires b == [] || !IsWhitespace(b[0])
    ensures CollapseWhitespace(w + b, dash) == [dash] + CollapseWhitespace(b, dash)
  {
    TrimStartBlankPrefix(w, b);
    assert (w + b)[0] == w[0];
  }

  /** Trimming the start of a blank prefix followed by a non-blank start
      leaves exactly the rest. */
  lemma {:induction false} TrimStartBlankPrefix(w: string, b: string)
    requires IsBlank(w)
    requires b == [] || !IsWhitespace(b[0])
    ensures TrimStart(w + b) == b
    decreases |w|
  {
    if w == [] {
      assert w + b == b;
    } else {
      assert (w + b)[0] == w[0];
      assert (w + b)[1..] == w[1..] + b;
      TrimStartBlankPrefix(w[1..], b);
    }
  }

  /** Two whitespace-free words separated by one space are joined by `dash`. */
  lemma CollapseWords(a: string, b: string, dash: char)
    requires !IsWhitespace(dash)
    requires NoWhitespace(a)
    requires NoWhitespace(b)
    ensures CollapseWhitespace(a + [' '] + b, dash) == a + [dash] + b
  {
    calc {
      CollapseWhitespace(a + [' '] + b, dash);
      { Seqs.Assoc(a, [' '], b); }
      CollapseWhitespace(a + ([' '] + b), dash);
      { CollapseAfterPlain(a, [' '] + b, dash); }
      a + CollapseWhitespace([' '] + b, dash);
      { CollapseRun([' '], b, dash); CollapseWithoutWhitespace(b, dash); }
      a + ([dash] + b);
      { Seqs.Assoc(a, [dash], b); }
      a + [dash] + b;
    }
  }

  /** A string without whitespace is left unchanged by the replacement. */
  lemma {:induction false} CollapseWithoutWhitespace(s: string, dash: char)
    requires !IsWhitespace(dash)
    requires NoWhitespace(s)
    ensures CollapseWhitespace(s, dash) == s
    decreases |s|
  {
    if s != [] {
      CollapseWithoutWhitespace(s[1..], dash);
      assert [s[0]] + s[1..] == s;
    }
  }

  // ---------------------------------------------------------------- decimal numbers

  predicate IsDigit(c: char) {
    '0' <= c <= '9'
  }

  predicate AllDigits(s: string) {
    forall i :: 0 <= i < |s| ==> IsDigit(s[i])
  }

  function DigitValue(c: char): (d: nat)
    requires IsDigit(c)
    ensures d < 10
  {
    c as int - '0' as int
  }

  function DigitChar(d: nat): (c: char)
    requires d < 10
    ensures IsDigit(c) && DigitValue(c) == d
  {
    (d + '0' as int) as char
  }

  /** `String(n)` for a natural number: its decimal digits, without leading
      zeros. */
  function NatToString(n: nat): (r: string)
    ensures |r| >= 1 && AllDigits(r)
    ensures r[0] == '0' ==> n == 0
    ensures !IsWhitespace(r[0]) && !IsWhitespace(r[|r| - 1])
  {
    if n < 10 then [DigitChar(n)] else NatToString(n / 10) + [DigitChar(n % 10)]
  }

  /** The value of a string of decimal digits. */
  function DigitsValue(s: string): nat
    requires AllDigits(s)
    decreases |s|
  {
    if s == [] then 0 else DigitsValue(s[..|s| - 1]) * 10 + DigitValue(s[|s| - 1])
  }

  /** A non-empty string of decimal digits read as a natural number. */
  function ParseNat(s: string): (r: Option<nat>)
    ensures r.Some? <==> |s| > 0 && AllDigits(s)
  {
    if |s| > 0 && AllDigits(s) then Some(DigitsValue(s)) else None
  }

  /** Reading back the decimal rendering of `n` gives `n`. */
  lemma {:induction false} ParseNatToString(n: nat)
    ensures ParseNat(NatToString(n)) == Some(n)
  {
    if n >= 10 {
      ParseNatToString(n / 10);
      var s := NatToString(n);
      assert s[..|s| - 1] == NatToString(n / 10);
      assert DigitsValue(s) == DigitsValue(NatToString(n / 10)) * 10 + n % 10;
    }
  }

  lemma NatToStringInjective(a: nat, b: nat)
    requires NatToString(a) == NatToString(b)
    ensures a == b
  {
    ParseNatToString(a);
    ParseNatToString(b);
  }

  /** `String(i)` for an integer. */
  function IntToString(i: int): (r: string)
    ensures |r| >= 1
    ensures forall k :: 0 <= k < |r| ==> r[k] == '-' || IsDigit(r[k])
    ensures i < 0 <==> r[0] == '-'
    ensures !IsWhitespace(r[0]) && !IsWhitespace(r[|r| - 1])
  {
    if i < 0 then "-" + NatToString(-i) else NatToString(i)
  }

  /** `Number(s)` for the strings that denote integers: surrounding whitespace
      is ignored, a blank string is 0, an optional sign precedes decimal
      digits. `None` stands for `NaN`. */
  function NumberOf(s: string): (r: Option<int>)
    ensures IsBlank(s) ==> r == Some(0)
  {
    var t := Trim(s);
    if t == [] then Some(0)
    else if t[0] == '-' then
      match ParseNat(t[1..])
      case Some(n) => Some(0 - n)
      case None => None
    else if t[0] == '+' then
      match ParseNat(t[1..])
      case Some(n) => Some(n)
      case None => None
    else
      match ParseNat(t)
      case Some(n) => Some(n)
      case None => None
  }

  /** `Number(String(i)) === i`. */
  lemma NumberOfIntToString(i: int)
    ensures NumberOf(IntToString(i)) == Some(i)
  {
    var s := IntToString(i);
    TrimOfTrimmed(s);
    assert Trim(s) == s && s != [];
    if i < 0 {
      var n: nat := -i;
      assert s == "-" + NatToString(n);
      assert s[1..] == NatToString(n);
      ParseNatToString(n);
      assert ParseNat(s[1..]) == Some(n);
    } else {
      ParseNatToString(i);
      assert IsDigit(s[0]);
      assert ParseNat(s) == Some(i);
    }
  }

  lemma IntToStringInjective(a: int, b: int)
    requires IntToString(a) == IntToString(b)
    ensures a == b
  {
    NumberOfIntToString(a);
    NumberOfIntToString(b);
  }
}
