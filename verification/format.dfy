/** `formatTime`: a number of seconds shown as minutes and remaining seconds,
    `<m>м <r>с`. */
module TimeFormat {
  import opened Options
  import opened Text

  /** `Math.floor(seconds / 60)` and `seconds % 60` for a natural number of
      seconds: the unique minute/second decomposition. */
  function MinutesSeconds(seconds: nat): (ms: (nat, nat))
    ensures ms.0 * 60 + ms.1 == seconds
    ensures ms.1 < 60
  {
    (seconds / 60, seconds % 60)
  }

  function FormatTime(seconds: nat): string {
    var ms := MinutesSeconds(seconds);
    NatToString(ms.0) + "м " + NatToString(ms.1) + "с"
  }

  /** Reads `<m>м <r>с` back as a number of seconds; the reading accepts only
      what `FormatTime` can produce (decimal parts, a remainder under 60). */
  function ParseTime(t: string): Option<nat> {
    var i := IndexOf(t, 'м');
    if i + 3 <= |t| && t[i + 1] == ' ' && t[|t| - 1] == 'с' then
      match (ParseNat(t[..i]), ParseNat(t[i + 2..|t| - 1]))
      case (Some(m), Some(r)) => if r < 60 then Some(m * 60 + r) else None
      case _ => None
    else None
  }

  lemma {:induction false} IndexOfAfterPrefix(a: string, c: char, rest: string)
    requires c !in a
    ensures IndexOf(a + [c] + rest, c) == |a|
    decreases |a|
  {
    if a != [] {
      assert (a + [c] + rest)[1..] == a[1..] + [c] + rest;
      IndexOfAfterPrefix(a[1..], c, rest);
    }
  }

  /** The rendering loses nothing: the seconds can be read back from it. */
  lemma ParseFormatTime(seconds: nat)
    ensures ParseTime(FormatTime(seconds)) == Some(seconds)
  {
    var ms := MinutesSeconds(seconds);
    ParseMinutesSeconds(ms.0, ms.1);
  }

  lemma ParseMinutesSeconds(m: nat, r: nat)
    requires r < 60
    ensures ParseTime(NatToString(m) + "м " + NatToString(r) + "с") == Some(m * 60 + r)
  {
    var a, b := NatToString(m), NatToString(r);
    var t := a + "м " + b + "с";
    MarkerPosition(a, b);
    TimeParts(a, b);
    ParseNatToString(m);
    ParseNatToString(r);
    ParseTimeParts(t, |a|, m, r);
  }

  /** The first `м` of a rendering follows the minutes. */
  lemma MarkerPosition(a: string, b: string)
    requires AllDigits(a)
    ensures IndexOf(a + "м " + b + "с", 'м') == |a|
  {
    assert a + "м " + b + "с" == a + ['м'] + ([' '] + b + ['с']);
    assert 'м' !in a by {
      forall j | 0 <= j < |a| ensures a[j] != 'м' { assert IsDigit(a[j]); }
    }
    IndexOfAfterPrefix(a, 'м', [' '] + b + ['с']);
  }

  /** Where the two numbers sit in a rendering. */
  lemma TimeParts(a: string, b: string)
    ensures var t := a + "м " + b + "с";
      && |a| + 3 <= |t| && t[|a| + 1] == ' ' && t[|t| - 1] == 'с'
      && t[..|a|] == a && t[|a| + 2..|t| - 1] == b
  {
  }

  /** `ParseTime` once the marker position and both parts are known. */
  lemma ParseTimeParts(t: string, i: nat, m: nat, r: nat)
    requires IndexOf(t, 'м') == i && i + 3 <= |t| && t[i + 1] == ' ' && t[|t| - 1] == 'с'
    requires ParseNat(t[..i]) == Some(m) && ParseNat(t[i + 2..|t| - 1]) == Some(r)
    requires r < 60
    ensures ParseTime(t) == Some(m * 60 + r)
  {
  }

  /** The renderings the formatting promises for one minute, two minutes five
      seconds and half a minute. */
  lemma FormatTimeExamples()
    ensures FormatTime(60) == "1м 0с"
    ensures FormatTime(125) == "2м 5с"
    ensures FormatTime(30) == "0м 30с"
  {
    assert NatToString(30) == "30";
  }
}
