/**
 * The clock face: `formatTime` renders a number of seconds as minutes and
 * seconds, each left-padded with '0' to at least two digits ("MM:SS").
 * ParseTime is an independent reader of that format, used to state that the
 * rendering loses nothing.
 */
module TimeFormat {
  import opened Wrappers

  predicate IsDigit(c: char) {
    '0' <= c <= '9'
  }

  predicate AllDigits(s: string) {
    forall i :: 0 <= i < |s| ==> IsDigit(s[i])
  }

  function DigitChar(d: nat): (c: char)
    requires d < 10
    ensures IsDigit(c) && DigitValue(c) == d
  {
    (('0' as int) + d) as char
  }

  function DigitValue(c: char): (d: nat)
    requires IsDigit(c)
    ensures d < 10
  {
    (c as int) - ('0' as int)
  }

  /** `Number.prototype.toString()` of a non-negative integer: decimal, no leading zeros. */
  function NatToString(n: nat): (s: string)
    ensures 1 <= |s| && AllDigits(s)
    ensures n < 10 <==> |s| == 1
    ensures n < 100 ==> |s| <= 2
    ensures |s| > 1 ==> s[0] != '0'
    decreases n
  {
    if n < 10 then [DigitChar(n)] else NatToString(n / 10) + [DigitChar(n % 10)]
  }

  /** `String.prototype.padStart(2, '0')`. */
  function PadStart2(s: string): (r: string)
    ensures |s| >= 2 ==> r == s
    ensures |s| < 2 ==> |r| == 2 && r[2 - |s|..] == s
    ensures |s| < 2 ==> forall i :: 0 <= i < 2 - |s| ==> r[i] == '0'
  {
    if |s| >= 2 then s else seq(2 - |s|, _ => '0') + s
  }

  /**
   * `formatTime(seconds)`; `Math.floor(seconds / 60)` is `/` on a
   * non-negative number. Reading the text back with ParseTime gives the
   * number of seconds it was made from.
   */
  function FormatTime(seconds: nat): (r: string)
    ensures ParseTime(r) == Some(seconds)
  {
    var m, x := seconds / 60, seconds % 60;
    var mins, secs := PadStart2(NatToString(m)), PadStart2(NatToString(x));
    PaddedValue(m);
    PaddedValue(x);
    ParseTimeOfParts(mins, secs);
    assert seconds == m * 60 + x;
    mins + ":" + secs
  }

  /** The value of a string of decimal digits, most significant first. */
  function DigitsValue(s: string): nat
    requires AllDigits(s)
    decreases |s|
  {
    if s == [] then 0 else DigitsValue(s[..|s| - 1]) * 10 + DigitValue(s[|s| - 1])
  }

  /**
   * Reads "M...M:SS": digits of minutes, a colon, exactly two digits of
   * seconds below 60; the value is the total number of seconds.
   */
  function ParseTime(r: string): Option<nat> {
    if |r| < 5 || r[|r| - 3] != ':' then None else ParseParts(r[..|r| - 3], r[|r| - 2..])
  }

  function ParseParts(mins: string, secs: string): Option<nat> {
    if !AllDigits(mins) || !AllDigits(secs) || DigitsValue(secs) >= 60 then None
    else Some(DigitsValue(mins) * 60 + DigitsValue(secs))
  }

  lemma {:induction false} DigitsValueOfNatToString(n: nat)
    ensures DigitsValue(NatToString(n)) == n
    decreases n
  {
    var s := NatToString(n);
    if n < 10 {
      assert s[..0] == [];
    } else {
      DigitsValueOfNatToString(n / 10);
      assert s[..|s| - 1] == NatToString(n / 10);
    }
  }

  /** Leading zeros do not change the value. */
  lemma {:induction false} DigitsValueLeadingZeros(z: string, s: string)
    requires AllDigits(s)
    requires forall i :: 0 <= i < |z| ==> z[i] == '0'
    ensures AllDigits(z + s) && DigitsValue(z + s) == DigitsValue(s)
    decreases |s|
  {
    if s == [] {
      assert z + s == z;
      DigitsValueOfZeros(z);
    } else {
      var init := s[..|s| - 1];
      DigitsValueLeadingZeros(z, init);
      assert (z + s)[..|z + s| - 1] == z + init;
    }
  }

  lemma {:induction false} DigitsValueOfZeros(z: string)
    requires forall i :: 0 <= i < |z| ==> z[i] == '0'
    ensures AllDigits(z) && DigitsValue(z) == 0
    decreases |z|
  {
    if z != [] {
      DigitsValueOfZeros(z[..|z| - 1]);
    }
  }

  lemma PadStart2Value(s: string)
    requires AllDigits(s)
    ensures AllDigits(PadStart2(s)) && DigitsValue(PadStart2(s)) == DigitsValue(s)
  {
    if |s| < 2 {
      var z: string := seq(2 - |s|, _ => '0');
      DigitsValueLeadingZeros(z, s);
      assert PadStart2(s) == z + s;
    }
  }

  /** Each half of the clock face is at least two digits whose value is the number rendered. */
  lemma PaddedValue(n: nat)
    ensures var p := PadStart2(NatToString(n));
      AllDigits(p) && |p| >= 2 && DigitsValue(p) == n && (n < 100 ==> |p| == 2)
  {
    PadStart2Value(NatToString(n));
    DigitsValueOfNatToString(n);
  }

  lemma SplitAtColon(mins: string, secs: string)
    requires |secs| == 2
    ensures var r := mins + ":" + secs;
      |r| == |mins| + 3 && r[|r| - 3] == ':' && r[..|r| - 3] == mins && r[|r| - 2..] == secs
  {
    var r := mins + ":" + secs;
    assert r[..|r| - 3] == mins;
    assert r[|r| - 2..] == secs;
  }

  lemma ParseTimeOfParts(mins: string, secs: string)
    requires |mins| >= 2 && |secs| == 2
    ensures ParseTime(mins + ":" + secs) == ParseParts(mins, secs)
  {
    SplitAtColon(mins, secs);
  }

  /**
   * The shape of the clock face: minutes of at least two digits, a colon,
   * two digits of seconds whose first is at most '5'; exactly five
   * characters below 100 minutes.
   */
  lemma FormatTimeShape(seconds: nat)
    ensures var r := FormatTime(seconds);
      && |r| >= 5
      && r[|r| - 3] == ':'
      && AllDigits(r[..|r| - 3]) && AllDigits(r[|r| - 2..])
      && '0' <= r[|r| - 2] <= '5'
      && (seconds < 6000 <==> |r| == 5)
  {
    var mins, secs := PadStart2(NatToString(seconds / 60)), PadStart2(NatToString(seconds % 60));
    var r := FormatTime(seconds);
    assert r == mins + ":" + secs;
    assert r[..|r| - 3] == mins;
    assert r[|r| - 2..] == secs;
    var n := seconds % 60;
    if n >= 10 {
      var t := NatToString(n);
      assert t == NatToString(n / 10) + [DigitChar(n % 10)];
      assert t[0] == DigitChar(n / 10);
    }
  }
}
