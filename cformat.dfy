/** The integer conversions of the C library that the time and namelist code
    relies on: "%d" / "%<w>d" in sscanf and "%0<w>d" in sprintf, over
    decimal digits. Floating-point conversions are not modelled. */
module CFormat {
  import opened Text

  function DigitValue(c: char): (v: nat)
    requires IsDigit(c)
    ensures v < 10
  {
    c as int - '0' as int
  }

  function DigitChar(d: nat): (c: char)
    requires d < 10
    ensures IsDigit(c) && DigitValue(c) == d
  {
    ('0' as int + d) as char
  }

  predicate AllDigits(s: string) {
    forall i :: 0 <= i < |s| ==> IsDigit(s[i])
  }

  /** The number a string of decimal digits denotes. */
  function DecValue(s: string): nat
    requires AllDigits(s)
    decreases |s|
  {
    if s == [] then 0 else DecValue(s[..|s| - 1]) * 10 + DigitValue(s[|s| - 1])
  }

  function Pow10(w: nat): (p: nat)
    ensures p >= 1
  {
    if w == 0 then 1 else 10 * Pow10(w - 1)
  }

  /** The decimal digits of n, without leading zeros ("0" for zero). */
  function DigitsOf(n: nat): (s: string)
    ensures AllDigits(s) && 1 <= |s|
    decreases n
  {
    if n < 10 then [DigitChar(n)] else DigitsOf(n / 10) + [DigitChar(n % 10)]
  }

  /** sprintf "%0<w>d": the digits of n, left-padded with '0' to width w;
      a negative number keeps its '-' in front of the padding. */
  function FormatInt(n: int, w: nat): string {
    if n >= 0 then ZeroPad(DigitsOf(n), w)
    else "-" + ZeroPad(DigitsOf(-n), if w > 0 then w - 1 else 0)
  }

  function ZeroPad(s: string, w: nat): (r: string)
    ensures |r| == if |s| >= w then |s| else w
  {
    if |s| >= w then s else seq(w - |s|, _ => '0') + s
  }

  /** The longest prefix of s of at most k characters that is all digits. */
  function TakeDigits(s: string, k: nat): (r: string)
    ensures |r| <= k && |r| <= |s| && r == s[..|r|] && AllDigits(r)
    ensures |r| < k && |r| < |s| ==> !IsDigit(s[|r|])
    decreases k
  {
    if k == 0 || s == [] || !IsDigit(s[0]) then []
    else [s[0]] + TakeDigits(s[1..], k - 1)
  }

  function SkipSpace(s: string): (r: string)
    ensures |r| <= |s| && r == s[|s| - |r|..]
    ensures r == [] || !IsSpace(r[0])
    decreases |s|
  {
    if s != [] && IsSpace(s[0]) then SkipSpace(s[1..]) else s
  }

  /** One "%<w>d" conversion of sscanf (w counts the sign, not the skipped
      white space): the value and the unread rest, or None on a matching
      failure (no digit within the width). */
  function ScanInt(s: string, w: nat): Option<(int, string)> {
    var t := SkipSpace(s);
    var neg := t != [] && t[0] == '-';
    var signed := t != [] && (t[0] == '-' || t[0] == '+');
    var body := if signed then t[1..] else t;
    var room := if signed then (if w > 0 then w - 1 else 0) else w;
    var ds := TakeDigits(body, room);
    if ds == [] then None
    else Some((if neg then -(DecValue(ds) as int) else DecValue(ds) as int, body[|ds|..]))
  }

  /** "%d" without a width: as many digits as there are. */
  function ScanIntUnbounded(s: string): Option<int> {
    match ScanInt(s, |s|)
    case None => None
    case Some(p) => Some(p.0)
  }

  /** The directives of a scanf format: a conversion "%<w>d", an ordinary
      character that must match exactly, or white space that matches any
      amount of white space. */
  datatype Directive = Num(width: nat) | Char(c: char) | Space

  /** The values sscanf stores for a format, stopping at the first failure;
      sscanf's count is the length of the result (an input failure before
      the first conversion, which the C reports as -1, gives [] here). */
  function ScanFormat(fmt: seq<Directive>, s: string): (vs: seq<int>)
    ensures |vs| <= |fmt|
    decreases |fmt|
  {
    if fmt == [] then []
    else match fmt[0]
      case Num(w) =>
        (match ScanInt(s, w)
         case None => []
         case Some(p) => [p.0] + ScanFormat(fmt[1..], p.1))
      case Char(c) => if s != [] && s[0] == c then ScanFormat(fmt[1..], s[1..]) else []
      case Space => ScanFormat(fmt[1..], SkipSpace(s))
  }

  // ---------------------------------------------------------------------
  // Reading back what was written

  lemma {:induction false} DecValueSnoc(s: string, c: char)
    requires AllDigits(s) && IsDigit(c)
    ensures AllDigits(s + [c]) && DecValue(s + [c]) == DecValue(s) * 10 + DigitValue(c)
  {
    assert (s + [c])[..|s|] == s;
  }

  lemma {:induction false} DecValueDigitsOf(n: nat)
    ensures DecValue(DigitsOf(n)) == n
    decreases n
  {
    if n < 10 {
    } else {
      DecValueDigitsOf(n / 10);
      DecValueSnoc(DigitsOf(n / 10), DigitChar(n % 10));
    }
  }

  lemma {:induction false} DigitsOfLength(n: nat, w: nat)
    requires n < Pow10(w) && w >= 1
    ensures |DigitsOf(n)| <= w
    decreases n
  {
    if n >= 10 {
      assert w >= 2;
      DigitsOfLength(n / 10, w - 1);
    }
  }

  lemma {:induction false} DecValueLeadingZeros(k: nat, s: string)
    requires AllDigits(s)
    ensures AllDigits(seq(k, _ => '0') + s) && DecValue(seq(k, _ => '0') + s) == DecValue(s)
    decreases |s|
  {
    var z := seq(k, _ => '0');
    if s == [] {
      assert z + s == z;
      ZerosValue(k);
    } else {
      var init := s[..|s| - 1];
      DecValueLeadingZeros(k, init);
      assert z + s == (z + init) + [s[|s| - 1]];
      DecValueSnoc(z + init, s[|s| - 1]);
      DecValueSnoc(init, s[|s| - 1]);
      assert init + [s[|s| - 1]] == s;
    }
  }

  lemma {:induction false} ZerosValue(k: nat)
    ensures AllDigits(seq(k, _ => '0')) && DecValue(seq(k, _ => '0')) == 0
  {
    if k > 0 {
      ZerosValue(k - 1);
      assert seq(k, _ => '0') == seq(k - 1, _ => '0') + ['0'];
      DecValueSnoc(seq(k - 1, _ => '0'), '0');
    }
  }

  lemma {:induction false} TakeDigitsAll(s: string, rest: string, k: nat)
    requires AllDigits(s) && |s| == k
    ensures TakeDigits(s + rest, k) == s
    decreases k
  {
    if k > 0 {
      assert (s + rest)[1..] == s[1..] + rest;
      TakeDigitsAll(s[1..], rest, k - 1);
    }
  }

  lemma SkipSpaceNone(s: string)
    requires s != [] && !IsSpace(s[0])
    ensures SkipSpace(s) == s
  {
  }

  /** "%<w>d" on text that starts with a digit. */
  lemma ScanIntUnsigned(s: string, w: nat)
    requires s != [] && IsDigit(s[0])
    ensures ScanInt(s, w) == (var ds := TakeDigits(s, w);
      if ds == [] then None else Some((DecValue(ds) as int, s[|ds|..])))
  {
    SkipSpaceNone(s);
  }

  /** "%<w>d" on text that starts with a minus sign. */
  lemma ScanIntNegative(s: string, w: nat)
    requires s != [] && s[0] == '-'
    ensures ScanInt(s, w) == (var ds := TakeDigits(s[1..], if w > 0 then w - 1 else 0);
      if ds == [] then None else Some((-(DecValue(ds) as int), s[1..][|ds|..])))
  {
    SkipSpaceNone(s);
  }

  /** "%<w>d" reads back exactly what "%0<w>d" wrote, for a number with at
      most w digits. */
  lemma ScanFormattedInt(n: nat, w: nat, rest: string)
    requires 1 <= w && n < Pow10(w)
    ensures ScanInt(FormatInt(n, w) + rest, w) == Some((n as int, rest))
  {
    DigitsOfLength(n, w);
    var d := DigitsOf(n);
    var p := seq(w - |d|, _ => '0') + d;
    assert FormatInt(n, w) == p;
    assert |p| == w;
    DecValueLeadingZeros(w - |d|, d);
    DecValueDigitsOf(n);
    var s := p + rest;
    assert s[0] == p[0];
    ScanIntUnsigned(s, w);
    TakeDigitsAll(p, rest, w);
    assert s[|p|..] == rest;
  }

  /** "%0<w>d" of a natural number writes at least one character, all
      digits. */
  lemma FormatIntDigits(n: nat, w: nat)
    ensures AllDigits(FormatInt(n, w)) && |FormatInt(n, w)| >= 1
  {
    var d := DigitsOf(n);
    if |d| < w {
      assert FormatInt(n, w) == seq(w - |d|, _ => '0') + d;
    }
  }

  /** One "%<w>d" directive of a scan consumes exactly one written number. */
  lemma ScanFormatNum(w: nat, fmt: seq<Directive>, n: nat, rest: string)
    requires 1 <= w && n < Pow10(w)
    ensures ScanFormat([Num(w)] + fmt, FormatInt(n, w) + rest) == [n as int] + ScanFormat(fmt, rest)
  {
    ScanFormattedInt(n, w, rest);
    assert ([Num(w)] + fmt)[1..] == fmt;
  }

  /** A format ending in "%<w>d" reads back the last written number. */
  lemma ScanFormatLastNum(w: nat, n: nat)
    requires 1 <= w && n < Pow10(w)
    ensures ScanFormat([Num(w)], FormatInt(n, w)) == [n as int]
  {
    ScanFormattedInt(n, w, []);
    assert FormatInt(n, w) + [] == FormatInt(n, w);
  }

  /** An ordinary character of the format matches itself. */
  lemma ScanFormatChar(c: char, fmt: seq<Directive>, rest: string)
    ensures ScanFormat([Char(c)] + fmt, [c] + rest) == ScanFormat(fmt, rest)
  {
    assert ([c] + rest)[1..] == rest;
    assert ([Char(c)] + fmt)[1..] == fmt;
  }

  /** A white-space directive consumes one blank before a non-space. */
  lemma ScanFormatSpace(fmt: seq<Directive>, rest: string)
    requires rest != [] && !IsSpace(rest[0])
    ensures ScanFormat([Space] + fmt, " " + rest) == ScanFormat(fmt, rest)
  {
    assert (" " + rest)[1..] == rest;
    assert ([Space] + fmt)[1..] == fmt;
  }

  /** "%<w>d" followed by an ordinary character or by white space; sep is
      the one-character string written between the number and the rest. */
  lemma ScanFormatNumThen(w: nat, d: Directive, sep: string, fmt: seq<Directive>, n: nat, rest: string)
    requires 1 <= w && n < Pow10(w) && |sep| == 1
    requires d == Char(sep[0]) || (d == Space && sep == " " && rest != [] && !IsSpace(rest[0]))
    ensures ScanFormat([Num(w), d] + fmt, FormatInt(n, w) + (sep + rest))
         == [n as int] + ScanFormat(fmt, rest)
  {
    assert [Num(w), d] + fmt == [Num(w)] + ([d] + fmt);
    ScanFormatNum(w, [d] + fmt, n, sep + rest);
    if d == Space {
      ScanFormatSpace(fmt, rest);
    } else {
      assert sep == [sep[0]];
      ScanFormatChar(sep[0], fmt, rest);
    }
  }
}
