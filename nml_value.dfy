/** The values of namelist.c: the type codes of namelist.h, the NML_Value
    union as a tagged value, decode_buf's classification of one token,
    grab_substring's unescaping copy, and the ways the binding code reads a
    union cell through one of its members. */
module NmlValue {
  import opened Text
  import opened CFormat

  /** TYPE_NODATA, TYPE_INT, TYPE_DOUBLE, TYPE_STR and TYPE_BOOL. */
  datatype EType = NoData | TInt | TDouble | TStr | TBool

  /** The ways reading a namelist file stops the program: an unclosed
      quote on a line (readline), an unclosed quoted value (extract_values),
      an entry line without '=' (trim_buf_name, which reports the text of
      the buffer and the line count), and a scan that steps over the
      terminator of the line, which C leaves undefined. */
  datatype Failure =
    | UnterminatedString
    | UnmatchedQuote(quote: char)
    | SyntaxError(line: string, lineno: int)
    | ReadsPastEnd

  datatype Outcome<T> = Ok(value: T) | Fail(failure: Failure)

  /** The number namelist.h gives each type. */
  function Code(t: EType): (n: int)
    ensures 0 <= n <= 4 && (n == 0 <==> t == NoData)
  {
    match t
    case NoData => 0
    case TInt => 1
    case TDouble => 2
    case TStr => 3
    case TBool => 4
  }

  /** One NML_Value cell, tagged with the member last written. VJunk is a
      cell whose bits were reinterpreted through another member (the
      promotion loop reading .i of a string pointer, say): some number or
      pointer the program does not determine. */
  datatype Value = VInt(i: int) | VReal(r: real) | VStr(s: string) | VBool(b: bool) | VJunk

  /** The type a freshly decoded value is stored under. */
  function TypeOf(v: Value): EType {
    match v
    case VInt(_) => TInt
    case VReal(_) => TDouble
    case VStr(_) => TStr
    case VBool(_) => TBool
    case VJunk => NoData
  }

  /** The "%lf" conversion of sscanf: the double it stores when it returns 1,
      None when it converts nothing. Floating-point parsing is not part of
      this model, so every operation that needs it takes one as a parameter. */
  type RealScanner = string -> Option<real>

  /** What any real "%lf" does on the text "%d" accepts: a token with an
      integer reading also reads as that same number. */
  ghost predicate ReadsIntegersExactly(sr: RealScanner) {
    forall s :: ScanIntUnbounded(s).Some? ==> sr(s) == Some(ScanIntUnbounded(s).value as real)
  }

  /** Text with nothing but white space, the empty token included. */
  predicate AllSpace(s: string) {
    forall i :: 0 <= i < |s| ==> IsSpace(s[i])
  }

  /** What any real "%lf" does on white space alone: sscanf reaches the end
      of its input before converting anything and returns EOF. */
  ghost predicate FailsOnSpace(sr: RealScanner) {
    forall s :: AllSpace(s) ==> sr(s).None?
  }

  /** The characters that make decode_buf skip the integer reading. */
  predicate HasRealMark(s: string) {
    '.' in s || 'E' in s || 'e' in s
  }

  /** decode_buf: a ".true."/".false." prefix in any case is a Bool; a token
      with none of '.', 'E', 'e' that "%d" reads is an Int; one that "%lf"
      reads is a Double; anything else is kept as a Str. */
  function DecodeBuf(s: string, sr: RealScanner): (v: Value)
    ensures v != VJunk
    ensures v.VBool? <==> HasPrefixIgnoreCase(s, ".true.") || HasPrefixIgnoreCase(s, ".false.")
    ensures v.VBool? ==> (v.b <==> HasPrefixIgnoreCase(s, ".true."))
    ensures v.VInt? ==> !HasRealMark(s) && ScanIntUnbounded(s) == Some(v.i)
    ensures v.VReal? ==> sr(s) == Some(v.r)
    ensures v.VStr? ==> v.s == s && sr(s).None?
  {
    if HasPrefixIgnoreCase(s, ".true.") then VBool(true)
    else if HasPrefixIgnoreCase(s, ".false.") then VBool(false)
    else if !HasRealMark(s) && ScanIntUnbounded(s).Some? then VInt(ScanIntUnbounded(s).value)
    else if sr(s).Some? then VReal(sr(s).value)
    else VStr(s)
  }

  /** The decimal text sprintf("%d") gives n. */
  function IntText(n: int): string {
    if n >= 0 then DigitsOf(n) else "-" + DigitsOf(-n)
  }

  lemma {:induction false} IntTextScans(n: int)
    ensures ScanIntUnbounded(IntText(n)) == Some(n)
    ensures !HasRealMark(IntText(n))
  {
    if n < 0 {
      NegativeText(-n, IntText(n));
    } else {
      NonNegativeText(n, IntText(n));
    }
  }

  lemma {:induction false} NegativeText(m: nat, t: string)
    requires t == "-" + DigitsOf(m)
    ensures ScanIntUnbounded(t) == Some(-(m as int)) && !HasRealMark(t)
  {
    var d := DigitsOf(m);
    DigitsScan(m);
    ScanNegative(d, t);
    DigitsHaveNoMark(d);
  }

  lemma {:induction false} NonNegativeText(m: nat, t: string)
    requires t == DigitsOf(m)
    ensures ScanIntUnbounded(t) == Some(m) && !HasRealMark(t)
  {
    DigitsScan(m);
    ScanNonNegative(t);
    DigitsHaveNoMark(t);
  }

  lemma DigitsScan(m: nat)
    ensures TakeDigits(DigitsOf(m), |DigitsOf(m)|) == DigitsOf(m)
    ensures DecValue(DigitsOf(m)) == m
  {
    var d := DigitsOf(m);
    DecValueDigitsOf(m);
    TakeDigitsAll(d, [], |d|);
    assert d + [] == d;
  }

  lemma ScanNonNegative(d: string)
    requires AllDigits(d) && d != [] && TakeDigits(d, |d|) == d
    ensures ScanIntUnbounded(d) == Some(DecValue(d) as int)
  {
    ScanIntUnsigned(d, |d|);
    assert d[|d|..] == [];
  }

  lemma {:induction false} ScanNegative(d: string, t: string)
    requires AllDigits(d) && d != [] && TakeDigits(d, |d|) == d && t == "-" + d
    ensures ScanIntUnbounded(t) == Some(-(DecValue(d) as int))
  {
    ScanNegativeParts(d, t);
    UnboundedOfBounded(t, -(DecValue(d) as int));
  }

  lemma ScanNegativeParts(d: string, t: string)
    requires AllDigits(d) && d != [] && TakeDigits(d, |d|) == d && t == "-" + d
    ensures ScanInt(t, |t|).Some?
    ensures ScanInt(t, |t|).value.0 == -(DecValue(d) as int)
  {
    SkipSpaceNone(t);
    assert t[1..] == d;
  }

  /** The unbounded reading keeps only the number of the bounded one. */
  lemma UnboundedOfBounded(s: string, x: int)
    requires ScanInt(s, |s|).Some? && ScanInt(s, |s|).value.0 == x
    ensures ScanIntUnbounded(s) == Some(x)
  {
  }

  lemma DigitsHaveNoMark(d: string)
    requires AllDigits(d)
    ensures !HasRealMark(d) && !HasRealMark("-" + d)
  {
    var t := "-" + d;
    assert forall i :: 1 <= i < |t| ==> t[i] == d[i - 1];
  }

  /** A token that does not start with '.' is neither logical literal. */
  lemma NotLogical(t: string)
    requires t != [] && Lower(t[0]) != '.'
    ensures !HasPrefixIgnoreCase(t, ".true.") && !HasPrefixIgnoreCase(t, ".false.")
  {
    if |t| >= 6 {
      assert t[..6][0] == t[0];
    }
    if |t| >= 7 {
      assert t[..7][0] == t[0];
    }
  }

  /** A written integer is decoded back as that integer, whatever the real
      scanner: the integer reading comes before the real one. */
  lemma DecodeIntText(n: int, sr: RealScanner)
    ensures DecodeBuf(IntText(n), sr) == VInt(n)
  {
    IntTextScans(n);
    var t := IntText(n);
    var m: nat := if n >= 0 then n else -n;
    assert t[0] == '-' || IsDigit(t[0]) by {
      if n < 0 { assert t[0] == '-'; } else { assert t[0] == DigitsOf(m)[0]; }
    }
    NotLogical(t);
  }

  /** A token of white space only, the empty token included, has neither
      reading: decode_buf keeps it as a Str (there is no "no data" value). */
  lemma SpaceTokenIsStr(s: string, sr: RealScanner)
    requires FailsOnSpace(sr) && AllSpace(s)
    ensures DecodeBuf(s, sr) == VStr(s)
  {
    assert SkipSpace(s) == [];
    assert sr(s).None?;
  }

  /** ".TRUE.", ".True." and any other spelling of the two literals, with
      anything after them, decode as that Bool. */
  lemma DecodeLogical(s: string, rest: string, sr: RealScanner)
    requires EqualIgnoreCase(s, ".true.") || EqualIgnoreCase(s, ".false.")
    ensures DecodeBuf(s + rest, sr) == VBool(EqualIgnoreCase(s, ".true."))
  {
    var t := s + rest;
    assert t[..|s|] == s;
    if EqualIgnoreCase(s, ".false.") {
      assert Lower(s[1]) == 'f';
      assert !HasPrefixIgnoreCase(t, ".true.");
    }
  }

  // ---------------------------------------------------------------------
  // grab_substring

  /** grab_substring(b + s, n): copies up to n characters of b from s on,
      a backslash standing for the character after it (which counts as two
      of the n); the copy ends at the terminator, including one that a
      final backslash makes it copy. */
  function Grab(b: string, s: nat, n: int): (d: string)
    requires s <= |b|
    ensures |d| <= |b| - s
    decreases n
  {
    if n <= 0 || s == |b| then []
    else if b[s] == '\\' then
      (if s + 1 == |b| then [] else [b[s + 1]] + Grab(b, s + 2, n - 2))
    else [b[s]] + Grab(b, s + 1, n - 1)
  }

  /** The independent reading of the copy: drop every backslash that is
      followed by a character, keeping that character. */
  function Unescape(t: string): (d: string)
    decreases |t|
  {
    if t == [] then []
    else if t[0] == '\\' then (if |t| == 1 then [] else [t[1]] + Unescape(t[2..]))
    else [t[0]] + Unescape(t[1..])
  }

  /** Within the text, grab_substring is Unescape of the n characters it
      is given, unless the last of them is a backslash that is not itself
      escaped. */
  lemma {:induction false} GrabIsUnescape(b: string, s: nat, n: nat)
    requires s + n <= |b|
    requires EvenEscapes(b[s..s + n])
    ensures Grab(b, s, n) == Unescape(b[s..s + n])
    decreases n
  {
    var t := b[s..s + n];
    if n == 0 {
    } else if b[s] == '\\' {
      assert n >= 2 by { assert t[0] == '\\'; }
      assert t[2..] == b[s + 2..s + n];
      GrabIsUnescape(b, s + 2, n - 2);
    } else {
      assert t[1..] == b[s + 1..s + n];
      GrabIsUnescape(b, s + 1, n - 1);
    }
  }

  /** No backslash escapes past the end of t. */
  predicate EvenEscapes(t: string)
    decreases |t|
  {
    if t == [] then true
    else if t[0] == '\\' then |t| >= 2 && EvenEscapes(t[2..])
    else EvenEscapes(t[1..])
  }

  /** The copying loop of grab_substring. */
  method GrabSubstring(b: string, s0: nat, n0: int) returns (d: string)
    requires s0 <= |b|
    ensures d == Grab(b, s0, n0)
  {
    var s: nat, n := s0, n0;
    d := [];
    while n > 0 && s < |b|
      invariant s <= |b|
      invariant d + Grab(b, s, n) == Grab(b, s0, n0)
      decreases n
    {
      if b[s] == '\\' {
        if s + 1 == |b| {
          assert Grab(b, s, n) == [] && d + [] == d;
          return;
        }
        assert Grab(b, s, n) == [b[s + 1]] + Grab(b, s + 2, n - 2);
        assert (d + [b[s + 1]]) + Grab(b, s + 2, n - 2) == d + ([b[s + 1]] + Grab(b, s + 2, n - 2));
        d := d + [b[s + 1]];
        s, n := s + 2, n - 2;
      } else {
        assert Grab(b, s, n) == [b[s]] + Grab(b, s + 1, n - 1);
        assert (d + [b[s]]) + Grab(b, s + 1, n - 1) == d + ([b[s]] + Grab(b, s + 1, n - 1));
        d := d + [b[s]];
        s, n := s + 1, n - 1;
      }
    }
    assert Grab(b, s, n) == [] && d + [] == d;
  }

  // ---------------------------------------------------------------------
  // Reading a cell through one union member

  /** .i (and .b, the same int): the integer of an Int cell, 1 or 0 for a
      Bool cell, unspecified bits otherwise. */
  function IntView(v: Value): (w: Value)
    ensures w.VInt? || w == VJunk
    ensures v.VInt? ==> w == v
  {
    match v
    case VInt(i) => VInt(i)
    case VBool(b) => VInt(if b then 1 else 0)
    case _ => VJunk
  }

  /** .b as a logical: a Bool cell's own value, an Int cell's integer, which
      is what the logical then holds. */
  function BoolView(v: Value): (w: Value)
    ensures v.VBool? ==> w == v
    ensures v.VInt? ==> w == v
    ensures !v.VBool? && !v.VInt? ==> w == VJunk
  {
    match v
    case VBool(b) => VBool(b)
    case VInt(i) => VInt(i)
    case _ => VJunk
  }

  /** .r of the cell. */
  function RealView(v: Value): (w: Value)
    ensures v.VReal? ==> w == v
    ensures !v.VReal? ==> w == VJunk
  {
    if v.VReal? then v else VJunk
  }

  /** .s of the cell. */
  function StrView(v: Value): (w: Value)
    ensures v.VStr? ==> w == v
    ensures !v.VStr? ==> w == VJunk
  {
    if v.VStr? then v else VJunk
  }

  /** (double) of the .i member: the same number in real form for an Int
      cell (and a Bool cell, whose .i is 1 or 0); unspecified otherwise.
      Both the promotion loop of extract_values and copy_double_list on a
      non-double entry convert this way. */
  function Widen(v: Value): (w: Value)
    ensures w.VReal? || w == VJunk
    ensures v.VInt? ==> w == VReal(v.i as real)
    ensures v.VBool? ==> w == VReal(if v.b then 1.0 else 0.0)
  {
    match IntView(v)
    case VInt(i) => VReal(i as real)
    case _ => VJunk
  }
}
