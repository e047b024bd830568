/** Character and string helpers shared by the namelist reader and the CSV
    code: the C library's notion of a blank, ASCII case folding as done by
    strcasecmp/strncasecmp, NUL-terminated buffers read past their end,
    line-end stripping, comma search and blank trimming. */
module Text {

  datatype Option<+T> = None | Some(value: T)

  /** ' ' or '\t', the two characters every trimming loop of the library skips. */
  predicate IsBlank(c: char) {
    c == ' ' || c == '\t'
  }

  /** isspace() of the C locale, which %d and %lf skip before a number. */
  predicate IsSpace(c: char) {
    c == ' ' || c == '\t' || c == '\n' || c == '\r' || c == '\U{B}' || c == '\U{C}'
  }

  predicate IsDigit(c: char) {
    '0' <= c <= '9'
  }

  /** tolower() of the C locale. */
  function Lower(c: char): (r: char)
    ensures 'A' <= c <= 'Z' ==> r as int == c as int + 32
    ensures !('A' <= c <= 'Z') ==> r == c
  {
    if 'A' <= c <= 'Z' then (c as int + 32) as char else c
  }

  /** strcasecmp(a, b) == 0 */
  predicate EqualIgnoreCase(a: string, b: string) {
    |a| == |b| && forall i :: 0 <= i < |a| ==> Lower(a[i]) == Lower(b[i])
  }

  /** strncasecmp(s, p, |p|) == 0: the first |p| characters of s match p
      ignoring case (a shorter s fails on its terminator). */
  predicate HasPrefixIgnoreCase(s: string, p: string) {
    |p| <= |s| && EqualIgnoreCase(s[..|p|], p)
  }

  /** A C string: no terminator inside. */
  predicate CString(b: string) {
    forall i :: 0 <= i < |b| ==> b[i] != '\0'
  }

  /** The character at i, or the terminator at and past the end. */
  function At(b: string, i: nat): char {
    if i < |b| then b[i] else '\0'
  }

  predicate IsQuote(c: char) {
    c == '"' || c == '\''
  }

  predicate IsLineEnd(c: char) {
    c == '\n' || c == '\r'
  }

  /** The length of s[..n] once its trailing CR and LF characters go. */
  function LineEndStart(s: string, n: nat): (m: nat)
    requires n <= |s|
    ensures m <= n
  {
    if n > 0 && IsLineEnd(s[n - 1]) then LineEndStart(s, n - 1) else n
  }

  /** The stripped line: what is left does not end in CR or LF, and only CR
      and LF characters were removed. */
  lemma {:induction false} LineEndStartStrips(s: string, n: nat)
    requires n <= |s|
    ensures LineEndStart(s, n) == 0 || !IsLineEnd(s[LineEndStart(s, n) - 1])
    ensures forall i :: LineEndStart(s, n) <= i < n ==> IsLineEnd(s[i])
  {
    if n > 0 && IsLineEnd(s[n - 1]) {
      LineEndStartStrips(s, n - 1);
    }
  }

  /** The loop both line readers of the library run on what fgets gave:
      drop the last character while it is a CR or an LF. */
  method StripLineEnd(ln: string) returns (r: string)
    ensures r == ln[..LineEndStart(ln, |ln|)]
    ensures r <= ln
    ensures |r| == 0 || !IsLineEnd(r[|r| - 1])
    ensures forall i :: |r| <= i < |ln| ==> IsLineEnd(ln[i])
  {
    var n: nat := |ln|;
    while n > 0 && IsLineEnd(ln[n - 1])
      invariant n <= |ln|
      invariant LineEndStart(ln, n) == LineEndStart(ln, |ln|)
      decreases n
    {
      n := n - 1;
    }
    r := ln[..n];
    LineEndStartStrips(ln, |ln|);
  }

  /** The first position at or after i that is not a blank. */
  function SkipFrom(s: string, i: nat): (j: nat)
    requires i <= |s|
    ensures i <= j <= |s|
    decreases |s| - i
  {
    if i < |s| && IsBlank(s[i]) then SkipFrom(s, i + 1) else i
  }

  /** The length of s[..n] once its trailing blanks are dropped. */
  function KeepTo(s: string, n: nat): (m: nat)
    requires n <= |s|
    ensures m <= n
  {
    if n > 0 && IsBlank(s[n - 1]) then KeepTo(s, n - 1) else n
  }

  /** The first c at or after j, or |b| when there is none: strchr and the
      scanning loops of the library. */
  function IndexFrom(b: string, j: nat, c: char): (k: nat)
    requires j <= |b|
    ensures j <= k <= |b| && (k < |b| ==> b[k] == c)
    ensures forall m :: j <= m < k ==> b[m] != c
    decreases |b| - j
  {
    if j == |b| || b[j] == c then j else IndexFrom(b, j + 1, c)
  }

  /** The first comma at or after j, or |b| when there is none. */
  function CommaFrom(b: string, j: nat): (k: nat)
    requires j <= |b|
    ensures j <= k <= |b| && (k < |b| ==> b[k] == ',')
    ensures forall m :: j <= m < k ==> b[m] != ','
  {
    IndexFrom(b, j, ',')
  }

  /** Drops the leading spaces and tabs. */
  function TrimLeft(s: string): string {
    s[SkipFrom(s, 0)..]
  }

  /** Drops the trailing spaces and tabs. */
  function TrimRight(s: string): string {
    s[..KeepTo(s, |s|)]
  }

  /** Drops blanks at both ends. */
  function Trim(s: string): string {
    TrimRight(TrimLeft(s))
  }

  /** The loop skipping spaces and tabs. */
  method SkipBlankChars(b: string, j0: nat) returns (j: nat)
    requires j0 <= |b|
    ensures j == SkipFrom(b, j0)
  {
    j := j0;
    while j < |b| && IsBlank(b[j])
      invariant j0 <= j <= |b|
      invariant SkipFrom(b, j) == SkipFrom(b, j0)
      decreases |b| - j
    {
      j := j + 1;
    }
  }

  /** The loop dropping trailing spaces and tabs from s[..n0]. */
  method DropBlankChars(s: string, n0: nat) returns (n: nat)
    requires n0 <= |s|
    ensures n == KeepTo(s, n0)
  {
    n := n0;
    while n > 0 && IsBlank(s[n - 1])
      invariant n <= n0
      invariant KeepTo(s, n) == KeepTo(s, n0)
    {
      n := n - 1;
    }
  }

  /** SkipFrom stops on a character that is not a blank, or at the end. */
  lemma {:induction false} SkipFromStops(s: string, i: nat)
    requires i <= |s|
    ensures SkipFrom(s, i) == |s| || !IsBlank(s[SkipFrom(s, i)])
    ensures forall m :: i <= m < SkipFrom(s, i) ==> IsBlank(s[m])
    decreases |s| - i
  {
    if i < |s| && IsBlank(s[i]) {
      SkipFromStops(s, i + 1);
    }
  }

  /** KeepTo stops after a character that is not a blank, or at the start. */
  lemma {:induction false} KeepToStops(s: string, n: nat)
    requires n <= |s|
    ensures KeepTo(s, n) == 0 || !IsBlank(s[KeepTo(s, n) - 1])
    ensures forall m :: KeepTo(s, n) <= m < n ==> IsBlank(s[m])
  {
    if n > 0 && IsBlank(s[n - 1]) {
      KeepToStops(s, n - 1);
    }
  }

  /** KeepTo looks only at the characters before n. */
  lemma {:induction false} KeepToPrefix(s: string, n: nat, t: string)
    requires n <= |s| && n <= |t| && s[..n] == t[..n]
    ensures KeepTo(s, n) == KeepTo(t, n)
  {
    if n > 0 {
      assert s[n - 1] == s[..n][n - 1] == t[..n][n - 1] == t[n - 1];
      if IsBlank(s[n - 1]) {
        assert s[..n - 1] == s[..n][..n - 1];
        assert t[..n - 1] == t[..n][..n - 1];
        KeepToPrefix(s, n - 1, t);
      }
    }
  }

  /** What Trim leaves is empty or starts and ends with a character that
      is not a blank. */
  lemma TrimEnds(s: string)
    ensures var t := Trim(s); t == [] || (!IsBlank(t[0]) && !IsBlank(t[|t| - 1]))
  {
    var l := TrimLeft(s);
    SkipFromStops(s, 0);
    KeepToStops(l, |l|);
    var t := Trim(s);
    if t != [] {
      assert t[0] == l[0];
    }
  }

  /** The two trimming loops of readline. */
  method TrimBlankChars(s: string) returns (t: string)
    ensures t == Trim(s)
  {
    var i := SkipBlankChars(s, 0);
    var l := s[i..];
    var n := DropBlankChars(l, |l|);
    t := l[..n];
  }

  /** The index of the first name in hs at or after i that equals name
      ignoring case, or -1: the strcasecmp search loops of the CSV and
      namelist code. */
  function FirstMatchFrom(hs: seq<string>, name: string, i: nat): (k: int)
    requires i <= |hs|
    ensures k == -1 || i <= k < |hs|
    decreases |hs| - i
  {
    if i == |hs| then -1
    else if EqualIgnoreCase(name, hs[i]) then i
    else FirstMatchFrom(hs, name, i + 1)
  }

  function FirstMatch(hs: seq<string>, name: string): (k: int)
    ensures k == -1 || 0 <= k < |hs|
  {
    FirstMatchFrom(hs, name, 0)
  }

  /** The search finds the first match, and reports -1 exactly when no
      name matches. */
  lemma {:induction false} FirstMatchFromIsFirst(hs: seq<string>, name: string, i: nat)
    requires i <= |hs|
    ensures FirstMatchFrom(hs, name, i) == -1 <==>
              forall j :: i <= j < |hs| ==> !EqualIgnoreCase(name, hs[j])
    ensures FirstMatchFrom(hs, name, i) >= 0 ==>
              EqualIgnoreCase(name, hs[FirstMatchFrom(hs, name, i)]) &&
              forall j :: i <= j < FirstMatchFrom(hs, name, i) ==> !EqualIgnoreCase(name, hs[j])
    decreases |hs| - i
  {
    if i < |hs| && !EqualIgnoreCase(name, hs[i]) {
      FirstMatchFromIsFirst(hs, name, i + 1);
    }
  }

  lemma FirstMatchIsFirst(hs: seq<string>, name: string)
    ensures FirstMatch(hs, name) == -1 <==>
              forall j :: 0 <= j < |hs| ==> !EqualIgnoreCase(name, hs[j])
    ensures FirstMatch(hs, name) >= 0 ==>
              EqualIgnoreCase(name, hs[FirstMatch(hs, name)]) &&
              forall j :: 0 <= j < FirstMatch(hs, name) ==> !EqualIgnoreCase(name, hs[j])
  {
    FirstMatchFromIsFirst(hs, name, 0);
  }
}
