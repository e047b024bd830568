/** break_line of aed_csv.c: cutting one CSV line into its comma-separated
    fields. A field may open with a double or single quote, after which no
    comma ends it; a backslash steps over the next character; every field
    loses its leading and trailing spaces and tabs. */
module CsvSplit {
  import opened Text

  /** The outcome of break_line: its fields, or a scan that ran past the
      terminator (a backslash as the last character steps over it). */
  datatype Broken = Fields(strs: seq<string>) | ReadsPastEnd

  function Cons(f: string, r: Broken): Broken {
    match r
    case Fields(fs) => Fields([f] + fs)
    case ReadsPastEnd => ReadsPastEnd
  }

  function Prepend(acc: seq<string>, r: Broken): Broken {
    match r
    case Fields(fs) => Fields(acc + fs)
    case ReadsPastEnd => ReadsPastEnd
  }

  lemma PrependCons(acc: seq<string>, f: string, r: Broken)
    ensures Prepend(acc, Cons(f, r)) == Prepend(acc + [f], r)
  {
    if r.Fields? {
      assert acc + ([f] + r.strs) == (acc + [f]) + r.strs;
    }
  }

  // ---------------------------------------------------------------------
  // The scanning steps

  /** Where the inner scan stops inside a field opened by term ('\0' for an
      unquoted field): at a comma of an unquoted field, at the end of the
      line, or one past the end when a backslash is the last character. */
  function ScanEnd(b: string, j: nat, term: char): (e: nat)
    requires j <= |b| && (term == '\0' || IsQuote(term))
    ensures j <= e <= |b| + 1
    ensures e < |b| ==> b[e] == ',' && term == '\0'
    decreases |b| - j
  {
    if j == |b| then j
    else if b[j] == '\\' then (if j + 2 <= |b| then ScanEnd(b, j + 2, term) else j + 2)
    else if term != '\0' && b[j] != term then ScanEnd(b, j + 1, term)
    else if b[j] != ',' then ScanEnd(b, j + 1, term)
    else j
  }

  /** The first position at or after t that is not a blank. The scan of a
      field stopped at e, on a comma or the terminator, so it ends by e. */
  function SkipBlanks(b: string, t: nat, e: nat): (t': nat)
    requires t <= e <= |b| && (e == |b| || !IsBlank(b[e]))
    ensures t <= t' <= e
    decreases e - t
  {
    if t < |b| && IsBlank(b[t]) then SkipBlanks(b, t + 1, e) else t
  }

  lemma {:induction false} SkipBlanksSkips(b: string, t: nat, e: nat)
    requires t <= e <= |b| && (e == |b| || !IsBlank(b[e]))
    ensures var t' := SkipBlanks(b, t, e);
      (t' == |b| || !IsBlank(b[t'])) && forall m :: t <= m < t' ==> IsBlank(b[m])
    decreases e - t
  {
    if t < |b| && IsBlank(b[t]) {
      SkipBlanksSkips(b, t + 1, e);
    }
  }

  /** The length left after dropping the blanks that end b[t..t + len]. */
  function TrimmedLength(b: string, t: nat, len: nat): (l: nat)
    requires t + len <= |b|
    ensures l <= len
  {
    if len > 0 && IsBlank(b[t + len - 1]) then TrimmedLength(b, t, len - 1) else len
  }

  lemma {:induction false} TrimmedLengthDrops(b: string, t: nat, len: nat)
    requires t + len <= |b|
    ensures var l := TrimmedLength(b, t, len);
      (l == 0 || !IsBlank(b[t + l - 1])) && forall m :: t + l <= m < t + len ==> IsBlank(b[m])
  {
    if len > 0 && IsBlank(b[t + len - 1]) {
      TrimmedLengthDrops(b, t, len - 1);
    }
  }

  /** The text of a field that starts at start and whose scan stopped at e:
      leading blanks skipped, the character before a closing quote dropped
      when the scan stopped on one, trailing blanks dropped. */
  function FieldText(b: string, start: nat, e: nat, term: char): string
    requires start <= e <= |b| && (e == |b| || !IsBlank(b[e]))
  {
    var t := SkipBlanks(b, start, e);
    var len := e - t;
    var len' := if term != '\0' && At(b, e) == term && len > 0 then len - 1 else len;
    b[t..t + TrimmedLength(b, t, len')]
  }

  /** The `len--` for a closing quote never fires: a quoted scan steps over
      its quote character and stops only at the end of the line, so the
      character there is the terminator, and a quoted field is cut exactly
      as an unquoted one. */
  lemma QuoteCutIsDead(b: string, j: nat, term: char)
    requires j <= |b| && IsQuote(term) && ScanEnd(b, j, term) <= |b|
    ensures ScanEnd(b, j, term) == |b|
    ensures FieldText(b, j, |b|, term) == FieldText(b, j, |b|, '\0')
  {
  }

  /** Every field comes out with no blank at either end. */
  lemma FieldTrimmed(b: string, start: nat, e: nat, term: char)
    requires start <= e <= |b| && (e == |b| || !IsBlank(b[e]))
    ensures var f := FieldText(b, start, e, term);
      f == [] || (!IsBlank(f[0]) && !IsBlank(f[|f| - 1]))
  {
    var t := SkipBlanks(b, start, e);
    SkipBlanksSkips(b, start, e);
    var len := e - t;
    var len' := if term != '\0' && At(b, e) == term && len > 0 then len - 1 else len;
    TrimmedLengthDrops(b, t, len');
  }

  /** The quote that opens the field at i, or '\0' for an unquoted field. */
  function Opening(b: string, i: nat): (term: char)
    requires i < |b|
    ensures term == '\0' || IsQuote(term)
  {
    if IsQuote(b[i]) then b[i] else '\0'
  }

  /** Where the text of the field at i starts: after its opening quote. */
  function FieldStart(b: string, i: nat): (start: nat)
    requires i < |b|
    ensures i <= start <= |b|
  {
    if IsQuote(b[i]) then i + 1 else i
  }

  /** The fields of b from position i on: the outer loop of break_line. */
  function SplitFrom(b: string, i: nat): Broken
    requires i <= |b|
    decreases |b| - i
  {
    if i == |b| then Fields([])
    else
      var e := ScanEnd(b, FieldStart(b, i), Opening(b, i));
      if e > |b| then ReadsPastEnd
      else Cons(FieldText(b, FieldStart(b, i), e, Opening(b, i)), SplitFrom(b, if e < |b| then e + 1 else e))
  }

  /** One turn of the outer loop, whose scan stopped at e. */
  lemma SplitStep(b: string, i: nat, e: nat)
    requires i < |b| && e == ScanEnd(b, FieldStart(b, i), Opening(b, i))
    ensures e > |b| ==> SplitFrom(b, i) == ReadsPastEnd
    ensures e <= |b| ==>
      SplitFrom(b, i) == Cons(FieldText(b, FieldStart(b, i), e, Opening(b, i)), SplitFrom(b, if e < |b| then e + 1 else e))
  {
  }

  /** What break_line returns for a line, NULL (None) included. */
  function BreakLineSpec(line: Option<string>): Broken {
    match line
    case None => Fields([])
    case Some(b) => SplitFrom(b, 0)
  }

  // ---------------------------------------------------------------------
  // break_line

  /** break_line: the fields of a line and their count n. The caller must
      not pass a line whose scan runs past its terminator. */
  method BreakLine(line: Option<string>) returns (strs: seq<string>, n: nat)
    requires line.Some? ==> CString(line.value)
    requires BreakLineSpec(line).Fields?
    ensures BreakLineSpec(line) == Fields(strs) && n == |strs|
    ensures line == None || line == Some([]) ==> n == 0
  {
    strs := [];
    if line.Some? {
      var b := line.value;
      var i := 0;
      while i < |b|
        invariant i <= |b|
        invariant Prepend(strs, SplitFrom(b, i)) == SplitFrom(b, 0)
        decreases |b| - i
      {
        ghost var i0 := i;
        SplitStep(b, i0, ScanEnd(b, FieldStart(b, i0), Opening(b, i0)));
        assert Prepend(strs, SplitFrom(b, i0)).Fields?;
        var term := '\0';
        if IsQuote(b[i]) {
          term := b[i];
          i := i + 1;
        }
        assert term == Opening(b, i0) && i == FieldStart(b, i0);
        var e := ScanField(b, i, term);
        var f := ExtractField(b, i, e, term);
        var next := if e < |b| then e + 1 else e;
        SplitStep(b, i0, e);
        PrependCons(strs, f, SplitFrom(b, next));
        strs := strs + [f];
        i := next;
      }
      assert SplitFrom(b, i) == Fields([]);
      assert strs + [] == strs;
    }
    n := |strs|;
  }

  /** The inner scanning loop of break_line. */
  method ScanField(b: string, start: nat, term: char) returns (e: nat)
    requires start <= |b| && (term == '\0' || IsQuote(term)) && ScanEnd(b, start, term) <= |b|
    ensures e == ScanEnd(b, start, term)
  {
    e := start;
    while e < |b|
      invariant start <= e <= |b|
      invariant ScanEnd(b, e, term) == ScanEnd(b, start, term)
      decreases |b| - e
    {
      if b[e] == '\\' {
        e := e + 2;
      } else if term != '\0' && b[e] != term {
        e := e + 1;
      } else if b[e] != ',' {
        e := e + 1;
      } else {
        break;
      }
    }
  }

  /** The trimming and copying of one field. */
  method ExtractField(b: string, start: nat, e: nat, term: char) returns (f: string)
    requires start <= e <= |b| && (e == |b| || !IsBlank(b[e]))
    ensures f == FieldText(b, start, e, term)
  {
    var t := SkipLeading(b, start, e);
    var len: nat := e - t;
    if term != '\0' && At(b, e) == term && len > 0 {
      len := len - 1;
    }
    len := TrimTrailing(b, t, len);
    f := b[t..t + len];
  }

  /** The loop skipping the blanks that open a field. */
  method SkipLeading(b: string, start: nat, e: nat) returns (t: nat)
    requires start <= e <= |b| && (e == |b| || !IsBlank(b[e]))
    ensures t == SkipBlanks(b, start, e)
  {
    t := start;
    while t < |b| && IsBlank(b[t])
      invariant start <= t <= e
      invariant SkipBlanks(b, t, e) == SkipBlanks(b, start, e)
      decreases e - t
    {
      t := t + 1;
    }
  }

  /** The loop dropping the blanks that close a field. */
  method TrimTrailing(b: string, t: nat, len0: nat) returns (len: nat)
    requires t + len0 <= |b|
    ensures len == TrimmedLength(b, t, len0)
  {
    len := len0;
    while len > 0 && IsBlank(b[t + len - 1])
      invariant len <= len0
      invariant TrimmedLength(b, t, len) == TrimmedLength(b, t, len0)
    {
      len := len - 1;
    }
  }

  // ---------------------------------------------------------------------
  // What the fields are

  /** No quote and no backslash from position i on. */
  predicate PlainFrom(b: string, i: nat) {
    forall m :: i <= m < |b| ==> !IsQuote(b[m]) && b[m] != '\\'
  }

  /** The pieces of b[j..] between commas: one more than there are commas. */
  function PiecesFrom(b: string, j: nat): (ps: seq<string>)
    requires j <= |b|
    ensures |ps| >= 1
    decreases |b| - j
  {
    var k := CommaFrom(b, j);
    if k == |b| then [b[j..]] else [b[j..k]] + PiecesFrom(b, k + 1)
  }

  function TrimAll(ps: seq<string>): (qs: seq<string>)
    ensures |qs| == |ps|
  {
    if ps == [] then [] else [Trim(ps[0])] + TrimAll(ps[1..])
  }

  /** The pieces of b[j..] that count as fields: a comma that ends the line
      opens no further, empty, piece. */
  function KeptFrom(b: string, j: nat): seq<string>
    requires 0 < |b| && j <= |b|
  {
    var ps := PiecesFrom(b, j);
    if b[|b| - 1] == ',' then ps[..|ps| - 1] else ps
  }

  /** The comma split every CSV reader agrees on for a line without quotes
      and backslashes: the pieces between commas, trimmed of blanks, where an
      empty line has no field and a comma that ends the line opens none. */
  function Reference(b: string): seq<string> {
    if b == [] then [] else TrimAll(KeptFrom(b, 0))
  }

  lemma {:induction false} SkipFromShift(b: string, start: nat, e: nat, k: nat)
    requires start + k <= e <= |b| && (e == |b| || !IsBlank(b[e]))
    ensures start + SkipFrom(b[start..e], k) == SkipBlanks(b, start + k, e)
    decreases e - start - k
  {
    var s := b[start..e];
    if start + k < e {
      assert s[k] == b[start + k];
      if IsBlank(b[start + k]) {
        SkipFromShift(b, start, e, k + 1);
      }
    }
  }

  lemma {:induction false} KeepToShift(b: string, t: nat, e: nat, n: nat)
    requires t + n <= e <= |b|
    ensures KeepTo(b[t..e], n) == TrimmedLength(b, t, n)
  {
    if n > 0 {
      assert b[t..e][n - 1] == b[t + n - 1];
      if IsBlank(b[t + n - 1]) {
        KeepToShift(b, t, e, n - 1);
      }
    }
  }

  lemma FieldTextSpan(b: string, start: nat, e: nat, term: char)
    requires start <= e <= |b| && (e == |b| || !IsBlank(b[e]))
    requires term == '\0' || At(b, e) != term
    ensures var t := SkipBlanks(b, start, e);
      FieldText(b, start, e, term) == b[t..t + TrimmedLength(b, t, e - t)]
  {
  }

  /** The blank-skipping loop of a field is TrimLeft. */
  lemma SkipBlanksIsTrimLeft(b: string, start: nat, e: nat)
    requires start <= e <= |b| && (e == |b| || !IsBlank(b[e]))
    ensures TrimLeft(b[start..e]) == b[SkipBlanks(b, start, e)..e]
  {
    SkipFromShift(b, start, e, 0);
  }

  /** The blank-dropping loop of a field is TrimRight. */
  lemma TrimmedLengthIsTrimRight(b: string, t: nat, e: nat)
    requires t <= e <= |b|
    ensures TrimRight(b[t..e]) == b[t..t + TrimmedLength(b, t, e - t)]
  {
    KeepToShift(b, t, e, e - t);
  }

  /** Without a closing quote to drop, the C trimming of a field is Trim. */
  lemma FieldTextIsTrim(b: string, start: nat, e: nat, term: char)
    requires start <= e <= |b| && (e == |b| || !IsBlank(b[e]))
    requires term == '\0' || At(b, e) != term
    ensures FieldText(b, start, e, term) == Trim(b[start..e])
  {
    var t := SkipBlanks(b, start, e);
    var l := TrimmedLength(b, t, e - t);
    FieldTextSpan(b, start, e, term);
    SkipBlanksIsTrimLeft(b, start, e);
    TrimmedLengthIsTrimRight(b, t, e);
    calc {
      Trim(b[start..e]);
      TrimRight(TrimLeft(b[start..e]));
      TrimRight(b[t..e]);
      b[t..t + l];
      FieldText(b, start, e, term);
    }
  }

  /** An unquoted scan without backslashes stops at the next comma. */
  lemma {:induction false} ScanEndPlain(b: string, j: nat)
    requires j <= |b| && PlainFrom(b, j)
    ensures ScanEnd(b, j, '\0') == CommaFrom(b, j)
    decreases |b| - j
  {
    if j < |b| && b[j] != ',' {
      ScanEndPlain(b, j + 1);
    }
  }

  /** A quoted scan without backslashes runs to the end of the line. */
  lemma {:induction false} ScanEndQuoted(b: string, j: nat, q: char)
    requires j <= |b| && IsQuote(q)
    requires forall m :: j <= m < |b| ==> b[m] != '\\'
    ensures ScanEnd(b, j, q) == |b|
    decreases |b| - j
  {
    if j < |b| {
      ScanEndQuoted(b, j + 1, q);
    }
  }

  lemma TrimAllCons(x: string, ps: seq<string>)
    ensures TrimAll([x] + ps) == [Trim(x)] + TrimAll(ps)
  {
    assert ([x] + ps)[1..] == ps;
  }

  lemma InitCons(x: string, qs: seq<string>)
    requires |qs| >= 1
    ensures ([x] + qs)[..|qs|] == [x] + qs[..|qs| - 1]
  {
  }

  lemma KeptStep(b: string, i: nat)
    requires i < |b| && CommaFrom(b, i) < |b|
    ensures KeptFrom(b, i) == [b[i..CommaFrom(b, i)]] + KeptFrom(b, CommaFrom(b, i) + 1)
  {
    var k := CommaFrom(b, i);
    var x := b[i..k];
    var qs := PiecesFrom(b, k + 1);
    var ps := PiecesFrom(b, i);
    assert ps == [x] + qs;
    if b[|b| - 1] == ',' {
      InitCons(x, qs);
      assert KeptFrom(b, i) == ps[..|qs|];
    }
  }

  lemma KeptEnd(b: string, i: nat)
    requires i < |b| && CommaFrom(b, i) == |b|
    ensures KeptFrom(b, i) == [b[i..]]
  {
    assert b[|b| - 1] != ',';
  }

  lemma KeptAtEnd(b: string)
    requires 0 < |b| && b[|b| - 1] == ','
    ensures KeptFrom(b, |b|) == []
  {
  }

  /** From position i on, b splits as the reference does. */
  predicate SplitsAsReference(b: string, i: nat)
    requires 0 < |b| && i <= |b|
  {
    SplitFrom(b, i) == Fields(TrimAll(KeptFrom(b, i)))
  }

  /** One unquoted field that a comma ends. */
  lemma SplitPlainComma(b: string, i: nat, e: nat)
    requires i < |b| && PlainFrom(b, i) && e == CommaFrom(b, i) && e < |b|
    requires SplitsAsReference(b, e + 1)
    ensures SplitsAsReference(b, i)
  {
    SplitPlainField(b, i, e);
    KeptStep(b, i);
    TrimAllCons(b[i..e], KeptFrom(b, e + 1));
    var rest := KeptFrom(b, e + 1);
    assert Cons(Trim(b[i..e]), Fields(TrimAll(rest))) == Fields([Trim(b[i..e])] + TrimAll(rest));
  }

  /** The split of an unquoted field that a comma ends: its trimmed text,
      then the split after the comma. */
  lemma SplitPlainField(b: string, i: nat, e: nat)
    requires i < |b| && PlainFrom(b, i) && e == CommaFrom(b, i) && e < |b|
    ensures SplitFrom(b, i) == Cons(Trim(b[i..e]), SplitFrom(b, e + 1))
  {
    ScanEndPlain(b, i);
    assert FieldStart(b, i) == i && Opening(b, i) == '\0';
    SplitStep(b, i, e);
    FieldTextIsTrim(b, i, e, '\0');
  }

  /** The last, unquoted, field of a line. */
  lemma SplitPlainLast(b: string, i: nat)
    requires i < |b| && PlainFrom(b, i) && CommaFrom(b, i) == |b|
    ensures SplitsAsReference(b, i)
  {
    ScanEndPlain(b, i);
    assert FieldStart(b, i) == i && Opening(b, i) == '\0';
    SplitStep(b, i, |b|);
    FieldTextIsTrim(b, i, |b|, '\0');
    KeptEnd(b, i);
    assert b[i..|b|] == b[i..];
    TrimAllCons(b[i..], []);
    var f := FieldText(b, i, |b|, '\0');
    assert SplitFrom(b, i) == Cons(f, SplitFrom(b, |b|));
    assert [f] + [] == [f];
  }

  /** From position i on, a line without quotes and backslashes splits as
      the reference does. */
  lemma {:induction false} SplitPlain(b: string, i: nat)
    requires 0 < |b| && i <= |b| && PlainFrom(b, i)
    requires i == |b| ==> b[|b| - 1] == ','
    ensures SplitsAsReference(b, i)
    decreases |b| - i
  {
    if i == |b| {
      KeptAtEnd(b);
    } else {
      var e := CommaFrom(b, i);
      if e < |b| {
        SplitPlain(b, e + 1);
        SplitPlainComma(b, i, e);
      } else {
        SplitPlainLast(b, i);
      }
    }
  }

  /** break_line of a line without quotes and backslashes is the reference
      comma split. */
  lemma BreakLinePlain(b: string)
    requires PlainFrom(b, 0)
    ensures BreakLineSpec(Some(b)) == Fields(Reference(b))
  {
    if b != [] {
      SplitPlain(b, 0);
      assert SplitsAsReference(b, 0);
    }
  }

  /** A field that opens with a quote is never closed by a comma: without
      backslashes it takes the rest of the line, its closing quote kept. */
  lemma QuotedRest(b: string, i: nat)
    requires i < |b| && IsQuote(b[i])
    requires forall m :: i < m < |b| ==> b[m] != '\\'
    ensures SplitFrom(b, i) == Fields([Trim(b[i + 1..])])
  {
    ScanEndQuoted(b, i + 1, b[i]);
    assert FieldStart(b, i) == i + 1 && Opening(b, i) == b[i];
    SplitStep(b, i, |b|);
    FieldTextIsTrim(b, i + 1, |b|, b[i]);
    assert b[i + 1..|b|] == b[i + 1..];
    var f := FieldText(b, i + 1, |b|, b[i]);
    assert SplitFrom(b, i) == Cons(f, SplitFrom(b, |b|));
    assert [f] + [] == [f];
  }

  /** A backslash that ends the line makes the scan step over the
      terminator. */
  lemma TrailingBackslash()
    ensures BreakLineSpec(Some(['a', '\\'])) == ReadsPastEnd
  {
    var b := ['a', '\\'];
    assert ScanEnd(b, 1, '\0') == 3;
    assert ScanEnd(b, 0, '\0') == 3;
  }
}
