/** The user-defined time formats of aed_time.c: decode_time_format turns a
    letter pattern such as "YYYY-MM-DD hh:mm" into a scanf/printf format and
    records, for each of the six fields, the position of its conversion and
    its digit count; read_time_formatted and write_time_formatted use those
    positions to route the six values.

    The fields are numbered Y = 0, M = 1, D = 2, h = 3, m = 4, s = 5; the
    C struct's members Ypos..spos and Ydig..sdig are pos[0..6] and
    dig[0..6] here. */
module TimeFormat {
  import opened Text
  import opened AedTime

  /** The field a pattern letter stands for, or -1 for any other character. */
  function LetterIndex(c: char): (k: int)
    ensures -1 <= k < 6
  {
    if c == 'Y' then 0 else if c == 'M' then 1 else if c == 'D' then 2
    else if c == 'h' then 3 else if c == 'm' then 4 else if c == 's' then 5
    else -1
  }

  predicate IsFieldLetter(c: char) {
    LetterIndex(c) >= 0
  }

  /** A maximal run of one field letter, or a character copied as it is. */
  datatype FmtToken = Field(letter: char, width: nat) | Literal(c: char)

  /** The number of leading copies of c in f. */
  function RunLength(f: string, c: char): (n: nat)
    ensures n <= |f|
    ensures forall i :: 0 <= i < n ==> f[i] == c
    ensures n < |f| ==> f[n] != c
    decreases |f|
  {
    if f != [] && f[0] == c then 1 + RunLength(f[1..], c) else 0
  }

  /** The pattern cut into maximal runs of field letters and single other
      characters, as the scanning loop of decode_time_format does. */
  function Tokenize(f: string): seq<FmtToken>
    decreases |f|
  {
    if f == [] then []
    else if IsFieldLetter(f[0]) then
      var l := RunLength(f, f[0]);
      [Field(f[0], l)] + Tokenize(f[l..])
    else [Literal(f[0])] + Tokenize(f[1..])
  }

  /** l copies of c. */
  function Repeat(c: char, l: nat): (s: string)
    ensures |s| == l
  {
    if l == 0 then [] else [c] + Repeat(c, l - 1)
  }

  lemma {:induction false} RepeatAt(c: char, l: nat)
    ensures forall i :: 0 <= i < l ==> Repeat(c, l)[i] == c
  {
    if l > 0 {
      RepeatAt(c, l - 1);
    }
  }

  /** The characters a token stands for. */
  function Spelling(t: FmtToken): string {
    match t
    case Field(c, l) => Repeat(c, l)
    case Literal(c) => [c]
  }

  function Source(ts: seq<FmtToken>): string {
    if ts == [] then [] else Spelling(ts[0]) + Source(ts[1..])
  }

  /** Tokenizing loses nothing: the tokens spell the pattern back. */
  lemma {:induction false} SourceOfTokenize(f: string)
    ensures Source(Tokenize(f)) == f
    decreases |f|
  {
    if f != [] {
      var ts := Tokenize(f);
      if IsFieldLetter(f[0]) {
        var l := RunLength(f, f[0]);
        SourceOfTokenize(f[l..]);
        RunSpelling(f, l);
        SourceCons(Field(f[0], l), Tokenize(f[l..]));
        assert f[..l] + f[l..] == f;
      } else {
        SourceOfTokenize(f[1..]);
        SourceCons(Literal(f[0]), Tokenize(f[1..]));
        assert [f[0]] + f[1..] == f;
      }
    }
  }

  lemma SourceCons(t: FmtToken, ts: seq<FmtToken>)
    ensures Source([t] + ts) == Spelling(t) + Source(ts)
  {
    assert ([t] + ts)[1..] == ts;
  }

  /** A run spells the characters it covers. */
  lemma RunSpelling(f: string, l: nat)
    requires f != [] && l == RunLength(f, f[0])
    ensures Repeat(f[0], l) == f[..l]
  {
    RepeatAt(f[0], l);
  }

  predicate TokenOk(t: FmtToken) {
    match t
    case Field(c, l) => IsFieldLetter(c) && l >= 1
    case Literal(c) => !IsFieldLetter(c)
  }

  predicate SameLetterRuns(a: FmtToken, b: FmtToken) {
    a.Field? && b.Field? && a.letter == b.letter
  }

  /** Every run is maximal: no two neighbouring runs share a letter. */
  predicate WellFormed(ts: seq<FmtToken>) {
    && (forall i :: 0 <= i < |ts| ==> TokenOk(ts[i]))
    && (forall i :: 1 <= i < |ts| ==> !SameLetterRuns(ts[i - 1], ts[i]))
  }

  lemma TokenizeHead(f: string)
    requires f != []
    ensures var ts := Tokenize(f); ts != [] && (ts[0].Field? ==> ts[0].letter == f[0])
  {
  }

  lemma {:induction false} TokenizeWellFormed(f: string)
    ensures WellFormed(Tokenize(f))
    decreases |f|
  {
    if f != [] {
      var ts := Tokenize(f);
      var n := if IsFieldLetter(f[0]) then RunLength(f, f[0]) else 1;
      var rest := Tokenize(f[n..]);
      TokenizeWellFormed(f[n..]);
      assert ts == [ts[0]] + rest;
      if f[n..] != [] {
        TokenizeHead(f[n..]);
        assert !SameLetterRuns(ts[0], ts[1]);
      }
      forall i | 1 <= i < |ts|
        ensures !SameLetterRuns(ts[i - 1], ts[i])
      {
        if i >= 2 {
          assert ts[i - 1] == rest[i - 2] && ts[i] == rest[i - 1];
        }
      }
    }
  }

  // ---------------------------------------------------------------------
  // The generated format string

  /** The character '0' + l that C stores for a width l, kept to 8 bits. */
  function WidthChar(l: nat): char {
    ((48 + l) % 256) as char
  }

  /** "%d" for a one-letter run, "%<l>d" for a longer one; other characters
      are copied. */
  function Render(t: FmtToken): string {
    match t
    case Field(_, l) => Conversion(l)
    case Literal(c) => [c]
  }

  function Conversion(l: nat): string {
    if l > 1 then ['%', WidthChar(l), 'd'] else ['%', 'd']
  }

  /** The generated format: the tokens' texts in order. */
  function RenderAll(ts: seq<FmtToken>): string {
    if ts == [] then [] else Render(ts[0]) + RenderAll(ts[1..])
  }

  lemma {:induction false} RenderAllAppend(a: seq<FmtToken>, b: seq<FmtToken>)
    ensures RenderAll(a + b) == RenderAll(a) + RenderAll(b)
    decreases |a|
  {
    if a == [] {
      assert a + b == b;
    } else {
      RenderAllAppend(a[1..], b);
      assert (a + b)[1..] == a[1..] + b;
    }
  }

  // ---------------------------------------------------------------------
  // The recorded positions and digit counts

  datatype Layout = Layout(pos: seq<int>, dig: seq<int>, count: nat)

  /** Before any run: every position -1. The C leaves the digit counts of
      absent fields uninitialised; they are 0 here. */
  const Unset: Layout := Layout([-1, -1, -1, -1, -1, -1], [0, 0, 0, 0, 0, 0], 0)

  predicate Sized(st: Layout) {
    |st.pos| == 6 && |st.dig| == 6
  }

  /** One token: a run of field k takes the next position and its width. */
  function Step(st: Layout, t: FmtToken): Layout
    requires Sized(st)
  {
    match t
    case Field(c, l) =>
      var k := LetterIndex(c);
      if k < 0 then st else Layout(st.pos[k := st.count], st.dig[k := l], st.count + 1)
    case Literal(_) => st
  }

  function Compile(ts: seq<FmtToken>): (st: Layout)
    ensures Sized(st)
  {
    if ts == [] then Unset else Step(Compile(ts[..|ts| - 1]), ts[|ts| - 1])
  }

  datatype FieldRun = FieldRun(letter: char, width: nat)

  /** The field runs of a token sequence, in order: the conversions of the
      generated format. */
  function Fields(ts: seq<FmtToken>): (fs: seq<FieldRun>)
    ensures forall j :: 0 <= j < |fs| ==> IsFieldLetter(fs[j].letter)
  {
    if ts == [] then [] else FieldOf(ts[0]) + Fields(ts[1..])
  }

  function FieldOf(t: FmtToken): seq<FieldRun> {
    if t.Field? && IsFieldLetter(t.letter) then [FieldRun(t.letter, t.width)] else []
  }

  lemma {:induction false} FieldsAppend(a: seq<FmtToken>, b: seq<FmtToken>)
    ensures Fields(a + b) == Fields(a) + Fields(b)
    decreases |a|
  {
    if a == [] {
      assert a + b == b;
    } else {
      FieldsAppend(a[1..], b);
      assert (a + b)[1..] == a[1..] + b;
    }
  }

  /** What the layout records about field k: -1 when no run has that letter,
      otherwise the index of the last such run and its width. */
  predicate RecordsField(st: Layout, fs: seq<FieldRun>, k: int)
    requires Sized(st) && 0 <= k < 6
  {
    || (st.pos[k] == -1 && forall j :: 0 <= j < |fs| ==> LetterIndex(fs[j].letter) != k)
    || (&& 0 <= st.pos[k] < |fs| && LetterIndex(fs[st.pos[k]].letter) == k
        && st.dig[k] == fs[st.pos[k]].width
        && forall j :: st.pos[k] < j < |fs| ==> LetterIndex(fs[j].letter) != k)
  }

  predicate Describes(st: Layout, fs: seq<FieldRun>)
    requires Sized(st)
  {
    st.count == |fs| && forall k :: 0 <= k < 6 ==> RecordsField(st, fs, k)
  }

  lemma {:induction false} CompileDescribes(ts: seq<FmtToken>)
    ensures Describes(Compile(ts), Fields(ts))
    decreases |ts|
  {
    if ts != [] {
      var init := ts[..|ts| - 1];
      var t := ts[|ts| - 1];
      CompileDescribes(init);
      var st := Compile(init);
      var fs := Fields(init);
      assert ts == init + [t];
      FieldsAppend(init, [t]);
      assert Fields([t]) == FieldOf(t) by {
        assert [t][1..] == [];
      }
      if t.Field? && IsFieldLetter(t.letter) {
        var k0 := LetterIndex(t.letter);
        var fs' := fs + [FieldRun(t.letter, t.width)];
        var st' := Compile(ts);
        assert st' == Layout(st.pos[k0 := st.count], st.dig[k0 := t.width], st.count + 1);
        assert Fields(ts) == fs';
        forall k | 0 <= k < 6
          ensures RecordsField(st', fs', k)
        {
          assert RecordsField(st, fs, k);
          if k != k0 {
            assert st'.pos[k] == st.pos[k] && st'.dig[k] == st.dig[k];
            assert LetterIndex(fs'[|fs|].letter) != k;
            if st.pos[k] != -1 {
              assert fs'[st.pos[k]] == fs[st.pos[k]];
            }
          } else {
            assert fs'[|fs|] == FieldRun(t.letter, t.width);
          }
        }
      } else {
        assert Compile(ts) == st;
        assert Fields(ts) == fs + [] == fs;
      }
    }
  }

  // ---------------------------------------------------------------------
  // decode_time_format

  datatype TimeFmt = TimeFmt(pos: seq<int>, dig: seq<int>, fmt: string)

  /** What decode_time_format computes, as a function of the pattern. */
  function Decoded(pattern: string): (tf: TimeFmt)
    ensures |tf.pos| == 6 && |tf.dig| == 6
  {
    var ts := Tokenize(pattern);
    var st := Compile(ts);
    TimeFmt(st.pos, st.dig, RenderAll(ts))
  }

  /** The size of the C's format buffer; the generated format and its
      terminator must fit. */
  const FmtBufSize := 80

  /** decode_time_format: one pass over the pattern, writing the format into
      an 80-character buffer and recording each run's position and width. */
  method DecodeTimeFormat(pattern: string) returns (tf: TimeFmt)
    requires |RenderAll(Tokenize(pattern))| < FmtBufSize
    ensures tf == Decoded(pattern)
  {
    var buf := new char[FmtBufSize];
    var n := 0;
    var pos := [-1, -1, -1, -1, -1, -1];
    var dig := [0, 0, 0, 0, 0, 0];
    var count := 0;
    var i := 0;
    ghost var done: seq<FmtToken> := [];
    ghost var total := Tokenize(pattern);
    while i < |pattern|
      invariant 0 <= i <= |pattern|
      invariant total == done + Tokenize(pattern[i..])
      invariant n == |RenderAll(done)| && n < FmtBufSize
      invariant buf[..n] == RenderAll(done)
      invariant Layout(pos, dig, count) == Compile(done)
      decreases |pattern| - i
    {
      i, n, pos, dig, count, done := DecodeNext(pattern, i, buf, n, pos, dig, count, done, total);
    }
    assert pattern[i..] == [];
    assert done == total;
    tf := TimeFmt(pos, dig, buf[..n]);
  }

  /** One iteration of decode_time_format's loop: the token at i is
      written to the buffer (followed by the terminator) and recorded. */
  method DecodeNext(pattern: string, i: nat, buf: array<char>, n: nat,
                    pos: seq<int>, dig: seq<int>, count: nat,
                    ghost done: seq<FmtToken>, ghost total: seq<FmtToken>)
    returns (next: nat, n': nat, pos': seq<int>, dig': seq<int>, count': nat,
             ghost done': seq<FmtToken>)
    requires i < |pattern| && buf.Length == FmtBufSize
    requires total == done + Tokenize(pattern[i..]) && |RenderAll(total)| < FmtBufSize
    requires n == |RenderAll(done)| && n < FmtBufSize && buf[..n] == RenderAll(done)
    requires Layout(pos, dig, count) == Compile(done)
    modifies buf
    ensures i < next <= |pattern|
    ensures total == done' + Tokenize(pattern[next..])
    ensures n' == |RenderAll(done')| && n' < FmtBufSize && buf[..n'] == RenderAll(done')
    ensures Layout(pos', dig', count') == Compile(done')
  {
    var c := pattern[i];
    ghost var tok: FmtToken;
    if IsFieldLetter(c) {
      var l;
      next, l := ScanRun(pattern, i);
      tok := Field(c, l);
      TokenStep(total, done, tok, Tokenize(pattern[next..]));
      n' := PutConversion(buf, n, l);
      pos', dig', count' := Record(pos, dig, count, c, l);
    } else {
      next := i + 1;
      tok := Literal(c);
      LiteralToken(pattern, i);
      TokenStep(total, done, tok, Tokenize(pattern[next..]));
      n' := Put(buf, n, c);
      pos', dig', count' := pos, dig, count;
    }
    buf[n'] := '\0';
    done' := done + [tok];
  }

  /** The inner loop of decode_time_format: how far the run of the letter at
      i extends. Returns the index after the run and its length. */
  method ScanRun(pattern: string, i: nat) returns (next: nat, l: nat)
    requires i < |pattern| && IsFieldLetter(pattern[i])
    ensures next == i + l && next <= |pattern| && l == RunLength(pattern[i..], pattern[i])
    ensures Tokenize(pattern[i..]) == [Field(pattern[i], l)] + Tokenize(pattern[next..])
  {
    var c := pattern[i];
    var j := i;
    l := 1;
    while j + 1 < |pattern| && pattern[j + 1] == c
      invariant i <= j < |pattern| && l == j - i + 1
      invariant forall m :: i <= m <= j ==> pattern[m] == c
      decreases |pattern| - j
    {
      j := j + 1;
      l := l + 1;
    }
    next := j + 1;
    assert next == i + l && (next == |pattern| || pattern[next] != c);
    FieldToken(pattern, i, l);
  }

  /** The inner switch of decode_time_format: field c gets the next
      position and the run's length as its digit count. */
  method Record(pos: seq<int>, dig: seq<int>, count: nat, c: char, l: nat)
    returns (pos': seq<int>, dig': seq<int>, count': nat)
    requires |pos| == 6 && |dig| == 6 && IsFieldLetter(c)
    ensures Layout(pos', dig', count') == Step(Layout(pos, dig, count), Field(c, l))
  {
    var k := LetterIndex(c);
    pos' := pos[k := count];
    dig' := dig[k := l];
    count' := count + 1;
  }

  /** *s++ = '%'; if (l > 1) *s++ = '0' + l; *s++ = 'd' */
  method PutConversion(buf: array<char>, n: nat, l: nat) returns (n': nat)
    requires n + |Conversion(l)| < buf.Length
    modifies buf
    ensures n' == n + |Conversion(l)| && buf[..n'] == old(buf[..n]) + Conversion(l)
  {
    n' := Put(buf, n, '%');
    if l > 1 {
      n' := Put(buf, n', WidthChar(l));
    }
    n' := Put(buf, n', 'd');
  }

  /** *s++ = c */
  method Put(buf: array<char>, n: nat, c: char) returns (n': nat)
    requires n < buf.Length
    modifies buf
    ensures n' == n + 1 && buf[..n'] == old(buf[..n]) + [c]
  {
    buf[n] := c;
    n' := n + 1;
  }

  /** Any other character is a token of its own. */
  lemma LiteralToken(pattern: string, i: nat)
    requires i < |pattern| && !IsFieldLetter(pattern[i])
    ensures Tokenize(pattern[i..]) == [Literal(pattern[i])] + Tokenize(pattern[i + 1..])
  {
    assert pattern[i..][1..] == pattern[i + 1..];
  }

  /** A run of l copies of a field letter at start is one token. */
  lemma FieldToken(pattern: string, start: nat, l: nat)
    requires 1 <= l && start + l <= |pattern| && IsFieldLetter(pattern[start])
    requires forall j :: start <= j < start + l ==> pattern[j] == pattern[start]
    requires start + l == |pattern| || pattern[start + l] != pattern[start]
    ensures RunLength(pattern[start..], pattern[start]) == l
    ensures Tokenize(pattern[start..]) == [Field(pattern[start], l)] + Tokenize(pattern[start + l..])
  {
    var f := pattern[start..];
    RunLengthPrefix(f, pattern[start], l);
    assert f[l..] == pattern[start + l..];
  }

  /** Taking one more token keeps the loop's bookkeeping: the tokens are
      split between the done part and the rest, the next token's text fits
      in the buffer, and rendering and compiling extend by that token. */
  lemma TokenStep(total: seq<FmtToken>, done: seq<FmtToken>, tok: FmtToken, rest: seq<FmtToken>)
    requires total == done + ([tok] + rest) && |RenderAll(total)| < FmtBufSize
    ensures total == (done + [tok]) + rest
    ensures |RenderAll(done)| + |Render(tok)| < FmtBufSize
    ensures RenderAll(done + [tok]) == RenderAll(done) + Render(tok)
    ensures Compile(done + [tok]) == Step(Compile(done), tok)
  {
    assert total == (done + [tok]) + rest;
    FitsInBuffer(total, done, [tok] + rest);
    RenderSnoc(done, tok);
    CompileSnoc(done, tok);
  }

  lemma RenderSnoc(done: seq<FmtToken>, tok: FmtToken)
    ensures RenderAll(done + [tok]) == RenderAll(done) + Render(tok)
  {
    RenderAllAppend(done, [tok]);
    assert [tok][1..] == [];
    assert RenderAll([tok]) == Render(tok) + RenderAll([]);
  }

  lemma CompileSnoc(done: seq<FmtToken>, tok: FmtToken)
    ensures Compile(done + [tok]) == Step(Compile(done), tok)
  {
    assert (done + [tok])[..|done|] == done;
  }

  lemma {:induction false} RunLengthPrefix(f: string, c: char, l: nat)
    requires 1 <= l <= |f| && (forall j :: 0 <= j < l ==> f[j] == c) && (l == |f| || f[l] != c)
    ensures RunLength(f, c) == l
    decreases l
  {
    if l > 1 {
      RunLengthPrefix(f[1..], c, l - 1);
    } else if |f| > 1 {
      assert f[1..][0] == f[1];
    }
  }

  /** The next token's text and its terminator still fit in the buffer. */
  lemma FitsInBuffer(total: seq<FmtToken>, done: seq<FmtToken>, rest: seq<FmtToken>)
    requires total == done + rest && rest != [] && |RenderAll(total)| < FmtBufSize
    ensures |RenderAll(done)| + |Render(rest[0])| < FmtBufSize
  {
    RenderAllAppend(done, rest);
  }

  // ---------------------------------------------------------------------
  // What a decoded pattern records

  /** The first character a token spells. */
  function Initial(t: FmtToken): char {
    match t
    case Field(c, _) => c
    case Literal(c) => c
  }

  lemma SourceHead(ts: seq<FmtToken>)
    requires ts != [] && TokenOk(ts[0])
    ensures Source(ts) != [] && Source(ts)[0] == Initial(ts[0])
  {
  }

  /** Tokenizing is one-to-one: a sequence of well-formed tokens (maximal
      runs, single other characters) is the tokenization of its spelling. */
  lemma {:induction false} TokenizeSource(ts: seq<FmtToken>)
    requires WellFormed(ts)
    ensures Tokenize(Source(ts)) == ts
    decreases |ts|
  {
    if ts != [] {
      var t := ts[0];
      var rest := ts[1..];
      var f := Source(ts);
      assert WellFormed(rest) by {
        forall i | 1 <= i < |rest|
          ensures !SameLetterRuns(rest[i - 1], rest[i])
        {
          assert rest[i - 1] == ts[i] && rest[i] == ts[i + 1];
        }
      }
      TokenizeSource(rest);
      assert f == Spelling(t) + Source(rest);
      match t
      case Literal(c) =>
        assert f[1..] == Source(rest);
      case Field(c, l) =>
        if rest != [] {
          SourceHead(rest);
          assert f[l] == Source(rest)[0];
          assert !SameLetterRuns(ts[0], ts[1]);
        }
        RepeatAt(c, l);
        RunLengthPrefix(f, c, l);
        assert f[l..] == Source(rest);
    }
  }

  /** Field k has a run in fs. */
  predicate HasRun(fs: seq<FieldRun>, k: int) {
    exists j :: 0 <= j < |fs| && LetterIndex(fs[j].letter) == k
  }

  /** The only run of field k's letter is the j-th: its conversion is the
      j-th and its width is the field's digit count. */
  lemma CompileField(ts: seq<FmtToken>, k: int, j: int)
    requires 0 <= k < 6
    requires var fs := Fields(ts);
      && 0 <= j < |fs| && LetterIndex(fs[j].letter) == k
      && forall i :: 0 <= i < |fs| && i != j ==> LetterIndex(fs[i].letter) != k
    ensures Compile(ts).pos[k] == j && Compile(ts).dig[k] == Fields(ts)[j].width
  {
    CompileDescribes(ts);
    assert RecordsField(Compile(ts), Fields(ts), k);
  }

  /** No two runs are of the same field. */
  predicate DistinctLetters(fs: seq<FieldRun>) {
    forall i, j :: 0 <= i < j < |fs| ==> LetterIndex(fs[i].letter) != LetterIndex(fs[j].letter)
  }

  /** When no field has two runs, each run's field is recorded at the run's
      own position, with the run's width. */
  lemma CompileDistinct(ts: seq<FmtToken>)
    requires DistinctLetters(Fields(ts))
    ensures var fs := Fields(ts); var st := Compile(ts);
      forall j :: 0 <= j < |fs| ==>
        0 <= LetterIndex(fs[j].letter) < 6 && st.pos[LetterIndex(fs[j].letter)] == j && st.dig[LetterIndex(fs[j].letter)] == fs[j].width
  {
    var fs := Fields(ts);
    forall j | 0 <= j < |fs|
      ensures 0 <= LetterIndex(fs[j].letter) < 6
      ensures Compile(ts).pos[LetterIndex(fs[j].letter)] == j && Compile(ts).dig[LetterIndex(fs[j].letter)] == fs[j].width
    {
      CompileField(ts, LetterIndex(fs[j].letter), j);
    }
  }

  /** A field whose letter does not occur has position -1. */
  lemma CompileAbsent(ts: seq<FmtToken>, k: int)
    requires 0 <= k < 6 && !HasRun(Fields(ts), k)
    ensures Compile(ts).pos[k] == -1
  {
    CompileDescribes(ts);
    var st := Compile(ts);
    var fs := Fields(ts);
    assert RecordsField(st, fs, k);
    if st.pos[k] != -1 {
      assert LetterIndex(fs[st.pos[k]].letter) == k;
      assert HasRun(fs, k);
    }
  }

  /** A pattern with at most six runs has every position in -1..5. */
  lemma DecodedInRange(pattern: string)
    requires |Fields(Tokenize(pattern))| <= 6
    ensures PositionsInRange(Decoded(pattern))
  {
    var ts := Tokenize(pattern);
    CompileDescribes(ts);
    var st := Compile(ts);
    forall k | 0 <= k < 6
      ensures -1 <= st.pos[k] < 6
    {
      assert RecordsField(st, Fields(ts), k);
    }
  }

  /** The six conversions carry the six fields, one each. */
  predicate Permutation(tf: TimeFmt) {
    && |tf.pos| == 6
    && (forall k :: 0 <= k < 6 ==> 0 <= tf.pos[k] < 6)
    && (forall k1, k2 :: 0 <= k1 < k2 < 6 ==> tf.pos[k1] != tf.pos[k2])
    && (forall i :: 0 <= i < 6 ==> Covers(tf.pos, i))
  }

  predicate Covers(p: seq<int>, i: int) {
    exists k :: 0 <= k < |p| && p[k] == i
  }

  /** A pattern whose six runs carry the six letters once each decodes to
      a layout that routes every field to its own conversion. */
  lemma DecodedPermutation(pattern: string)
    requires var fs := Fields(Tokenize(pattern));
      && |fs| == 6
      && (forall k :: 0 <= k < 6 ==> HasRun(fs, k))
      && (forall i, j :: 0 <= i < j < 6 ==> LetterIndex(fs[i].letter) != LetterIndex(fs[j].letter))
    ensures Permutation(Decoded(pattern))
  {
    var ts := Tokenize(pattern);
    CompileDescribes(ts);
    var st := Compile(ts);
    var fs := Fields(ts);
    forall k | 0 <= k < 6
      ensures 0 <= st.pos[k] < 6 && LetterIndex(fs[st.pos[k]].letter) == k
    {
      assert RecordsField(st, fs, k);
      assert HasRun(fs, k);
    }
    forall i | 0 <= i < 6
      ensures Covers(st.pos, i)
    {
      var k := LetterIndex(fs[i].letter);
      assert RecordsField(st, fs, k);
      assert st.pos[k] == i;
    }
  }

  /** "YYYY-MM-DD" and "hh:mm", the parts of the two patterns below. */
  const DatePattern := "YYYY-MM-DD"
  const ClockPattern := "hh:mm"

  /** "YYYY-MM-DD hh:mm:ss" */
  const StandardPattern := DatePattern + " " + ClockPattern + ":ss"

  /** "%4d-%2d-%2d %2d:%2d:%2d", the format of read_time_string and
      write_time_string. */
  const StandardFormatString := "%4d-%2d-%2d" + " " + "%2d:%2d" + ":%2d"

  lemma ConversionTwo()
    ensures Conversion(2) == "%2d"
  {
    assert WidthChar(2) == '2';
  }

  lemma ConversionFour()
    ensures Conversion(4) == "%4d"
  {
    assert WidthChar(4) == '4';
  }

  /** The date part "YYYY-MM-DD" and the clock part "hh:mm" of the two
      patterns below. */
  const DateTokens := [Field('Y', 4), Literal('-'), Field('M', 2), Literal('-'), Field('D', 2)]
  const ClockTokens := [Field('h', 2), Literal(':'), Field('m', 2)]

  const SecondsTokens := [Literal(':'), Field('s', 2)]
  const SpaceTokens := [Literal(' ')]

  /** The field runs of each piece. */
  const DateFields := [FieldRun('Y', 4), FieldRun('M', 2), FieldRun('D', 2)]
  const ClockFields := [FieldRun('h', 2), FieldRun('m', 2)]
  const SecondsFields := [FieldRun('s', 2)]

  const StandardTokens := DateTokens + SpaceTokens + ClockTokens + SecondsTokens

  lemma {:induction false} SourceAppend(a: seq<FmtToken>, b: seq<FmtToken>)
    ensures Source(a + b) == Source(a) + Source(b)
    decreases |a|
  {
    if a == [] {
      assert a + b == b;
    } else {
      SourceAppend(a[1..], b);
      assert (a + b)[0] == a[0] && (a + b)[1..] == a[1..] + b;
      var x, y, z := Spelling(a[0]), Source(a[1..]), Source(b);
      assert Source(a + b) == x + (y + z);
      assert x + (y + z) == (x + y) + z;
    }
  }

  /** Two well-formed token sequences stay well formed side by side when
      the seam does not join two runs of one letter. */
  lemma WellFormedAppend(a: seq<FmtToken>, b: seq<FmtToken>)
    requires WellFormed(a) && WellFormed(b)
    requires a != [] && b != [] && !SameLetterRuns(a[|a| - 1], b[0])
    ensures WellFormed(a + b)
  {
    var ab := a + b;
    forall i | 1 <= i < |ab|
      ensures !SameLetterRuns(ab[i - 1], ab[i])
    {
      if i < |a| {
        assert ab[i - 1] == a[i - 1] && ab[i] == a[i];
      } else if i > |a| {
        assert ab[i - 1] == b[i - 1 - |a|] && ab[i] == b[i - |a|];
      }
    }
  }

  /** The pieces of the fixed patterns, one property at a time. */
  lemma PiecesWellFormed()
    ensures WellFormed(DateTokens) && WellFormed(ClockTokens)
    ensures WellFormed(SecondsTokens) && WellFormed(SpaceTokens)
  {
  }

  lemma PiecesSpelling()
    ensures Source(DateTokens) == DatePattern && Source(ClockTokens) == ClockPattern
    ensures Source(SecondsTokens) == ":ss" && Source(SpaceTokens) == " "
  {
    DateSpelling();
    ClockSpelling();
    assert Repeat('s', 2) == "ss";
  }

  lemma DateSpelling()
    ensures Source(DateTokens) == DatePattern
  {
    assert Repeat('Y', 4) == "YYYY" && Repeat('M', 2) == "MM" && Repeat('D', 2) == "DD";
  }

  lemma ClockSpelling()
    ensures Source(ClockTokens) == ClockPattern
  {
    assert Repeat('h', 2) == "hh" && Repeat('m', 2) == "mm";
  }

  lemma PiecesRuns()
    ensures Fields(DateTokens) == DateFields && Fields(ClockTokens) == ClockFields
    ensures Fields(SecondsTokens) == SecondsFields && Fields(SpaceTokens) == []
  {
  }

  lemma PiecesFormat()
    ensures RenderAll(DateTokens) == "%4d-%2d-%2d" && RenderAll(ClockTokens) == "%2d:%2d"
    ensures RenderAll(SecondsTokens) == ":%2d" && RenderAll(SpaceTokens) == " "
  {
    ConversionTwo();
    ConversionFour();
  }

  lemma StandardWellFormed()
    ensures WellFormed(StandardTokens)
  {
    PiecesWellFormed();
    var a := DateTokens + SpaceTokens;
    WellFormedAppend(DateTokens, SpaceTokens);
    WellFormedAppend(a, ClockTokens);
    WellFormedAppend(a + ClockTokens, SecondsTokens);
  }

  lemma StandardSpelling()
    ensures Source(StandardTokens) == StandardPattern
  {
    PiecesSpelling();
    var a := DateTokens + SpaceTokens;
    SourceAppend(DateTokens, SpaceTokens);
    SourceAppend(a, ClockTokens);
    SourceAppend(a + ClockTokens, SecondsTokens);
  }

  lemma StandardTokenize()
    ensures Tokenize(StandardPattern) == StandardTokens
  {
    StandardWellFormed();
    StandardSpelling();
    TokenizeSource(StandardTokens);
  }

  lemma StandardRuns()
    ensures Fields(StandardTokens) == DateFields + ClockFields + SecondsFields
  {
    PiecesRuns();
    var a := DateTokens + SpaceTokens;
    FieldsAppend(DateTokens, SpaceTokens);
    FieldsAppend(a, ClockTokens);
    FieldsAppend(a + ClockTokens, SecondsTokens);
    assert DateFields + [] == DateFields;
  }

  lemma StandardFormat()
    ensures RenderAll(StandardTokens) == StandardFormatString
  {
    PiecesFormat();
    var a := DateTokens + SpaceTokens;
    RenderAllAppend(DateTokens, SpaceTokens);
    RenderAllAppend(a, ClockTokens);
    RenderAllAppend(a + ClockTokens, SecondsTokens);
  }

  lemma StandardDistinct()
    ensures DistinctLetters(Fields(StandardTokens))
  {
    StandardRuns();
    var fs := Fields(StandardTokens);
    forall i, j | 0 <= i < j < |fs|
      ensures LetterIndex(fs[i].letter) != LetterIndex(fs[j].letter)
    {
      assert LetterIndex(fs[i].letter) == i && LetterIndex(fs[j].letter) == j;
    }
  }

  lemma StandardLayout()
    ensures Compile(StandardTokens).pos == [0, 1, 2, 3, 4, 5]
    ensures Compile(StandardTokens).dig == [4, 2, 2, 2, 2, 2]
  {
    StandardRuns();
    StandardDistinct();
    var fs := Fields(StandardTokens);
    CompileDistinct(StandardTokens);
    var st := Compile(StandardTokens);
    forall k | 0 <= k < 6
      ensures st.pos[k] == k && st.dig[k] == fs[k].width
    {
      assert LetterIndex(fs[k].letter) == k;
    }
    assert st.pos == [0, 1, 2, 3, 4, 5];
    assert st.dig == [4, 2, 2, 2, 2, 2];
  }

  /** The pattern of the fixed time string decodes to the fixed format of
      read_time_string and write_time_string, with the fields in order. */
  lemma DecodedStandard()
    ensures Decoded(StandardPattern)
         == TimeFmt([0, 1, 2, 3, 4, 5], [4, 2, 2, 2, 2, 2], StandardFormatString)
  {
    StandardTokenize();
    StandardLayout();
    StandardFormat();
  }

  /** "hh:mm YYYY-MM-DD" */
  const ClockFirstPattern := ClockPattern + " " + DatePattern

  const ClockFirstTokens := ClockTokens + SpaceTokens + DateTokens

  lemma ClockFirstWellFormed()
    ensures WellFormed(ClockFirstTokens)
  {
    PiecesWellFormed();
    WellFormedAppend(ClockTokens, SpaceTokens);
    WellFormedAppend(ClockTokens + SpaceTokens, DateTokens);
  }

  lemma ClockFirstSpelling()
    ensures Source(ClockFirstTokens) == ClockFirstPattern
  {
    PiecesSpelling();
    SourceAppend(ClockTokens, SpaceTokens);
    SourceAppend(ClockTokens + SpaceTokens, DateTokens);
  }

  lemma ClockFirstTokenize()
    ensures Tokenize(ClockFirstPattern) == ClockFirstTokens
  {
    ClockFirstWellFormed();
    ClockFirstSpelling();
    TokenizeSource(ClockFirstTokens);
  }

  lemma ClockFirstRuns()
    ensures Fields(ClockFirstTokens) == ClockFields + DateFields
  {
    PiecesRuns();
    FieldsAppend(ClockTokens, SpaceTokens);
    FieldsAppend(ClockTokens + SpaceTokens, DateTokens);
    assert ClockFields + [] == ClockFields;
  }

  lemma ClockFirstDistinct()
    ensures DistinctLetters(Fields(ClockFirstTokens))
    ensures !HasRun(Fields(ClockFirstTokens), 5)
  {
    ClockFirstRuns();
    var fs := Fields(ClockFirstTokens);
    var at := [3, 4, 0, 1, 2];
    assert forall j :: 0 <= j < 5 ==> LetterIndex(fs[j].letter) == at[j];
  }

  lemma ClockFirstLayout()
    ensures Compile(ClockFirstTokens).pos == [2, 3, 4, 0, 1, -1]
  {
    ClockFirstRuns();
    ClockFirstDistinct();
    var fs := Fields(ClockFirstTokens);
    CompileDistinct(ClockFirstTokens);
    CompileAbsent(ClockFirstTokens, 5);
    var st := Compile(ClockFirstTokens);
    assert LetterIndex(fs[0].letter) == 3 && st.pos[3] == 0;
    assert LetterIndex(fs[1].letter) == 4 && st.pos[4] == 1;
    assert LetterIndex(fs[2].letter) == 0 && st.pos[0] == 2;
    assert LetterIndex(fs[3].letter) == 1 && st.pos[1] == 3;
    assert LetterIndex(fs[4].letter) == 2 && st.pos[2] == 4;
  }

  /** "hh:mm YYYY-MM-DD" routes the year, month and day to the third,
      fourth and fifth conversions, the clock to the first two, and has no
      seconds. */
  lemma DecodedClockFirst()
    ensures Decoded(ClockFirstPattern).pos == [2, 3, 4, 0, 1, -1]
  {
    ClockFirstTokenize();
    ClockFirstLayout();
  }

  // ---------------------------------------------------------------------
  // read_time_formatted and write_time_formatted

  /** Every position is one the code may index with: -1 stands for vals[0]. */
  predicate PositionsInRange(tf: TimeFmt) {
    |tf.pos| == 6 && forall k :: 0 <= k < 6 ==> -1 <= tf.pos[k] < 6
  }

  /** Slot p holds a value once sscanf has stored it there; position -1 is
      vals[0], which always holds 0. */
  predicate Stored(got: seq<int>, p: int) {
    p == -1 || 0 <= p < |got|
  }

  function SlotValue(got: seq<int>, p: int): int
    requires Stored(got, p)
  {
    if p == -1 then 0 else got[p]
  }

  /** The slots read for the day when n > 2, and for the seconds when n > 4
      and n > 5, were all stored by sscanf. */
  predicate ReadsStored(tf: TimeFmt, got: seq<int>)
    requires PositionsInRange(tf)
  {
    var n := |got|;
    && (n > 2 ==> Stored(got, tf.pos[0]) && Stored(got, tf.pos[1]) && Stored(got, tf.pos[2]))
    && (n > 4 ==> Stored(got, tf.pos[3]) && Stored(got, tf.pos[4]))
    && (n > 5 ==> Stored(got, tf.pos[5]))
  }

  /** read_time_formatted as written. got holds the values sscanf stored,
      so n is |got|; the day is computed when n > 2 and the seconds when
      n > 4 (with the seconds field when n > 5), whatever the order of the
      fields. None when that reads a slot sscanf left uninitialised. */
  function ReadTimeFormatted(tf: TimeFmt, got: seq<int>): (r: Option<Moment>)
    requires PositionsInRange(tf) && |got| <= 6
    ensures r.Some? <==> ReadsStored(tf, got)
  {
    if !ReadsStored(tf, got) then None
    else
      var n := |got|;
      var p := tf.pos;
      var jul := if n > 2 then JulianDay(SlotValue(got, p[0]), SlotValue(got, p[1]), SlotValue(got, p[2])) else 0;
      var secs := if n > 4 then 3600 * SlotValue(got, p[3]) + 60 * SlotValue(got, p[4]) else 0;
      Some(Moment(jul, if n > 5 then secs + SlotValue(got, p[5]) else secs))
  }

  /** With the clock before the date, a short input makes
      read_time_formatted read slots sscanf never stored: for
      "hh:mm YYYY-MM-DD" and the input "12:30 2020", n is 3 and the month
      and day come from uninitialised slots. */
  lemma ReadTimeFormattedUninitialised()
    ensures PositionsInRange(Decoded(ClockFirstPattern))
    ensures ReadTimeFormatted(Decoded(ClockFirstPattern), [12, 30, 2020]) == None
  {
    DecodedClockFirst();
    ReadClockFirst(Decoded(ClockFirstPattern));
  }

  lemma ReadClockFirst(tf: TimeFmt)
    requires tf.pos == [2, 3, 4, 0, 1, -1]
    ensures PositionsInRange(tf) && ReadTimeFormatted(tf, [12, 30, 2020]) == None
  {
    assert !Stored([12, 30, 2020], tf.pos[1]);
  }

  /** read_time_formatted with the guards it evidently intends: a value is
      used only once sscanf has stored its slot. */
  function ReadTimeFormattedChecked(tf: TimeFmt, got: seq<int>): Moment
    requires PositionsInRange(tf) && |got| <= 6
  {
    var n := |got|;
    var p := tf.pos;
    var jul :=
      if n > 2 && Stored(got, p[0]) && Stored(got, p[1]) && Stored(got, p[2])
      then JulianDay(SlotValue(got, p[0]), SlotValue(got, p[1]), SlotValue(got, p[2])) else 0;
    var secs :=
      if n > 4 && Stored(got, p[3]) && Stored(got, p[4])
      then 3600 * SlotValue(got, p[3]) + 60 * SlotValue(got, p[4]) else 0;
    Moment(jul, if n > 5 && Stored(got, p[5]) then secs + SlotValue(got, p[5]) else secs)
  }

  /** The checked version differs only where the code as written reads an
      uninitialised slot; with the fields in the standard order the code as
      written never does, whatever sscanf stored. */
  lemma ReadTimeFormattedCheckedAgrees(tf: TimeFmt, got: seq<int>)
    requires PositionsInRange(tf) && |got| <= 6
    ensures ReadsStored(tf, got) ==> ReadTimeFormatted(tf, got) == Some(ReadTimeFormattedChecked(tf, got))
    ensures tf.pos == [0, 1, 2, 3, 4, 5] ==> ReadsStored(tf, got)
  {
  }

  /** The values the six fields take: year, month, day, hours, minutes and
      seconds. */
  function FieldValues(jul: int, secs: int): (vs: seq<int>)
    ensures |vs| == 6
  {
    var d := CalendarDate(jul);
    var c := SplitSeconds(secs);
    [d.year, d.month, d.day, c.hh, c.min, c.ss]
  }

  /** Slot p of the arguments after storing x there; -1 is vals[0], which
      is not among the arguments. */
  function Store(a: seq<Option<int>>, p: int, x: int): (b: seq<Option<int>>)
    requires |a| == 6 && -1 <= p < 6
    ensures |b| == 6
  {
    if p == -1 then a else a[p := Some(x)]
  }

  /** The six arguments after storing the seconds, minutes, hours, day,
      month and year at their positions, in that order (a later store wins);
      None marks a slot left uninitialised. */
  function Route(p: seq<int>, vs: seq<int>): (args: seq<Option<int>>)
    requires |p| == 6 && |vs| == 6 && forall k :: 0 <= k < 6 ==> -1 <= p[k] < 6
    ensures |args| == 6
  {
    var a0 := [None, None, None, None, None, None];
    var a1 := Store(a0, p[5], vs[5]);
    var a2 := Store(a1, p[4], vs[4]);
    var a3 := Store(a2, p[3], vs[3]);
    var a4 := Store(a3, p[2], vs[2]);
    var a5 := Store(a4, p[1], vs[1]);
    Store(a5, p[0], vs[0])
  }

  /** write_time_formatted: the arguments it hands to sprintf with the
      decoded format. */
  function WriteTimeFormattedArgs(tf: TimeFmt, jul: int, secs: int): (args: seq<Option<int>>)
    requires PositionsInRange(tf)
    ensures |args| == 6
  {
    Route(tf.pos, FieldValues(jul, secs))
  }

  /** With one conversion per field, every argument is stored, and the
      argument at field k's position is field k's value. */
  lemma RouteAt(p: seq<int>, vs: seq<int>)
    requires |vs| == 6 && Permutation(TimeFmt(p, [], []))
    ensures var args := Route(p, vs);
      && (forall i :: 0 <= i < 6 ==> args[i].Some?)
      && (forall k :: 0 <= k < 6 ==> args[p[k]] == Some(vs[k]))
  {
    forall k | 0 <= k < 6
      ensures Route(p, vs)[p[k]] == Some(vs[k])
    {
      RouteField(p, vs, k);
    }
    forall i | 0 <= i < 6
      ensures Route(p, vs)[i].Some?
    {
      assert Covers(p, i);
      var k :| 0 <= k < 6 && p[k] == i;
      RouteField(p, vs, k);
    }
  }

  lemma RouteField(p: seq<int>, vs: seq<int>, k: int)
    requires |vs| == 6 && Permutation(TimeFmt(p, [], [])) && 0 <= k < 6
    ensures Route(p, vs)[p[k]] == Some(vs[k])
  {
    RouteSlot(p, vs, p[k]);
    FirstRouted(p, vs, k);
  }

  /** The value of the first field routed to argument i. */
  function FirstRoutedTo(p: seq<int>, vs: seq<int>, i: int): Option<int>
    requires |p| == 6 && |vs| == 6
  {
    if p[0] == i then Some(vs[0]) else if p[1] == i then Some(vs[1])
    else if p[2] == i then Some(vs[2]) else if p[3] == i then Some(vs[3])
    else if p[4] == i then Some(vs[4]) else if p[5] == i then Some(vs[5]) else None
  }

  lemma FirstRouted(p: seq<int>, vs: seq<int>, k: int)
    requires |p| == 6 && |vs| == 6 && 0 <= k < 6
    requires forall k1, k2 :: 0 <= k1 < k2 < 6 ==> p[k1] != p[k2]
    ensures FirstRoutedTo(p, vs, p[k]) == Some(vs[k])
  {
    if k == 1 {
      assert p[0] != p[1];
    } else if k == 2 {
      assert p[0] != p[2] && p[1] != p[2];
    } else if k == 3 {
      assert p[0] != p[3] && p[1] != p[3] && p[2] != p[3];
    } else if k == 4 {
      assert p[0] != p[4] && p[1] != p[4] && p[2] != p[4] && p[3] != p[4];
    } else if k == 5 {
      assert p[0] != p[5] && p[1] != p[5] && p[2] != p[5] && p[3] != p[5] && p[4] != p[5];
    }
  }

  /** Argument i holds the value of the first field (in the order year,
      month, day, hours, minutes, seconds) routed to it: that store comes
      last. */
  lemma RouteSlot(p: seq<int>, vs: seq<int>, i: int)
    requires |p| == 6 && |vs| == 6 && (forall k :: 0 <= k < 6 ==> -1 <= p[k] < 6) && 0 <= i < 6
    ensures Route(p, vs)[i] == FirstRoutedTo(p, vs, i)
  {
    var a0: seq<Option<int>> := [None, None, None, None, None, None];
    var a1 := Store(a0, p[5], vs[5]);
    var a2 := Store(a1, p[4], vs[4]);
    var a3 := Store(a2, p[3], vs[3]);
    var a4 := Store(a3, p[2], vs[2]);
    var a5 := Store(a4, p[1], vs[1]);
    assert Route(p, vs) == Store(a5, p[0], vs[0]);
  }

  function Values(args: seq<Option<int>>): (vs: seq<int>)
    requires forall i :: 0 <= i < |args| ==> args[i].Some?
    ensures |vs| == |args| && forall i :: 0 <= i < |args| ==> args[i] == Some(vs[i])
  {
    if args == [] then [] else [args[0].value] + Values(args[1..])
  }

  /** Reading six values routed by a layout with one conversion per field
      gives back the day and the seconds they stand for. */
  lemma ReadRouted(tf: TimeFmt, vs: seq<int>)
    requires Permutation(tf) && |vs| == 6
    ensures PositionsInRange(tf)
    ensures var args := Route(tf.pos, vs);
      && (forall i :: 0 <= i < 6 ==> args[i].Some?)
      && ReadTimeFormatted(tf, Values(args))
         == Some(Moment(JulianDay(vs[0], vs[1], vs[2]), 3600 * vs[3] + 60 * vs[4] + vs[5]))
  {
    var args := Route(tf.pos, vs);
    RouteAt(tf.pos, vs);
    var got := Values(args);
    forall k | 0 <= k < 6
      ensures got[tf.pos[k]] == vs[k]
    {
      assert args[tf.pos[k]] == Some(got[tf.pos[k]]);
    }
    ReadAll(tf, got, vs);
  }

  /** Reading six stored values, field k's from its own position. */
  lemma ReadAll(tf: TimeFmt, got: seq<int>, vs: seq<int>)
    requires PositionsInRange(tf) && |got| == 6 && |vs| == 6
    requires forall k :: 0 <= k < 6 ==> 0 <= tf.pos[k] && got[tf.pos[k]] == vs[k]
    ensures ReadTimeFormatted(tf, got)
         == Some(Moment(JulianDay(vs[0], vs[1], vs[2]), 3600 * vs[3] + 60 * vs[4] + vs[5]))
  {
    assert ReadsStored(tf, got);
  }

  /** Reading back what write_time_formatted passes to sprintf, as sscanf
      with the same format stores it, gives the same day and seconds
      whenever each field has its own conversion. */
  lemma ReadWriteTimeFormatted(tf: TimeFmt, jul: int, secs: int)
    requires Permutation(tf) && jul >= 1721120
    ensures PositionsInRange(tf)
    ensures var args := WriteTimeFormattedArgs(tf, jul, secs);
      && (forall i :: 0 <= i < 6 ==> args[i].Some?)
      && ReadTimeFormatted(tf, Values(args)) == Some(Moment(jul, secs))
  {
    var d := CalendarDate(jul);
    var c := SplitSeconds(secs);
    var vs := FieldValues(jul, secs);
    assert vs == [d.year, d.month, d.day, c.hh, c.min, c.ss];
    ReadRouted(tf, vs);
    JulianOfCalendar(jul);
    assert JulianDay(vs[0], vs[1], vs[2]) == jul;
    assert 3600 * vs[3] + 60 * vs[4] + vs[5] == secs;
  }

  /** The checked version reads back what write_time_formatted wrote just
      as the code as written does. */
  lemma ReadWriteTimeFormattedChecked(tf: TimeFmt, jul: int, secs: int)
    requires Permutation(tf) && jul >= 1721120
    ensures PositionsInRange(tf)
    ensures var args := WriteTimeFormattedArgs(tf, jul, secs);
      && (forall i :: 0 <= i < 6 ==> args[i].Some?)
      && ReadTimeFormattedChecked(tf, Values(args)) == Moment(jul, secs)
  {
    ReadWriteTimeFormatted(tf, jul, secs);
    var got := Values(WriteTimeFormattedArgs(tf, jul, secs));
    ReadTimeFormattedCheckedAgrees(tf, got);
  }
}
