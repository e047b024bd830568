/** extract_values of namelist.c: the values written after "name =" on an
    entry line and on its continuation lines, cut at commas, decoded and
    appended to the entry. Positions index the line; reading at or past its
    end sees the terminator (Text.At). */
module NmlExtract {
  import opened Text
  import opened CFormat
  import opened NmlValue

  /** One NML_Entry: its name, the type of its values (NoData until the
      first value), whether get_namelist has bound it, and its values;
      the entry's count is the number of values. */
  datatype Entry = Entry(name: string, etype: EType, seen: bool, data: seq<Value>)

  /** The entry get_entry sets up before any value is read. */
  function NewEntry(name: string): (e: Entry)
    ensures e.name == name && e.etype == NoData && !e.seen && e.data == []
  {
    Entry(name, NoData, false, [])
  }

  /** The shape every entry keeps: it has a type exactly when it has values,
      the first value has the entry's type, an Int entry holds no real and a
      Double entry holds no integer. */
  predicate Coherent(e: Entry) {
    && (e.etype == NoData <==> e.data == [])
    && (e.data != [] ==> TypeOf(e.data[0]) == e.etype)
    && (e.etype == TInt ==> forall k :: 0 <= k < |e.data| ==> !e.data[k].VReal?)
    && (e.etype == TDouble ==> forall k :: 0 <= k < |e.data| ==> !e.data[k].VInt?)
  }

  // ---------------------------------------------------------------------
  // Specification

  /** How the scan of a quoted value ends: on the closing quote at `at`, on
      the terminator, or past the terminator when the last character of the
      line is a backslash (which steps over the next character). */
  datatype Close = Closed(at: nat) | Unclosed | PastEnd

  /** The closing quote q at or after j, a backslash stepping over the
      character after it. */
  function QuoteEnd(b: string, j: nat, q: char): (c: Close)
    requires j <= |b|
    ensures c.Closed? ==> j <= c.at < |b| && b[c.at] == q
    decreases |b| - j
  {
    if j == |b| then Unclosed
    else if b[j] == q then Closed(j)
    else if b[j] == '\\' then (if j + 1 == |b| then PastEnd else QuoteEnd(b, j + 2, q))
    else QuoteEnd(b, j + 1, q)
  }

  /** v added as the entry's last value; the entry takes its type from the
      value only while it has none. */
  function Append(e: Entry, v: Value): (e': Entry)
    ensures e'.name == e.name && e'.seen == e.seen
    ensures e'.data == e.data + [v]
    ensures e.etype != NoData ==> e'.etype == e.etype
    ensures e.etype == NoData ==> e'.etype == TypeOf(v)
  {
    e.(etype := if e.etype == NoData then TypeOf(v) else e.etype, data := e.data + [v])
  }

  /** Every value read again as a double through its integer member. */
  function Widened(vs: seq<Value>): (ws: seq<Value>)
    ensures |ws| == |vs|
    ensures forall k :: 0 <= k < |vs| ==> ws[k] == Widen(vs[k])
  {
    if vs == [] then [] else [Widen(vs[0])] + Widened(vs[1..])
  }

  /** An unquoted token d added to e. An integer in a Double entry is stored
      as the real "%lf" read from the same text (None leaves the NaN that
      decode_buf writes, which this model does not represent); a real in an
      Int entry first turns the entry into a Double entry, rewriting every
      earlier value as a double; anything else is appended as decoded. */
  function AddToken(e: Entry, d: string, sr: RealScanner): (e': Entry)
    ensures e'.name == e.name && e'.seen == e.seen
    ensures |e'.data| == |e.data| + 1
    ensures e.etype != NoData ==> e'.etype == e.etype || (e.etype == TInt && e'.etype == TDouble)
    ensures e.etype == NoData ==> e'.etype == TypeOf(DecodeBuf(d, sr))
    ensures e.etype == TInt && e'.etype == TDouble ==>
              DecodeBuf(d, sr).VReal? &&
              (forall k :: 0 <= k < |e.data| ==> e'.data[k] == Widen(e.data[k])) &&
              e'.data[|e.data|] == DecodeBuf(d, sr)
    ensures !(e.etype == TInt && e'.etype == TDouble) ==> e'.data[..|e.data|] == e.data
  {
    var v := DecodeBuf(d, sr);
    if v.VInt? && e.etype == TDouble then
      Append(e, match sr(d) case Some(x) => VReal(x) case None => VJunk)
    else if v.VReal? && e.etype == TInt then
      Append(e.(etype := TDouble, data := Widened(e.data)), v)
    else Append(e, v)
  }

  /** What follows a value: blanks, then at most one comma and the blanks
      after it. */
  datatype Scanned = Scanned(entry: Entry, next: nat, comma: bool)

  function After(b: string, r: nat, e: Entry): (s: Scanned)
    requires r <= |b|
    ensures s.entry == e && r <= s.next <= |b|
  {
    var t := SkipFrom(b, r);
    if t < |b| && b[t] == ',' then Scanned(e, SkipFrom(b, t + 1), true)
    else Scanned(e, t, false)
  }

  /** One pass of the do-while loop of extract_values from position i. A
      quoted value is the text up to its closing quote, kept as a string,
      whatever follows it up to the next comma being skipped; an unquoted
      value is the text up to the next comma, blanks included, and the
      comma is consumed with it. */
  function Step(b: string, i: nat, e: Entry, sr: RealScanner): (r: Outcome<Scanned>)
    requires i <= |b|
    ensures r.Ok? ==> r.value.next <= |b| && (i < |b| ==> i < r.value.next)
    ensures r.Ok? ==> |r.value.entry.data| == |e.data| + 1
    ensures r.Ok? && e.etype != NoData ==>
              r.value.entry.etype == e.etype || (e.etype == TInt && r.value.entry.etype == TDouble)
    ensures r.Fail? ==>
              IsQuote(At(b, i)) && (r.failure == UnmatchedQuote(b[i]) || r.failure == ReadsPastEnd)
  {
    if IsQuote(At(b, i)) then
      match QuoteEnd(b, i + 1, b[i])
      case Unclosed => Fail(UnmatchedQuote(b[i]))
      case PastEnd => Fail(ReadsPastEnd)
      case Closed(k) =>
        Ok(After(b, CommaFrom(b, k + 1), Append(e, VStr(Grab(b, i + 1, k - (i + 1))))))
    else
      var c := CommaFrom(b, i);
      Ok(After(b, if c < |b| then c + 1 else c, AddToken(e, Grab(b, i, c - i), sr)))
  }

  /** The result of extract_values: the entry with the line's values added,
      and whether the line ended in a comma. */
  datatype Extracted = Extracted(entry: Entry, comma: bool)

  /** extract_values from position i: one value, then more while the line
      has not ended. */
  function ExtractFrom(b: string, i: nat, e: Entry, sr: RealScanner): (r: Outcome<Extracted>)
    requires i <= |b|
    ensures r.Ok? ==> |r.value.entry.data| > |e.data|
    ensures r.Ok? ==> r.value.entry.name == e.name && r.value.entry.seen == e.seen
    ensures r.Ok? && e.etype != NoData ==>
              r.value.entry.etype == e.etype || (e.etype == TInt && r.value.entry.etype == TDouble)
    decreases |b| - i
  {
    match Step(b, i, e, sr)
    case Fail(f) => Fail(f)
    case Ok(s) =>
      if s.next < |b| then ExtractFrom(b, s.next, s.entry, sr)
      else Ok(Extracted(s.entry, s.comma))
  }

  // ---------------------------------------------------------------------
  // The C loops

  /** The scan for the closing quote. */
  method ScanQuoted(b: string, j0: nat, q: char) returns (c: Close)
    requires j0 <= |b|
    ensures c == QuoteEnd(b, j0, q)
  {
    var j := j0;
    while j < |b| && b[j] != q
      invariant j0 <= j <= |b|
      invariant QuoteEnd(b, j, q) == QuoteEnd(b, j0, q)
      decreases |b| - j
    {
      if b[j] == '\\' {
        if j + 1 == |b| {
          return PastEnd;
        }
        j := j + 1;
      }
      j := j + 1;
    }
    c := if j == |b| then Unclosed else Closed(j);
  }

  /** The scan for the next comma or the end of the line. */
  method ScanToComma(b: string, j0: nat) returns (j: nat)
    requires j0 <= |b|
    ensures j == CommaFrom(b, j0)
  {
    j := j0;
    while j < |b| && b[j] != ','
      invariant j0 <= j <= |b|
      invariant CommaFrom(b, j) == CommaFrom(b, j0)
      decreases |b| - j
    {
      j := j + 1;
    }
  }

  /** The loop that rewrites every earlier value of an Int entry as a
      double. */
  method Promote(data: seq<Value>) returns (out: seq<Value>)
    ensures out == Widened(data)
  {
    out := data;
    var i := 0;
    while i < |data|
      invariant 0 <= i <= |data| && |out| == |data|
      invariant forall k :: 0 <= k < i ==> out[k] == Widen(data[k])
      invariant forall k :: i <= k < |data| ==> out[k] == data[k]
    {
      out := out[i := Widen(out[i])];
      i := i + 1;
    }
  }

  /** The unquoted branch from decode_buf on. */
  method AddDecoded(e: Entry, d: string, sr: RealScanner) returns (e': Entry)
    ensures e' == AddToken(e, d, sr)
  {
    var v := DecodeBuf(d, sr);
    e' := e;
    if v.VInt? && e.etype == TDouble {
      v := match sr(d) case Some(x) => VReal(x) case None => VJunk;
    } else if v.VReal? && e.etype == TInt {
      var w := Promote(e.data);
      e' := e'.(etype := TDouble, data := w);
    }
    if e'.etype == NoData {
      e' := e'.(etype := TypeOf(v));
    }
    e' := e'.(data := e'.data + [v]);
  }

  /** The blanks and the comma after a value. */
  method SkipSeparator(b: string, r0: nat, e: Entry) returns (s: Scanned)
    requires r0 <= |b|
    ensures s == After(b, r0, e)
  {
    var r := SkipBlankChars(b, r0);
    var comma := false;
    if r < |b| && b[r] == ',' {
      r := SkipBlankChars(b, r + 1);
      comma := true;
    }
    s := Scanned(e, r, comma);
  }

  /** A pass of the loop on a quoted value. */
  method ExtractQuoted(b: string, r: nat, e: Entry, ghost sr: RealScanner) returns (res: Outcome<Scanned>)
    requires r < |b| && IsQuote(b[r])
    ensures res == Step(b, r, e, sr)
  {
    var q := b[r];
    var close := ScanQuoted(b, r + 1, q);
    if close.Unclosed? {
      return Fail(UnmatchedQuote(q));
    } else if close.PastEnd? {
      return Fail(ReadsPastEnd);
    }
    var d := GrabSubstring(b, r + 1, close.at - (r + 1));
    var c := ScanToComma(b, close.at + 1);
    var s := SkipSeparator(b, c, Append(e, VStr(d)));
    res := Ok(s);
  }

  /** A pass of the loop on an unquoted value. */
  method ExtractPlain(b: string, r: nat, e: Entry, sr: RealScanner) returns (res: Outcome<Scanned>)
    requires r <= |b| && !IsQuote(At(b, r))
    ensures res == Step(b, r, e, sr)
  {
    var c := ScanToComma(b, r);
    var d := GrabSubstring(b, r, c - r);
    var e' := AddDecoded(e, d, sr);
    var s := SkipSeparator(b, if c < |b| then c + 1 else c, e');
    res := Ok(s);
  }

  /** One pass of the do-while loop of extract_values. */
  method ExtractOne(b: string, r: nat, e: Entry, sr: RealScanner) returns (res: Outcome<Scanned>)
    requires r <= |b|
    ensures res == Step(b, r, e, sr)
  {
    if r < |b| && IsQuote(b[r]) {
      res := ExtractQuoted(b, r, e, sr);
    } else {
      res := ExtractPlain(b, r, e, sr);
    }
  }

  /** extract_values(entry, b + i): the values of the line from i on. */
  method ExtractValues(e0: Entry, b: string, i0: nat, sr: RealScanner) returns (res: Outcome<Extracted>)
    requires i0 <= |b|
    ensures res == ExtractFrom(b, i0, e0, sr)
  {
    var e, r: nat := e0, i0;
    while true
      invariant r <= |b|
      invariant ExtractFrom(b, r, e, sr) == ExtractFrom(b, i0, e0, sr)
      decreases |b| - r
    {
      var st := ExtractOne(b, r, e, sr);
      if st.Fail? {
        return Fail(st.failure);
      }
      e, r := st.value.entry, st.value.next;
      if r == |b| {
        return Ok(Extracted(e, st.value.comma));
      }
    }
  }

  // ---------------------------------------------------------------------
  // Properties

  /** One value keeps an entry coherent. */
  lemma AppendCoherent(e: Entry, v: Value)
    requires Coherent(e) && v != VJunk
    requires e.etype == TInt ==> !v.VReal?
    requires e.etype == TDouble ==> !v.VInt?
    ensures Coherent(Append(e, v))
  {
    var e' := Append(e, v);
    if e.data == [] {
      assert e'.data == [v];
    } else {
      assert e'.data[0] == e.data[0];
    }
  }

  lemma AddTokenCoherent(e: Entry, d: string, sr: RealScanner)
    requires Coherent(e)
    ensures Coherent(AddToken(e, d, sr))
  {
    var v := DecodeBuf(d, sr);
    if v.VInt? && e.etype == TDouble {
      var w := match sr(d) case Some(x) => VReal(x) case None => VJunk;
      var e' := Append(e, w);
      assert e'.data[0] == e.data[0];
    } else if v.VReal? && e.etype == TInt {
      var p := e.(etype := TDouble, data := Widened(e.data));
      assert p.data[0] == Widen(e.data[0]);
      AppendCoherent(p, v);
    } else {
      AppendCoherent(e, v);
    }
  }

  /** extract_values keeps every entry coherent. */
  lemma {:induction false} ExtractCoherent(b: string, i: nat, e: Entry, sr: RealScanner)
    requires i <= |b| && Coherent(e)
    ensures ExtractFrom(b, i, e, sr).Ok? ==> Coherent(ExtractFrom(b, i, e, sr).value.entry)
    decreases |b| - i
  {
    var st := Step(b, i, e, sr);
    if st.Ok? {
      if IsQuote(At(b, i)) {
        var k := QuoteEnd(b, i + 1, b[i]).at;
        AppendCoherent(e, VStr(Grab(b, i + 1, k - (i + 1))));
      } else {
        AddTokenCoherent(e, Grab(b, i, CommaFrom(b, i) - i), sr);
      }
      if st.value.next < |b| {
        ExtractCoherent(b, st.value.next, st.value.entry, sr);
      }
    }
  }

  /** The scan for a closing quote steps over escaped characters in pairs,
      so the quoted text holds no dangling backslash. */
  lemma {:induction false} QuoteEndEven(b: string, j: nat, q: char)
    requires j <= |b| && QuoteEnd(b, j, q).Closed?
    ensures EvenEscapes(b[j..QuoteEnd(b, j, q).at])
    decreases |b| - j
  {
    var k := QuoteEnd(b, j, q).at;
    var t := b[j..k];
    if b[j] == q {
      assert t == [];
    } else if b[j] == '\\' {
      QuoteEndEven(b, j + 2, q);
      assert t[2..] == b[j + 2..k];
    } else {
      QuoteEndEven(b, j + 1, q);
      assert t[1..] == b[j + 1..k];
    }
  }

  /** A quoted value is always a string: the quoted text with each escaping
      backslash removed. */
  lemma QuotedIsUnescaped(b: string, i: nat, e: Entry, sr: RealScanner)
    requires i < |b| && IsQuote(b[i]) && QuoteEnd(b, i + 1, b[i]).Closed?
    ensures var k := QuoteEnd(b, i + 1, b[i]).at;
      var r := Step(b, i, e, sr);
      r.Ok? && r.value.entry.data == e.data + [VStr(Unescape(b[i + 1..k]))]
  {
    var k := QuoteEnd(b, i + 1, b[i]).at;
    QuoteEndEven(b, i + 1, b[i]);
    GrabIsUnescape(b, i + 1, k - (i + 1));
  }

  /** An integer in a Double entry is stored as the same number in real
      form, given a "%lf" that reads integers as themselves. */
  lemma IntIntoDouble(e: Entry, d: string, sr: RealScanner)
    requires ReadsIntegersExactly(sr)
    requires e.etype == TDouble && DecodeBuf(d, sr).VInt?
    ensures AddToken(e, d, sr).data == e.data + [VReal(DecodeBuf(d, sr).i as real)]
    ensures AddToken(e, d, sr).etype == TDouble
  {
    assert ScanIntUnbounded(d).Some?;
  }

  /** A real in an Int entry turns every earlier integer into the same
      number in real form. */
  lemma RealIntoInt(e: Entry, d: string, sr: RealScanner)
    requires e.etype == TInt && DecodeBuf(d, sr).VReal?
    ensures var e' := AddToken(e, d, sr);
      e'.etype == TDouble && |e'.data| == |e.data| + 1 &&
      (forall k :: 0 <= k < |e.data| && e.data[k].VInt? ==> e'.data[k] == VReal(e.data[k].i as real)) &&
      e'.data[|e.data|] == DecodeBuf(d, sr)
  {
  }

  /** "1, 2.5, 3": the first value makes an Int entry, the real turns it
      into a Double entry holding 1.0 and 2.5, and the last integer is
      stored as 3.0. */
  lemma MixedList(sr: RealScanner)
    requires ReadsIntegersExactly(sr) && sr("2.5") == Some(2.5)
    ensures ExtractFrom("1, 2.5, 3", 0, NewEntry("x"), sr)
         == Ok(Extracted(Entry("x", TDouble, false, [VReal(1.0), VReal(2.5), VReal(3.0)]), false))
  {
    var b := "1, 2.5, 3";
    var e1 := Entry("x", TInt, false, [VInt(1)]);
    var e2 := Entry("x", TDouble, false, [VReal(1.0), VReal(2.5)]);
    var e3 := Entry("x", TDouble, false, [VReal(1.0), VReal(2.5), VReal(3.0)]);
    MixedFirst(b, sr);
    MixedSecond(b, e1, sr);
    MixedThird(b, e2, sr);
    assert ExtractFrom(b, 8, e2, sr) == Ok(Extracted(e3, false));
    assert ExtractFrom(b, 3, e1, sr) == Ok(Extracted(e3, false));
  }

  lemma MixedFirst(b: string, sr: RealScanner)
    requires b == "1, 2.5, 3"
    ensures Step(b, 0, NewEntry("x"), sr) == Ok(Scanned(Entry("x", TInt, false, [VInt(1)]), 3, false))
  {
    DecodeIntText(1, sr);
    assert IntText(1) == "1";
    assert IndexFrom(b, 1, ',') == 1;
    assert Grab(b, 0, 1) == "1";
    assert SkipFrom(b, 2) == 3;
  }

  lemma MixedSecond(b: string, e1: Entry, sr: RealScanner)
    requires b == "1, 2.5, 3" && e1 == Entry("x", TInt, false, [VInt(1)]) && sr("2.5") == Some(2.5)
    ensures Step(b, 3, e1, sr) == Ok(Scanned(Entry("x", TDouble, false, [VReal(1.0), VReal(2.5)]), 8, false))
  {
    assert b[3] == '2' && b[4] == '.' && b[5] == '5' && b[6] == ',' && b[7] == ' ' && b[8] == '3';
    assert IndexFrom(b, 6, ',') == 6;
    assert IndexFrom(b, 4, ',') == 6;
    assert CommaFrom(b, 3) == 6;
    assert Grab(b, 3, 3) == "2.5";
    MixedWiden(e1, sr);
    var e2 := AddToken(e1, "2.5", sr);
    assert SkipFrom(b, 7) == 8;
    assert After(b, 7, e2) == Scanned(e2, 8, false);
  }

  /** A real value after an integer one widens the entry to doubles. */
  lemma MixedWiden(e1: Entry, sr: RealScanner)
    requires e1 == Entry("x", TInt, false, [VInt(1)]) && sr("2.5") == Some(2.5)
    ensures AddToken(e1, "2.5", sr) == Entry("x", TDouble, false, [VReal(1.0), VReal(2.5)])
  {
    NotLogical("2.5");
    assert HasRealMark("2.5");
    assert DecodeBuf("2.5", sr) == VReal(2.5);
    assert Widened(e1.data) == [VReal(1.0)];
  }

  lemma MixedThird(b: string, e2: Entry, sr: RealScanner)
    requires ReadsIntegersExactly(sr)
    requires b == "1, 2.5, 3" && e2 == Entry("x", TDouble, false, [VReal(1.0), VReal(2.5)])
    ensures Step(b, 8, e2, sr) == Ok(Scanned(Entry("x", TDouble, false, [VReal(1.0), VReal(2.5), VReal(3.0)]), 9, false))
  {
    DecodeIntText(3, sr);
    assert IntText(3) == "3";
    IntIntoDouble(e2, "3", sr);
    assert |b| == 9 && b[8] == '3';
    assert IndexFrom(b, 9, ',') == 9;
    assert Grab(b, 8, 1) == "3";
    var e3 := AddToken(e2, "3", sr);
    assert e3.data == [VReal(1.0), VReal(2.5), VReal(3.0)];
    assert e3 == Entry("x", TDouble, false, [VReal(1.0), VReal(2.5), VReal(3.0)]);
    assert After(b, 9, e3) == Scanned(e3, 9, false);
  }
}
