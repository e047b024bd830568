/** The parser of namelist.c: get_entry, get_section and the section loop
    of open_namelist, which turn the lines readline hands out into sections
    of entries. A file is a run of sections, each opened by a line "&name"
    and closed by a line "/"; an entry is a line "name = values" followed by
    continuation lines without '='. */
module NmlParse {
  import opened Text
  import opened NmlValue
  import opened NmlExtract
  import opened NmlRead

  predicate HasEq(b: string) {
    '=' in b
  }

  /** One NML_Section: its name, whether a lookup has visited it, and its
      entries in file order. */
  datatype Section = Section(name: string, seen: bool, entries: seq<Entry>)

  // ---------------------------------------------------------------------
  // get_entry

  /** How get_entry ended: ret is 1 on a line "/", 0 on the line of the
      next entry and -1 when readline returned NULL; entry is the entry
      read and cursor where reading stands. */
  datatype EntryEnd = EntryEnd(entry: Entry, ret: int, cursor: Cursor)

  /** The loop of get_entry once the values on the current line are in:
      read the next line; a line "/" or a line with '=' ends the entry, any
      other line is a continuation whose values are added. */
  function EntryLines(lines: seq<string>, c: Cursor, e: Entry, sr: RealScanner): (r: Outcome<EntryEnd>)
    requires c.pos <= |lines|
    ensures r.Ok? ==> c.pos <= r.value.cursor.pos <= |lines|
    ensures r.Ok? && r.value.cursor.pos == c.pos ==> r.value.cursor.buf == c.buf || r.value.cursor.buf == []
    ensures r.Ok? ==> r.value.entry.name == e.name && r.value.entry.seen == e.seen
    ensures r.Ok? ==> (r.value.ret == 1 || r.value.ret == 0 || r.value.ret == -1)
    ensures r.Ok? && r.value.ret == 1 ==> r.value.cursor.buf == "/"
    ensures r.Ok? && r.value.ret == 0 ==> HasEq(r.value.cursor.buf)
    ensures r.Ok? && r.value.ret == -1 ==> r.value.cursor.eof
    decreases |lines| - c.pos
  {
    match ReadLineSpec(lines, c)
    case Fail(f) => Fail(f)
    case Ok(rd) =>
      var c' := rd.cursor;
      if !rd.got then Ok(EntryEnd(e, -1, c'))
      else if c'.buf == "/" then Ok(EntryEnd(e, 1, c'))
      else if HasEq(c'.buf) then Ok(EntryEnd(e, 0, c'))
      else match ExtractFrom(c'.buf, 0, e, sr)
        case Fail(f) => Fail(f)
        case Ok(x) => EntryLines(lines, c', x.entry, sr)
  }

  /** get_entry on the line in the buffer: trim_buf_name leaves the name in
      the buffer, the values after the '=' (if any) are added to a fresh
      entry of that name, and the following lines are read. */
  function GetEntrySpec(lines: seq<string>, c: Cursor, sr: RealScanner): (r: Outcome<EntryEnd>)
    requires c.pos <= |lines|
    ensures !HasEq(c.buf) ==> r == Fail(SyntaxError(c.buf, c.lineno))
    ensures r.Ok? ==> c.pos <= r.value.cursor.pos <= |lines|
    ensures r.Ok? ==> c.pos < r.value.cursor.pos || !HasEq(r.value.cursor.buf)
  {
    match EntrySplit(c.buf, c.lineno)
    case Fail(f) => Fail(f)
    case Ok(sp) =>
      var c1 := c.(buf := sp.name);
      if sp.value < |c.buf| then
        match ExtractFrom(c.buf, sp.value, NewEntry(sp.name), sr)
        case Fail(f) => Fail(f)
        case Ok(x) => EntryLines(lines, c1, x.entry, sr)
      else EntryLines(lines, c1, NewEntry(sp.name), sr)
  }

  // ---------------------------------------------------------------------
  // get_section

  /** The entries of a section and where reading stands after them. */
  datatype Entries = Entries(entries: seq<Entry>, cursor: Cursor)

  /** The loop of get_section: entries are read until the buffer holds "/".
      Each pass either reads on or leaves a buffer without '=', on which
      the next pass stops with a syntax error. */
  function EntriesFrom(lines: seq<string>, c: Cursor, es: seq<Entry>, sr: RealScanner): (r: Outcome<Entries>)
    requires c.pos <= |lines|
    ensures r.Ok? ==> c.pos <= r.value.cursor.pos <= |lines| && r.value.cursor.buf == "/"
    decreases |lines| - c.pos, if HasEq(c.buf) then 1 else 0
  {
    match GetEntrySpec(lines, c, sr)
    case Fail(f) => Fail(f)
    case Ok(ee) =>
      if ee.cursor.buf == "/" then Ok(Entries(es + [ee.entry], ee.cursor))
      else EntriesFrom(lines, ee.cursor, es + [ee.entry], sr)
  }

  /** A section and where reading stands after it. */
  datatype SectionEnd = SectionEnd(section: Section, cursor: Cursor)

  /** get_section: the line after "&name" is read whatever readline returns;
      a buffer holding "/" is a section without entries, anything else
      starts the entries. */
  function SectionSpec(lines: seq<string>, c: Cursor, name: string, sr: RealScanner): (r: Outcome<SectionEnd>)
    requires c.pos <= |lines|
    ensures r.Ok? ==> c.pos <= r.value.cursor.pos <= |lines| && r.value.cursor.buf == "/"
    ensures r.Ok? ==> r.value.section.name == name && !r.value.section.seen
  {
    match ReadLineSpec(lines, c)
    case Fail(f) => Fail(f)
    case Ok(rd) =>
      if rd.cursor.buf == "/" then Ok(SectionEnd(Section(name, false, []), rd.cursor))
      else match EntriesFrom(lines, rd.cursor, [], sr)
        case Fail(f) => Fail(f)
        case Ok(x) => Ok(SectionEnd(Section(name, false, x.entries), x.cursor))
  }

  // ---------------------------------------------------------------------
  // open_namelist

  /** The loop of open_namelist from c: while readline returns a line, the
      line must start with '&' (None otherwise) and opens a section named
      by the rest of it. */
  function SectionsFrom(lines: seq<string>, c: Cursor, ss: seq<Section>, sr: RealScanner): (r: Outcome<Option<seq<Section>>>)
    requires c.pos <= |lines|
    decreases |lines| - c.pos
  {
    match ReadLineSpec(lines, c)
    case Fail(f) => Fail(f)
    case Ok(rd) =>
      if !rd.got then Ok(Some(ss))
      else if rd.cursor.buf[0] != '&' then Ok(None)
      else match SectionSpec(lines, rd.cursor, rd.cursor.buf[1..], sr)
        case Fail(f) => Fail(f)
        case Ok(se) => SectionsFrom(lines, se.cursor, ss + [se.section], sr)
  }

  /** The sections of a file read from its start. */
  function ParseFile(lines: seq<string>, sr: RealScanner): Outcome<Option<seq<Section>>> {
    SectionsFrom(lines, Cursor(0, false, [], 0), [], sr)
  }

  // ---------------------------------------------------------------------
  // Every entry read keeps its shape

  predicate EntriesCoherent(es: seq<Entry>) {
    forall j :: 0 <= j < |es| ==> Coherent(es[j])
  }

  predicate SectionsCoherent(ss: seq<Section>) {
    forall i :: 0 <= i < |ss| ==> EntriesCoherent(ss[i].entries)
  }

  lemma {:induction false} EntryLinesCoherent(lines: seq<string>, c: Cursor, e: Entry, sr: RealScanner)
    requires c.pos <= |lines| && Coherent(e)
    ensures EntryLines(lines, c, e, sr).Ok? ==> Coherent(EntryLines(lines, c, e, sr).value.entry)
    decreases |lines| - c.pos
  {
    var rd := ReadLineSpec(lines, c);
    if rd.Ok? && rd.value.got {
      var c' := rd.value.cursor;
      if c'.buf != "/" && !HasEq(c'.buf) {
        ExtractCoherent(c'.buf, 0, e, sr);
        var x := ExtractFrom(c'.buf, 0, e, sr);
        if x.Ok? {
          EntryLinesCoherent(lines, c', x.value.entry, sr);
        }
      }
    }
  }

  lemma GetEntryCoherent(lines: seq<string>, c: Cursor, sr: RealScanner)
    requires c.pos <= |lines|
    ensures GetEntrySpec(lines, c, sr).Ok? ==> Coherent(GetEntrySpec(lines, c, sr).value.entry)
  {
    var sp := EntrySplit(c.buf, c.lineno);
    if sp.Ok? {
      var c1 := c.(buf := sp.value.name);
      var e := NewEntry(sp.value.name);
      if sp.value.value < |c.buf| {
        ExtractCoherent(c.buf, sp.value.value, e, sr);
        var x := ExtractFrom(c.buf, sp.value.value, e, sr);
        if x.Ok? {
          EntryLinesCoherent(lines, c1, x.value.entry, sr);
        }
      } else {
        EntryLinesCoherent(lines, c1, e, sr);
      }
    }
  }

  lemma {:induction false} EntriesFromCoherent(lines: seq<string>, c: Cursor, es: seq<Entry>, sr: RealScanner)
    requires c.pos <= |lines| && EntriesCoherent(es)
    ensures EntriesFrom(lines, c, es, sr).Ok? ==> EntriesCoherent(EntriesFrom(lines, c, es, sr).value.entries)
    decreases |lines| - c.pos, if HasEq(c.buf) then 1 else 0
  {
    var ee := GetEntrySpec(lines, c, sr);
    if ee.Ok? {
      GetEntryCoherent(lines, c, sr);
      var es' := es + [ee.value.entry];
      assert EntriesCoherent(es') by {
        forall j | 0 <= j < |es'|
          ensures Coherent(es'[j])
        {
          if j < |es| {
            assert es'[j] == es[j];
          }
        }
      }
      if ee.value.cursor.buf != "/" {
        EntriesFromCoherent(lines, ee.value.cursor, es', sr);
      }
    }
  }

  /** Every entry of every section of a file read without error is
      coherent: typed exactly when it has values, its first value of its
      type, no real in an Int entry and no integer in a Double entry. */
  lemma {:induction false} SectionsFromCoherent(lines: seq<string>, c: Cursor, ss: seq<Section>, sr: RealScanner)
    requires c.pos <= |lines| && SectionsCoherent(ss)
    ensures var r := SectionsFrom(lines, c, ss, sr);
      r.Ok? && r.value.Some? ==> SectionsCoherent(r.value.value)
    decreases |lines| - c.pos
  {
    var rd := ReadLineSpec(lines, c);
    if rd.Ok? && rd.value.got && rd.value.cursor.buf[0] == '&' {
      var c1 := rd.value.cursor;
      var se := SectionSpec(lines, c1, c1.buf[1..], sr);
      if se.Ok? {
        var rd2 := ReadLineSpec(lines, c1);
        if rd2.Ok? && rd2.value.cursor.buf != "/" {
          EntriesFromCoherent(lines, rd2.value.cursor, [], sr);
        }
        var ss' := ss + [se.value.section];
        assert SectionsCoherent(ss') by {
          forall i | 0 <= i < |ss'|
            ensures EntriesCoherent(ss'[i].entries)
          {
            if i < |ss| {
              assert ss'[i] == ss[i];
            }
          }
        }
        SectionsFromCoherent(lines, se.value.cursor, ss', sr);
      }
    }
  }

  lemma ParseFileCoherent(lines: seq<string>, sr: RealScanner)
    ensures var r := ParseFile(lines, sr);
      r.Ok? && r.value.Some? ==> SectionsCoherent(r.value.value)
  {
    SectionsFromCoherent(lines, Cursor(0, false, [], 0), [], sr);
  }

  // ---------------------------------------------------------------------
  // Small files

  /** Text with no quote, no comment mark and no blank at either end. */
  predicate Plain(s: string) {
    && s != [] && !IsBlank(s[0]) && !IsBlank(s[|s| - 1]) && !IsLineEnd(s[|s| - 1])
    && forall j :: 0 <= j < |s| ==> !IsQuote(s[j]) && !IsCommentMark(s[j])
  }

  lemma {:induction false} CommentCutPlain(s: string, i: nat)
    requires i <= |s|
    requires forall j :: i <= j < |s| ==> !IsQuote(s[j]) && !IsCommentMark(s[j])
    ensures CommentCut(s, i) == Some(|s|)
    decreases |s| - i
  {
    if i < |s| {
      CommentCutPlain(s, i + 1);
    }
  }

  /** A plain line followed by a newline is handed out as it stands. */
  lemma FetchPlain(lines: seq<string>, p: nat, lineno: int, s: string)
    requires p < |lines| && lines[p] == s + "\n" && Plain(s)
    ensures Fetch(lines, p, lineno) == Ok(Read(true, Cursor(p + 1, false, s, lineno + 1)))
  {
    var ch := s + "\n";
    assert LineEndStart(ch, |ch|) == |s|;
    assert Stripped(ch) == s;
    CommentCutPlain(s, 0);
    assert s[..|s|] == s;
    assert SkipFrom(s, 0) == 0;
    assert s[0..] == s;
    assert KeepTo(s, |s|) == |s|;
  }

  /** "&sec" and "/" make one section without entries. */
  lemma EmptySection(sr: RealScanner)
    ensures ParseFile(["&sec\n", "/\n"], sr) == Ok(Some([Section("sec", false, [])]))
  {
    var lines := ["&sec\n", "/\n"];
    FetchPlain(lines, 0, 0, "&sec");
    FetchPlain(lines, 1, 1, "/");
    var c2 := Cursor(2, false, "/", 2);
    assert SectionSpec(lines, Cursor(1, false, "&sec", 1), "sec", sr) == Ok(SectionEnd(Section("sec", false, []), c2));
    assert SectionsFrom(lines, c2, [Section("sec", false, [])], sr) == Ok(Some([Section("sec", false, [])]));
    assert "&sec"[1..] == "sec";
    assert [] + [Section("sec", false, [])] == [Section("sec", false, [])];
  }

  /** A line outside a section that does not open one makes the file
      rejected. */
  lemma NotASection(sr: RealScanner)
    ensures ParseFile(["x\n"], sr) == Ok(None)
  {
    FetchPlain(["x\n"], 0, 0, "x");
  }

  /** An entry line without '=' stops the program with a syntax error
      naming the line and its number. */
  lemma MissingEquals(sr: RealScanner)
    ensures ParseFile(["&g\n", "n 1\n", "/\n"], sr) == Fail(SyntaxError("n 1", 2))
  {
    var lines := ["&g\n", "n 1\n", "/\n"];
    FetchPlain(lines, 0, 0, "&g");
    FetchPlain(lines, 1, 1, "n 1");
    assert !HasEq("n 1");
    var c2 := Cursor(2, false, "n 1", 2);
    assert GetEntrySpec(lines, c2, sr) == Fail(SyntaxError("n 1", 2));
  }

  /** The entry line "a =": no values follow the '='. */
  lemma EmptyEntryLine(sr: RealScanner)
    ensures GetEntrySpec(["&g\n", "a =\n", "/\n"], Cursor(2, false, "a =", 2), sr)
            == Ok(EntryEnd(NewEntry("a"), 1, Cursor(3, false, "/", 3)))
  {
    var lines := ["&g\n", "a =\n", "/\n"];
    FetchPlain(lines, 2, 2, "/");
    assert IndexFrom("a =", 2, '=') == 2;
    assert IndexFrom("a =", 1, '=') == 2;
    assert IndexFrom("a =", 0, '=') == 2;
    assert KeepTo("a =", 1) == 1;
    assert KeepTo("a =", 2) == 1;
    assert SkipFrom("a =", 3) == 3;
    assert "a ="[..1] == "a";
    assert EntrySplit("a =", 2) == Ok(Split("a", 3));
    assert EntryLines(lines, Cursor(2, false, "a", 2), NewEntry("a"), sr)
           == Ok(EntryEnd(NewEntry("a"), 1, Cursor(3, false, "/", 3)));
  }

  lemma EmptyEntrySection(sr: RealScanner)
    ensures SectionSpec(["&g\n", "a =\n", "/\n"], Cursor(1, false, "&g", 1), "g", sr)
            == Ok(SectionEnd(Section("g", false, [NewEntry("a")]), Cursor(3, false, "/", 3)))
  {
    var lines := ["&g\n", "a =\n", "/\n"];
    FetchPlain(lines, 1, 1, "a =");
    EmptyEntryLine(sr);
    var c3 := Cursor(3, false, "/", 3);
    assert [] + [NewEntry("a")] == [NewEntry("a")];
    assert EntriesFrom(lines, Cursor(2, false, "a =", 2), [], sr) == Ok(Entries([NewEntry("a")], c3));
  }

  /** An entry with nothing after its '=' holds no values. */
  lemma EmptyEntry(sr: RealScanner)
    ensures ParseFile(["&g\n", "a =\n", "/\n"], sr) == Ok(Some([Section("g", false, [NewEntry("a")])]))
  {
    var lines := ["&g\n", "a =\n", "/\n"];
    FetchPlain(lines, 0, 0, "&g");
    EmptyEntrySection(sr);
    var c3 := Cursor(3, false, "/", 3);
    assert "&g"[1..] == "g";
    var sec := Section("g", false, [NewEntry("a")]);
    assert SectionsFrom(lines, c3, [sec], sr) == Ok(Some([sec]));
    assert [] + [sec] == [sec];
  }

  // ---------------------------------------------------------------------
  // The C functions

  /** get_entry(f, entry, buf). */
  method GetEntry(rd: Reader, sr: RealScanner) returns (r: Outcome<(Entry, int)>)
    requires rd.Valid()
    modifies rd
    ensures rd.Valid()
    ensures r.Ok? ==> GetEntrySpec(rd.lines, old(rd.State()), sr) == Ok(EntryEnd(r.value.0, r.value.1, rd.State()))
    ensures r.Fail? ==> GetEntrySpec(rd.lines, old(rd.State()), sr) == Fail(r.failure)
  {
    var b := rd.buf;
    var v := rd.TrimBufName();
    if v.Fail? {
      return Fail(v.failure);
    }
    var e := NewEntry(rd.buf);
    if v.value < |b| {
      var x := ExtractValues(e, b, v.value, sr);
      if x.Fail? {
        return Fail(x.failure);
      }
      e := x.value.entry;
    }
    ghost var target := EntryLines(rd.lines, rd.State(), e, sr);
    assert target == GetEntrySpec(rd.lines, old(rd.State()), sr);
    while true
      invariant rd.Valid()
      invariant EntryLines(rd.lines, rd.State(), e, sr) == target
      decreases |rd.lines| - rd.pos
    {
      var got := rd.ReadLine();
      if got.Fail? {
        return Fail(got.failure);
      }
      if !got.value {
        return Ok((e, -1));
      }
      if rd.buf == "/" {
        return Ok((e, 1));
      }
      var k := FindChar(rd.buf, 0, '=');
      if k < |rd.buf| {
        return Ok((e, 0));
      }
      var x := ExtractValues(e, rd.buf, 0, sr);
      if x.Fail? {
        return Fail(x.failure);
      }
      e := x.value.entry;
    }
  }

  /** get_section(f, section, name). */
  method GetSection(rd: Reader, name: string, sr: RealScanner) returns (r: Outcome<Section>)
    requires rd.Valid()
    modifies rd
    ensures rd.Valid()
    ensures r.Ok? ==> SectionSpec(rd.lines, old(rd.State()), name, sr) == Ok(SectionEnd(r.value, rd.State()))
    ensures r.Fail? ==> SectionSpec(rd.lines, old(rd.State()), name, sr) == Fail(r.failure)
  {
    var got := rd.ReadLine();
    if got.Fail? {
      return Fail(got.failure);
    }
    if rd.buf == "/" {
      return Ok(Section(name, false, []));
    }
    var es := [];
    ghost var target := EntriesFrom(rd.lines, rd.State(), es, sr);
    while true
      invariant rd.Valid()
      invariant EntriesFrom(rd.lines, rd.State(), es, sr) == target
      decreases |rd.lines| - rd.pos, if HasEq(rd.buf) then 1 else 0
    {
      var x := GetEntry(rd, sr);
      if x.Fail? {
        return Fail(x.failure);
      }
      es := es + [x.value.0];
      if rd.buf == "/" {
        return Ok(Section(name, false, es));
      }
    }
  }

  /** The section loop of open_namelist on a freshly opened stream. */
  method ParseSections(rd: Reader, sr: RealScanner) returns (r: Outcome<Option<seq<Section>>>)
    requires rd.Valid()
    modifies rd
    ensures r == SectionsFrom(rd.lines, old(rd.State()), [], sr)
  {
    var ss := [];
    while true
      invariant rd.Valid()
      invariant SectionsFrom(rd.lines, rd.State(), ss, sr) == SectionsFrom(rd.lines, old(rd.State()), [], sr)
      decreases |rd.lines| - rd.pos
    {
      var got := rd.ReadLine();
      if got.Fail? {
        return Fail(got.failure);
      }
      if !got.value {
        return Ok(Some(ss));
      }
      if rd.buf[0] != '&' {
        return Ok(None);
      }
      var sec := GetSection(rd, rd.buf[1..], sr);
      if sec.Fail? {
        return Fail(sec.failure);
      }
      ss := ss + [sec.value];
    }
  }
}
