/** The table of open namelist files of namelist.c (file_list and
    list_count) and the calls a program makes on it: open_namelist,
    find_namelist_entry, get_nml_listlen, get_namelist with the copy_*_list
    helpers, and close_namelist. */
module NmlStore {
  import opened Text
  import opened NmlValue
  import opened NmlExtract
  import opened NmlRead
  import opened NmlParse

  /** One NML: the file name, its sections, and whether close_namelist has
      released it. */
  datatype NmlFile = NmlFile(fname: string, sections: seq<Section>, open: bool)

  // ---------------------------------------------------------------------
  // find_namelist_entry

  function EntryNames(es: seq<Entry>): (ns: seq<string>)
    ensures |ns| == |es| && forall j :: 0 <= j < |es| ==> ns[j] == es[j].name
  {
    if es == [] then [] else [es[0].name] + EntryNames(es[1..])
  }

  /** Where an entry sits: its section and its index there. */
  datatype Place = Place(sec: nat, ent: nat)

  /** Section s is named `section` and holds an entry named `entry`, both
      ignoring case. */
  predicate Holds(s: Section, section: string, entry: string) {
    EqualIgnoreCase(section, s.name) && FirstMatch(EntryNames(s.entries), entry) >= 0
  }

  /** The search of find_namelist_entry from section i on: the first
      section of that name holding the entry, and the first entry of that
      name in it. */
  function Find(ss: seq<Section>, section: string, entry: string, i: nat): (r: Option<Place>)
    requires i <= |ss|
    ensures r.Some? ==> i <= r.value.sec < |ss| && r.value.ent < |ss[r.value.sec].entries|
    decreases |ss| - i
  {
    if i == |ss| then None
    else if Holds(ss[i], section, entry) then Some(Place(i, FirstMatch(EntryNames(ss[i].entries), entry)))
    else Find(ss, section, entry, i + 1)
  }

  /** The search finds the first section that holds the entry, and nothing
      exactly when no section does. */
  lemma {:induction false} FindIsFirst(ss: seq<Section>, section: string, entry: string, i: nat)
    requires i <= |ss|
    ensures Find(ss, section, entry, i).None? <==> forall k :: i <= k < |ss| ==> !Holds(ss[k], section, entry)
    ensures Find(ss, section, entry, i).Some? ==>
              var p := Find(ss, section, entry, i).value;
              && EqualIgnoreCase(section, ss[p.sec].name)
              && EqualIgnoreCase(entry, ss[p.sec].entries[p.ent].name)
              && (forall j :: 0 <= j < p.ent ==> !EqualIgnoreCase(entry, ss[p.sec].entries[j].name))
              && (forall k :: i <= k < p.sec ==> !Holds(ss[k], section, entry))
    decreases |ss| - i
  {
    if i < |ss| {
      if Holds(ss[i], section, entry) {
        FirstMatchIsFirst(EntryNames(ss[i].entries), entry);
      } else {
        FindIsFirst(ss, section, entry, i + 1);
      }
    }
  }

  /** How far the search walks: up to the section holding the entry, or
      through all of them. */
  function Stop(ss: seq<Section>, section: string, entry: string): (n: nat)
    ensures n <= |ss|
  {
    match Find(ss, section, entry, 0)
    case None => |ss|
    case Some(p) => p.sec + 1
  }

  /** The sections after the search has walked the first n: each one of
      the name asked for is marked seen. */
  function MarkUpTo(ss: seq<Section>, section: string, n: nat): (ts: seq<Section>)
    requires n <= |ss|
    ensures |ts| == |ss|
    ensures forall k :: 0 <= k < |ss| ==>
              ts[k] == if k < n && EqualIgnoreCase(section, ss[k].name) then ss[k].(seen := true) else ss[k]
  {
    if n == 0 then ss
    else
      var ts := MarkUpTo(ss, section, n - 1);
      if EqualIgnoreCase(section, ss[n - 1].name) then ts[n - 1 := ss[n - 1].(seen := true)] else ts
  }

  /** ss and ts differ at most in their seen flags. */
  predicate SameNames(ss: seq<Section>, ts: seq<Section>) {
    |ss| == |ts| &&
    forall k :: 0 <= k < |ss| ==>
      ss[k].name == ts[k].name && |ss[k].entries| == |ts[k].entries| &&
      forall j :: 0 <= j < |ss[k].entries| ==>
        ss[k].entries[j].(seen := false) == ts[k].entries[j].(seen := false)
  }

  lemma {:induction false} FindSameNames(ss: seq<Section>, ts: seq<Section>, section: string, entry: string, i: nat)
    requires SameNames(ss, ts) && i <= |ss|
    ensures Find(ss, section, entry, i) == Find(ts, section, entry, i)
    decreases |ss| - i
  {
    if i < |ss| {
      var a, b := EntryNames(ss[i].entries), EntryNames(ts[i].entries);
      assert a == b by {
        forall j | 0 <= j < |a|
          ensures a[j] == b[j]
        {
          assert ss[i].entries[j].(seen := false).name == ts[i].entries[j].(seen := false).name;
        }
      }
      FindSameNames(ss, ts, section, entry, i + 1);
    }
  }

  // ---------------------------------------------------------------------
  // get_namelist

  /** One NAMELIST record of the caller: the entry name (the section name
      in the first record) and the type code, TYPE_* with MASK_LIST for a
      list. */
  datatype Record = Record(name: string, rtype: int)

  /** What a record's data pointer points to: nothing written yet (or a
      NULL list pointer), a scalar, or a list the library allocated. */
  datatype Slot = Null | Scalar(v: Value) | List(vs: seq<Value>)

  /** t & MASK_TYPE, on the two's complement bits of t. */
  function Base(t: int): int {
    t % 16
  }

  /** t & MASK_LIST is set. */
  predicate IsList(t: int) {
    (t / 128) % 2 == 1
  }

  /** The union member a copy reads each cell through. */
  datatype View = AsInt | AsReal | AsWidened | AsStr | AsBool

  function ViewOf(k: View, v: Value): Value {
    match k
    case AsInt => IntView(v)
    case AsReal => RealView(v)
    case AsWidened => Widen(v)
    case AsStr => StrView(v)
    case AsBool => BoolView(v)
  }

  function ViewAll(k: View, vs: seq<Value>): (ws: seq<Value>)
    ensures |ws| == |vs| && forall j :: 0 <= j < |vs| ==> ws[j] == ViewOf(k, vs[j])
  {
    if vs == [] then [] else [ViewOf(k, vs[0])] + ViewAll(k, vs[1..])
  }

  /** The copy a list request makes: copy_int_list, copy_double_list
      (through .r for a Double entry, widening .i otherwise),
      copy_str_list, copy_bool_list; None for any other type code. */
  function ListView(b: int, e: Entry): Option<View> {
    if b == 1 then Some(AsInt)
    else if b == 2 then Some(if e.etype == TDouble then AsReal else AsWidened)
    else if b == 3 then Some(AsStr)
    else if b == 4 then Some(AsBool)
    else None
  }

  /** Binding one found entry: the entry's new seen flag and the record's
      new slot, or a crash. */
  datatype Binding = Binding(seen: bool, slot: Slot) | Crash

  /** The binding as get_namelist does it. A list request copies every
      value (seen becomes the new list; for an unknown type code it becomes
      whatever pointer the slot held). A scalar Int is written only from an
      Int entry, a scalar Double from a Double or (widened) an Int entry;
      a scalar Str or Bool reads the first value whatever the entry's type,
      which for an entry without values is a NULL dereference. */
  function BindAsWritten(e: Entry, t: int, s: Slot): (r: Binding)
    requires Coherent(e)
    ensures r.Crash? <==> !IsList(t) && (Base(t) == 3 || Base(t) == 4) && e.data == []
    ensures r.Binding? && !IsList(t) && (Base(t) == 3 || Base(t) == 4) ==> r.seen && r.slot.Scalar?
  {
    if IsList(t) then
      match ListView(Base(t), e)
      case Some(k) => Binding(true, List(ViewAll(k, e.data)))
      case None => Binding(s != Null, s)
    else if Base(t) == 1 then
      Binding(true, if e.etype == TInt then Scalar(IntView(e.data[0])) else s)
    else if Base(t) == 2 then
      Binding(true, if e.etype == TDouble then Scalar(RealView(e.data[0]))
                    else if e.etype == TInt then Scalar(Widen(e.data[0]))
                    else s)
    else if Base(t) == 3 || Base(t) == 4 then
      if e.data == [] then Crash
      else Binding(true, Scalar(if Base(t) == 3 then StrView(e.data[0]) else BoolView(e.data[0])))
    else Binding(true, s)
  }

  /** The binding with the NULL dereference removed: a scalar Str or Bool
      request on an entry without values leaves the slot alone, as the
      Int and Double requests do on an entry of the wrong type. */
  function Bind(e: Entry, t: int, s: Slot): (b: Binding)
    requires Coherent(e)
    ensures b.Binding?
    ensures b.seen <==> !IsList(t) || ListView(Base(t), e).Some? || s != Null
    ensures !IsList(t) && Base(t) == 1 ==> b.slot == if e.etype == TInt then Scalar(e.data[0]) else s
    ensures !IsList(t) && Base(t) == 2 ==>
              b.slot == if e.etype == TDouble then Scalar(e.data[0])
                        else if e.etype == TInt then Scalar(VReal(e.data[0].i as real))
                        else s
    ensures !IsList(t) && (Base(t) == 3 || Base(t) == 4) ==>
              b.slot == if e.data == [] then s else Scalar(ViewOf(if Base(t) == 3 then AsStr else AsBool, e.data[0]))
    ensures !IsList(t) && !(1 <= Base(t) <= 4) ==> b.slot == s
    ensures IsList(t) && 1 <= Base(t) <= 4 ==> b.slot.List? && |b.slot.vs| == |e.data|
    ensures IsList(t) && !(1 <= Base(t) <= 4) ==> b.slot == s
    ensures IsList(t) && Base(t) == 1 ==>
              forall j :: 0 <= j < |e.data| && e.data[j].VInt? ==> b.slot.vs[j] == e.data[j]
    ensures IsList(t) && Base(t) == 2 ==>
              forall j :: 0 <= j < |e.data| ==>
                (e.data[j].VInt? && e.etype != TDouble ==> b.slot.vs[j] == VReal(e.data[j].i as real)) &&
                (e.data[j].VReal? && e.etype == TDouble ==> b.slot.vs[j] == e.data[j])
  {
    if !IsList(t) && (Base(t) == 3 || Base(t) == 4) && e.data == [] then Binding(true, s)
    else BindAsWritten(e, t, s)
  }

  /** The two bindings differ only where the code as written crashes, and
      it crashes exactly on a scalar Str or Bool request for an entry
      without values. */
  lemma BindFixesOnlyTheCrash(e: Entry, t: int, s: Slot)
    requires Coherent(e)
    ensures BindAsWritten(e, t, s) == Crash <==> !IsList(t) && (Base(t) == 3 || Base(t) == 4) && e.data == []
    ensures BindAsWritten(e, t, s) != Crash ==> Bind(e, t, s) == BindAsWritten(e, t, s)
  {
  }

  /** An entry without values, as "a =" followed by "/" gives (see
      NmlParse.EmptyEntry): asking for it as a scalar string dereferences
      its NULL data. */
  lemma EmptyEntryCrashes()
    ensures Coherent(NewEntry("a"))
    ensures BindAsWritten(NewEntry("a"), 3, Null) == Crash
    ensures Bind(NewEntry("a"), 3, Null) == Binding(true, Null)
  {
    assert !IsList(3) && Base(3) == 3;
  }

  /** The first record at or after i with type code 0 (TYPE_END), or |nl|. */
  function End(nl: seq<Record>, i: nat): (k: nat)
    requires i <= |nl|
    ensures i <= k <= |nl| && (k < |nl| ==> nl[k].rtype == 0)
    ensures forall m :: i <= m < k ==> nl[m].rtype != 0
    decreases |nl| - i
  {
    if i == |nl| || nl[i].rtype == 0 then i else End(nl, i + 1)
  }

  /** The seen flag of the entry at p set to b. */
  function SetSeen(ss: seq<Section>, p: Place, b: bool): (ts: seq<Section>)
    requires p.sec < |ss| && p.ent < |ss[p.sec].entries|
    ensures SameNames(ss, ts)
    ensures SectionsCoherent(ss) ==> SectionsCoherent(ts)
  {
    var s := ss[p.sec];
    var ts := ss[p.sec := s.(entries := s.entries[p.ent := s.entries[p.ent].(seen := b)])];
    assert forall k, j :: 0 <= k < |ss| && 0 <= j < |ss[k].entries| ==>
      ts[k].entries[j].(seen := false) == ss[k].entries[j].(seen := false);
    ts
  }

  lemma MarkUpToSameNames(ss: seq<Section>, section: string, n: nat)
    requires n <= |ss|
    ensures SameNames(ss, MarkUpTo(ss, section, n))
    ensures SectionsCoherent(ss) ==> SectionsCoherent(MarkUpTo(ss, section, n))
  {
    var ts := MarkUpTo(ss, section, n);
    assert forall k :: 0 <= k < |ss| ==> ts[k].entries == ss[k].entries;
  }

  /** One record of get_namelist's loop: the lookup marks the sections it
      walks, and a found entry is bound. The result holds the sections, the
      record's slot, and whether the entry exists. */
  function BindRecord(ss: seq<Section>, section: string, r: Record, slot: Slot): (x: (seq<Section>, Slot, bool))
    requires SectionsCoherent(ss)
    ensures SectionsCoherent(x.0) && SameNames(ss, x.0)
    ensures x.2 <==> Find(ss, section, r.name, 0).Some?
    ensures !x.2 ==> x.1 == slot
  {
    var marked := MarkUpTo(ss, section, Stop(ss, section, r.name));
    MarkUpToSameNames(ss, section, Stop(ss, section, r.name));
    match Find(ss, section, r.name, 0)
    case None => (marked, slot, false)
    case Some(p) =>
      var b := Bind(ss[p.sec].entries[p.ent], r.rtype, slot);
      (SetSeen(marked, p, b.seen), b.slot, true)
  }

  /** What get_namelist leaves: the sections with their new seen flags, the
      slots, and the result. */
  datatype Bound = Bound(sections: seq<Section>, slots: seq<Slot>, ret: int)

  /** The record loop of get_namelist from record i until TYPE_END: each
      record's entry is looked up in the sections named `section` and, when
      found, bound; the result turns 0 with the first entry found. */
  function BindFrom(ss: seq<Section>, section: string, nl: seq<Record>, slots: seq<Slot>, i: nat, ret: int): (b: Bound)
    requires SectionsCoherent(ss) && i <= |nl| && |slots| == |nl|
    ensures SectionsCoherent(b.sections) && |b.slots| == |nl|
    decreases |nl| - i
  {
    if i == |nl| || nl[i].rtype == 0 then Bound(ss, slots, ret)
    else
      var x := BindRecord(ss, section, nl[i], slots[i]);
      BindFrom(x.0, section, nl, slots[i := x.1], i + 1, if x.2 then 0 else ret)
  }

  /** get_namelist on the sections of a file: -1 with nothing changed when
      the first record is not TYPE_START. */
  function GetNamelistSpec(ss: seq<Section>, nl: seq<Record>, slots: seq<Slot>): (b: Bound)
    requires SectionsCoherent(ss) && |nl| >= 1 && |slots| == |nl|
    ensures SectionsCoherent(b.sections) && |b.slots| == |nl|
    ensures nl[0].rtype != 0 ==> b.ret == -1 && b.sections == ss && b.slots == slots
  {
    if nl[0].rtype != 0 then Bound(ss, slots, -1)
    else BindFrom(ss, nl[0].name, nl, slots, 1, -1)
  }

  lemma FindAllSameNames(ss: seq<Section>, ts: seq<Section>, section: string, nl: seq<Record>)
    requires SameNames(ss, ts)
    ensures forall k :: 0 <= k < |nl| ==> Find(ts, section, nl[k].name, 0) == Find(ss, section, nl[k].name, 0)
  {
    forall k | 0 <= k < |nl|
      ensures Find(ts, section, nl[k].name, 0) == Find(ss, section, nl[k].name, 0)
    {
      FindSameNames(ss, ts, section, nl[k].name, 0);
    }
  }

  /** The result is 0 exactly when some requested entry exists (or one was
      found before record i), and -1 otherwise. */
  lemma {:induction false} BindFromRet(ss: seq<Section>, section: string, nl: seq<Record>, slots: seq<Slot>, i: nat, ret: int)
    requires SectionsCoherent(ss) && i <= |nl| && |slots| == |nl| && (ret == 0 || ret == -1)
    ensures var b := BindFrom(ss, section, nl, slots, i, ret);
      && (b.ret == 0 <==> ret == 0 || AnyFound(ss, section, nl, i, End(nl, i)))
      && (b.ret == 0 || b.ret == -1)
    decreases |nl| - i
  {
    if i < |nl| && nl[i].rtype != 0 {
      var x := BindRecord(ss, section, nl[i], slots[i]);
      BindFromRet(x.0, section, nl, slots[i := x.1], i + 1, if x.2 then 0 else ret);
      assert End(nl, i) == End(nl, i + 1);
      AnyFoundStep(ss, x.0, section, nl, i, End(nl, i));
    } else {
      assert !AnyFound(ss, section, nl, i, End(nl, i));
    }
  }

  /** Some record in [lo, hi) names an entry of the section. */
  ghost predicate AnyFound(ss: seq<Section>, section: string, nl: seq<Record>, lo: nat, hi: nat)
    requires hi <= |nl|
  {
    exists k :: lo <= k < hi && Find(ss, section, nl[k].name, 0).Some?
  }

  /** Peeling the first record off the range, across a step that only sets
      seen flags. */
  lemma AnyFoundStep(ss: seq<Section>, ts: seq<Section>, section: string, nl: seq<Record>, lo: nat, hi: nat)
    requires SameNames(ss, ts) && lo < hi <= |nl|
    ensures AnyFound(ss, section, nl, lo, hi)
        <==> Find(ss, section, nl[lo].name, 0).Some? || AnyFound(ts, section, nl, lo + 1, hi)
  {
    FindAllSameNames(ss, ts, section, nl);
    if AnyFound(ss, section, nl, lo, hi) {
      var k :| lo <= k < hi && Find(ss, section, nl[k].name, 0).Some?;
      if k > lo {
        assert Find(ts, section, nl[k].name, 0).Some?;
      }
    }
    if AnyFound(ts, section, nl, lo + 1, hi) {
      var k :| lo + 1 <= k < hi && Find(ts, section, nl[k].name, 0).Some?;
      assert Find(ss, section, nl[k].name, 0).Some?;
    }
  }

  /** A record whose entry does not exist, and every record outside the
      loop, keeps its slot. */
  lemma {:induction false} BindFromKeeps(ss: seq<Section>, section: string, nl: seq<Record>, slots: seq<Slot>, i: nat, ret: int)
    requires SectionsCoherent(ss) && i <= |nl| && |slots| == |nl|
    ensures var b := BindFrom(ss, section, nl, slots, i, ret);
      forall k :: 0 <= k < |nl| && (k < i || k >= End(nl, i) || Find(ss, section, nl[k].name, 0).None?) ==>
        b.slots[k] == slots[k]
    decreases |nl| - i
  {
    if i < |nl| && nl[i].rtype != 0 {
      var x := BindRecord(ss, section, nl[i], slots[i]);
      FindAllSameNames(ss, x.0, section, nl);
      BindFromKeeps(x.0, section, nl, slots[i := x.1], i + 1, if x.2 then 0 else ret);
      assert End(nl, i) == End(nl, i + 1);
    }
  }

  // ---------------------------------------------------------------------
  // close_namelist

  /** The (section, entry) names close_namelist reports: every entry never
      bound in a section a lookup has visited, in file order. */
  function Unbound(ss: seq<Section>): seq<(string, string)> {
    if ss == [] then []
    else Unbound(ss[..|ss| - 1]) + UnboundIn(ss[|ss| - 1], |ss[|ss| - 1].entries|)
  }

  function UnboundIn(s: Section, n: nat): seq<(string, string)>
    requires n <= |s.entries|
  {
    if n == 0 then []
    else UnboundIn(s, n - 1) + (if s.seen && !s.entries[n - 1].seen then [(s.name, s.entries[n - 1].name)] else [])
  }

  lemma {:induction false} UnboundInEmpty(s: Section, n: nat)
    requires n <= |s.entries|
    ensures UnboundIn(s, n) == [] <==> forall j :: 0 <= j < n ==> !s.seen || s.entries[j].seen
  {
    if n > 0 {
      UnboundInEmpty(s, n - 1);
    }
  }

  /** close_namelist fails exactly when a section some lookup visited holds
      an entry no get_namelist call bound. */
  lemma {:induction false} UnboundEmpty(ss: seq<Section>)
    ensures Unbound(ss) == [] <==>
              forall k, j :: 0 <= k < |ss| && 0 <= j < |ss[k].entries| ==> !ss[k].seen || ss[k].entries[j].seen
  {
    if ss != [] {
      var init := ss[..|ss| - 1];
      UnboundEmpty(init);
      UnboundInEmpty(ss[|ss| - 1], |ss[|ss| - 1].entries|);
      assert forall k :: 0 <= k < |init| ==> init[k] == ss[k];
    }
  }

  // ---------------------------------------------------------------------
  // The loops of the C functions

  /** copy_int_list, copy_double_list, copy_str_list and copy_bool_list:
      one loop copying every cell through the member k. */
  method CopyList(k: View, data: seq<Value>) returns (l: seq<Value>)
    ensures l == ViewAll(k, data)
  {
    l := [];
    var i := 0;
    while i < |data|
      invariant i <= |data| && |l| == i
      invariant forall j :: 0 <= j < i ==> l[j] == ViewOf(k, data[j])
    {
      l := l + [ViewOf(k, data[i])];
      i := i + 1;
    }
  }

  /** The body of get_namelist's loop for a found entry, with the NULL
      dereference removed. */
  method BindEntry(e: Entry, t: int, s: Slot) returns (seen: bool, slot: Slot)
    requires Coherent(e)
    ensures Bind(e, t, s) == Binding(seen, slot)
  {
    seen, slot := true, s;
    if IsList(t) {
      var k := ListView(Base(t), e);
      if k.Some? {
        var l := CopyList(k.value, e.data);
        slot := List(l);
      } else {
        seen := s != Null;
      }
    } else if Base(t) == 1 {
      if e.etype == TInt {
        slot := Scalar(IntView(e.data[0]));
      }
    } else if Base(t) == 2 {
      if e.etype == TDouble {
        slot := Scalar(RealView(e.data[0]));
      } else if e.etype == TInt {
        slot := Scalar(Widen(e.data[0]));
      }
    } else if Base(t) == 3 {
      if e.data != [] {
        slot := Scalar(StrView(e.data[0]));
      }
    } else if Base(t) == 4 {
      if e.data != [] {
        slot := Scalar(BoolView(e.data[0]));
      }
    }
  }

  /** The loop of close_namelist over the sections and their entries. */
  method ReportUnbound(ss: seq<Section>) returns (r: seq<(string, string)>)
    ensures r == Unbound(ss)
  {
    r := [];
    var i := 0;
    while i < |ss|
      invariant i <= |ss| && r == Unbound(ss[..i])
    {
      var s := ss[i];
      var j := 0;
      ghost var r0 := r;
      while j < |s.entries|
        invariant j <= |s.entries| && r == r0 + UnboundIn(s, j)
      {
        if s.seen && !s.entries[j].seen {
          r := r + [(s.name, s.entries[j].name)];
        }
        j := j + 1;
      }
      assert ss[..i + 1][..i] == ss[..i];
      i := i + 1;
    }
    assert ss[..|ss|] == ss;
  }

  /** The inner loop of find_namelist_entry: the first entry of the
      section with that name, ignoring case, or -1. */
  method FindEntry(es: seq<Entry>, entry: string) returns (j: int)
    ensures j == FirstMatch(EntryNames(es), entry)
  {
    var names := EntryNames(es);
    FirstMatchIsFirst(names, entry);
    j := 0;
    while j < |es|
      invariant j <= |es| && FirstMatchFrom(names, entry, j) == FirstMatch(names, entry)
    {
      if EqualIgnoreCase(entry, es[j].name) {
        return;
      }
      j := j + 1;
    }
    return -1;
  }

  /** The outer loop of find_namelist_entry on the sections of one file:
      each section of the name asked for is marked seen, until one holds
      the entry. */
  method SearchSections(ss: seq<Section>, section: string, entry: string) returns (r: Option<Place>, ts: seq<Section>)
    ensures r == Find(ss, section, entry, 0)
    ensures ts == MarkUpTo(ss, section, Stop(ss, section, entry))
  {
    ts := ss;
    var i := 0;
    while i < |ss|
      invariant i <= |ss| && ts == MarkUpTo(ss, section, i)
      invariant Find(ss, section, entry, i) == Find(ss, section, entry, 0)
    {
      if EqualIgnoreCase(section, ss[i].name) {
        ts := ts[i := ss[i].(seen := true)];
        var j := FindEntry(ss[i].entries, entry);
        if j >= 0 {
          return Some(Place(i, j)), ts;
        }
      }
      i := i + 1;
    }
    return None, ts;
  }

  lemma BindFromStep(ss: seq<Section>, section: string, nl: seq<Record>, slots: seq<Slot>, i: nat, ret: int)
    requires SectionsCoherent(ss) && i < |nl| && |slots| == |nl| && nl[i].rtype != 0
    ensures var x := BindRecord(ss, section, nl[i], slots[i]);
      BindFrom(ss, section, nl, slots, i, ret) == BindFrom(x.0, section, nl, slots[i := x.1], i + 1, if x.2 then 0 else ret)
  {
  }

  /** One pass of get_namelist's loop: find_namelist_entry, then the
      binding of a found entry. */
  method BindOne(ss: seq<Section>, section: string, r: Record, slot: Slot) returns (x: (seq<Section>, Slot, bool))
    requires SectionsCoherent(ss)
    ensures x == BindRecord(ss, section, r, slot)
  {
    var p, marked := SearchSections(ss, section, r.name);
    MarkUpToSameNames(ss, section, Stop(ss, section, r.name));
    if p.None? {
      return (marked, slot, false);
    }
    var seen, s := BindEntry(ss[p.value.sec].entries[p.value.ent], r.rtype, slot);
    return (SetSeen(marked, p.value, seen), s, true);
  }

  /** get_namelist's loop body on record i, carrying what the loop has
      built so far. */
  method BindNext(b: Bound, section: string, nl: seq<Record>, i: nat) returns (b': Bound)
    requires SectionsCoherent(b.sections) && i < |nl| && |b.slots| == |nl| && nl[i].rtype != 0
    ensures SectionsCoherent(b'.sections) && |b'.slots| == |nl|
    ensures BindFrom(b'.sections, section, nl, b'.slots, i + 1, b'.ret) == BindFrom(b.sections, section, nl, b.slots, i, b.ret)
  {
    var x := BindOne(b.sections, section, nl[i], b.slots[i]);
    BindFromStep(b.sections, section, nl, b.slots, i, b.ret);
    b' := Bound(x.0, b.slots[i := x.1], if x.2 then 0 else b.ret);
  }

  /** The record loop of get_namelist, from the record after TYPE_START to
      TYPE_END. */
  method BindRecords(ss: seq<Section>, section: string, nl: seq<Record>, slots: seq<Slot>) returns (b: Bound)
    requires SectionsCoherent(ss) && |slots| == |nl| && |nl| >= 1 && End(nl, 1) < |nl|
    ensures b == BindFrom(ss, section, nl, slots, 1, -1)
  {
    ghost var target := BindFrom(ss, section, nl, slots, 1, -1);
    ghost var stop := End(nl, 1);
    b := Bound(ss, slots, -1);
    var i := 1;
    while nl[i].rtype != 0
      invariant 1 <= i <= stop && |b.slots| == |nl| && SectionsCoherent(b.sections)
      invariant BindFrom(b.sections, section, nl, b.slots, i, b.ret) == target
      decreases |nl| - i
    {
      b := BindNext(b, section, nl, i);
      i := i + 1;
    }
  }

  /** The handles whose sections are all coherent. */
  ghost predicate AllCoherent(fs: seq<NmlFile>) {
    forall f :: 0 <= f < |fs| ==> SectionsCoherent(fs[f].sections)
  }

  lemma ReplaceCoherent(fs: seq<NmlFile>, f: nat, ss: seq<Section>)
    requires AllCoherent(fs) && f < |fs| && SectionsCoherent(ss)
    ensures AllCoherent(fs[f := fs[f].(sections := ss)])
  {
  }

  // ---------------------------------------------------------------------
  // The table

  /** file_list with list_count = |files|. */
  class Registry {
    var files: seq<NmlFile>

    ghost predicate Valid()
      reads this
    {
      AllCoherent(files)
    }

    constructor ()
      ensures Valid() && files == []
    {
      files := [];
    }

    /** open_namelist: content is what fopen gives (None when it fails). A
        file that opens and reads without a line outside a section gets the
        next handle; otherwise the result is -1 and the table is as it was.
        A fatal error while reading stops the program. */
    method OpenNamelist(fname: string, content: Option<seq<string>>, sr: RealScanner) returns (r: Outcome<int>)
      requires Valid()
      modifies this
      ensures Valid()
      ensures content.None? ==> r == Ok(-1) && files == old(files)
      ensures content.Some? ==>
                match ParseFile(content.value, sr)
                case Fail(f) => r == Fail(f)
                case Ok(None) => r == Ok(-1) && files == old(files)
                case Ok(Some(ss)) => r == Ok(|old(files)|) && files == old(files) + [NmlFile(fname, ss, true)]
    {
      if content.None? {
        return Ok(-1);
      }
      var rd := new Reader(content.value);
      var p := ParseSections(rd, sr);
      if p.Fail? {
        return Fail(p.failure);
      }
      if p.value.None? {
        return Ok(-1);
      }
      ParseFileCoherent(content.value, sr);
      r := Ok(|files|);
      files := files + [NmlFile(fname, p.value.value, true)];
    }

    /** find_namelist_entry(file, section, entry). */
    method FindNamelistEntry(file: nat, section: string, entry: string) returns (r: Option<Place>)
      requires Valid() && file < |files| && files[file].open
      modifies this
      ensures Valid()
      ensures var ss := old(files)[file].sections;
        && r == Find(ss, section, entry, 0)
        && files == old(files)[file := old(files)[file].(sections := MarkUpTo(ss, section, Stop(ss, section, entry)))]
    {
      var ts;
      r, ts := SearchSections(files[file].sections, section, entry);
      MarkUpToSameNames(files[file].sections, section, Stop(files[file].sections, section, entry));
      ReplaceCoherent(files, file, ts);
      files := files[file := files[file].(sections := ts)];
    }

    /** get_nml_listlen: the number of values of the entry, 0 when it does
        not exist. The lookup marks sections seen like any other. */
    method GetNmlListlen(file: nat, section: string, entry: string) returns (n: int)
      requires Valid() && file < |files| && files[file].open
      modifies this
      ensures Valid()
      ensures var ss := old(files)[file].sections;
        && n == (match Find(ss, section, entry, 0)
                 case None => 0
                 case Some(p) => |ss[p.sec].entries[p.ent].data|)
        && files == old(files)[file := old(files)[file].(sections := MarkUpTo(ss, section, Stop(ss, section, entry)))]
    {
      var p := FindNamelistEntry(file, section, entry);
      if p.None? {
        return 0;
      }
      n := |files[file].sections[p.value.sec].entries[p.value.ent].data|;
    }

    /** get_namelist(file, nl): slots are what the records' data pointers
        point to. nl must end in a TYPE_END record when it starts with
        TYPE_START, as the loop reads records until one. */
    method GetNamelist(file: nat, nl: seq<Record>, slots: seq<Slot>) returns (ret: int, out: seq<Slot>)
      requires Valid() && file < |files| && files[file].open
      requires |nl| >= 1 && |slots| == |nl|
      requires nl[0].rtype == 0 ==> End(nl, 1) < |nl|
      modifies this
      ensures Valid()
      ensures var b := GetNamelistSpec(old(files)[file].sections, nl, slots);
        ret == b.ret && out == b.slots && files == old(files)[file := old(files)[file].(sections := b.sections)]
    {
      if nl[0].rtype != 0 {
        return -1, slots;
      }
      var b := BindRecords(files[file].sections, nl[0].name, nl, slots);
      ReplaceCoherent(files, file, b.sections);
      files := files[file := files[file].(sections := b.sections)];
      ret, out := b.ret, b.slots;
    }

    /** close_namelist: the reported (section, entry) pairs; a nonempty
        report makes the program exit with status 1. The file's memory is
        released, so its handle may not be used again: every lookup and the
        close itself require an open handle. */
    method CloseNamelist(file: nat) returns (unknown: seq<(string, string)>)
      requires Valid() && file < |files| && files[file].open
      modifies this
      ensures Valid()
      ensures unknown == Unbound(old(files)[file].sections)
      ensures files == old(files)[file := old(files)[file].(open := false)]
    {
      unknown := ReportUnbound(files[file].sections);
      files := files[file := files[file].(open := false)];
    }
  }
}
