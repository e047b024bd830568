/** The input side of aed_csv.c: read_line's line-end stripping, the table of
    open input files (csv_if and its counter _n_inf), the header lookups and
    the accessors for the current line's values. A file is represented by
    what the library reads from it: the first line becomes the header, and
    the values load_csv_line parses from the next line arrive as a parameter. */
module CsvInput {
  import opened Text
  import opened CsvSplit
  import opened TimeFormat

  // ---------------------------------------------------------------------
  // read_line

  /** read_line: got is the text fgets delivered for one line (None when it
      delivered nothing), atEof whether the stream is then at its end. The
      line comes back without its line end; an empty last line counts as
      no line at all. */
  method ReadLine(got: Option<string>, atEof: bool) returns (ln: Option<string>)
    ensures got.None? ==> ln.None?
    ensures ln.Some? ==> got.Some? && ln.value <= got.value
    ensures ln.Some? ==> |ln.value| == 0 || !IsLineEnd(ln.value[|ln.value| - 1])
    ensures ln.Some? ==> forall i :: |ln.value| <= i < |got.value| ==> IsLineEnd(got.value[i])
    ensures got.Some? && ln.None? ==> atEof && forall i :: 0 <= i < |got.value| ==> IsLineEnd(got.value[i])
    ensures ln.Some? && ln.value == [] ==> !atEof
  {
    if got.None? {
      return None;
    }
    var r := StripLineEnd(got.value);
    if |r| == 0 && atEof {
      ln := None;
    } else {
      ln := Some(r);
    }
  }

  // ---------------------------------------------------------------------
  // The table of input files

  /** One csv_if entry. n_cols is |header|; the file handle is open. */
  datatype InSlot = InSlot(open: bool, header: seq<string>, curLine: seq<real>, tf: Option<TimeFmt>)

  /** The entry as open_csv_input initialises it and close_csv_input leaves it. */
  const EmptyIn: InSlot := InSlot(false, [], [], None)

  function EmptySlots(n: nat): (s: seq<InSlot>)
    ensures |s| == n
    ensures forall i :: 0 <= i < n ==> s[i] == EmptyIn
  {
    if n == 0 then [] else EmptySlots(n - 1) + [EmptyIn]
  }

  /** C's conversion of a double to int: truncation toward zero. */
  function Trunc(x: real): (n: int)
    ensures 0.0 <= x ==> 0 <= n && n as real <= x < n as real + 1.0
    ensures x < 0.0 ==> n <= 0 && n as real - 1.0 < x <= n as real
  {
    if x >= 0.0 then x.Floor else -((-x).Floor)
  }

  /** csv_if[MAX_IN_FILES] with the counter _n_inf, which is -1 until the
      first open_csv_input. */
  class CsvInputs {
    const maxIn: nat
    var nIn: int
    var slots: seq<InSlot>

    ghost predicate Valid()
      reads this
    {
      -1 <= nIn <= maxIn && |slots| == maxIn &&
      forall i :: 0 <= i < |slots| ==> |slots[i].curLine| == |slots[i].header|
    }

    constructor (maxIn: nat)
      ensures Valid() && this.maxIn == maxIn && nIn == -1
    {
      this.maxIn := maxIn;
      nIn := -1;
      slots := EmptySlots(maxIn);
    }

    /** check_it: csv names an open slot and idx one of its columns. */
    predicate CheckIt(csv: int, idx: int)
      reads this
      requires Valid()
    {
      0 <= csv < nIn && 0 <= idx < |slots[csv].header|
    }

    /** get_csv_colname: the name of column idx of file csv, or NULL. Only
        `csv >= _n_inf` is tested, so any csv, the -1 of a failed open
        included, gives NULL while the counter is still -1; a negative csv
        below the counter would index before the table (InTable). */
    function GetCsvColname(csv: int, idx: int): (name: Option<string>)
      reads this
      requires Valid() && InTable(csv)
      ensures csv >= nIn ==> name.None?
      ensures name.Some? <==> CheckIt(csv, idx)
      ensures name.Some? ==> name.value in slots[csv].header
    {
      if csv >= nIn then None
      else if idx >= |slots[csv].header| || idx < 0 then None
      else Some(slots[csv].header[idx])
    }

    /** The file numbers get_csv_colname and find_csv_var can be given
        without reading outside csv_if: their only test is `csv >= _n_inf`,
        after which csv_if[csv] is read. */
    predicate InTable(csv: int)
      reads this
    {
      csv >= nIn || 0 <= csv
    }

    /** get_csv_val_r: the current line's value in column idx, or 0 when
        check_it fails. */
    function GetCsvValR(csv: int, idx: int): (v: real)
      reads this
      requires Valid()
      ensures !CheckIt(csv, idx) ==> v == 0.0
    {
      if CheckIt(csv, idx) then slots[csv].curLine[idx] else 0.0
    }

    /** get_csv_val_i, and equally get_csv_type and get_csv_val_s, whose
        bodies are the same: the value converted to int, or 0. */
    function GetCsvValI(csv: int, idx: int): (n: int)
      reads this
      requires Valid()
      ensures !CheckIt(csv, idx) ==> n == 0
    {
      if CheckIt(csv, idx) then Trunc(slots[csv].curLine[idx]) else 0
    }

    /** The integer accessor is the real accessor truncated toward zero. */
    lemma GetCsvValIIsTruncated(csv: int, idx: int)
      requires Valid()
      ensures GetCsvValI(csv, idx) == Trunc(GetCsvValR(csv, idx))
    {
    }

    /** find_csv_var: the first column of file csv whose name equals name
        ignoring case, or -1, also for a file number past the last open one
        and, while the counter is -1, for every file number. */
    method FindCsvVar(csv: int, name: string) returns (r: int)
      requires Valid() && InTable(csv)
      ensures csv >= nIn ==> r == -1
      ensures csv < nIn ==> r == FirstMatch(slots[csv].header, name)
      ensures r >= 0 ==> CheckIt(csv, r) && GetCsvColname(csv, r).Some? &&
                         EqualIgnoreCase(name, GetCsvColname(csv, r).value)
      ensures r >= 0 ==> forall j :: 0 <= j < r ==> !EqualIgnoreCase(name, GetCsvColname(csv, j).value)
      ensures r == -1 <==> forall j :: GetCsvColname(csv, j).Some? ==> !EqualIgnoreCase(name, GetCsvColname(csv, j).value)
    {
      if csv >= nIn {
        return -1;
      }
      var hs := slots[csv].header;
      FirstMatchIsFirst(hs, name);
      var i := 0;
      while i < |hs|
        invariant i <= |hs|
        invariant FirstMatchFrom(hs, name, i) == FirstMatch(hs, name)
      {
        if EqualIgnoreCase(name, hs[i]) {
          return i;
        }
        i := i + 1;
      }
      return -1;
    }

    /** open_csv_input. fileOpens says whether fopen succeeded, first is what
        read_line returned for the first line, timefmt the optional time
        pattern, and loaded the values load_csv_line leaves in curLine. The
        first call empties the whole table. The result is -1 when the table
        is full or the file does not open, and otherwise the next slot, which
        now holds the first line's fields as its header. */
    method OpenCsvInput(fileOpens: bool, first: Option<string>, timefmt: Option<string>, loaded: seq<real>)
      returns (r: int)
      requires Valid()
      requires first.Some? ==> CString(first.value)
      requires BreakLineSpec(first).Fields?
      requires |loaded| == |BreakLineSpec(first).strs|
      requires timefmt.Some? ==> |RenderAll(Tokenize(timefmt.value))| < FmtBufSize
      modifies this
      ensures Valid()
      ensures var n0 := if old(nIn) < 0 then 0 else old(nIn);
              var s0 := if old(nIn) < 0 then EmptySlots(maxIn) else old(slots);
              (r == -1 <==> n0 >= maxIn || !fileOpens) &&
              (r == -1 ==> nIn == n0 && slots == s0) &&
              (r != -1 ==>
                 r == n0 && nIn == n0 + 1 &&
                 slots == s0[r := InSlot(true, BreakLineSpec(first).strs, loaded,
                                        if timefmt.None? then None else Some(Decoded(timefmt.value)))])
      ensures r != -1 ==> forall idx :: CheckIt(r, idx) <==> 0 <= idx < |BreakLineSpec(first).strs|
      ensures r != -1 ==> forall idx :: 0 <= idx < |BreakLineSpec(first).strs| ==>
                            GetCsvColname(r, idx) == Some(BreakLineSpec(first).strs[idx])
    {
      if nIn < 0 {
        slots := EmptySlots(maxIn);
        nIn := 0;
      }
      if nIn >= maxIn {
        return -1;
      }
      if !fileOpens {
        return -1;
      }
      var header, cols := BreakLine(first);
      var tf: Option<TimeFmt> := None;
      if timefmt.Some? {
        var decoded := DecodeTimeFormat(timefmt.value);
        tf := Some(decoded);
      }
      slots := slots[nIn := InSlot(true, header, loaded, tf)];
      r := nIn;
      nIn := nIn + 1;
    }

    /** close_csv_input with the guard its callers need: a file number that
        is negative or past the last open slot is refused with -1; otherwise
        the slot is emptied, and the counter drops only when it was the last
        slot. */
    method CloseCsvInput(csvf: int) returns (r: int)
      requires Valid()
      modifies this
      ensures Valid()
      ensures r == -1 <==> !CloseAccepts(csvf, old(nIn))
      ensures r == -1 ==> nIn == old(nIn) && slots == old(slots)
      ensures r == 0 ==> slots == old(slots)[csvf := EmptyIn] &&
                         nIn == (if csvf == old(nIn) - 1 then old(nIn) - 1 else old(nIn))
      ensures r == 0 ==> forall idx :: !CheckIt(csvf, idx) && GetCsvValR(csvf, idx) == 0.0
    {
      if csvf < 0 || csvf >= nIn {
        return -1;
      }
      slots := slots[csvf := EmptyIn];
      if csvf == nIn - 1 {
        nIn := nIn - 1;
      }
      return 0;
    }
  }

  /** The file numbers close_csv_input should accept: the slots in use. */
  predicate CloseAccepts(csvf: int, nIn: int) {
    0 <= csvf < nIn
  }

  /** The guard close_csv_input actually tests: it refuses csvf < 0 and
      csvf > _n_inf, so it accepts csvf == _n_inf. */
  predicate CloseAcceptsAsWritten(csvf: int, nIn: int) {
    !(csvf < 0 || csvf > nIn)
  }

  /** The written guard accepts the number one past the last slot in use;
      with a full table of maxIn slots that is maxIn itself, and the close
      then writes csv_if[MAX_IN_FILES], past the end of the table. */
  lemma CloseAcceptsPastTable(maxIn: nat)
    ensures CloseAcceptsAsWritten(maxIn, maxIn) && !CloseAccepts(maxIn, maxIn)
    ensures forall nIn :: 0 <= nIn ==> CloseAcceptsAsWritten(nIn, nIn) && !CloseAccepts(nIn, nIn)
  {
  }

  /** Apart from that one number the two guards agree. */
  lemma CloseGuardsAgree(csvf: int, nIn: int)
    requires csvf != nIn
    ensures CloseAccepts(csvf, nIn) <==> CloseAcceptsAsWritten(csvf, nIn)
  {
  }
}
