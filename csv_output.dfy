/** The output side of aed_csv.c: the path open_csv_output builds, the table
    of output files (csv_of and its counter _n_outf), the header calls and
    the row buffer write_csv_var fills and flushes. What a file receives is
    kept as a sequence of pieces: text written verbatim, and numbers whose
    printf formatting is not part of this model. */
module CsvOutput {
  import opened Text
  import opened CsvSplit

  /** MISVAL, the value a column holds until it is written. */
  const Missing: real := -9999.0
  const MaxOutValues: nat := 40
  /** The length of the row buffer buff[MAX_OUT_VALUES+4]. */
  const BuffSize: nat := MaxOutValues + 4
  /** char time[20] holds at most 19 characters and the terminator. */
  const TimeLength: nat := 19
  const Invalid: string := "INVALID"
  const TimeName: string := "time"
  /** DIRSEP outside Windows. */
  const DirSep: string := "/"

  // ---------------------------------------------------------------------
  // open_csv_output: the path

  /** The name of the file open_csv_output creates. */
  function OutputPath(outDir: Option<string>, fname: string): (path: string)
    ensures |path| >= |fname| + 4 && path[|path| - 4..] == ".csv"
    ensures path[|path| - 4 - |fname|..|path| - 4] == fname
    ensures outDir.None? || outDir.value == "." ==> path == fname + ".csv"
  {
    if outDir.Some? && outDir.value != "." then outDir.value + DirSep + fname + ".csv"
    else fname + ".csv"
  }

  /** The number of bytes the C allocates for the path and hands to
      snprintf. */
  function PathAllocation(outDir: Option<string>, fname: string): nat {
    if outDir.Some? && outDir.value != "." then |outDir.value| + |DirSep| + |fname| + 5
    else |fname| + 5
  }

  /** snprintf(buf, len, ...): at most len - 1 characters and a terminator. */
  function Snprintf(s: string, len: nat): (r: string)
    requires len > 0
    ensures r <= s && |r| < len
    ensures |s| < len ==> r == s
  {
    if |s| < len then s else s[..len - 1]
  }

  /** The allocation is exact: path and terminator fill it, so snprintf
      never cuts the path short. */
  lemma PathFits(outDir: Option<string>, fname: string)
    ensures |OutputPath(outDir, fname)| + 1 == PathAllocation(outDir, fname)
    ensures Snprintf(OutputPath(outDir, fname), PathAllocation(outDir, fname)) == OutputPath(outDir, fname)
  {
  }

  /** The path ends in fname and ".csv", behind out_dir and the separator
      unless out_dir is missing or ".". */
  lemma OutputPathParts(outDir: Option<string>, fname: string)
    ensures var p := OutputPath(outDir, fname);
            |p| >= |fname| + 4 &&
            p[|p| - 4..] == ".csv" &&
            p[|p| - 4 - |fname|..|p| - 4] == fname &&
            (outDir.Some? && outDir.value != "." ==>
               p[..|outDir.value|] == outDir.value && p[|outDir.value|] == '/' &&
               |p| == |outDir.value| + 1 + |fname| + 4) &&
            (outDir.None? || outDir.value == "." ==> |p| == |fname| + 4)
  {
    var p := OutputPath(outDir, fname);
    if outDir.Some? && outDir.value != "." {
      assert p == outDir.value + DirSep + fname + ".csv";
    } else {
      assert p == fname + ".csv";
    }
  }

  // ---------------------------------------------------------------------
  // The row buffer

  /** A piece of output: text as written, or a number printed ",%w.6f". */
  datatype Piece = Text(s: string) | Num(v: real, width: nat)

  /** One output file's state: whether f is open, the pending time stamp,
      the column names (n_cols is |header|), the row buffer and what was
      written so far. */
  datatype OutState = OutState(open: bool, time: string, header: seq<string>, buff: seq<real>, out: seq<Piece>)

  predicate Sized(s: OutState) {
    |s.buff| == BuffSize && |s.header| <= BuffSize
  }

  /** strncpy(time, cval, 19) followed by time[19] = 0. */
  function TimeOf(cval: string): (t: string)
    ensures t <= cval
    ensures |t| == if |cval| <= TimeLength then |cval| else TimeLength
  {
    if |cval| <= TimeLength then cval else cval[..TimeLength]
  }

  /** The numbers of a row, each printed ",%12.6f". */
  function Numbers(vs: seq<real>): (ps: seq<Piece>)
    ensures |ps| == |vs|
  {
    if vs == [] then [] else Numbers(vs[..|vs| - 1]) + [Num(vs[|vs| - 1], 12)]
  }

  lemma NumbersSnoc(vs: seq<real>, v: real)
    ensures Numbers(vs + [v]) == Numbers(vs) + [Num(v, 12)]
  {
    assert (vs + [v])[..|vs|] == vs;
  }

  /** One row: the time stamp, a number per column after the first, and the
      line end. */
  function Row(time: string, vs: seq<real>): (ps: seq<Piece>)
    ensures |ps| == |vs| + 2
  {
    [Text(time)] + Numbers(vs) + [Text("\n")]
  }

  /** The buffered values of columns 1 .. n_cols - 1. */
  function Columns(s: OutState): seq<real>
    requires Sized(s)
  {
    if |s.header| <= 1 then [] else s.buff[1..|s.header|]
  }

  function Missings(n: nat): (ms: seq<real>)
    ensures |ms| == n
    ensures forall i :: 0 <= i < n ==> ms[i] == Missing
  {
    if n == 0 then [] else Missings(n - 1) + [Missing]
  }

  /** The buffer with its first n entries set back to missing. */
  function Reset(b: seq<real>, n: nat): (r: seq<real>)
    requires n <= |b|
    ensures |r| == |b|
    ensures forall j :: 0 <= j < |b| ==> r[j] == if j < n then Missing else b[j]
  {
    Missings(n) + b[n..]
  }

  /** The first half of write_csv_var: "time" replaces the pending time
      stamp, another non-empty name stores val in the first column of that
      name, and an unknown or empty name changes nothing. */
  function Store(s: OutState, name: string, val: real, cval: string): (s': OutState)
    requires Sized(s)
    ensures Sized(s')
  {
    if EqualIgnoreCase(name, TimeName) then s.(time := TimeOf(cval))
    else if name != [] && FirstMatch(s.header, name) >= 0 then
      s.(buff := s.buff[FirstMatch(s.header, name) := val])
    else s
  }

  /** The second half, run when last is set: a valid time stamp flushes one
      row and resets the time and the buffer; an invalid one keeps both. */
  function Flush(s: OutState): (s': OutState)
    requires Sized(s)
    ensures Sized(s')
  {
    if EqualIgnoreCase(s.time, Invalid) then s
    else s.(out := s.out + Row(s.time, Columns(s)), time := Invalid, buff := Reset(s.buff, |s.header|))
  }

  /** write_csv_var as a function of the file's state. */
  function AfterWriteVar(s: OutState, name: string, val: real, cval: string, last: bool): (s': OutState)
    requires Sized(s)
    ensures Sized(s')
  {
    if !s.open then s
    else if last then Flush(Store(s, name, val, cval))
    else Store(s, name, val, cval)
  }

  /** A "time" call without last only replaces the time stamp, by the first
      19 characters of cval. */
  lemma WriteTime(s: OutState, name: string, val: real, cval: string)
    requires Sized(s) && s.open && EqualIgnoreCase(name, TimeName)
    ensures var s' := AfterWriteVar(s, name, val, cval, false);
            s'.time <= cval && |s'.time| <= TimeLength &&
            (|cval| <= TimeLength ==> s'.time == cval) &&
            s'.buff == s.buff && s'.out == s.out && s'.header == s.header
  {
  }

  /** Another name without last stores val in the first column whose name
      equals it ignoring case and changes nothing else. */
  lemma WriteColumn(s: OutState, name: string, val: real, cval: string, k: int)
    requires Sized(s) && s.open && !EqualIgnoreCase(name, TimeName) && name != []
    requires 0 <= k < |s.header| && EqualIgnoreCase(name, s.header[k])
    requires forall j :: 0 <= j < k ==> !EqualIgnoreCase(name, s.header[j])
    ensures var s' := AfterWriteVar(s, name, val, cval, false);
            s'.buff[k] == val &&
            (forall j :: 0 <= j < |s.buff| && j != k ==> s'.buff[j] == s.buff[j]) &&
            s'.time == s.time && s'.out == s.out && s'.header == s.header
  {
    FirstMatchIsFirst(s.header, name);
  }

  /** An empty name or one no column carries stores nothing; without last
      the call has no effect at all. */
  lemma WriteUnknown(s: OutState, name: string, val: real, cval: string, last: bool)
    requires Sized(s) && !EqualIgnoreCase(name, TimeName)
    requires name == [] || forall j :: 0 <= j < |s.header| ==> !EqualIgnoreCase(name, s.header[j])
    ensures Store(s, name, val, cval) == s
    ensures !last ==> AfterWriteVar(s, name, val, cval, last) == s
  {
    FirstMatchIsFirst(s.header, name);
  }

  /** With last set and a valid time stamp after the store, exactly one row
      goes out: the time stamp and the buffered columns 1 .. n_cols - 1;
      the time becomes "INVALID" and every column of the row is missing
      again. */
  lemma WriteFlushes(s: OutState, name: string, val: real, cval: string)
    requires Sized(s) && s.open
    requires !EqualIgnoreCase(Store(s, name, val, cval).time, Invalid)
    ensures var t := Store(s, name, val, cval);
            var s' := AfterWriteVar(s, name, val, cval, true);
            s'.out == s.out + Row(t.time, Columns(t)) &&
            |s'.out| == |s.out| + (if |s.header| <= 1 then 0 else |s.header| - 1) + 2 &&
            s'.time == Invalid && s'.header == s.header &&
            (forall j :: 0 <= j < |s.header| ==> s'.buff[j] == Missing) &&
            (forall j :: |s.header| <= j < |s.buff| ==> s'.buff[j] == t.buff[j])
  {
  }

  /** With last set but the time stamp "INVALID", nothing goes out and the
      stored values stay buffered. */
  lemma WriteHeld(s: OutState, name: string, val: real, cval: string)
    requires Sized(s) && s.open
    requires EqualIgnoreCase(Store(s, name, val, cval).time, Invalid)
    ensures AfterWriteVar(s, name, val, cval, true) == Store(s, name, val, cval)
    ensures AfterWriteVar(s, name, val, cval, true).out == s.out
  {
  }

  /** One row per time stamp: once a row went out, further last writes emit
      nothing until "time" is written again. */
  lemma OneRowPerTime(s: OutState, n1: string, v1: real, c1: string, n2: string, v2: real, c2: string)
    requires Sized(s) && !EqualIgnoreCase(n2, TimeName)
    ensures var s1 := AfterWriteVar(s, n1, v1, c1, true);
            AfterWriteVar(s1, n2, v2, c2, true).out == s1.out
  {
    var s1 := AfterWriteVar(s, n1, v1, c1, true);
    if s.open {
      var t := Store(s, n1, v1, c1);
      if !EqualIgnoreCase(t.time, Invalid) {
        assert EqualIgnoreCase(Invalid, Invalid);
        assert s1.time == Invalid;
      }
      assert EqualIgnoreCase(s1.time, Invalid);
      assert Store(s1, n2, v2, c2).time == s1.time;
    }
  }

  /** Once the header holds "time" and the declared variables, a flushed
      row carries one number per variable, in declaration order. */
  lemma RowPerVariable(s: OutState, vars: seq<string>)
    requires Sized(s) && s.header == [TimeName] + vars
    ensures Columns(s) == s.buff[1..|vars| + 1]
    ensures |Row(s.time, Columns(s))| == |vars| + 2
  {
  }

  /** The printing loop of write_csv_var over the first n buffer entries:
      the time stamp, entries 1 .. n - 1 and the line end. */
  method RowPieces(time: string, b: seq<real>, n: nat) returns (row: seq<Piece>)
    requires n <= |b| == BuffSize
    ensures row == Row(time, if n <= 1 then [] else b[1..n])
  {
    var last := if n <= 1 then 1 else n;
    row := [Text(time)];
    var i := 1;
    while i < last
      invariant 1 <= i <= last <= BuffSize
      invariant row == [Text(time)] + Numbers(b[1..i])
    {
      assert b[1..i + 1] == b[1..i] + [b[i]];
      NumbersSnoc(b[1..i], b[i]);
      row := row + [Num(b[i], 12)];
      i := i + 1;
    }
    assert b[1..i] == (if n <= 1 then [] else b[1..n]);
    row := row + [Text("\n")];
  }

  // ---------------------------------------------------------------------
  // One output file

  /** One csv_of entry. */
  class OutFile {
    var isOpen: bool
    var time: string
    var header: seq<string>
    const buff: array<real>
    var out: seq<Piece>

    ghost predicate Valid()
      reads this
    {
      buff.Length == BuffSize && |header| <= BuffSize
    }

    function State(): (s: OutState)
      reads this, buff
    {
      OutState(isOpen, time, header, buff[..], out)
    }

    /** The zero-initialised static entry: no file, no time, no header. */
    constructor ()
      ensures Valid() && !isOpen && time == [] && header == [] && out == []
    {
      isOpen := false;
      time := [];
      header := [];
      buff := new real[BuffSize];
      out := [];
    }

    /** csv_header_start: writes "time" and makes it the only column. */
    method HeaderStart()
      requires Valid() && isOpen
      modifies this
      ensures Valid() && isOpen
      ensures header == [TimeName] && time == Invalid
      ensures out == old(out) + [Text(TimeName)]
    {
      out := out + [Text(TimeName)];
      header := [TimeName];
      time := Invalid;
    }

    /** csv_header_var: writes ",v", sets the new column's buffer entry to
        missing and appends the column. */
    method HeaderVar(v: string)
      requires Valid() && isOpen && |header| < BuffSize
      modifies this, buff
      ensures Valid() && isOpen && time == old(time)
      ensures header == old(header) + [v]
      ensures buff[..] == old(buff[..])[|old(header)| := Missing]
      ensures out == old(out) + [Text("," + v)]
    {
      out := out + [Text("," + v)];
      buff[|header|] := Missing;
      header := header + [v];
    }

    /** csv_header_var2: as csv_header_var, writing ",v [units]". */
    method HeaderVar2(v: string, units: string)
      requires Valid() && isOpen && |header| < BuffSize
      modifies this, buff
      ensures Valid() && isOpen && time == old(time)
      ensures header == old(header) + [v]
      ensures buff[..] == old(buff[..])[|old(header)| := Missing]
      ensures out == old(out) + [Text("," + v + " [" + units + "]")]
    {
      out := out + [Text("," + v + " [" + units + "]")];
      buff[|header|] := Missing;
      header := header + [v];
    }

    /** csv_header_end, and equally write_csv_end: the line end. */
    method HeaderEnd()
      requires Valid() && isOpen
      modifies this
      ensures Valid() && isOpen && header == old(header) && time == old(time)
      ensures out == old(out) + [Text("\n")]
    {
      out := out + [Text("\n")];
    }

    /** write_csv_start: cval verbatim. */
    method WriteStart(cval: string)
      requires Valid() && isOpen
      modifies this
      ensures Valid() && isOpen && header == old(header) && time == old(time)
      ensures out == old(out) + [Text(cval)]
    {
      out := out + [Text(cval)];
    }

    /** write_csv_val: one number, printed ",%15.6f". */
    method WriteVal(val: real)
      requires Valid() && isOpen
      modifies this
      ensures Valid() && isOpen && header == old(header) && time == old(time)
      ensures out == old(out) + [Num(val, 15)]
    {
      out := out + [Num(val, 15)];
    }

    /** write_csv_var. cval is a C string: the time stamp when name is
        "time". */
    method WriteVar(name: string, val: real, cval: string, last: bool)
      requires Valid() && CString(cval)
      modifies this, buff
      ensures Valid()
      ensures State() == AfterWriteVar(old(State()), name, val, cval, last)
    {
      if !isOpen {
        return;
      }
      ghost var s0 := State();
      if EqualIgnoreCase(name, TimeName) {
        time := TimeOf(cval);
      } else if name != [] {
        FirstMatchIsFirst(header, name);
        var i := 0;
        while i < |header|
          invariant i <= |header|
          invariant FirstMatchFrom(header, name, i) == FirstMatch(header, name)
          invariant State() == s0
        {
          if EqualIgnoreCase(name, header[i]) {
            buff[i] := val;
            if !last {
              return;
            }
            break;
          }
          i := i + 1;
        }
      }
      assert State() == Store(s0, name, val, cval);
      if last && !EqualIgnoreCase(time, Invalid) {
        FlushRow();
      }
    }

    /** The flush of write_csv_var: the row goes out, the time becomes
        "INVALID" and the buffer entries of every column become missing. */
    method FlushRow()
      requires Valid() && !EqualIgnoreCase(time, Invalid)
      modifies this, buff
      ensures Valid()
      ensures State() == Flush(old(State()))
    {
      EmitRow();
      time := Invalid;
      ResetColumns();
    }

    /** Writes the time stamp, the columns after the first and the line end. */
    method EmitRow()
      requires Valid()
      modifies this
      ensures Valid() && isOpen == old(isOpen) && time == old(time) && header == old(header)
      ensures out == old(out) + Row(time, Columns(State()))
    {
      var row := RowPieces(time, buff[..], |header|);
      out := out + row;
    }

    /** Sets the buffer entry of every column back to missing. */
    method ResetColumns()
      requires Valid()
      modifies buff
      ensures buff[..] == Reset(old(buff[..]), |header|)
    {
      var j := 0;
      while j < |header|
        invariant j <= |header|
        invariant forall k :: 0 <= k < j ==> buff[k] == Missing
        invariant forall k :: j <= k < buff.Length ==> buff[k] == old(buff[k])
      {
        buff[j] := Missing;
        j := j + 1;
      }
    }
  }

  // ---------------------------------------------------------------------
  // The table of output files

  /** The slots a run of open_csv_output calls writes as the code stands:
      each call stores its FILE into csv_of[_n_outf] and a successful one
      increments the counter, with no test against MAX_OUT_FILES. */
  function SlotsWrittenAsWritten(nOut: nat, opens: seq<bool>): (ks: seq<nat>)
    ensures |ks| == |opens|
    decreases |opens|
  {
    if opens == [] then []
    else [nOut] + SlotsWrittenAsWritten(if opens[0] then nOut + 1 else nOut, opens[1..])
  }

  /** The slots written when each call first checks for a free slot, as
      open_csv_input does; a call that finds the table full writes nothing
      (None). */
  function SlotsWritten(nOut: nat, maxOut: nat, opens: seq<bool>): (ks: seq<Option<nat>>)
    ensures |ks| == |opens|
    decreases |opens|
  {
    if opens == [] then []
    else if nOut >= maxOut then [None] + SlotsWritten(nOut, maxOut, opens[1..])
    else [Some(nOut)] + SlotsWritten(if opens[0] then nOut + 1 else nOut, maxOut, opens[1..])
  }

  function Successes(n: nat): (opens: seq<bool>)
    ensures |opens| == n
    ensures forall i :: 0 <= i < n ==> opens[i]
  {
    if n == 0 then [] else [true] + Successes(n - 1)
  }

  /** As written, the k-th of a run of successful opens writes slot
      nOut + k. */
  lemma {:induction false} SuccessiveSlots(nOut: nat, n: nat, k: nat)
    requires k < n
    ensures SlotsWrittenAsWritten(nOut, Successes(n))[k] == nOut + k
    decreases k
  {
    if k > 0 {
      assert Successes(n)[1..] == Successes(n - 1);
      SuccessiveSlots(nOut + 1, n - 1, k - 1);
    }
  }

  /** So the open after MAX_OUT_FILES successful ones writes
      csv_of[MAX_OUT_FILES], one past the end of the table. */
  lemma OpenOverrunsTable(maxOut: nat)
    ensures SlotsWrittenAsWritten(0, Successes(maxOut + 1))[maxOut] == maxOut
  {
    SuccessiveSlots(0, maxOut + 1, maxOut);
  }

  /** With the check, every slot written lies inside the table. */
  lemma {:induction false} SlotsWrittenInTable(nOut: nat, maxOut: nat, opens: seq<bool>)
    ensures forall i :: 0 <= i < |opens| && SlotsWritten(nOut, maxOut, opens)[i].Some? ==>
              SlotsWritten(nOut, maxOut, opens)[i].value < maxOut
    decreases |opens|
  {
    if opens != [] {
      var next := if nOut < maxOut && opens[0] then nOut + 1 else nOut;
      SlotsWrittenInTable(next, maxOut, opens[1..]);
      var ks := SlotsWritten(nOut, maxOut, opens);
      assert ks[1..] == SlotsWritten(next, maxOut, opens[1..]);
    }
  }

  /** csv_of[MAX_OUT_FILES] with the counter _n_outf. */
  class CsvOutputs {
    const maxOut: nat
    const files: seq<OutFile>
    var nOut: nat

    ghost predicate Valid()
      reads this, set i | 0 <= i < |files| :: files[i]
    {
      |files| == maxOut && nOut <= maxOut &&
      forall i :: 0 <= i < |files| ==> files[i].Valid()
    }

    constructor (maxOut: nat)
      ensures Valid() && this.maxOut == maxOut && nOut == 0
      ensures forall i :: 0 <= i < |files| ==> fresh(files[i]) && !files[i].isOpen
    {
      var fs: seq<OutFile> := [];
      while |fs| < maxOut
        invariant |fs| <= maxOut
        invariant forall i :: 0 <= i < |fs| ==> fresh(fs[i]) && !fs[i].isOpen && fs[i].Valid()
      {
        var f := new OutFile();
        fs := fs + [f];
      }
      this.maxOut := maxOut;
      files := fs;
      nOut := 0;
    }

    /** open_csv_output with the capacity check open_csv_input has: a full
        table gives -1 and touches no slot. Otherwise the next slot takes
        the file (fileOpens says whether fopen succeeded) and the result is
        that slot, or -1 when the file did not open. path is the name handed
        to fopen. */
    method OpenCsvOutput(outDir: Option<string>, fname: string, fileOpens: bool)
      returns (ret: int, path: string)
      requires Valid()
      modifies this, if nOut < |files| then {files[nOut]} else {}
      ensures Valid()
      ensures path == OutputPath(outDir, fname)
      ensures old(nOut) >= maxOut ==> ret == -1 && nOut == old(nOut)
      ensures old(nOut) < maxOut ==>
                files[old(nOut)].isOpen == fileOpens &&
                (fileOpens ==> ret == old(nOut) && nOut == old(nOut) + 1) &&
                (!fileOpens ==> ret == -1 && nOut == old(nOut))
      ensures var k := old(nOut);
              k < maxOut ==> files[k].State() == old(files[k].State()).(open := fileOpens)
    {
      path := OutputPath(outDir, fname);
      PathFits(outDir, fname);
      if nOut >= maxOut {
        return -1, path;
      }
      files[nOut].isOpen := fileOpens;
      if fileOpens {
        ret := nOut;
        nOut := nOut + 1;
      } else {
        ret := -1;
      }
    }

    /** close_csv_output: -1 for a number outside the table; otherwise the
        file is closed and fclose's result (closeResult) returned. The slot
        is not handed out again. */
    method CloseCsvOutput(outf: int, closeResult: int) returns (ret: int)
      requires Valid()
      requires 0 <= outf < maxOut ==> files[outf].isOpen
      modifies if 0 <= outf < |files| then {files[outf]} else {}
      ensures Valid()
      ensures !(0 <= outf < maxOut) ==> ret == -1
      ensures 0 <= outf < maxOut ==> ret == closeResult && !files[outf].isOpen
      ensures 0 <= outf < maxOut ==>
                files[outf].State() == old(files[outf].State()).(open := false)
      ensures nOut == old(nOut)
    {
      if outf < 0 || outf >= maxOut {
        return -1;
      }
      files[outf].isOpen := false;
      ret := closeResult;
    }
  }
}
