/** The line reader of namelist.c: readline, which hands out the next line
    that has something left once its line end, its comment and its
    surrounding blanks are gone, and trim_buf_name, which splits an entry
    line at its '='. The file is the sequence of pieces fgets delivers (a
    line with its newline, or the last text of the file without one); the
    static buf, lineno and the stream's end-of-file flag are the state of a
    Reader. */
module NmlRead {
  import opened Text
  import opened NmlValue

  // ---------------------------------------------------------------------
  // Comments

  predicate IsCommentMark(c: char) {
    c == '!' || c == '#'
  }

  /** The comment scan of readline from position i: a quote runs to the
      next occurrence of the same quote (none is fatal: None), the first
      '!' or '#' met outside quotes ends the line, and anything else,
      a backslash included, is stepped over. The result is the length kept. */
  function CommentCut(s: string, i: nat): (r: Option<nat>)
    requires i <= |s|
    ensures r.Some? ==> i <= r.value <= |s|
    decreases |s| - i
  {
    if i == |s| then Some(|s|)
    else if IsQuote(s[i]) then
      var k := IndexFrom(s, i + 1, s[i]);
      if k == |s| then None else CommentCut(s, k + 1)
    else if IsCommentMark(s[i]) then Some(i)
    else CommentCut(s, i + 1)
  }

  /** The quote left open before position i, reading left to right: a
      quote opens a string when none is open, and the same quote closes it. */
  function OpenQuote(s: string, i: nat): Option<char>
    requires i <= |s|
  {
    if i == 0 then None
    else match OpenQuote(s, i - 1)
      case None => if IsQuote(s[i - 1]) then Some(s[i - 1]) else None
      case Some(q) => if s[i - 1] == q then None else Some(q)
  }

  /** A comment starts at k: a mark outside every quoted string. */
  predicate CommentAt(s: string, k: nat) {
    k < |s| && OpenQuote(s, k).None? && IsCommentMark(s[k])
  }

  /** Inside a string opened by q at i, no position before the closing q
      is outside it. */
  lemma {:induction false} QuoteRun(s: string, i: nat, j: nat, q: char)
    requires i < j <= |s| && IsQuote(q) && s[i] == q && OpenQuote(s, i).None?
    requires forall m :: i < m < j ==> s[m] != q
    ensures OpenQuote(s, j) == Some(q)
    decreases j
  {
    if j > i + 1 {
      QuoteRun(s, i, j - 1, q);
    }
  }

  /** The comment scan against the quote reading: it keeps everything before
      the first comment outside quotes, and fails exactly when there is no
      such comment and a quote is left open at the end of the line. */
  lemma {:induction false} CommentCutFrom(s: string, i: nat)
    requires i <= |s| && OpenQuote(s, i).None?
    ensures CommentCut(s, i).None? <==>
              OpenQuote(s, |s|).Some? && forall j :: i <= j < |s| ==> !CommentAt(s, j)
    ensures CommentCut(s, i).Some? ==>
              var k := CommentCut(s, i).value;
              (k == |s| || CommentAt(s, k)) && forall j :: i <= j < k ==> !CommentAt(s, j)
    decreases |s| - i
  {
    if i == |s| {
    } else if IsQuote(s[i]) {
      var q := s[i];
      var k := IndexFrom(s, i + 1, q);
      assert !CommentAt(s, i);
      forall j | i < j <= k
        ensures OpenQuote(s, j) == Some(q)
      {
        QuoteRun(s, i, j, q);
      }
      if k < |s| {
        assert OpenQuote(s, k + 1).None?;
        CommentCutFrom(s, k + 1);
      }
    } else if IsCommentMark(s[i]) {
      assert CommentAt(s, i);
    } else {
      assert OpenQuote(s, i + 1).None?;
      CommentCutFrom(s, i + 1);
    }
  }

  lemma CommentCutMeaning(s: string)
    ensures CommentCut(s, 0).None? <==>
              OpenQuote(s, |s|).Some? && forall j :: 0 <= j < |s| ==> !CommentAt(s, j)
    ensures CommentCut(s, 0).Some? ==>
              var k := CommentCut(s, 0).value;
              (k == |s| || CommentAt(s, k)) && forall j :: 0 <= j < k ==> !CommentAt(s, j)
  {
    CommentCutFrom(s, 0);
  }

  // ---------------------------------------------------------------------
  // readline

  /** Where reading stands: the next piece of the file, the stream's
      end-of-file flag, the static buffer and the line count. */
  datatype Cursor = Cursor(pos: nat, eof: bool, buf: string, lineno: int)

  /** What one readline call did: whether it returned the buffer (rather
      than NULL), and where reading then stands. */
  datatype Read = Read(got: bool, cursor: Cursor)

  /** feof after fgets delivered piece p: it was the last and it did not end
      in a newline, so fgets ran into the end of the file. */
  predicate EndsFile(lines: seq<string>, p: nat)
    requires p < |lines|
  {
    p + 1 == |lines| && (lines[p] == [] || lines[p][|lines[p]| - 1] != '\n')
  }

  /** A piece without its trailing CR and LF characters. */
  function Stripped(ch: string): string {
    ch[..LineEndStart(ch, |ch|)]
  }

  /** The line a piece leaves once its comment and blanks are gone. */
  function Cleaned(s: string): (r: Option<string>) {
    match CommentCut(s, 0)
    case None => None
    case Some(k) => Some(Trim(s[..k]))
  }

  /** The do-while loop of readline from piece p: pieces that leave nothing
      are passed over; the end of the file returns NULL with the buffer
      empty. */
  function Fetch(lines: seq<string>, p: nat, lineno: int): (r: Outcome<Read>)
    requires p <= |lines|
    ensures r.Ok? ==> p <= r.value.cursor.pos <= |lines|
    ensures r.Ok? ==> r.value.cursor.lineno == (if r.value.got then lineno + 1 else lineno)
    ensures r.Ok? && r.value.got ==> p < r.value.cursor.pos && r.value.cursor.buf != []
    ensures r.Ok? && !r.value.got ==> r.value.cursor.buf == [] && r.value.cursor.eof
    ensures r.Fail? ==> r.failure == UnterminatedString
    decreases |lines| - p
  {
    if p == |lines| then Ok(Read(false, Cursor(p, true, [], lineno)))
    else
      var s := Stripped(lines[p]);
      var eof := EndsFile(lines, p);
      if s == [] then
        (if eof then Ok(Read(false, Cursor(p + 1, true, [], lineno))) else Fetch(lines, p + 1, lineno))
      else match Cleaned(s)
        case None => Fail(UnterminatedString)
        case Some(t) =>
          if t != [] then Ok(Read(true, Cursor(p + 1, eof, t, lineno + 1)))
          else if eof then Ok(Read(false, Cursor(p + 1, true, [], lineno)))
          else Fetch(lines, p + 1, lineno)
  }

  /** readline: once the stream is at its end it returns NULL and leaves the
      buffer as it was. */
  function ReadLineSpec(lines: seq<string>, c: Cursor): (r: Outcome<Read>)
    requires c.pos <= |lines|
    ensures r.Ok? ==> c.pos <= r.value.cursor.pos <= |lines|
    ensures r.Ok? && r.value.got ==> c.pos < r.value.cursor.pos && r.value.cursor.buf != []
    ensures r.Ok? && !r.value.got ==> r.value.cursor.eof
    ensures r.Ok? && r.value.cursor.pos == c.pos ==> r.value.cursor.buf == c.buf || r.value.cursor.buf == []
  {
    if c.eof then Ok(Read(false, c)) else Fetch(lines, c.pos, c.lineno)
  }

  /** A returned line is never empty, starts and ends with a character that
      is not a blank, is what is left of the last piece read, and counts
      one more line; every piece passed over on the way left nothing. */
  lemma {:induction false} FetchShape(lines: seq<string>, p: nat, lineno: int)
    requires p <= |lines|
    ensures var r := Fetch(lines, p, lineno);
      r.Ok? && r.value.got ==>
        var c := r.value.cursor;
        && c.buf != [] && !IsBlank(c.buf[0]) && !IsBlank(c.buf[|c.buf| - 1])
        && Cleaned(Stripped(lines[c.pos - 1])) == Some(c.buf)
        && c.lineno == lineno + 1
        && forall q :: p <= q < c.pos - 1 ==> Stripped(lines[q]) == [] || Cleaned(Stripped(lines[q])) == Some([])
    decreases |lines| - p
  {
    if p < |lines| {
      var s := Stripped(lines[p]);
      if s != [] && Cleaned(s).Some? && Cleaned(s).value != [] {
        TrimEnds(s[..CommentCut(s, 0).value]);
      } else {
        FetchShape(lines, p + 1, lineno);
      }
    }
  }

  lemma ReadLineShape(lines: seq<string>, c: Cursor)
    requires c.pos <= |lines|
    ensures var r := ReadLineSpec(lines, c);
      r.Ok? && r.value.got ==>
        var c' := r.value.cursor;
        && c'.buf != [] && !IsBlank(c'.buf[0]) && !IsBlank(c'.buf[|c'.buf| - 1])
        && Cleaned(Stripped(lines[c'.pos - 1])) == Some(c'.buf)
        && c'.lineno == c.lineno + 1
  {
    if !c.eof {
      FetchShape(lines, c.pos, c.lineno);
    }
  }

  // ---------------------------------------------------------------------
  // trim_buf_name

  /** An entry line split at its first '=': the name left in the buffer
      and the position where the value starts. */
  datatype Split = Split(name: string, value: nat)

  /** trim_buf_name: a line without '=' is a syntax error. The name is the
      text before the '=' less its trailing blanks, except that the first
      character always stays (the loop stops there) and a line starting
      with '=' has an empty name; the value starts after the blanks that
      follow the '='. */
  function EntrySplit(b: string, lineno: int): (r: Outcome<Split>)
    ensures r.Fail? <==> '=' !in b
    ensures r.Fail? ==> r.failure == SyntaxError(b, lineno)
    ensures r.Ok? ==> '=' !in r.value.name && r.value.value <= |b|
  {
    var k := IndexFrom(b, 0, '=');
    if k == |b| then Fail(SyntaxError(b, lineno))
    else
      var m := KeepTo(b, k);
      Ok(Split(if k == 0 then [] else b[..if m == 0 then 1 else m], SkipFrom(b, k + 1)))
  }

  /** The name is the text before the first '=' with its trailing blanks
      removed, when that text is not all blanks; the value is the text after
      the '=' with its leading blanks removed. */
  lemma EntryName(b: string, lineno: int)
    requires '=' in b
    ensures var k := IndexFrom(b, 0, '=');
      var r := EntrySplit(b, lineno);
      && r.Ok?
      && (KeepTo(b, k) > 0 ==> r.value.name == TrimRight(b[..k]))
      && b[r.value.value..] == TrimLeft(b[k + 1..])
  {
    var k := IndexFrom(b, 0, '=');
    KeepToPrefix(b, k, b[..k]);
    SkipFromShift(b, k + 1);
  }

  /** SkipFrom on a suffix is SkipFrom on the whole, shifted. */
  lemma {:induction false} SkipFromShift(b: string, i: nat)
    requires i <= |b|
    ensures b[SkipFrom(b, i)..] == b[i..][SkipFrom(b[i..], 0)..]
    decreases |b| - i
  {
    if i < |b| && IsBlank(b[i]) {
      SkipFromShift(b, i + 1);
      SkipFromDrop(b[i..]);
      assert b[i..][1..] == b[i + 1..];
    }
  }

  lemma SkipFromDrop(s: string)
    requires s != [] && IsBlank(s[0])
    ensures s[SkipFrom(s, 0)..] == s[1..][SkipFrom(s[1..], 0)..]
  {
    SkipFromTail(s, 1);
  }

  lemma {:induction false} SkipFromTail(s: string, i: nat)
    requires 1 <= i <= |s|
    ensures SkipFrom(s, i) == SkipFrom(s[1..], i - 1) + 1
    decreases |s| - i
  {
    if i < |s| && IsBlank(s[i]) {
      SkipFromTail(s, i + 1);
    }
  }

  // ---------------------------------------------------------------------
  // The reader

  /** The reading state of namelist.c: the open stream (its pieces, the
      position in them and the end-of-file flag), the static buffer and the
      static line count. */
  class Reader {
    const lines: seq<string>
    var pos: nat
    var eof: bool
    var buf: string
    var lineno: int

    predicate Valid()
      reads this
    {
      pos <= |lines|
    }

    function State(): Cursor
      reads this
    {
      Cursor(pos, eof, buf, lineno)
    }

    /** The stream fopen gives for a file, and open_namelist's reset of the
        line count. What earlier files left in the buffer is never read: the
        first readline of a file empties it. */
    constructor (lines: seq<string>)
      ensures Valid() && this.lines == lines && State() == Cursor(0, false, [], 0)
    {
      this.lines := lines;
      pos := 0;
      eof := false;
      buf := [];
      lineno := 0;
    }

    /** readline(f, buf). */
    method ReadLine() returns (r: Outcome<bool>)
      requires Valid()
      modifies this
      ensures Valid()
      ensures r.Ok? ==> ReadLineSpec(lines, old(State())) == Ok(Read(r.value, State()))
      ensures r.Fail? ==> ReadLineSpec(lines, old(State())) == Fail(r.failure)
    {
      if eof {
        return Ok(false);
      }
      ghost var p0 := pos;
      while true
        invariant Valid() && !eof && lineno == old(lineno)
        invariant Fetch(lines, pos, lineno) == Fetch(lines, p0, lineno)
        decreases |lines| - pos
      {
        buf := [];
        if pos == |lines| {
          eof := true;
          return Ok(false);
        }
        var s := StripLineEnd(lines[pos]);
        eof := EndsFile(lines, pos);
        pos := pos + 1;
        if s == [] && eof {
          return Ok(false);
        }
        if s != [] {
          var t := Clean(s);
          if t.None? {
            return Fail(UnterminatedString);
          }
          buf := t.value;
          if buf != [] {
            lineno := lineno + 1;
            return Ok(true);
          }
          if eof {
            return Ok(false);
          }
        }
      }
    }

    /** trim_buf_name(buf): the buffer is cut down to the entry's name; the
        result is where the value starts in the line it held. */
    method TrimBufName() returns (r: Outcome<nat>)
      modifies this
      ensures r.Fail? ==> EntrySplit(old(buf), lineno) == Fail(r.failure)
      ensures r.Ok? ==> EntrySplit(old(buf), lineno) == Ok(Split(buf, r.value))
      ensures pos == old(pos) && eof == old(eof) && lineno == old(lineno)
    {
      var b := buf;
      var k := FindChar(b, 0, '=');
      if k == |b| {
        return Fail(SyntaxError(b, lineno));
      }
      if k == 0 {
        buf := [];
      } else {
        var e: nat := k - 1;
        while IsBlank(b[e]) && e > 0
          invariant e < k
          invariant KeepTo(b, k) == KeepTo(b, e + 1)
          decreases e
        {
          e := e - 1;
        }
        buf := b[..e + 1];
      }
      var v := SkipBlankChars(b, k + 1);
      r := Ok(v);
    }
  }

  /** strchr's loop. */
  method FindChar(b: string, j0: nat, c: char) returns (j: nat)
    requires j0 <= |b|
    ensures j == IndexFrom(b, j0, c)
  {
    j := j0;
    while j < |b| && b[j] != c
      invariant j0 <= j <= |b|
      invariant IndexFrom(b, j, c) == IndexFrom(b, j0, c)
      decreases |b| - j
    {
      j := j + 1;
    }
  }

  /** The comment cut and the trimming of readline. */
  method Clean(s: string) returns (r: Option<string>)
    ensures r == Cleaned(s)
  {
    var k := CutComment(s);
    if k.None? {
      return None;
    }
    var t := TrimBlankChars(s[..k.value]);
    return Some(t);
  }

  /** The comment-cutting loop of readline. */
  method CutComment(s: string) returns (r: Option<nat>)
    ensures r == CommentCut(s, 0)
  {
    var i := 0;
    while i < |s|
      invariant i <= |s| && CommentCut(s, i) == CommentCut(s, 0)
      decreases |s| - i
    {
      if IsQuote(s[i]) {
        var k := FindChar(s, i + 1, s[i]);
        if k == |s| {
          return None;
        }
        i := k;
      }
      if s[i] == '\\' {
        i := i + 1;
      } else if IsCommentMark(s[i]) {
        return Some(i);
      } else {
        i := i + 1;
      }
    }
    return Some(|s|);
  }
}
