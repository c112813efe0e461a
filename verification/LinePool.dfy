/** The file ring buffer of src/util/LinePool.cpp: newline-terminated records of any length in the
    byte range from 256 to 1 GB of a file, refining a first-in-first-out queue of strings. */
module LinePool {

  const MAX_FILE_SIZE := 1024 * 1024 * 1024
  const MIN_BEGIN_POS := 256
  /** The size that `popALine` passes to `getline`, which keeps one character for the NUL. */
  const LINE_BUFFER := 4095

  // ---------------------------------------------------------------------------------------------
  // The queue of strings

  /** What `pushALine` keeps of a line: the part before its first newline. */
  function FirstLine(line: string): (l: string)
    ensures l <= line && '\n' !in l
    ensures |l| < |line| ==> line[|l|] == '\n'
  {
    if line == [] || line[0] == '\n' then [] else [line[0]] + FirstLine(line[1..])
  }

  /** What assigning a C string to a `std::string` keeps. */
  function CString(text: string): (c: string)
    ensures c <= text && '\0' !in c && (c == text <==> '\0' !in text)
  {
    if text == [] || text[0] == '\0' then [] else [text[0]] + CString(text[1..])
  }

  /** The records as they lie in the file. */
  function Flat(lines: seq<string>): string {
    if lines == [] then [] else lines[0] + ['\n'] + Flat(lines[1..])
  }

  /** There is always room for the header-sized margin of 256 bytes. */
  predicate Fits(lines: seq<string>, line: string) {
    |Flat(lines)| + |line| + 256 <= MAX_FILE_SIZE - MIN_BEGIN_POS
  }

  lemma {:induction false} FlatAppend(lines: seq<string>, l: string)
    ensures Flat(lines + [l]) == Flat(lines) + l + ['\n']
  {
    if lines == [] {
      assert lines + [l] == [l];
    } else {
      FlatAppend(lines[1..], l);
      assert (lines + [l])[0] == lines[0] && (lines + [l])[1..] == lines[1..] + [l];
    }
  }

  lemma {:induction false} FirstLineWhole(line: string, n: nat)
    requires n <= |line| && '\n' !in line[..n] && (n == |line| || line[n] == '\n')
    ensures FirstLine(line) == line[..n]
  {
    if n > 0 {
      assert line[1..][..n - 1] == line[..n][1..];
      assert line[0] == line[..n][0];
      FirstLineWhole(line[1..], n - 1);
    }
  }

  /** The pool as a queue: what is in it, what was taken, and how many lines were refused. */
  datatype Record = Record(queue: seq<string>, taken: seq<string>, discarded: nat)

  datatype Op = Push(line: string) | Pop

  function Pushed(r: Record, line: string, open: bool): Record {
    if open && Fits(r.queue, FirstLine(line)) then r.(queue := r.queue + [FirstLine(line)])
    else r.(discarded := r.discarded + 1)
  }

  function Popped(r: Record): Record {
    if r.queue == [] then r else r.(queue := r.queue[1..], taken := r.taken + [r.queue[0]])
  }

  /** An open pool after any sequence of pushes and pops. */
  function After(ops: seq<Op>): Record {
    if ops == [] then Record([], [], 0)
    else
      var r := After(ops[..|ops| - 1]);
      match ops[|ops| - 1]
      case Push(line) => Pushed(r, line, true)
      case Pop => Popped(r)
  }

  /** The pushed lines, cut at their first newline, for which there was room at the time. */
  function Accepted(ops: seq<Op>): seq<string> {
    if ops == [] then []
    else
      var before, last := ops[..|ops| - 1], ops[|ops| - 1];
      Accepted(before) +
      (if last.Push? && Fits(After(before).queue, FirstLine(last.line)) then [FirstLine(last.line)] else [])
  }

  function Pushes(ops: seq<Op>): nat {
    if ops == [] then 0 else Pushes(ops[..|ops| - 1]) + (if ops[|ops| - 1].Push? then 1 else 0)
  }

  /** Lines come out in the order in which they were accepted, none lost and none twice, and every
      push is accepted or counted as discarded. */
  lemma {:induction false} FifoHistory(ops: seq<Op>)
    ensures After(ops).taken + After(ops).queue == Accepted(ops)
    ensures |Accepted(ops)| + After(ops).discarded == Pushes(ops)
  {
    if ops != [] {
      var before := ops[..|ops| - 1];
      FifoHistory(before);
      var r := After(before);
      if ops[|ops| - 1] == Pop && r.queue != [] {
        assert r.taken + [r.queue[0]] + r.queue[1..] == r.taken + r.queue;
      }
    }
  }

  // ---------------------------------------------------------------------------------------------
  // The unread window of the file

  /** The bytes from `b` to `e`, going round at the end of the file when `e` is before `b`. */
  function Window(bytes: string, b: int, e: int): string
    requires |bytes| == MAX_FILE_SIZE && MIN_BEGIN_POS <= b <= MAX_FILE_SIZE && MIN_BEGIN_POS <= e <= MAX_FILE_SIZE
  {
    if b <= e then bytes[b..e] else bytes[b..] + bytes[MIN_BEGIN_POS..e]
  }

  /** A line of 4095 characters is accepted, and is then the oldest record; it is too long to be popped. */
  lemma LongLine()
    ensures var line := seq(LINE_BUFFER, _ => 'a');
      After([Push(line)]).queue == [line] && !(|line| < LINE_BUFFER)
  {
    var line := seq(LINE_BUFFER, _ => 'a');
    assert [Push(line)][..0] == [];
    FirstLineWhole(line, LINE_BUFFER);
    assert line[..LINE_BUFFER] == line && Fits([], line);
    assert After([Push(line)]) == Pushed(After([]), line, true);
  }

  lemma WindowStraight(was: string, now: string, b: int, e: int, s: string)
    requires |was| == |now| == MAX_FILE_SIZE && MIN_BEGIN_POS <= b <= MAX_FILE_SIZE
    requires MIN_BEGIN_POS <= e && e + |s| <= MAX_FILE_SIZE && (b <= e || e + |s| < b)
    requires now[e..e + |s|] == s && forall k | 0 <= k < MAX_FILE_SIZE && !(e <= k < e + |s|) :: now[k] == was[k]
    ensures Window(now, b, e + |s|) == Window(was, b, e) + s
  {
    if b <= e {
      assert now[b..e + |s|] == now[b..e] + now[e..e + |s|];
      assert now[b..e] == was[b..e];
    } else {
      assert now[b..] == was[b..];
      assert now[MIN_BEGIN_POS..e + |s|] == now[MIN_BEGIN_POS..e] + now[e..e + |s|];
      assert now[MIN_BEGIN_POS..e] == was[MIN_BEGIN_POS..e];
    }
  }

  lemma WindowSplit(was: string, now: string, b: int, e: int, first: string, second: string)
    requires |was| == |now| == MAX_FILE_SIZE && MIN_BEGIN_POS <= b <= e <= MAX_FILE_SIZE
    requires e + |first| == MAX_FILE_SIZE && MIN_BEGIN_POS + |second| < b
    requires now[e..] == first && now[MIN_BEGIN_POS..MIN_BEGIN_POS + |second|] == second
    requires forall k | b <= k < e :: now[k] == was[k]
    ensures Window(now, b, MIN_BEGIN_POS + |second|) == Window(was, b, e) + (first + second)
  {
    var kept := was[b..e];
    assert now[b..e] == kept;
    assert now[b..] == kept + first;
    assert Window(now, b, MIN_BEGIN_POS + |second|) == (kept + first) + second;
    assert (kept + first) + second == kept + (first + second);
  }

  /** `n` bytes further on. */
  function Forward(b: int, e: int, n: nat): int {
    if b > e && MAX_FILE_SIZE <= b + n then MIN_BEGIN_POS + (b + n - MAX_FILE_SIZE) else b + n
  }

  lemma WindowDrop(bytes: string, b: int, e: int, n: nat)
    requires |bytes| == MAX_FILE_SIZE && MIN_BEGIN_POS <= b <= MAX_FILE_SIZE && MIN_BEGIN_POS <= e <= MAX_FILE_SIZE
    requires n <= |Window(bytes, b, e)|
    ensures MIN_BEGIN_POS <= Forward(b, e, n) <= MAX_FILE_SIZE
    ensures Window(bytes, Forward(b, e, n), e) == Window(bytes, b, e)[n..]
  {
    var d, f := Window(bytes, b, e), Forward(b, e, n);
    if b <= e {
      assert bytes[b..e][n..] == bytes[f..e];
    } else if b + n < MAX_FILE_SIZE {
      assert d[n..] == bytes[b..][n..] + bytes[MIN_BEGIN_POS..e];
      assert bytes[b..][n..] == bytes[f..];
    } else {
      var k := MAX_FILE_SIZE - b;
      assert d[n..] == bytes[MIN_BEGIN_POS..e][n - k..];
      assert bytes[MIN_BEGIN_POS..e][n - k..] == bytes[f..e];
    }
  }

  predicate Unbroken(lines: seq<string>) {
    forall l | l in lines :: '\n' !in l
  }

  class LinePool {
    const file: array<char>  // the bytes of the pool file
    var fileLen: nat         // how many of them exist
    var curFileSize: int
    var beginPos: int
    var endPos: int
    var recordCount: nat
    var linesDiscarded: nat
    var open: bool
    ghost var queue: seq<string>
    ghost var taken: seq<string>

    /** The positions are inside the file, whatever lines were pushed. */
    ghost predicate Shape()
      reads this`fileLen, this`beginPos, this`endPos
    {
      && file.Length == MAX_FILE_SIZE
      && MIN_BEGIN_POS <= fileLen <= MAX_FILE_SIZE
      && MIN_BEGIN_POS <= beginPos <= MAX_FILE_SIZE
      && MIN_BEGIN_POS <= endPos <= MAX_FILE_SIZE
    }

    /** The unread bytes, unwrapped. */
    ghost function Data(): string
      reads this`fileLen, this`beginPos, this`endPos, file
      requires Shape()
    {
      Window(file[..], beginPos, endPos)
    }

    /** Once the records wrap, the file has its full length. */
    ghost predicate Placed()
      reads this`fileLen, this`beginPos, this`endPos, this`curFileSize
    {
      && beginPos < MAX_FILE_SIZE
      && endPos <= fileLen
      && endPos <= curFileSize <= MAX_FILE_SIZE
      && (beginPos > endPos ==> fileLen == MAX_FILE_SIZE && curFileSize == MAX_FILE_SIZE && endPos > MIN_BEGIN_POS)
    }

    /** The unread bytes are the queued lines. */
    ghost predicate Holds()
      reads this`fileLen, this`beginPos, this`endPos, this`curFileSize, this`queue, file
    {
      && Shape()
      && Placed()
      && Data() == Flat(queue)
      && Unbroken(queue)
    }

    /** And the counter counts them; an empty pool starts over at the head of the file. */
    ghost predicate Valid()
      reads this, file
    {
      && Holds()
      && recordCount == |queue|
      && (queue == [] ==> beginPos == MIN_BEGIN_POS && endPos == MIN_BEGIN_POS)
    }

    /** The queue that this pool stands for. */
    ghost function State(): Record
      reads this`queue, this`taken, this`linesDiscarded
    {
      Record(queue, taken, linesDiscarded)
    }

    /** A new pool, after `initPoolData` and `writeHeadData`. */
    constructor (usable: bool)
      ensures Valid() && State() == After([]) && open == usable && fresh(file)
    {
      file := new char[MAX_FILE_SIZE];
      fileLen := MIN_BEGIN_POS;
      recordCount := 0;
      curFileSize := MIN_BEGIN_POS;
      beginPos := MIN_BEGIN_POS;
      endPos := MIN_BEGIN_POS;
      linesDiscarded := 0;
      open := usable;
      queue := [];
      taken := [];
    }

    method GetFreeSpace() returns (size: int)
      requires Shape()
      ensures size == MAX_FILE_SIZE - MIN_BEGIN_POS - |Data()|
    {
      if beginPos <= endPos {
        size := MAX_FILE_SIZE - MIN_BEGIN_POS - endPos + beginPos;
      } else {
        size := beginPos - endPos;
      }
      if size < 0 {
        size := 0;
      }
    }

    method GetDataSize() returns (size: int)
      requires Valid()
      ensures size == |Flat(queue)|
    {
      if beginPos <= endPos {
        size := endPos - beginPos;
      } else {
        size := curFileSize - beginPos + endPos - MIN_BEGIN_POS;
      }
    }

    /** `write` at a position; returns `tellp`. */
    method Write(pos: nat, s: string) returns (after: nat)
      requires file.Length == MAX_FILE_SIZE && pos + |s| <= MAX_FILE_SIZE
      modifies file, this`fileLen
      ensures after == pos + |s|
      ensures file[pos..after] == s
      ensures forall k | 0 <= k < file.Length && !(pos <= k < after) :: file[k] == old(file[k])
      ensures fileLen == if old(fileLen) < after then after else old(fileLen)
    {
      after := pos;
      var k := 0;
      while k < |s|
        invariant k <= |s| && after == pos + k
        invariant forall j | 0 <= j < k :: file[pos + j] == s[j]
        invariant forall j | 0 <= j < file.Length && !(pos <= j < after) :: file[j] == old(file[j])
        modifies file
      {
        file[after] := s[k];
        after := after + 1;
        k := k + 1;
      }
      if fileLen < after {
        fileLen := after;
      }
    }

    /** Drops everything from the first newline on, scanning backwards. */
    static method CutAtNewline(line: string) returns (l: string)
      ensures l == FirstLine(line)
    {
      l := line;
      var i := |line| - 1;
      while i >= 0
        invariant -1 <= i && i + 1 <= |l| <= |line| && l == line[..|l|]
        invariant forall k | i < k < |l| :: l[k] != '\n'
        invariant |l| < |line| ==> line[|l|] == '\n'
      {
        if l[i] == '\n' {
          l := l[..i];
        }
        i := i - 1;
      }
      FirstLineWhole(line, |l|);
    }

    /** Refuses the line when it would not leave 256 bytes, and otherwise appends it, wrapping around. */
    method PushALine(line: string)
      requires Shape()
      modifies this, file
      ensures Shape() && open == old(open)
      ensures old(Valid()) ==> Valid() && State() == Pushed(old(State()), line, open)
      ensures recordCount + linesDiscarded == old(recordCount + linesDiscarded) + 1
      ensures recordCount >= old(recordCount) && linesDiscarded >= old(linesDiscarded)
      ensures !open ==> recordCount == old(recordCount)
    {
      hide LinePool.Data, LinePool.Placed, Window, Flat, FirstLine;
      var l := CutAtNewline(line);
      if !open {
        linesDiscarded := linesDiscarded + 1;
        return;
      }
      var free := GetFreeSpace();
      if free < |l| + 256 {
        linesDiscarded := linesDiscarded + 1;
        return;
      }
      Append(l + ['\n']);
      recordCount := recordCount + 1;
      if old(Valid()) {
        FlatAppend(queue, l);
        queue := queue + [l];
      }
    }

    method Append(s: string)
      requires Shape() && s != [] && |Data()| + |s| + 255 <= MAX_FILE_SIZE - MIN_BEGIN_POS
      modifies this`endPos, this`curFileSize, this`fileLen, file
      ensures Shape() && Data() == old(Data()) + s
      ensures old(Placed()) ==> Placed()
    {
      var nLeft := MAX_FILE_SIZE - endPos;
      if nLeft < 0 {
        nLeft := 0;
      }
      ghost var was := file[..];
      if |s| <= nLeft {
        ghost var e := endPos;
        endPos := Write(endPos, s);
        assert file[..][e..e + |s|] == s;
        WindowStraight(was, file[..], beginPos, e, s);
        if curFileSize < endPos {
          curFileSize := endPos;
        }
      } else {
        AppendSplit(s[..nLeft], s[nLeft..]);
        assert s == s[..nLeft] + s[nLeft..];
      }
    }

    method AppendSplit(first: string, second: string)
      requires Shape() && beginPos <= endPos && endPos + |first| == MAX_FILE_SIZE
      requires second != [] && MIN_BEGIN_POS + |second| < beginPos
      modifies this`endPos, this`curFileSize, this`fileLen, file
      ensures Shape() && Data() == old(Data()) + (first + second)
      ensures old(Placed()) ==> Placed()
    {
      ghost var was, e := file[..], endPos;
      endPos := Write(endPos, first);
      if curFileSize < endPos {
        curFileSize := endPos;
      }
      ghost var mid := file[..];
      assert mid[e..] == first;
      endPos := Write(MIN_BEGIN_POS, second);
      assert file[..][e..] == mid[e..];
      WindowSplit(was, file[..], beginPos, e, first, second);
    }
  
    /** `getline` into a buffer of n characters, with `gcount`, `eof` and the `tellg` that follows, which
        is -1 after the end of the file or a line too long for the buffer. */
    method GetLine(pos: nat, n: nat) returns (text: string, gcount: nat, next: int, eof: bool)
      requires Shape() && 1 <= n
      ensures |text| < n && '\n' !in text && gcount == |text| + (if next == -1 then 0 else 1)
      ensures text == [] || (pos + |text| <= fileLen && text == file[pos..pos + |text|])
      ensures eof ==> fileLen <= pos + |text| && next == -1 && gcount == |text|
      ensures !eof ==> pos + |text| < fileLen
      ensures !eof && file[pos + |text|] == '\n' ==> next == pos + |text| + 1
      ensures !eof && file[pos + |text|] != '\n' ==> next == -1 && |text| == n - 1 && gcount == |text|
    {
      text, gcount := [], 0;
      while gcount + 1 < n && pos + gcount < fileLen && file[pos + gcount] != '\n'
        invariant gcount == |text| < n && '\n' !in text
        invariant text == [] || (pos + |text| <= fileLen && text == file[pos..pos + |text|])
      {
        text := text + [file[pos + gcount]];
        gcount := gcount + 1;
      }
      eof := fileLen <= pos + gcount;
      if eof {
        next := -1;
      } else if file[pos + gcount] == '\n' {
        gcount := gcount + 1;
        next := pos + gcount;
      } else {
        next := -1;
      }
    }

    /** Where the oldest record lies: up to the end of the file or of the data, or across the end. */
    lemma HeadInFile()
      requires Holds() && queue != []
      ensures var h, k := queue[0], MAX_FILE_SIZE - beginPos;
        && '\n' !in h && Placed()
        && (beginPos <= endPos ==> beginPos + |h| + 1 <= endPos)
        && (beginPos <= endPos || |h| < k ==>
              && beginPos + |h| < fileLen && file[beginPos..beginPos + |h|] == h && file[beginPos + |h|] == '\n')
        && (beginPos > endPos && k <= |h| ==>
              && file[beginPos..] == h[..k] && MIN_BEGIN_POS + |h| - k < endPos
              && file[MIN_BEGIN_POS..MIN_BEGIN_POS + |h| - k] == h[k..] && file[MIN_BEGIN_POS + |h| - k] == '\n')
    {
      var h, k, d := queue[0], MAX_FILE_SIZE - beginPos, Data();
      assert d == h + ['\n'] + Flat(queue[1..]);
      assert d[..|h|] == h && d[|h|] == '\n';
      if beginPos <= endPos {
        assert file[beginPos..beginPos + |h|] == d[..|h|];
      } else {
        assert d[..k] == file[beginPos..];
        if |h| < k {
          assert file[beginPos..beginPos + |h|] == d[..|h|];
        } else {
          assert h[..k] == d[..k];
          assert d[k..] == file[MIN_BEGIN_POS..endPos];
          var n := |h| - k;
          assert n < |file[MIN_BEGIN_POS..endPos]|;
          assert file[MIN_BEGIN_POS..endPos][..n] == file[MIN_BEGIN_POS..MIN_BEGIN_POS + n];
          assert h[k..] == d[k..][..|h| - k];
          assert d[k..][|h| - k] == '\n';
        }
      }
    }

    /** What is left of the window after the oldest record. */
    lemma RestOfData()
      requires Holds() && queue != []
      ensures var b := Forward(beginPos, endPos, |queue[0]| + 1);
        && MIN_BEGIN_POS <= b <= MAX_FILE_SIZE && Window(file[..], b, endPos) == Flat(queue[1..])
        && (b <= endPos < beginPos ==> MIN_BEGIN_POS <= b)
    {
      var d, n := Data(), |queue[0]| + 1;
      assert d == queue[0] + ['\n'] + Flat(queue[1..]);
      WindowDrop(file[..], beginPos, endPos, n);
      assert d[n..] == Flat(queue[1..]);
    }

    /** Reading has caught up with writing exactly when the last record is taken. */
    lemma EmptyRest()
      requires Holds() && queue != []
      ensures var b := Forward(beginPos, endPos, |queue[0]| + 1);
        && (b == endPos <==> queue[1..] == [])
        && (b == MAX_FILE_SIZE ==> b == endPos)
        && (b > endPos ==> beginPos > endPos)
    {
      RestOfData();
      HeadInFile();
      assert queue[1..] != [] ==> |Flat(queue[1..])| > 0;
    }

    /** `h` lies at `pos`, free of newlines. */
    ghost predicate TextAt(pos: nat, h: string)
      reads this`fileLen, file
    {
      && pos + |h| <= fileLen <= MAX_FILE_SIZE == file.Length && '\n' !in h && file[pos..pos + |h|] == h
    }

    ghost predicate NewlineAt(pos: nat)
      reads this`fileLen, file
    {
      pos < fileLen <= MAX_FILE_SIZE == file.Length && file[pos] == '\n'
    }

    /** What `getline` finds, given the text `h` up to the newline or the end of file. */
    method GetLineAt(pos: nat, n: nat, ghost h: string) returns (text: string, gcount: nat, next: int, eof: bool)
      requires Shape() && 1 <= n
      ensures |text| <= gcount <= n && next <= fileLen && (eof ==> next == -1) && '\n' !in text
      ensures gcount == n ==> next > pos && NewlineAt(next - 1)
      ensures next == MAX_FILE_SIZE ==> next == fileLen && NewlineAt(next - 1)
      ensures TextAt(pos, h) && n <= |h| ==> text == h[..n - 1] && next == -1 && !eof
      ensures TextAt(pos, h) && |h| < n && NewlineAt(pos + |h|) ==>
        text == h && next == pos + |h| + 1 && !eof
      ensures TextAt(pos, h) && |h| < n && pos + |h| == fileLen ==> text == h && next == -1 && eof && gcount == |h|
    {
      text, gcount, next, eof := GetLine(pos, n);
      if TextAt(pos, h) {
        assert forall k | 0 <= k < |h| :: file[pos + k] == h[k];
        assert forall k | 0 <= k < |text| :: file[pos + k] == text[k];
        if |text| < |h| {
          assert file[pos + |text|] == h[|text|];
        }
        if |h| < |text| {
          assert file[pos + |h|] == text[|h|];
        }
      }
    }

    /** The oldest record `h` lies in one piece. */
    ghost predicate InOnePiece(h: string)
      reads this`fileLen, this`beginPos, this`endPos, this`curFileSize, file
    {
      && Shape() && Placed() && TextAt(beginPos, h) && NewlineAt(beginPos + |h|)
      && (beginPos <= endPos ==> beginPos + |h| < endPos)
    }

    /** The oldest record `h` goes round the end of the file. */
    ghost predicate GoesRound(h: string)
      reads this`fileLen, this`beginPos, this`endPos, this`curFileSize, file
    {
      && Shape() && Placed() && beginPos > endPos
      && var k := MAX_FILE_SIZE - beginPos;
      && k <= |h| && TextAt(beginPos, h[..k]) && TextAt(MIN_BEGIN_POS, h[k..])
      && NewlineAt(MIN_BEGIN_POS + |h| - k) && !NewlineAt(fileLen - 1) && MIN_BEGIN_POS + |h| - k < endPos
    }

    lemma HeadText()
      requires Holds() && queue != []
      ensures if beginPos > endPos && MAX_FILE_SIZE - beginPos <= |queue[0]| then GoesRound(queue[0]) else InOnePiece(queue[0])
    {
      HeadInFile();
      var h, k := queue[0], MAX_FILE_SIZE - beginPos;
      if beginPos > endPos && k <= |h| {
        assert h[k - 1] != '\n';
      }
    }

    /** The reading part of `popALine`: one `getline`, and a second one for a record that went round. */
    method ReadRecord(ghost h: string) returns (damaged: bool, sLine: string)
      requires Shape()
      modifies this`beginPos, this`recordCount
      ensures MIN_BEGIN_POS <= beginPos <= MAX_FILE_SIZE
      ensures (recordCount == old(recordCount) || recordCount == 0) && '\n' !in sLine
      ensures old(InOnePiece(h) || GoesRound(h)) ==>
        if |h| < LINE_BUFFER then
          var b := Forward(old(beginPos), endPos, |h| + 1);
          && !damaged && sLine == h
          && beginPos == (if b >= MAX_FILE_SIZE then MIN_BEGIN_POS else b)
          && recordCount == (if b == endPos then 0 else old(recordCount))
        else
          && beginPos == MIN_BEGIN_POS && recordCount == old(recordCount)
          && (damaged <==> old(GoesRound(h)) && MAX_FILE_SIZE - old(beginPos) < LINE_BUFFER)
          && (!damaged ==> sLine == h[..LINE_BUFFER - 1])
    {
      hide LinePool.TextAt, LinePool.NewlineAt;
      ghost var k := MAX_FILE_SIZE - beginPos;
      ghost var round := GoesRound(h);
      ghost var first, rest := if round then h[..k] else h, if round then h[k..] else "";
      assert first + rest == h;
      var oldBeginPos := beginPos;
      var nRead, tell, eof;
      sLine, nRead, tell, eof := GetLineAt(beginPos, LINE_BUFFER, first);
      beginPos := tell;
      if beginPos < MIN_BEGIN_POS {
        beginPos := MIN_BEGIN_POS;
      }
      if oldBeginPos <= endPos && beginPos >= endPos {
        recordCount := 0;
      }
      damaged := false;
      if eof || beginPos >= MAX_FILE_SIZE {
        damaged, sLine := AtEndOfFile(oldBeginPos, nRead, sLine, rest);
      }
    }

    /** The end of the file was reached: go on at the start of the data, unless a record ended there. */
    method AtEndOfFile(oldBeginPos: int, nRead: nat, first: string, ghost rest: string) returns (damaged: bool, sLine: string)
      requires Shape() && |first| <= nRead <= LINE_BUFFER && '\n' !in first
      requires nRead == LINE_BUFFER ==> NewlineAt(fileLen - 1)
      modifies this`beginPos, this`recordCount
      ensures MIN_BEGIN_POS <= beginPos <= MAX_FILE_SIZE
      ensures recordCount == (if !damaged && oldBeginPos > endPos && beginPos >= endPos then 0 else old(recordCount))
      ensures '\n' !in sLine
      ensures NewlineAt(fileLen - 1) ==> !damaged && sLine == first && beginPos == MIN_BEGIN_POS
      ensures !NewlineAt(fileLen - 1) && TextAt(MIN_BEGIN_POS, rest) && NewlineAt(MIN_BEGIN_POS + |rest|) ==>
        if nRead + |rest| < LINE_BUFFER then
          !damaged && sLine == first + rest && beginPos == MIN_BEGIN_POS + |rest| + 1
        else damaged && beginPos == MIN_BEGIN_POS
    {
      damaged, sLine := false, first;
      if file[fileLen - 1] != '\n' {
        var more, _, tell, _ := GetLineAt(MIN_BEGIN_POS, LINE_BUFFER - nRead, rest);
        sLine := sLine + more;
        beginPos := tell;
        if beginPos < MIN_BEGIN_POS {
          beginPos := MIN_BEGIN_POS;
          damaged := true;
          return;
        }
      } else {
        beginPos := MIN_BEGIN_POS;
      }
      if oldBeginPos > endPos && beginPos >= endPos {
        recordCount := 0;
      }
    }

    /** Takes the oldest record.  One that holds a NUL is cut there; one that does not fit the buffer comes out
        shortened, or not at all if its head lies just before the end of the file, and the next pop begins at
        the start of the data range, wherever the next record is; every other record comes out as it went in. */
    method PopALine() returns (ok: bool, strLine: string)
      requires Shape()
      modifies this
      ensures Shape() && open == old(open)
      ensures !open || old(recordCount) < 1 ==> !ok && unchanged(this)
      ensures '\n' !in strLine && '\0' !in strLine && linesDiscarded == old(linesDiscarded)
      ensures open && old(recordCount) >= 1 ==> recordCount == old(recordCount) - 1 || recordCount == 0
      ensures old(Valid() && open && queue != []) ==>
        (ok && strLine == old(queue)[0] <==> |old(queue)[0]| < LINE_BUFFER && '\0' !in old(queue)[0])
      ensures old(Valid() && open && queue != [] && |queue[0]| < LINE_BUFFER) ==>
        ok && strLine == CString(old(queue)[0]) && Valid() && State() == Popped(old(State()))
      ensures old(Valid() && open && queue != [] && |queue[0]| >= LINE_BUFFER) ==>
        && beginPos == MIN_BEGIN_POS && recordCount == old(recordCount) - 1
        && (ok <==> old(beginPos <= endPos || MAX_FILE_SIZE - beginPos >= LINE_BUFFER))
        && (ok ==> strLine == CString(old(queue)[0][..LINE_BUFFER - 1]))
        && endPos == if ok && recordCount == 0 then MIN_BEGIN_POS else old(endPos)
    {
      hide LinePool.Holds, LinePool.Shape, Flat;
      if !open || recordCount < 1 {
        return false, "";
      }
      ok, strLine := PopRecord();
    }

    method PopRecord() returns (ok: bool, strLine: string)
      requires Shape() && open && recordCount >= 1
      modifies this
      ensures Shape() && open && linesDiscarded == old(linesDiscarded)
      ensures '\n' !in strLine && '\0' !in strLine && (recordCount == old(recordCount) - 1 || recordCount == 0)
      ensures old(Valid() && queue != [] && |queue[0]| < LINE_BUFFER) ==>
        ok && strLine == CString(old(queue)[0]) && Valid() && State() == Popped(old(State()))
      ensures old(Valid() && queue != [] && |queue[0]| >= LINE_BUFFER) ==>
        && beginPos == MIN_BEGIN_POS && recordCount == old(recordCount) - 1
        && (ok <==> old(beginPos <= endPos || MAX_FILE_SIZE - beginPos >= LINE_BUFFER))
        && (ok ==> strLine == CString(old(queue)[0][..LINE_BUFFER - 1]))
        && endPos == if ok && recordCount == 0 then MIN_BEGIN_POS else old(endPos)
    {
      hide LinePool.Holds, LinePool.Data, Window, Flat;
      ok, strLine := false, "";
      ghost var good := Valid() && queue != [];
      var damaged, sLine := ReadOldest();
      if damaged {
        return;
      }
      strLine := CString(sLine);
      if recordCount == 0 {
        endPos := MIN_BEGIN_POS;
        beginPos := endPos;
      }
      ok := true;
      if good && |queue[0]| < LINE_BUFFER {
        taken := taken + [queue[0]];
        queue := queue[1..];
        Shifted(old(queue));
      }
    }

    method ReadOldest() returns (damaged: bool, sLine: string)
      requires Shape() && recordCount >= 1
      modifies this`beginPos, this`recordCount
      ensures Shape() && '\n' !in sLine && (recordCount == old(recordCount) - 1 || recordCount == 0)
      ensures old(Valid() && queue != [] && |queue[0]| < LINE_BUFFER) ==>
        && !damaged && sLine == queue[0] && recordCount == |queue| - 1
        && Placed() && Unbroken(queue) && (queue[1..] != [] ==> Window(file[..], beginPos, endPos) == Flat(queue[1..]))
      ensures old(Valid() && queue != [] && |queue[0]| >= LINE_BUFFER) ==>
        && beginPos == MIN_BEGIN_POS && recordCount == old(recordCount) - 1
        && (damaged <==> old(beginPos > endPos && MAX_FILE_SIZE - beginPos < LINE_BUFFER))
        && (!damaged ==> sLine == queue[0][..LINE_BUFFER - 1])
    {
      hide LinePool.Holds, LinePool.Data, LinePool.InOnePiece, LinePool.GoesRound, Window, Flat, Forward;
      ghost var good := Valid() && queue != [];
      if good {
        HeadInFile();
        HeadText();
        RestOfData();
        EmptyRest();
        Lines();
      }
      recordCount := recordCount - 1;
      damaged, sLine := ReadRecord(if good then queue[0] else "");
    }

    /** The window moved past one record, or back to the head of an emptied file. */
    lemma Shifted(lines: seq<string>)
      requires Shape() && Placed() && lines != [] && queue == lines[1..] && Unbroken(lines)
      requires if queue == [] then beginPos == endPos == MIN_BEGIN_POS else Window(file[..], beginPos, endPos) == Flat(queue)
      ensures Holds()
    {
    }

    lemma Lines()
      requires Holds()
      ensures Unbroken(queue)
    {
    }
  }
}
