/** A file of src/util/LinePool.cpp as the king and his boxes use it: a queue of lines, as long as no line is too
    long for the buffer that lines are popped into. */
module SpillPools {
  import LinePool

  /** A line that comes out of a pool as it went in. */
  predicate Keepable(line: string) {
    '\0' !in line && |line| < LinePool.LINE_BUFFER
  }

  predicate AllKeepable(lines: seq<string>) {
    forall l | l in lines :: Keepable(l)
  }

  predicate OneLine(line: string) {
    '\n' !in line
  }

  predicate AllLines(lines: seq<string>) {
    forall l | l in lines :: OneLine(l)
  }

  /** What a pop from a pool that is read from the wrong place gives, if anything, and whether the pool then
      counts no more records. */
  datatype Reading = Reading(ok: bool, line: string, emptied: bool)

  /** What depends on bytes and positions that the model leaves open: the room in such a pool, and its readings. */
  datatype Chance = Chance(room: (LinePool.Record, string) -> bool, read: LinePool.Record -> Reading)

  /** A pool is damaged once a line was popped that is too long. */
  datatype Pool = Pool(records: LinePool.Record, open: bool, damaged: bool, chance: Chance)

  function NewPool(open: bool, chance: Chance): Pool {
    Pool(LinePool.Record([], [], 0), open, false, chance)
  }

  function Held(p: Pool): multiset<string> {
    multiset(p.records.queue)
  }

  // ---------------------------------------------------------------------------------------------
  // Pushing

  predicate Takes(p: Pool, line: string) {
    p.open && if p.damaged then p.chance.room(p.records, line) else LinePool.Fits(p.records.queue, LinePool.FirstLine(line))
  }

  function Pushed(p: Pool, line: string): Pool {
    if !p.damaged then p.(records := LinePool.Pushed(p.records, line, p.open))
    else if Takes(p, line) then p.(records := p.records.(queue := p.records.queue + [LinePool.FirstLine(line)]))
    else p.(records := p.records.(discarded := p.records.discarded + 1))
  }

  function PushedAll(p: Pool, lines: seq<string>): Pool {
    if lines == [] then p else Pushed(PushedAll(p, lines[..|lines| - 1]), lines[|lines| - 1])
  }

  /** What a push finds no room for. */
  function Refusal(p: Pool, line: string): multiset<string> {
    if Takes(p, line) then multiset{} else multiset{line}
  }

  function RefusalAll(p: Pool, lines: seq<string>): multiset<string> {
    if lines == [] then multiset{}
    else
      var before, l := lines[..|lines| - 1], lines[|lines| - 1];
      RefusalAll(p, before) + Refusal(PushedAll(p, before), l)
  }

  lemma {:induction false} FirstLineIsAll(l: string)
    requires OneLine(l)
    ensures LinePool.FirstLine(l) == l
  {
    if l != [] {
      FirstLineIsAll(l[1..]);
    }
  }

  /** What is pushed is in the pool or refused, and every refusal is counted. */
  lemma PushOne(p: Pool, l: string)
    requires OneLine(l)
    ensures var q := Pushed(p, l);
      && Held(q) + Refusal(p, l) == Held(p) + multiset{l}
      && q.records.discarded == p.records.discarded + |Refusal(p, l)|
      && q.open == p.open && q.damaged == p.damaged
      && |q.records.queue| >= |p.records.queue|
      && (forall x | x in q.records.queue :: x in p.records.queue || x == l)
  {
    FirstLineIsAll(l);
  }

  lemma PushedNone(p: Pool)
    ensures PushedAll(p, []) == p && RefusalAll(p, []) == multiset{}
  {
  }

  lemma {:induction false} PushAll(p: Pool, lines: seq<string>)
    requires AllLines(lines)
    ensures var q := PushedAll(p, lines);
      && Held(q) + RefusalAll(p, lines) == Held(p) + multiset(lines)
      && q.records.discarded == p.records.discarded + |RefusalAll(p, lines)|
      && q.open == p.open && q.damaged == p.damaged
      && (forall x | x in q.records.queue :: x in p.records.queue || x in lines)
  {
    hide OneLine, Pushed, Refusal, Held;
    if lines == [] {
      assert Held(p) + multiset{} == Held(p) + multiset(lines);
    } else {
      var before, l := lines[..|lines| - 1], lines[|lines| - 1];
      PushAll(p, before);
      var q := PushedAll(p, before);
      PushOne(q, l);
      assert lines == before + [l];
      Grown(Held(p), multiset(before), multiset{l}, Held(q), RefusalAll(p, before), Held(Pushed(q, l)), Refusal(q, l));
      assert multiset(lines) == multiset(before) + multiset{l};
    }
  }

  lemma Grown(p: multiset<string>, ls: multiset<string>, l: multiset<string>, q: multiset<string>, r: multiset<string>,
              q': multiset<string>, r': multiset<string>)
    requires q + r == p + ls && q' + r' == q + l
    ensures q' + (r + r') == p + (ls + l)
  {
    forall x: string ensures (q' + (r + r'))[x] == (p + (ls + l))[x] {
      assert (q + r)[x] == (p + ls)[x] && (q' + r')[x] == (q + l)[x];
    }
  }

  /** A pool of some hundred thousand messages has room for more. */
  predicate Roomy(p: Pool) {
    p.open && !p.damaged && AllKeepable(p.records.queue) && |p.records.queue| <= 200000
  }

  lemma {:induction false} FlatBound(ms: seq<string>)
    requires AllKeepable(ms)
    ensures |LinePool.Flat(ms)| <= LinePool.LINE_BUFFER * |ms|
  {
    if ms != [] {
      assert Keepable(ms[0]);
      FlatBound(ms[1..]);
    }
  }

  lemma RoomForOne(p: Pool, m: string)
    requires p.open && !p.damaged && AllKeepable(p.records.queue) && |p.records.queue| <= 250000 && OneLine(m) && Keepable(m)
    ensures Pushed(p, m) == p.(records := p.records.(queue := p.records.queue + [m]))
  {
    FlatBound(p.records.queue);
    FirstLineIsAll(m);
  }

  // ---------------------------------------------------------------------------------------------
  // Popping

  predicate Poppable(p: Pool) {
    p.open && p.records.queue != []
  }

  /** The next line will come out as it went in. */
  predicate Whole(p: Pool)
    requires Poppable(p)
  {
    !p.damaged && Keepable(p.records.queue[0])
  }

  function AfterPop(p: Pool): Pool
    requires Poppable(p)
  {
    var r := p.records;
    if !p.damaged && |r.queue[0]| < LinePool.LINE_BUFFER then p.(records := LinePool.Popped(r))
    else if p.damaged && p.chance.read(r).emptied then p.(records := r.(queue := [], taken := r.taken + r.queue))
    else p.(records := LinePool.Popped(r), damaged := true)
  }

  /** What the pop returns, if anything: a line that is too long comes shortened or not at all, and from then on
      anything may come. */
  function Read(p: Pool): seq<string>
    requires Poppable(p)
  {
    var h := p.records.queue[0];
    if !p.damaged && |h| < LinePool.LINE_BUFFER then [LinePool.CString(h)]
    else
      var r := p.chance.read(p.records);
      if !r.ok then []
      else if !p.damaged then [LinePool.CString(h[..LinePool.LINE_BUFFER - 1])]
      else [LinePool.CString(LinePool.FirstLine(r.line))]
  }

  /** The records that the pop takes out. */
  function Gone(p: Pool): seq<string>
    requires Poppable(p)
  {
    if p.damaged && p.chance.read(p.records).emptied then p.records.queue else [p.records.queue[0]]
  }

  lemma PopOne(p: Pool)
    requires Poppable(p)
    ensures var q := AfterPop(p);
      && Held(p) == Held(q) + multiset(Gone(p))
      && q.open == p.open && q.records.discarded == p.records.discarded
      && |q.records.queue| < |p.records.queue| && (forall x | x in q.records.queue :: x in p.records.queue)
      && (Whole(p) ==> q == p.(records := LinePool.Popped(p.records)))
    ensures Whole(p) ==> Read(p) == Gone(p) == [p.records.queue[0]]
  {
    var queue := p.records.queue;
    assert queue == [queue[0]] + queue[1..];
  }

  lemma ReadLines(p: Pool)
    requires Poppable(p) && AllLines(p.records.queue)
    ensures AllLines(Read(p)) && |Read(p)| <= 1
  {
    assert OneLine(p.records.queue[0]);
  }

  lemma {:induction false} PushAllWhole(p: Pool, lines: seq<string>)
    requires p.open && !p.damaged && AllKeepable(p.records.queue) && |p.records.queue| + |lines| <= 250000
    requires AllLines(lines) && AllKeepable(lines)
    ensures PushedAll(p, lines) == p.(records := p.records.(queue := p.records.queue + lines)) && RefusalAll(p, lines) == multiset{}
  {
    hide Keepable, OneLine, Pushed;
    if lines == [] {
      assert p.records.queue + [] == p.records.queue;
    } else {
      var before, l := lines[..|lines| - 1], lines[|lines| - 1];
      PushAllWhole(p, before);
      assert l in lines && p.records.queue + lines == p.records.queue + before + [l];
      RoomForOne(PushedAll(p, before), l);
      TakenIn(PushedAll(p, before), l);
    }
  }

  lemma TakenIn(p: Pool, l: string)
    requires p.open && !p.damaged && AllKeepable(p.records.queue) && |p.records.queue| <= 250000 && OneLine(l) && Keepable(l)
    ensures Refusal(p, l) == multiset{}
  {
    FlatBound(p.records.queue);
    FirstLineIsAll(l);
  }

  // ---------------------------------------------------------------------------------------------
  // A pool is what the file does

  /** A push into the file, as long as no line was popped that is too long. */
  method PushIntoFile(file: LinePool.LinePool, ghost p: Pool, line: string)
    requires file.Valid() && file.open == p.open && !p.damaged && file.State() == p.records
    modifies file, file.file
    ensures file.Valid() && file.open == Pushed(p, line).open && file.State() == Pushed(p, line).records && !Pushed(p, line).damaged
  {
    file.PushALine(line);
  }

  /** After such a pop, a push is one that some room allows. */
  method PushIntoDamaged(file: LinePool.LinePool, ghost p: Pool, line: string) returns (ghost chance: Chance)
    requires file.Shape() && file.open == p.open && p.damaged && file.recordCount == |p.records.queue|
    modifies file, file.file
    ensures var q := Pushed(p.(chance := chance), line);
      file.Shape() && file.open == q.open && q.damaged && |q.records.queue| == file.recordCount
  {
    ghost var n := file.recordCount;
    file.PushALine(line);
    var room := file.recordCount > n;
    chance := Chance((_, _) => room, p.chance.read);
  }

  /** A pop: a line that is not too long is read as from the pool, and then the file is what the pool is.  For one
      that is, there are readings with which the pool gives what the file does, and as many records are left. */
  method PopFromFile(file: LinePool.LinePool, ghost p: Pool) returns (ok: bool, line: string, ghost chance: Chance)
    requires file.Valid() && file.open == p.open && !p.damaged && file.State() == p.records && Poppable(p)
    modifies file
    ensures var q := p.(chance := chance);
      && Read(q) == (if ok then [line] else []) && |AfterPop(q).records.queue| == file.recordCount
      && (AfterPop(q).damaged <==> |p.records.queue[0]| >= LinePool.LINE_BUFFER)
      && (!AfterPop(q).damaged ==> file.Valid() && file.State() == AfterPop(q).records)
  {
    ok, line := file.PopALine();
    var gave := Reading(ok, line, false);
    chance := Chance(p.chance.room, _ => gave);
  }

  /** After that, every pop is one that some readings allow. */
  method PopFromDamaged(file: LinePool.LinePool, ghost p: Pool) returns (ok: bool, line: string, ghost chance: Chance)
    requires file.Shape() && file.open == p.open && p.damaged && file.recordCount == |p.records.queue| && Poppable(p)
    modifies file
    ensures var q := p.(chance := chance);
      && file.Shape() && file.open == q.open && AfterPop(q).damaged && |AfterPop(q).records.queue| == file.recordCount
      && Read(q) == if ok then [line] else []
  {
    ok, line := file.PopALine();
    FirstLineIsAll(line);
    var gave := Reading(ok, line, file.recordCount == 0);
    chance := Chance(p.chance.room, _ => gave);
  }
}
