/** The shared-memory message queue of src/util/msgq.cpp over the System V semaphores of
    src/util/sem_sv.cpp, as a state machine.

    One flat block of `nmsgs * size` bytes is shared by any number of processes.  Each P, each V,
    each byte copied, each index advance and each computation of `*remain` is a step of its own,
    and the steps of all processes interleave freely. */
module MessageQueue {
  import opened Counting
  import opened RingArithmetic

  type Byte = b: int | 0 <= b < 256
  type Text = seq<Byte>

  /** Where a process stands inside `get` or `put`, with the locals that are live there. */
  datatype Pc =
    | Idle(outcome: Outcome)
      // get
    | GetWaitItem(block: bool)                      // about to do P(0, _block)
    | GetWaitLock                                   // about to do P(2)
    | GetOpen                                       // about to evaluate msgs + iread*size
    | GetCopy(base: nat, buf: Text)                 // inside strcpy, |buf| bytes copied
    | GetAdvance(buf: Text)                         // about to store iread
    | GetRemain(buf: Text, ticket: nat)             // about to compute *remain
    | GetUnlock(buf: Text, remain: int, ticket: nat)  // about to do V(2)
    | GetRelease(buf: Text, remain: int, ticket: nat) // about to do V(1)
      // put
    | PutWaitSlot(msg: Text, block: bool)           // about to do P(1, _block)
    | PutWaitLock(msg: Text)                        // about to do P(3)
    | PutOpen(msg: Text)                            // about to evaluate msgs + iwrite*size
    | PutCopy(msg: Text, base: nat, done: nat)      // inside memcpy and memset
    | PutAdvance(msg: Text)                         // about to store iwrite
    | PutRemain(msg: Text)
    | PutUnlock(msg: Text, remain: int)             // about to do V(3)
    | PutRelease(msg: Text, remain: int)            // about to do V(0)

  /** What the last call of a process returned. */
  datatype Outcome = NoCall | Failed | Got(msg: Text, remain: int, ticket: nat) | Written(remain: int)

  /** `items`, `free`, `rlock` and `wlock` are semaphores 0 to 3.  `written` and `read` are history
      variables: the messages in the order in which their index advance happened. */
  datatype Ring = Ring(
    nmsgs: nat, size: nat,
    iread: nat, iwrite: nat, mem: Text,
    items: nat, free: nat, rlock: nat, wlock: nat,
    procs: map<nat, Pc>,
    written: seq<Text>, read: seq<Text>)

  /** What a process does next: begin a call when idle, otherwise go on with the one it is in. */
  datatype Action = BeginGet(block: bool) | BeginPut(text: Text, block: bool) | Continue

  // ---------------------------------------------------------------------------------------------
  // The text of a message

  /** The bytes of a C string before its terminating NUL. */
  function CString(text: Text): Text {
    if text == [] || text[0] == 0 then [] else [text[0]] + CString(text[1..])
  }

  /** What a slot holds after `memcpy` and `memset`: the message, then NULs up to the slot size. */
  function Padded(msg: Text, size: nat): (slot: Text)
    requires |msg| <= size
    ensures |slot| == size
  {
    msg + seq(size - |msg|, _ => 0)
  }

  predicate Storable(msg: Text, size: nat) {
    0 < |msg| < size && 0 !in msg
  }

  /** The length loop at the head of `put`, which stops after 2*size bytes. */
  method MessageLength(text: Text, size: nat) returns (len: nat)
    ensures len == |CString(text)| || (size <= len && size <= |CString(text)|)
  {
    len := 0;
    CStringFacts(text);
    while len < 2 * size
      invariant len <= |CString(text)|
    {
      if len == |text| || text[len] == 0 {
        break;
      }
      CStringFacts(text);
      len := len + 1;
    }
  }

  lemma {:induction false} CStringFacts(text: Text)
    ensures CString(text) <= text && 0 !in CString(text)
    ensures forall k | 0 <= k < |CString(text)| :: text[k] != 0
    ensures |CString(text)| < |text| ==> text[|CString(text)|] == 0
  {
    if text != [] && text[0] != 0 {
      CStringFacts(text[1..]);
    }
  }

  // ---------------------------------------------------------------------------------------------
  // Steps

  /** `CMsgQue::init`: nothing to read, nmsgs free slots, both locks open, every process idle. */
  ghost predicate Init(s: Ring) {
    && 0 < s.nmsgs && 0 < s.size
    && |s.mem| == s.nmsgs * s.size
    && s.iread == 0 && s.iwrite == 0
    && s.items == 0 && s.free == s.nmsgs && s.rlock == 1 && s.wlock == 1
    && (forall p | p in s.procs :: s.procs[p] == Idle(NoCall))
    && s.written == [] && s.read == []
  }

  /** `*remain = iwrite - iread; if (*remain < 0) *remain += nmsgs;` */
  function Remain(s: Ring): int {
    var d := s.iwrite - s.iread;
    if d < 0 then d + s.nmsgs else d
  }

  function At(s: Ring, p: nat, pc: Pc): Ring {
    s.(procs := s.procs[p := pc])
  }

  /** A process can always move except at a P on an exhausted semaphore; the first P of a
      non-blocking call does move, by giving up. */
  predicate Enabled(s: Ring, p: nat, a: Action)
    requires p in s.procs
  {
    match s.procs[p]
    case Idle(_) => !a.Continue?
    case GetWaitItem(block) => a.Continue? && (block ==> 0 < s.items)
    case GetWaitLock => a.Continue? && 0 < s.rlock
    case PutWaitSlot(_, block) => a.Continue? && (block ==> 0 < s.free)
    case PutWaitLock(_) => a.Continue? && 0 < s.wlock
    case _ => a.Continue?
  }

  /** No step reads or writes outside the shared block. */
  predicate InBounds(s: Ring, p: nat)
    requires p in s.procs
  {
    match s.procs[p]
    case GetCopy(base, buf) => base * s.size + |buf| < |s.mem|
    case PutCopy(_, base, done) => done < s.size ==> base * s.size + done < |s.mem|
    case _ => 0 < s.nmsgs
  }

  function Step(s: Ring, p: nat, a: Action): Ring
    requires p in s.procs && Enabled(s, p, a) && InBounds(s, p)
  {
    var pc := s.procs[p];
    if pc.Idle? then Begin(s, p, a)
    else if InGet(pc) then GetStep(s, p)
    else PutStep(s, p)
  }

  predicate InGet(pc: Pc) { pc.GetWaitItem? || ItemTaken(pc) || SlotEmptied(pc) }

  function Begin(s: Ring, p: nat, a: Action): Ring
    requires p in s.procs && !a.Continue?
  {
    match a
    case BeginGet(block) => At(s, p, GetWaitItem(block))
    case BeginPut(text, block) =>
      var msg := CString(text);
      if |msg| == 0 || |msg| > s.size - 1 then At(s, p, Idle(Failed)) else At(s, p, PutWaitSlot(msg, block))
  }

  /** msgq.cpp, lines 149 to 162. */
  function GetStep(s: Ring, p: nat): Ring
    requires p in s.procs && InGet(s.procs[p]) && Enabled(s, p, Continue) && InBounds(s, p)
  {
    match s.procs[p]
    case GetWaitItem(_) =>
      if s.items == 0 then At(s, p, Idle(Failed)) else At(s.(items := s.items - 1), p, GetWaitLock)
    case GetWaitLock => At(s.(rlock := s.rlock - 1), p, GetOpen)
    case GetOpen => At(s, p, GetCopy(s.iread, []))
    case GetCopy(base, buf) =>
      var b := s.mem[base * s.size + |buf|];
      if b == 0 then At(s, p, GetAdvance(buf)) else At(s, p, GetCopy(base, buf + [b]))
    case GetAdvance(buf) =>
      At(s.(iread := (s.iread + 1) % s.nmsgs, read := s.read + [buf]), p, GetRemain(buf, |s.read|))
    case GetRemain(buf, ticket) => At(s, p, GetUnlock(buf, Remain(s), ticket))
    case GetUnlock(buf, remain, ticket) => At(s.(rlock := s.rlock + 1), p, GetRelease(buf, remain, ticket))
    case GetRelease(buf, remain, ticket) => At(s.(free := s.free + 1), p, Idle(Got(buf, remain, ticket)))
  }

  /** msgq.cpp, lines 213 to 227. */
  function PutStep(s: Ring, p: nat): Ring
    requires p in s.procs && !InGet(s.procs[p]) && Enabled(s, p, Continue) && InBounds(s, p)
  {
    match s.procs[p]
    case PutWaitSlot(msg, _) =>
      if s.free == 0 then At(s, p, Idle(Failed)) else At(s.(free := s.free - 1), p, PutWaitLock(msg))
    case PutWaitLock(msg) => At(s.(wlock := s.wlock - 1), p, PutOpen(msg))
    case PutOpen(msg) => At(s, p, PutCopy(msg, s.iwrite, 0))
    case PutCopy(msg, base, done) =>
      if done < s.size then
        var b := if done < |msg| then msg[done] else 0;
        At(s.(mem := s.mem[base * s.size + done := b]), p, PutCopy(msg, base, done + 1))
      else At(s, p, PutAdvance(msg))
    case PutAdvance(msg) =>
      At(s.(iwrite := (s.iwrite + 1) % s.nmsgs, written := s.written + [msg]), p, PutRemain(msg))
    case PutRemain(msg) => At(s, p, PutUnlock(msg, Remain(s)))
    case PutUnlock(msg, remain) => At(s.(wlock := s.wlock + 1), p, PutRelease(msg, remain))
    case PutRelease(msg, remain) => At(s.(items := s.items + 1), p, Idle(Written(remain)))
  }

  // ---------------------------------------------------------------------------------------------
  // Counting processes by where they stand

  predicate ItemTaken(pc: Pc) { pc.GetWaitLock? || pc.GetOpen? || pc.GetCopy? || pc.GetAdvance? }
  predicate SlotEmptied(pc: Pc) { pc.GetRemain? || pc.GetUnlock? || pc.GetRelease? }
  predicate SlotTaken(pc: Pc) { pc.PutWaitLock? || pc.PutOpen? || pc.PutCopy? || pc.PutAdvance? }
  predicate SlotFilled(pc: Pc) { pc.PutRemain? || pc.PutUnlock? || pc.PutRelease? }
  predicate Reading(pc: Pc) { pc.GetOpen? || pc.GetCopy? || pc.GetAdvance? || pc.GetRemain? || pc.GetUnlock? }
  predicate Writing(pc: Pc) { pc.PutOpen? || pc.PutCopy? || pc.PutAdvance? || pc.PutRemain? || pc.PutUnlock? }

  /** An operation is in flight between its first P and its last V. */
  predicate GetInFlight(pc: Pc) { ItemTaken(pc) || SlotEmptied(pc) }
  predicate PutInFlight(pc: Pc) { SlotTaken(pc) || SlotFilled(pc) }
  predicate InFlight(pc: Pc) { GetInFlight(pc) || PutInFlight(pc) }

  /** In flight is the disjoint union of the four stages. */
  lemma CountInFlight(procs: map<nat, Pc>)
    ensures Count(procs, InFlight)
         == Count(procs, ItemTaken) + Count(procs, SlotEmptied) + Count(procs, SlotTaken) + Count(procs, SlotFilled)
  {
    CountSplit(procs, ItemTaken, SlotEmptied, GetInFlight);
    CountSplit(procs, SlotTaken, SlotFilled, PutInFlight);
    CountSplit(procs, GetInFlight, PutInFlight, InFlight);
  }

  // ---------------------------------------------------------------------------------------------
  // Slots

  function Slot(s: Ring, i: nat): (slot: Text)
    requires i < s.nmsgs && |s.mem| == s.nmsgs * s.size
    ensures |slot| == s.size
  {
    SlotInBlock(i, s.nmsgs, s.size);
    s.mem[i * s.size .. i * s.size + s.size]
  }

  /** Storing one byte changes one byte of one slot. */
  lemma SlotStore(s: Ring, s': Ring, i: nat, k: nat, b: Byte)
    requires |s.mem| == s.nmsgs * s.size && i < s.nmsgs && k < s.size
    requires i * s.size + k < |s.mem| && s'.mem == s.mem[i * s.size + k := b]
    requires s'.nmsgs == s.nmsgs && s'.size == s.size
    ensures Slot(s', i) == Slot(s, i)[k := b]
    ensures forall j | 0 <= j < s.nmsgs && j != i :: Slot(s', j) == Slot(s, j)
  {
    SlotInBlock(i, s.nmsgs, s.size);
    forall j | 0 <= j < s.nmsgs && j != i
      ensures Slot(s', j) == Slot(s, j)
    {
      SlotInBlock(j, s.nmsgs, s.size);
      SlotsApart(i, j, s.size);
    }
  }

  // ---------------------------------------------------------------------------------------------
  // The invariant

  ghost predicate Shape(s: Ring) {
    && 0 < s.nmsgs && 0 < s.size && |s.mem| == s.nmsgs * s.size
    && |s.read| <= |s.written| <= |s.read| + s.nmsgs
    && s.iread == |s.read| % s.nmsgs && s.iwrite == |s.written| % s.nmsgs
  }

  ghost predicate Counters(s: Ring)
    requires Shape(s)
  {
    && s.items + Count(s.procs, SlotFilled) + Count(s.procs, ItemTaken) == |s.written| - |s.read|
    && s.free + Count(s.procs, SlotTaken) + Count(s.procs, SlotEmptied) == s.nmsgs - (|s.written| - |s.read|)
    && s.rlock + Count(s.procs, Reading) == 1
    && s.wlock + Count(s.procs, Writing) == 1
  }

  ghost predicate Contents(s: Ring)
    requires Shape(s)
  {
    && s.read <= s.written
    && (forall k | 0 <= k < |s.written| :: Storable(s.written[k], s.size))
    && (forall k | |s.read| <= k < |s.written| :: Slot(s, k % s.nmsgs) == Padded(s.written[k], s.size))
  }

  ghost predicate ProcOk(s: Ring, pc: Pc)
    requires Shape(s) && Contents(s)
  {
    match pc
    case Idle(Got(buf, _, ticket)) => ticket < |s.read| && buf == s.read[ticket]
    case GetCopy(base, buf) =>
      base == s.iread && (|s.read| < |s.written| ==> buf <= s.written[|s.read|])
    case GetAdvance(buf) => |s.read| < |s.written| ==> buf == s.written[|s.read|]
    case GetRemain(buf, ticket) => ticket < |s.read| && buf == s.read[ticket]
    case GetUnlock(buf, _, ticket) => ticket < |s.read| && buf == s.read[ticket]
    case GetRelease(buf, _, ticket) => ticket < |s.read| && buf == s.read[ticket]
    case PutWaitSlot(msg, _) => Storable(msg, s.size)
    case PutWaitLock(msg) => Storable(msg, s.size)
    case PutOpen(msg) => Storable(msg, s.size)
    case PutCopy(msg, base, done) =>
      && Storable(msg, s.size) && base == s.iwrite && done <= s.size
      && Slot(s, base)[..done] == Padded(msg, s.size)[..done]
    case PutAdvance(msg) => Storable(msg, s.size) && Slot(s, s.iwrite) == Padded(msg, s.size)
    case _ => true
  }

  ghost predicate Inv(s: Ring) {
    && Shape(s) && Counters(s) && Contents(s)
    && forall p | p in s.procs :: ProcOk(s, s.procs[p])
  }

  lemma InitInv(s: Ring)
    requires Init(s)
    ensures Inv(s)
  {
    assert Where(s.procs, SlotFilled) == {} && Where(s.procs, ItemTaken) == {};
    assert Where(s.procs, SlotTaken) == {} && Where(s.procs, SlotEmptied) == {};
    assert Where(s.procs, Reading) == {} && Where(s.procs, Writing) == {};
  }

  /** Ghost totals: a process with an item in hand sees R < W, one with a slot in hand W < R + nmsgs. */
  lemma InHand(s: Ring, p: nat)
    requires Shape(s) && Counters(s) && p in s.procs
    ensures ItemTaken(s.procs[p]) ==> |s.read| < |s.written|
    ensures SlotTaken(s.procs[p]) ==> |s.written| < |s.read| + s.nmsgs
    ensures SlotEmptied(s.procs[p]) ==> |s.written| < |s.read| + s.nmsgs
    ensures SlotFilled(s.procs[p]) ==> |s.read| < |s.written|
  {
    if ItemTaken(s.procs[p]) { CountPositive(s.procs, p, ItemTaken); }
    if SlotTaken(s.procs[p]) { CountPositive(s.procs, p, SlotTaken); }
    if SlotEmptied(s.procs[p]) { CountPositive(s.procs, p, SlotEmptied); }
    if SlotFilled(s.procs[p]) { CountPositive(s.procs, p, SlotFilled); }
  }

  /** The byte `strcpy` looks at next is the next byte of the oldest unread message, or its NUL. */
  lemma CopyReads(s: Ring, p: nat)
    requires Inv(s) && p in s.procs && s.procs[p].GetCopy?
    ensures |s.read| < |s.written|
    ensures InBounds(s, p) && |s.procs[p].buf| < s.size
    ensures var k, at := |s.procs[p].buf|, s.procs[p].base * s.size + |s.procs[p].buf|;
      0 <= at < |s.mem| && s.mem[at] == (if k < |s.written[|s.read|]| then s.written[|s.read|][k] else 0)
  {
    InHand(s, p);
    SlotInBlock(s.iread, s.nmsgs, s.size);
    var msg, k := s.written[|s.read|], |s.procs[p].buf|;
    assert ProcOk(s, s.procs[p]);
    assert Slot(s, s.iread) == Padded(msg, s.size);
    assert Slot(s, s.iread)[k] == Padded(msg, s.size)[k];
  }

  lemma StepsInBounds(s: Ring, p: nat)
    requires Inv(s) && p in s.procs
    ensures InBounds(s, p)
  {
    match s.procs[p]
    case GetCopy(_, _) => CopyReads(s, p);
    case PutCopy(_, base, done) =>
      assert ProcOk(s, s.procs[p]);
      SlotInBlock(base, s.nmsgs, s.size);
    case _ =>
  }


  // ---------------------------------------------------------------------------------------------
  // Every step keeps the invariant

  function One(b: bool): nat { if b then 1 else 0 }

  /** The counters follow one process to `pc`. */
  lemma CountsMove(procs: map<nat, Pc>, p: nat, pc: Pc)
    requires p in procs
    ensures Count(procs[p := pc], ItemTaken) == Count(procs, ItemTaken) - One(ItemTaken(procs[p])) + One(ItemTaken(pc))
    ensures Count(procs[p := pc], SlotEmptied)
         == Count(procs, SlotEmptied) - One(SlotEmptied(procs[p])) + One(SlotEmptied(pc))
    ensures Count(procs[p := pc], SlotTaken) == Count(procs, SlotTaken) - One(SlotTaken(procs[p])) + One(SlotTaken(pc))
    ensures Count(procs[p := pc], SlotFilled)
         == Count(procs, SlotFilled) - One(SlotFilled(procs[p])) + One(SlotFilled(pc))
    ensures Count(procs[p := pc], Reading) == Count(procs, Reading) - One(Reading(procs[p])) + One(Reading(pc))
    ensures Count(procs[p := pc], Writing) == Count(procs, Writing) - One(Writing(procs[p])) + One(Writing(pc))
  {
    CountMove(procs, p, pc, ItemTaken);
    CountMove(procs, p, pc, SlotEmptied);
    CountMove(procs, p, pc, SlotTaken);
    CountMove(procs, p, pc, SlotFilled);
    CountMove(procs, p, pc, Reading);
    CountMove(procs, p, pc, Writing);
  }

  /** A semaphore changes by exactly what the mover takes into its hands or gives back. */
  predicate Balanced(s: Ring, was: Pc, pc: Pc, items: nat, free: nat, rlock: nat, wlock: nat) {
    && items + One(SlotFilled(pc)) + One(ItemTaken(pc)) == s.items + One(SlotFilled(was)) + One(ItemTaken(was))
    && free + One(SlotTaken(pc)) + One(SlotEmptied(pc)) == s.free + One(SlotTaken(was)) + One(SlotEmptied(was))
    && rlock + One(Reading(pc)) == s.rlock + One(Reading(was))
    && wlock + One(Writing(pc)) == s.wlock + One(Writing(was))
  }

  /** Steps that only move the mover and its semaphores. */
  lemma QuietStep(s: Ring, p: nat, pc: Pc, items: nat, free: nat, rlock: nat, wlock: nat)
    requires Inv(s) && p in s.procs && ProcOk(s, pc)
    requires Balanced(s, s.procs[p], pc, items, free, rlock, wlock)
    ensures Inv(At(s.(items := items, free := free, rlock := rlock, wlock := wlock), p, pc))
  {
    var s' := At(s.(items := items, free := free, rlock := rlock, wlock := wlock), p, pc);
    CountsMove(s.procs, p, pc);
    forall k | |s.read| <= k < |s.written|
      ensures Slot(s', k % s.nmsgs) == Padded(s.written[k], s.size)
    {
      assert Slot(s, k % s.nmsgs) == Padded(s.written[k], s.size);
    }
    forall q | q in s'.procs
      ensures ProcOk(s', s'.procs[q])
    {
      assert q != p ==> ProcOk(s, s.procs[q]);
      SameProcOk(s, s', s'.procs[q]);
    }
  }

  /** What a process must know depends on the block, the indices and the histories only. */
  lemma SameProcOk(s: Ring, s': Ring, pc: Pc)
    requires Shape(s) && Contents(s) && Shape(s') && Contents(s') && ProcOk(s, pc)
    requires s'.nmsgs == s.nmsgs && s'.size == s.size && s'.mem == s.mem
    requires s'.iread == s.iread && s'.iwrite == s.iwrite && s'.written == s.written && s'.read == s.read
    ensures ProcOk(s', pc)
  {
  }

  lemma OneReader(s: Ring, p: nat, q: nat)
    requires Shape(s) && Counters(s) && p in s.procs && q in s.procs && p != q && Reading(s.procs[p])
    ensures !Reading(s.procs[q])
  {
    if Reading(s.procs[q]) { CountTwo(s.procs, p, q, Reading); }
  }

  lemma OneWriter(s: Ring, p: nat, q: nat)
    requires Shape(s) && Counters(s) && p in s.procs && q in s.procs && p != q && Writing(s.procs[p])
    ensures !Writing(s.procs[q])
  {
    if Writing(s.procs[q]) { CountTwo(s.procs, p, q, Writing); }
  }

  lemma GetAdvanceContents(s: Ring, p: nat, buf: Text, s': Ring)
    requires Inv(s) && p in s.procs && s.procs[p] == GetAdvance(buf)
    requires s' == At(s.(iread := (s.iread + 1) % s.nmsgs, read := s.read + [buf]), p, GetRemain(buf, |s.read|))
    ensures Shape(s') && Contents(s')
  {
    hide Counters, Slot;
    InHand(s, p);
    assert ProcOk(s, s.procs[p]);
    ModNext(|s.read|, s.nmsgs);
    assert s'.read == s.written[..|s.read| + 1];
    forall k | |s'.read| <= k < |s.written|
      ensures Slot(s', k % s.nmsgs) == Padded(s.written[k], s.size)
    {
      SameSlot(s, s', k % s.nmsgs);
      assert Slot(s, k % s.nmsgs) == Padded(s.written[k], s.size);
    }
  }

  lemma SameSlot(s: Ring, s': Ring, i: nat)
    requires Shape(s) && Shape(s') && s'.mem == s.mem && s'.size == s.size && s'.nmsgs == s.nmsgs && i < s.nmsgs
    ensures Slot(s', i) == Slot(s, i)
  {
  }

  /** The index advance of a reader: it holds the read lock and the oldest unread message. */
  lemma GetAdvanceStep(s: Ring, p: nat, buf: Text, s': Ring)
    requires Inv(s) && p in s.procs && s.procs[p] == GetAdvance(buf)
    requires s' == At(s.(iread := (s.iread + 1) % s.nmsgs, read := s.read + [buf]), p, GetRemain(buf, |s.read|))
    ensures Inv(s')
  {
    GetAdvanceContents(s, p, buf, s');
    CountsMove(s.procs, p, s'.procs[p]);
    hide Contents, Slot;
    assert ProcOk(s', s'.procs[p]);
    forall q | q in s'.procs
      ensures ProcOk(s', s'.procs[q])
    {
      if q != p {
        assert ProcOk(s, s.procs[q]);
        OneReader(s, p, q);
        OtherAfterGet(s, s', s.procs[q], buf);
      }
    }
  }

  lemma OtherAfterGet(s: Ring, s': Ring, pc: Pc, buf: Text)
    requires Shape(s) && Contents(s) && Shape(s') && Contents(s') && ProcOk(s, pc) && !Reading(pc)
    requires s'.nmsgs == s.nmsgs && s'.size == s.size && s'.mem == s.mem && s'.iwrite == s.iwrite
    requires s'.written == s.written && s'.read == s.read + [buf]
    ensures ProcOk(s', pc)
  {
  }

  lemma PutAdvanceContents(s: Ring, p: nat, msg: Text, s': Ring)
    requires Inv(s) && p in s.procs && s.procs[p] == PutAdvance(msg)
    requires s' == At(s.(iwrite := (s.iwrite + 1) % s.nmsgs, written := s.written + [msg]), p, PutRemain(msg))
    ensures Shape(s') && Contents(s')
  {
    hide Counters, Slot;
    InHand(s, p);
    assert ProcOk(s, s.procs[p]);
    ModNext(|s.written|, s.nmsgs);
    forall k | |s.read| <= k < |s'.written|
      ensures Slot(s', k % s.nmsgs) == Padded(s'.written[k], s.size)
    {
      SameSlot(s, s', k % s.nmsgs);
      assert k < |s.written| ==> Slot(s, k % s.nmsgs) == Padded(s.written[k], s.size);
    }
  }

  /** The index advance of a writer: the slot it filled becomes the newest unread one. */
  lemma PutAdvanceStep(s: Ring, p: nat, msg: Text, s': Ring)
    requires Inv(s) && p in s.procs && s.procs[p] == PutAdvance(msg)
    requires s' == At(s.(iwrite := (s.iwrite + 1) % s.nmsgs, written := s.written + [msg]), p, PutRemain(msg))
    ensures Inv(s')
  {
    PutAdvanceContents(s, p, msg, s');
    CountsMove(s.procs, p, s'.procs[p]);
    hide Contents, Slot;
    forall q | q in s'.procs
      ensures ProcOk(s', s'.procs[q])
    {
      if q != p {
        assert ProcOk(s, s.procs[q]);
        OneWriter(s, p, q);
        InHand(s, q);
        OtherAfterPut(s, s', s.procs[q], msg);
      }
    }
  }

  lemma OtherAfterPut(s: Ring, s': Ring, pc: Pc, msg: Text)
    requires Shape(s) && Contents(s) && Shape(s') && Contents(s') && ProcOk(s, pc) && !Writing(pc)
    requires ItemTaken(pc) ==> |s.read| < |s.written|
    requires s'.nmsgs == s.nmsgs && s'.size == s.size && s'.mem == s.mem && s'.iread == s.iread
    requires s'.written == s.written + [msg] && s'.read == s.read
    ensures ProcOk(s', pc)
  {
  }

  /** One byte stored by the writer: no unread slot changes. */
  lemma PutCopyStep(s: Ring, p: nat, msg: Text, base: nat, done: nat, b: Byte, s': Ring)
    requires Inv(s) && p in s.procs && s.procs[p] == PutCopy(msg, base, done) && done < s.size
    requires 0 <= base * s.size + done < |s.mem| && b == if done < |msg| then msg[done] else 0
    requires s' == At(s.(mem := s.mem[base * s.size + done := b]), p, PutCopy(msg, base, done + 1))
    ensures Inv(s')
  {
    CountsMove(s.procs, p, s'.procs[p]);
    InHand(s, p);
    assert ProcOk(s, s.procs[p]);
    SlotStore(s, s', base, done, b);
    PaddedNext(s, s', msg, base, done, b);
    UnreadUntouched(s, s');
    forall q | q in s'.procs
      ensures ProcOk(s', s'.procs[q])
    {
      if q != p {
        assert ProcOk(s, s.procs[q]);
        OneWriter(s, p, q);
        OtherAfterStore(s, s', s.procs[q]);
      }
    }
  }

  lemma PaddedNext(s: Ring, s': Ring, msg: Text, base: nat, done: nat, b: Byte)
    requires Shape(s) && |s'.mem| == |s.mem| && s'.nmsgs == s.nmsgs && s'.size == s.size
    requires base < s.nmsgs && done < s.size && |msg| < s.size
    requires Slot(s', base) == Slot(s, base)[done := b] && Slot(s, base)[..done] == Padded(msg, s.size)[..done]
    requires b == if done < |msg| then msg[done] else 0
    ensures Slot(s', base)[..done + 1] == Padded(msg, s.size)[..done + 1]
  {
    assert Slot(s', base)[..done + 1] == Slot(s, base)[..done] + [b];
    assert Padded(msg, s.size)[..done + 1] == Padded(msg, s.size)[..done] + [b];
  }

  lemma UnreadUntouched(s: Ring, s': Ring)
    requires Shape(s) && Contents(s) && |s.written| < |s.read| + s.nmsgs
    requires |s'.mem| == |s.mem| && s'.nmsgs == s.nmsgs && s'.size == s.size
    requires forall j | 0 <= j < s.nmsgs && j != s.iwrite :: Slot(s', j) == Slot(s, j)
    ensures forall k | |s.read| <= k < |s.written| :: Slot(s', k % s.nmsgs) == Padded(s.written[k], s.size)
  {
    forall k | |s.read| <= k < |s.written|
      ensures Slot(s', k % s.nmsgs) == Padded(s.written[k], s.size)
    {
      ModGap(k, |s.written|, s.nmsgs);
      assert Slot(s, k % s.nmsgs) == Padded(s.written[k], s.size);
    }
  }

  lemma OtherAfterStore(s: Ring, s': Ring, pc: Pc)
    requires Shape(s) && Contents(s) && Shape(s') && Contents(s') && ProcOk(s, pc) && !Writing(pc)
    requires s'.nmsgs == s.nmsgs && s'.size == s.size && s'.iread == s.iread && s'.iwrite == s.iwrite
    requires s'.written == s.written && s'.read == s.read
    ensures ProcOk(s', pc)
  {
  }

  lemma BeginInv(s: Ring, p: nat, a: Action)
    requires Inv(s) && p in s.procs && s.procs[p].Idle? && !a.Continue?
    ensures Inv(Begin(s, p, a))
  {
    if a.BeginPut? { CStringFacts(a.text); }
    var pc := Begin(s, p, a).procs[p];
    QuietStep(s, p, pc, s.items, s.free, s.rlock, s.wlock);
  }

  /** Away from its index advance, a reader moves itself and its semaphores only. */
  lemma GetQuiet(s: Ring, p: nat)
    requires p in s.procs && InGet(s.procs[p]) && Enabled(s, p, Continue) && InBounds(s, p)
    requires !s.procs[p].GetAdvance?
    ensures var s' := GetStep(s, p); s' == At(s.(items := s'.items, free := s'.free, rlock := s'.rlock), p, s'.procs[p])
  {
  }

  lemma GetBalanced(s: Ring, p: nat)
    requires p in s.procs && InGet(s.procs[p]) && Enabled(s, p, Continue) && InBounds(s, p)
    requires !s.procs[p].GetAdvance?
    ensures var s' := GetStep(s, p); Balanced(s, s.procs[p], s'.procs[p], s'.items, s'.free, s'.rlock, s.wlock)
  {
  }

  lemma GetKnows(s: Ring, p: nat)
    requires Inv(s) && p in s.procs && InGet(s.procs[p]) && Enabled(s, p, Continue) && InBounds(s, p)
    requires !s.procs[p].GetAdvance?
    ensures ProcOk(s, GetStep(s, p).procs[p])
  {
    assert ProcOk(s, s.procs[p]);
    if s.procs[p].GetCopy? {
      CopyReads(s, p);
    }
  }

  lemma GetStepInv(s: Ring, p: nat)
    requires Inv(s) && p in s.procs && InGet(s.procs[p]) && Enabled(s, p, Continue) && InBounds(s, p)
    ensures Inv(GetStep(s, p))
  {
    if s.procs[p].GetAdvance? {
      GetAdvanceStep(s, p, s.procs[p].buf, GetStep(s, p));
    } else {
      GetQuiet(s, p);
      GetBalanced(s, p);
      GetKnows(s, p);
      var s' := GetStep(s, p);
      QuietStep(s, p, s'.procs[p], s'.items, s'.free, s'.rlock, s.wlock);
    }
  }

  predicate QuietPut(s: Ring, pc: Pc) {
    !pc.PutAdvance? && (pc.PutCopy? ==> s.size <= pc.done)
  }

  lemma PutQuiet(s: Ring, p: nat)
    requires p in s.procs && !InGet(s.procs[p]) && Enabled(s, p, Continue) && InBounds(s, p)
    requires QuietPut(s, s.procs[p])
    ensures var s' := PutStep(s, p); s' == At(s.(items := s'.items, free := s'.free, wlock := s'.wlock), p, s'.procs[p])
  {
    hide Remain;
  }

  lemma PutBalanced(s: Ring, p: nat)
    requires p in s.procs && !InGet(s.procs[p]) && Enabled(s, p, Continue) && InBounds(s, p)
    requires QuietPut(s, s.procs[p])
    ensures var s' := PutStep(s, p); Balanced(s, s.procs[p], s'.procs[p], s'.items, s'.free, s.rlock, s'.wlock)
  {
    hide Remain;
  }

  lemma PutKnows(s: Ring, p: nat)
    requires Inv(s) && p in s.procs && !InGet(s.procs[p]) && Enabled(s, p, Continue) && InBounds(s, p)
    requires QuietPut(s, s.procs[p])
    ensures ProcOk(s, PutStep(s, p).procs[p])
  {
    assert ProcOk(s, s.procs[p]);
  }

  lemma PutStoreInv(s: Ring, p: nat)
    requires Inv(s) && p in s.procs && !InGet(s.procs[p]) && Enabled(s, p, Continue) && InBounds(s, p)
    requires s.procs[p].PutCopy? && s.procs[p].done < s.size
    ensures Inv(PutStep(s, p))
  {
    hide Inv;
    var pc := s.procs[p];
    var b := if pc.done < |pc.msg| then pc.msg[pc.done] else 0;
    MulNonNegative(pc.base, s.size);
    PutCopyStep(s, p, pc.msg, pc.base, pc.done, b, PutStep(s, p));
  }

  lemma PutStepInv(s: Ring, p: nat)
    requires Inv(s) && p in s.procs && !InGet(s.procs[p]) && Enabled(s, p, Continue) && InBounds(s, p)
    ensures Inv(PutStep(s, p))
  {
    hide Inv, Balanced;
    var pc := s.procs[p];
    if pc.PutAdvance? {
      PutAdvanceStep(s, p, pc.msg, PutStep(s, p));
    } else if QuietPut(s, pc) {
      PutQuiet(s, p);
      PutBalanced(s, p);
      PutKnows(s, p);
      var s' := PutStep(s, p);
      QuietStep(s, p, s'.procs[p], s'.items, s'.free, s.rlock, s'.wlock);
    } else {
      PutStoreInv(s, p);
    }
  }

  /** One step of any process, from any state that satisfies the invariant. */
  lemma StepInv(s: Ring, p: nat, a: Action)
    requires Inv(s) && p in s.procs && Enabled(s, p, a)
    ensures InBounds(s, p) && Inv(Step(s, p, a))
  {
    StepsInBounds(s, p);
    if s.procs[p].Idle? {
      BeginInv(s, p, a);
    } else if InGet(s.procs[p]) {
      GetStepInv(s, p);
    } else {
      PutStepInv(s, p);
    }
  }

  // ---------------------------------------------------------------------------------------------
  // Every interleaving

  ghost predicate Next(s: Ring, s': Ring) {
    exists p, a :: p in s.procs && Enabled(s, p, a) && InBounds(s, p) && s' == Step(s, p, a)
  }

  /** Any finite interleaving of any number of processes, from a fresh queue. */
  ghost predicate Run(run: seq<Ring>) {
    && run != [] && Init(run[0])
    && forall i | 0 <= i < |run| - 1 :: Next(run[i], run[i + 1])
  }

  lemma InitTickets(s: Ring)
    requires Init(s)
    ensures Tickets(s)
  {
  }

  lemma {:induction false} RunInv(run: seq<Ring>)
    requires Run(run)
    ensures Inv(run[|run| - 1]) && Tickets(run[|run| - 1])
  {
    hide Step, Enabled, InBounds, Inv, Tickets;
    if |run| == 1 {
      InitInv(run[0]);
      InitTickets(run[0]);
    } else {
      var prefix := run[..|run| - 1];
      forall i | 0 <= i < |prefix| - 1
        ensures Next(prefix[i], prefix[i + 1])
      {
        assert Next(run[i], run[i + 1]);
      }
      RunInv(prefix);
      var s, s' := run[|run| - 2], run[|run| - 1];
      assert Next(run[|run| - 2], run[|run| - 2 + 1]);
      var p, a :| p in s.procs && Enabled(s, p, a) && InBounds(s, p) && s' == Step(s, p, a);
      StepInv(s, p, a);
      TicketsStep(s, p, a);
    }
  }

  /** The ordinal of the message a process has read in its current or last `get`. */
  function Ticket(pc: Pc): int {
    match pc
    case Idle(Got(_, _, ticket)) => ticket
    case GetRemain(_, ticket) => ticket
    case GetUnlock(_, _, ticket) => ticket
    case GetRelease(_, _, ticket) => ticket
    case _ => -1
  }

  /** No message is handed to two processes. */
  ghost predicate Tickets(s: Ring) {
    && (forall p | p in s.procs :: Ticket(s.procs[p]) < |s.read|)
    && forall p, q | p in s.procs && q in s.procs && p != q && 0 <= Ticket(s.procs[p]) ::
         Ticket(s.procs[p]) != Ticket(s.procs[q])
  }

  lemma TicketsStep(s: Ring, p: nat, a: Action)
    requires Tickets(s) && p in s.procs && Enabled(s, p, a) && InBounds(s, p)
    ensures Tickets(Step(s, p, a))
  {
    var s' := Step(s, p, a);
    TicketMove(s, p, a);
    assert forall q | q in s'.procs && q != p :: s'.procs[q] == s.procs[q];
  }

  lemma TicketMove(s: Ring, p: nat, a: Action)
    requires p in s.procs && Enabled(s, p, a) && InBounds(s, p)
    ensures var s' := Step(s, p, a);
      && s'.procs == s.procs[p := s'.procs[p]] && |s.read| <= |s'.read|
      && (|| Ticket(s'.procs[p]) == Ticket(s.procs[p]) || Ticket(s'.procs[p]) == -1
          || (Ticket(s'.procs[p]) == |s.read| && |s'.read| == |s.read| + 1))
  {
    if s.procs[p].Idle? {
    } else if InGet(s.procs[p]) {
      TicketGet(s, p);
    } else {
      TicketPut(s, p);
    }
  }

  lemma TicketGet(s: Ring, p: nat)
    requires p in s.procs && InGet(s.procs[p]) && Enabled(s, p, Continue) && InBounds(s, p)
    ensures var s' := GetStep(s, p);
      && s'.procs == s.procs[p := s'.procs[p]] && |s.read| <= |s'.read|
      && (|| Ticket(s'.procs[p]) == Ticket(s.procs[p]) || Ticket(s'.procs[p]) == -1
          || (Ticket(s'.procs[p]) == |s.read| && |s'.read| == |s.read| + 1))
  {
  }

  lemma TicketPut(s: Ring, p: nat)
    requires p in s.procs && !InGet(s.procs[p]) && Enabled(s, p, Continue) && InBounds(s, p)
    ensures var s' := PutStep(s, p);
      && s'.procs == s.procs[p := s'.procs[p]] && s'.read == s.read && Ticket(s'.procs[p]) == -1
  {
  }

  // ---------------------------------------------------------------------------------------------
  // Main results

  /** Whatever the interleaving, the messages read are the messages written, in order, none lost, none
      repeated, none torn, never more than nmsgs ahead; and whatever a process got is the written message
      with its ticket, which no other process holds. */
  lemma ReadAsWritten(run: seq<Ring>)
    requires Run(run)
    ensures var s := run[|run| - 1];
      && s.read <= s.written && |s.written| <= |s.read| + s.nmsgs
      && (forall p | p in s.procs && s.procs[p].Idle? && s.procs[p].outcome.Got? ::
            var o := s.procs[p].outcome; o.ticket < |s.read| && o.msg == s.written[o.ticket])
      && (forall p, q | p in s.procs && q in s.procs && p != q && 0 <= Ticket(s.procs[p]) ::
            Ticket(s.procs[p]) != Ticket(s.procs[q]))
  {
    RunInv(run);
    var s := run[|run| - 1];
    forall p | p in s.procs && s.procs[p].Idle? && s.procs[p].outcome.Got?
      ensures var o := s.procs[p].outcome; o.ticket < |s.read| && o.msg == s.written[o.ticket]
    {
      assert ProcOk(s, s.procs[p]);
    }
  }

  lemma StepGrows(s: Ring, p: nat, a: Action)
    requires p in s.procs && Enabled(s, p, a) && InBounds(s, p)
    ensures var s' := Step(s, p, a);
      && s.written <= s'.written && s.read <= s'.read
      && s'.nmsgs == s.nmsgs && s'.size == s.size && s'.procs.Keys == s.procs.Keys
  {
  }

  /** The history only grows, so "the k-th written message" never changes its meaning. */
  lemma HistoryGrows(run: seq<Ring>, i: nat, j: nat)
    requires Run(run) && i <= j < |run|
    ensures run[i].written <= run[j].written && run[i].read <= run[j].read
    ensures run[j].nmsgs == run[i].nmsgs && run[j].size == run[i].size && run[j].procs.Keys == run[i].procs.Keys
    decreases j
  {
    hide Step, Enabled, InBounds;
    if i < j {
      HistoryGrows(run, i, j - 1);
      var s, s' := run[j - 1], run[j];
      assert Next(run[j - 1], run[j - 1 + 1]);
      var p, a :| p in s.procs && Enabled(s, p, a) && InBounds(s, p) && s' == Step(s, p, a);
      StepGrows(s, p, a);
    }
  }

  /** Every byte a process is about to touch lies in the slot it was given; a reader and a writer are
      never in the same slot; there is one reader and one writer at most. */
  lemma Exclusion(run: seq<Ring>, p: nat, q: nat)
    requires Run(run)
    requires var s := run[|run| - 1]; p in s.procs && q in s.procs && p != q
    ensures var s := run[|run| - 1];
      && InBounds(s, p)
      && !(Reading(s.procs[p]) && Reading(s.procs[q])) && !(Writing(s.procs[p]) && Writing(s.procs[q]))
      && (s.procs[p].GetCopy? ==> |s.procs[p].buf| < s.size)
      && (s.procs[p].GetCopy? && s.procs[q].PutCopy? ==> s.procs[p].base != s.procs[q].base)
  {
    RunInv(run);
    var s := run[|run| - 1];
    StepsInBounds(s, p);
    if Reading(s.procs[p]) { OneReader(s, p, q); }
    if Writing(s.procs[p]) { OneWriter(s, p, q); }
    if s.procs[p].GetCopy? {
      CopyReads(s, p);
      InHand(s, q);
      assert ProcOk(s, s.procs[p]) && ProcOk(s, s.procs[q]);
      if SlotTaken(s.procs[q]) {
        ModGap(|s.read|, |s.written|, s.nmsgs);
      }
    }
  }

  /** Items, free slots and operations in flight always add up to nmsgs. */
  lemma SemaphoresConserved(run: seq<Ring>)
    requires Run(run)
    ensures var s := run[|run| - 1]; s.items + s.free + Count(s.procs, InFlight) == s.nmsgs
  {
    RunInv(run);
    CountInFlight(run[|run| - 1].procs);
  }

  /** What `get` stores in `*remain` is the number of unread messages at that instant. */
  lemma RemainAfterGet(s: Ring, p: nat)
    requires Inv(s) && p in s.procs && s.procs[p].GetRemain?
    ensures Remain(s) == |s.written| - |s.read| && 0 <= Remain(s) < s.nmsgs
  {
    InHand(s, p);
    ModGap(|s.read|, |s.written|, s.nmsgs);
  }

  /** What `put` stores there is exact only while a slot is left: for a full queue it is 0. */
  lemma RemainAfterPut(s: Ring, p: nat)
    requires Inv(s) && p in s.procs && s.procs[p].PutRemain?
    ensures 0 < |s.written| - |s.read| <= s.nmsgs
    ensures Remain(s) == if |s.written| - |s.read| < s.nmsgs then |s.written| - |s.read| else 0
  {
    InHand(s, p);
    if |s.written| < |s.read| + s.nmsgs {
      ModGap(|s.read|, |s.written|, s.nmsgs);
    } else {
      ModLap(|s.read|, s.nmsgs);
    }
  }

  ghost predicate Reachable(s: Ring) {
    exists run :: Run(run) && run[|run| - 1] == s
  }

  lemma InitReachable(s: Ring)
    requires Init(s)
    ensures Reachable(s)
  {
    assert Run([s]);
  }

  lemma StepReachable(s: Ring, p: nat, a: Action)
    requires Reachable(s) && p in s.procs && Enabled(s, p, a) && InBounds(s, p)
    ensures Reachable(Step(s, p, a))
  {
    hide Init, Step;
    var run :| Run(run) && run[|run| - 1] == s;
    var now := run + [Step(s, p, a)];
    forall i | 0 <= i < |now| - 1 ensures Next(now[i], now[i + 1]) {
      if i < |run| - 1 {
        assert now[i] == run[i] && now[i + 1] == run[i + 1];
      }
    }
    assert Run(now);
  }

  /** One slot of two bytes, and one process that puts "A". */
  function OneSlot(mem: Text, free: nat, wlock: nat, pc: Pc, written: seq<Text>): Ring {
    Ring(1, 2, 0, 0, mem, 0, free, 1, wlock, map[0 := pc], written, [])
  }

  lemma OneSlotStep(mem: Text, free: nat, wlock: nat, pc: Pc, written: seq<Text>, a: Action, s': Ring)
    requires var s := OneSlot(mem, free, wlock, pc, written);
      && Reachable(s) && Enabled(s, 0, a) && InBounds(s, 0)
      && Step(s, 0, a).(procs := map[0 := Step(s, 0, a).procs[0]]) == s'
    ensures Reachable(s')
  {
    hide Reachable;
    var s := OneSlot(mem, free, wlock, pc, written);
    StepReachable(s, 0, a);
    assert Step(s, 0, a).procs == map[0 := Step(s, 0, a).procs[0]];
  }

  lemma OneSlotWaiting()
    ensures Reachable(OneSlot([0, 0], 1, 1, PutWaitSlot([65], true), []))
  {
    hide Reachable;
    var m: Text := [65];
    assert CString(m) == m by { assert CString(m[1..]) == []; }
    InitReachable(OneSlot([0, 0], 1, 1, Idle(NoCall), []));
    OneSlotStep([0, 0], 1, 1, Idle(NoCall), [], BeginPut(m, true), OneSlot([0, 0], 1, 1, PutWaitSlot(m, true), []));
  }

  lemma OneSlotLocked()
    ensures Reachable(OneSlot([0, 0], 0, 0, PutOpen([65]), []))
  {
    hide Reachable;
    var m: Text := [65];
    OneSlotWaiting();
    OneSlotStep([0, 0], 1, 1, PutWaitSlot(m, true), [], Continue, OneSlot([0, 0], 0, 1, PutWaitLock(m), []));
    OneSlotStep([0, 0], 0, 1, PutWaitLock(m), [], Continue, OneSlot([0, 0], 0, 0, PutOpen(m), []));
  }

  lemma OneSlotOpen()
    ensures Reachable(OneSlot([0, 0], 0, 0, PutCopy([65], 0, 0), []))
  {
    hide Reachable;
    OneSlotLocked();
    OneSlotStep([0, 0], 0, 0, PutOpen([65]), [], Continue, OneSlot([0, 0], 0, 0, PutCopy([65], 0, 0), []));
  }

  lemma OneSlotFilled()
    ensures Reachable(OneSlot([65, 0], 0, 0, PutCopy([65], 0, 2), []))
  {
    hide Reachable;
    var m: Text := [65];
    OneSlotOpen();
    OneSlotStep([0, 0], 0, 0, PutCopy(m, 0, 0), [], Continue, OneSlot([65, 0], 0, 0, PutCopy(m, 0, 1), []));
    OneSlotStep([65, 0], 0, 0, PutCopy(m, 0, 1), [], Continue, OneSlot([65, 0], 0, 0, PutCopy(m, 0, 2), []));
  }

  lemma OneSlotWritten()
    ensures Reachable(OneSlot([65, 0], 0, 0, PutRemain([65]), [[65]]))
  {
    hide Reachable;
    var m: Text := [65];
    OneSlotFilled();
    OneSlotStep([65, 0], 0, 0, PutCopy(m, 0, 2), [], Continue, OneSlot([65, 0], 0, 0, PutAdvance(m), []));
    OneSlotStep([65, 0], 0, 0, PutAdvance(m), [], Continue, OneSlot([65, 0], 0, 0, PutRemain(m), [m]));
  }

  lemma OneSlotUnlocked()
    ensures Reachable(OneSlot([65, 0], 0, 1, PutRelease([65], 0), [[65]]))
  {
    hide Reachable;
    var m: Text := [65];
    OneSlotWritten();
    OneSlotStep([65, 0], 0, 0, PutRemain(m), [m], Continue, OneSlot([65, 0], 0, 0, PutUnlock(m, 0), [m]));
    OneSlotStep([65, 0], 0, 0, PutUnlock(m, 0), [m], Continue, OneSlot([65, 0], 0, 1, PutRelease(m, 0), [m]));
  }

  /** With one slot, a process that puts one message is told that none is there. */
  lemma FullQueue()
    ensures exists s :: Reachable(s) && s.procs == map[0 := Idle(Written(0))] && |s.written| - |s.read| == s.nmsgs == 1
  {
    hide Reachable;
    var m: Text := [65];
    OneSlotUnlocked();
    var s := OneSlot([65, 0], 0, 1, PutRelease(m, 0), [m]);
    StepReachable(s, 0, Continue);
    assert Step(s, 0, Continue).procs == map[0 := Idle(Written(0))];
  }

  /** The branch of `get(string&)` that reports an empty message is dead. */
  lemma NoEmptyMessage(run: seq<Ring>, p: nat)
    requires Run(run)
    requires var s := run[|run| - 1]; p in s.procs && s.procs[p].GetAdvance?
    ensures var s := run[|run| - 1]; Storable(s.procs[p].buf, s.size)
  {
    RunInv(run);
    var s := run[|run| - 1];
    InHand(s, p);
    assert ProcOk(s, s.procs[p]);
  }

  predicate Stuck(s: Ring, p: nat)
    requires p in s.procs
  {
    !s.procs[p].Idle? && !Enabled(s, p, Continue)
  }

  /** No deadlock: when every call in progress is blocked, all of them are blocking gets on an empty
      queue, or all of them are blocking puts on a full one. */
  lemma NoDeadlock(run: seq<Ring>)
    requires Run(run)
    requires var s := run[|run| - 1];
      && (exists p :: p in s.procs && !s.procs[p].Idle?)
      && (forall p | p in s.procs && !s.procs[p].Idle? :: Stuck(s, p))
    ensures var s := run[|run| - 1];
      || ((forall p | p in s.procs && !s.procs[p].Idle? :: s.procs[p] == GetWaitItem(true)) && s.written == s.read)
      || ((forall p | p in s.procs && !s.procs[p].Idle? :: s.procs[p].PutWaitSlot? && s.procs[p].block)
          && |s.written| - |s.read| == s.nmsgs)
  {
    RunInv(run);
    var s := run[|run| - 1];
    forall p | p in s.procs && !s.procs[p].Idle?
      ensures (s.procs[p] == GetWaitItem(true) && s.items == 0)
           || (s.procs[p].PutWaitSlot? && s.procs[p].block && s.free == 0)
    {
      AllWaiting(s, p);
    }
    CountNone(s.procs, ItemTaken);
    CountNone(s.procs, SlotEmptied);
    CountNone(s.procs, SlotTaken);
    CountNone(s.procs, SlotFilled);
    assert s.items == 0 ==> s.written == s.read;
  }

  /** A lock that somebody waits for has a holder, and the holder can move. */
  lemma HolderMoves(s: Ring, p: nat)
    requires Inv(s) && p in s.procs && Stuck(s, p)
    requires s.procs[p].GetWaitLock? || s.procs[p].PutWaitLock?
    ensures exists q | q in s.procs && !s.procs[q].Idle? :: !Stuck(s, q)
  {
    if s.procs[p].GetWaitLock? {
      var q := CountWitness(s.procs, Reading);
      assert !Stuck(s, q);
    } else {
      var q := CountWitness(s.procs, Writing);
      assert !Stuck(s, q);
    }
  }

  /** Nobody waits for a lock when everybody is blocked. */
  lemma AllWaiting(s: Ring, p: nat)
    requires Inv(s) && forall q | q in s.procs && !s.procs[q].Idle? :: Stuck(s, q)
    requires p in s.procs && !s.procs[p].Idle?
    ensures || (s.procs[p] == GetWaitItem(true) && s.items == 0)
            || (s.procs[p].PutWaitSlot? && s.procs[p].block && s.free == 0)
  {
    assert Stuck(s, p);
    if s.procs[p].GetWaitLock? || s.procs[p].PutWaitLock? {
      HolderMoves(s, p);
      assert false;
    }
  }
}
