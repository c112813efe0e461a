/** The king of src/crawler/king.cpp. */
module Kings {
  import opened RingArithmetic
  import opened LineMessages
  import opened SpillPools
  import opened QueenBoxes
  import opened Realms
  import LinePool

  const BUFFER_HIGH := 200000
  const BUFFER_LOW := 1000
  /** Control messages a queen may leave unread before a spill could reach them. */
  const CONTROL_LIMIT := 9501
  /** Seconds after which the group is counted. */
  const GROUP_CHECK_TIME := 90

  ghost predicate BoxFine(b: QueenBox, queen: string, mail: Mail)
    reads b`received
  {
    b.name == queen && b.received == mail
  }

  /** The accounts of a box when the group is told its size, which it is if it has two members at least: the old
      news go, and those of the group get new ones. */
  function Grouped(b: Box, marked: bool, size: nat): Box
    requires size < TWO32
  {
    if size <= 1 then b else if marked then Inserted(Relieved(b), 0, Line(Group(size))) else Relieved(b)
  }

  lemma GroupedGood(b: Box, marked: bool, size: nat)
    requires size < TWO32
    ensures var c := Grouped(b, marked, size);
      (Good(b) ==> Good(c)) && c.received == b.received && c.important <= b.important + if size <= 1 then 0 else 1
  {
    hide Good, Line, IsGroup;
    RelieveGood(b);
    GroupGood(b, size);
  }

  /** When a group is counted that has two members at least, each member finds its size at the head of her list, and
      no queen finds other news of a group. */
  lemma GroupedMeans(b: Box, marked: bool, size: nat)
    requires Good(b) && 1 < size < TWO32
    ensures var c := Grouped(b, marked, size);
      var news := if marked then 1 else 0;
      && news <= c.important <= |c.out| && c.out[news..] == Ungrouped(b.out, b.important)
      && (marked ==> Meant(c.out[0]) == Understood(Group(size)))
      && forall l | l in c.out[news..c.important] :: !IsGroup(l)
  {
    hide Good, Line, Meant, IsGroup;
    ToldOfGroup(b, size);
    RelieveOne(b);
    InRange(Relieved(b));
    var r, c := Relieved(b), Grouped(b, marked, size);
    if marked {
      assert c.out[1..] == r.out && c.out[1..c.important] == r.out[..r.important];
    } else {
      assert c.out[0..] == r.out && c.out[0..c.important] == r.out[..r.important];
    }
  }

  /** The box of a queen who may have been told about her group. */
  ghost predicate AsTold(now: Box, before: Box, due: bool) {
    exists marked, size :: 0 <= size < TWO32 && (due || size == 0) && now == Grouped(before, marked, size)
  }

  /** There are up to `n` control messages more in front of a queen. */
  predicate AtMost(after: map<string, int>, before: map<string, int>, n: nat) {
    forall q | q in before :: q in after && after[q] <= before[q] + n
  }

  lemma AtMostSum(c: map<string, int>, b: map<string, int>, a: map<string, int>, n: nat, k: nat)
    requires AtMost(b, a, n) && AtMost(c, b, k)
    ensures AtMost(c, a, n + k)
  {
  }

  /** A queen got lines from the head of her list, as it was or with the news of her group. */
  ghost predicate Answered(written: seq<string>, before: Box, fd: int, num: int, due: bool) {
    exists b: Box :: written == Reply(b.out, |b.pool.records.queue|, fd, num) && AsTold(b, before, due)
  }

  lemma CountOn(marked: set<string>, todo: set<string>, q: string)
    requires q in todo
    ensures var n := |marked - todo| % TWO32;
      |marked - (todo - {q})| % TWO32 == if q in marked then (n + 1) % TWO32 else n
  {
    if q in marked {
      assert marked - (todo - {q}) == (marked - todo) + {q};
      WrapUp(|marked - todo|);
    } else {
      assert marked - (todo - {q}) == marked - todo;
    }
  }

  lemma WrapUp(n: nat)
    ensures (n % TWO32 + 1) % TWO32 == (n + 1) % TWO32
  {
  }

  class King {
    const siteOf: string -> string
    const poolsOpen: bool
    const chance: Chance
    var boxes: map<string, QueenBox>
    var site2Queen: map<string, string>
    var messageBuf: seq<Pending>
    var pool: Pool
    var redirects: map<string, int>  // shared by all boxes
    var ended: bool
    var groupStart: bool  // the group is to be counted
    var groupTime: int    // since when
    ghost var received: map<string, Mail>
    ghost var moving: string
    ghost var accepted: Mail
    ghost var handed: Mail
    ghost var lost: Mail
    ghost var spoiled: Mail
    ghost var strays: Mail
    ghost var spilled: bool

    ghost function Boxes(): set<QueenBox>
      reads this`boxes
    {
      set q | q in boxes :: boxes[q]
    }

    ghost function Value(): Realm
      reads this
    {
      Realm(site2Queen, moving, messageBuf, pool, received, accepted, handed, lost, spoiled, strays, spilled)
    }

    ghost predicate BoxesFine()
      reads this`boxes, this`received, Boxes()`received
    {
      && boxes.Keys == received.Keys
      && forall q | q in boxes :: BoxFine(boxes[q], q, received[q])
    }

    ghost predicate Valid()
      reads this, Boxes()`received
    {
      BoxesFine() && Ordered(Value(), siteOf) && moving == ""
    }

    /** The accounts of every box are in order, and no queen has left too many control messages unread. */
    ghost predicate Calm()
      reads this`boxes, Boxes()
    {
      forall q | q in boxes :: boxes[q].Valid() && boxes[q].importantMsg <= CONTROL_LIMIT
    }

    /** Every queen can be told one thing more before a spill could reach control messages. */
    ghost predicate Spare()
      reads this`boxes, Boxes()
    {
      forall q | q in boxes :: boxes[q].Valid() && boxes[q].importantMsg < CONTROL_LIMIT
    }

    /** How many control messages the queens have not read yet. */
    ghost function Controls(): map<string, int>
      reads this`boxes, Boxes()`importantMsg
    {
      map q | q in boxes :: boxes[q].importantMsg
    }

    lemma IsABox(queen: string)
      requires queen in boxes
      ensures boxes[queen] in Boxes()
    {
    }

    twostate lemma SameControls()
      requires forall q | q in old(boxes) :: q in boxes && boxes[q] == old(boxes[q]) && boxes[q].importantMsg == old(boxes[q].importantMsg)
      ensures AtMost(Controls(), old(Controls()), 0)
    {
    }

    lemma CalmOne(queen: string)
      requires queen in boxes
      ensures Calm() ==> boxes[queen].Valid() && boxes[queen].importantMsg <= CONTROL_LIMIT
      ensures BoxesFine() ==> queen in received && BoxFine(boxes[queen], queen, received[queen])
    {
    }

    /** Only one box has changed, and it is in order. */
    twostate lemma OneChanged(queen: string)
      requires boxes == old(boxes) && queen in boxes && old(BoxesFine())
      requires forall q | q in boxes && boxes[q] != boxes[queen] :: unchanged(boxes[q])
      requires received == old(received)[queen := boxes[queen].received]
      requires old(Calm()) ==> boxes[queen].Valid() && boxes[queen].importantMsg <= CONTROL_LIMIT
      ensures BoxesFine() && StaysCalm()
    {
      hide King.Calm, King.BoxesFine;
      OneCalm(queen);
      OneFine(queen);
    }

    twostate lemma OneFine(queen: string)
      requires boxes == old(boxes) && queen in boxes && old(BoxesFine())
      requires forall q | q in boxes && boxes[q] != boxes[queen] :: unchanged(boxes[q])
      requires received == old(received)[queen := boxes[queen].received]
      ensures BoxesFine()
    {
      forall q | q in boxes && q != queen ensures BoxFine(boxes[q], q, received[q]) {
        assert old(BoxFine(boxes[q], q, received[q]) && BoxFine(boxes[queen], queen, received[queen]));
      }
      assert old(BoxFine(boxes[queen], queen, received[queen]));
    }

    twostate lemma OneCalm(queen: string)
      requires boxes == old(boxes) && queen in boxes
      requires forall q | q in boxes && boxes[q] != boxes[queen] :: unchanged(boxes[q])
      requires old(Calm()) ==> boxes[queen].Valid() && boxes[queen].importantMsg <= CONTROL_LIMIT
      ensures StaysCalm()
    {
      hide QueenBox.Valid;
      if old(Calm()) {
        forall q | q in boxes && boxes[q] != boxes[queen] ensures boxes[q].Valid() && boxes[q].importantMsg <= CONTROL_LIMIT {
          assert old(boxes[q].Valid() && boxes[q].importantMsg <= CONTROL_LIMIT);
        }
      }
    }

    lemma BoxesApart()
      ensures forall b | b in Boxes() :: b as object != this && allocated(b)
    {
    }

    /** A change that leaves the boxes in order. */
    twostate predicate StaysCalm()
      reads this`boxes, Boxes()
    {
      old(Calm()) ==> Calm()
    }

    /** No accepted message is too long for a pool. */
    ghost predicate Keeps()
      reads this`accepted
    {
      forall m | m in accepted :: Keepable(m)
    }

    ghost predicate Registered(fd: int)
      reads this`boxes, Boxes()`fd
    {
      exists q :: q in boxes && boxes[q].fd == fd
    }

    /** Some queen, other than those on one socket, can take a site. */
    ghost predicate RoomBeside(fd: int)
      reads this`boxes, Boxes()`fd, Boxes()`activeReq, Boxes()`free
    {
      exists q :: q in boxes && boxes[q].fd != fd && boxes[q].FreeNum() > 0
    }

    ghost predicate Room()
      reads this`boxes, Boxes()`activeReq, Boxes()`free
    {
      exists q :: q in boxes && boxes[q].FreeNum() > 0
    }

    lemma RoomIsRoom(fd: int)
      ensures RoomBeside(fd) ==> Room()
    {
    }

    /** Boxes are only ever added, for owners of sites. */
    twostate predicate Kept(before: map<string, QueenBox>, known: set<QueenBox>)
      reads this`boxes, this`site2Queen
    {
      && (forall q | q in before :: q in boxes && boxes[q] == before[q])
      && (forall q | q in boxes :: q in before || q in site2Queen.Values)
      && forall b | b in Boxes() :: b in known || fresh(b)
    }

    constructor (siteOf: string -> string, poolsOpen: bool, chance: Chance)
      ensures Valid() && Calm() && boxes == map[] && site2Queen == map[] && accepted == multiset{}
      ensures messageBuf == [] && pool == NewPool(poolsOpen, chance) && !ended && groupTime == 0
      ensures spoiled == multiset{} && strays == multiset{} && !spilled
      ensures this.siteOf == siteOf && this.poolsOpen == poolsOpen && this.chance == chance
    {
      this.siteOf := siteOf;
      this.poolsOpen := poolsOpen;
      this.chance := chance;
      boxes, site2Queen, messageBuf, redirects := map[], map[], [], map[];
      pool := NewPool(poolsOpen, chance);
      ended, groupStart, groupTime := false, false, 0;
      received, moving, accepted, handed, lost := map[], "", multiset{}, multiset{}, multiset{};
      spoiled, strays, spilled := multiset{}, multiset{}, false;
      new;
      hide Ordered;
      NewOrdered(Value(), siteOf);
    }

    // -------------------------------------------------------------------------------------------
    // Messages for queens

    /** The box of a queen, new if she has none. */
    method BoxOf(queen: string) returns (box: QueenBox)
      requires BoxesFine()
      modifies this`boxes, this`received
      ensures BoxesFine() && StaysCalm() && queen in boxes && box == boxes[queen]
      ensures boxes == (if queen in old(boxes) then old(boxes) else old(boxes)[queen := box])
      ensures received == old(received)[queen := Inbox(old(received), queen)]
      ensures queen !in old(boxes) ==> fresh(box) && box.Value() == NewBox(poolsOpen, chance) && box.FreeNum() == 0
    {
      hide QueenBox.Valid;
      if queen in boxes {
        box := boxes[queen];
        assert received == received[queen := Inbox(received, queen)];
      } else {
        box := new QueenBox(queen, poolsOpen, chance);
        boxes := boxes[queen := box];
        received := received[queen := multiset{}];
      }
    }

    /** A message goes into one box; the others stay as they are. */
    method AddTo(queen: string, msg: string)
      requires BoxesFine() && queen in boxes && Postable(msg)
      modifies this`received, {boxes[queen]}`outMsg, {boxes[queen]}`pool, {boxes[queen]}`lost, {boxes[queen]}`spilled, {boxes[queen]}`received,
               {boxes[queen]}`spoiled, {boxes[queen]}`strays
      ensures BoxesFine() && StaysCalm() && received == old(received)[queen := old(received)[queen] + multiset{msg}]
    {
      hide King.BoxesFine, King.Calm, Good, Exchanged, Postable;
      var box := boxes[queen];
      CalmOne(queen);
      ExchangedKeeps(Added(box.Value(), msg), box.fd >= 0);
      box.AddOutMessage(msg);
      received := received[queen := received[queen] + multiset{msg}];
      OneChanged(queen);
    }

    /** A message goes into the box of a queen who owns sites, and who may be new. */
    method Store(queen: string, msg: string)
      requires BoxesFine() && Postable(msg) && queen in site2Queen.Values
      modifies this`boxes, this`received, Boxes()`outMsg, Boxes()`pool, Boxes()`lost, Boxes()`spilled, Boxes()`received, Boxes()`spoiled, Boxes()`strays
      ensures BoxesFine() && StaysCalm() && queen in boxes
      ensures received == old(received)[queen := Inbox(old(received), queen) + multiset{msg}]
      ensures Kept(old(boxes), old(Boxes()))
    {
      hide Postable, King.BoxesFine, King.Calm;
      var _ := BoxOf(queen);
      AddTo(queen, msg);
    }

    /** A message goes to the owner of its site. */
    method PassMsgToQueen(queen: string, msg: string)
      requires BoxesFine() && OneInHand(Value(), msg, siteOf)
      requires siteOf(Target(msg)) in site2Queen && queen == site2Queen[siteOf(Target(msg))]
      modifies this`boxes, this`received, this`handed, Boxes()`outMsg, Boxes()`pool, Boxes()`lost, Boxes()`spilled, Boxes()`received, Boxes()`spoiled, Boxes()`strays
      ensures BoxesFine() && StaysCalm() && Value() == Handed(old(Value()), queen, msg)
      ensures Ordered(Value(), siteOf) && queen in boxes
      ensures Kept(old(boxes), old(Boxes()))
    {
      hide Ordered, Postable, OneInHand, Handed, Target, King.Value, King.BoxesFine, King.Calm, King.Boxes, King.Kept;
      Parts();
      InHand(Value(), msg, siteOf);
      HandOver(Value(), msg, siteOf);
      Deliver(queen, msg);
    }

    lemma Parts()
      ensures Value().owner == site2Queen && Value().pool == pool && Value().buf == messageBuf
      ensures Value().accepted == accepted && Value().received == received
    {
    }

    method Deliver(queen: string, msg: string)
      requires BoxesFine() && Postable(msg) && queen in site2Queen.Values
      modifies this`boxes, this`received, this`handed, Boxes()`outMsg, Boxes()`pool, Boxes()`lost, Boxes()`spilled, Boxes()`received, Boxes()`spoiled, Boxes()`strays
      ensures BoxesFine() && StaysCalm() && queen in boxes && Value() == Handed(old(Value()), queen, msg)
      ensures Kept(old(boxes), old(Boxes()))
    {
      hide Postable, King.BoxesFine, King.Calm, King.Boxes, King.Kept, QueenBox.Valid;
      Store(queen, msg);
      BoxesApart();
      handed := handed + multiset{msg};
    }

    /** A message that has no place goes to the buffer or to the owner of its site. */
    method Place(site: string, msg: string)
      requires BoxesFine() && OneInHand(Value(), msg, siteOf) && site == siteOf(Target(msg)) && moving == ""
      modifies this`messageBuf, this`boxes, this`received, this`handed, Boxes()`outMsg, Boxes()`pool, Boxes()`lost, Boxes()`spilled, Boxes()`received, Boxes()`spoiled, Boxes()`strays
      ensures Valid() && StaysCalm() && Kept(old(boxes), old(Boxes()))
      ensures if site in site2Queen then Value() == Handed(old(Value()), site2Queen[site], msg)
              else Value() == Waiting(old(Value()), site, msg) && boxes == old(boxes)
    {
      hide Ordered, Postable, OneInHand, King.BoxesFine, King.Calm, Target;
      assert forall b | b in Boxes() :: b as object != this;
      if site !in site2Queen {
        Wait(Value(), msg, siteOf);
        messageBuf := messageBuf + [Pending(site, msg)];
      } else {
        PassMsgToQueen(site2Queen[site], msg);
      }
    }

    // -------------------------------------------------------------------------------------------
    // The pool

    /** Too many messages without an owner spill into the pool; when there are few, some come back, to the
        buffer or, if their site has an owner by now, to her box. */
    method ExchangePool()
      requires Valid()
      modifies this`messageBuf, this`pool, this`lost, this`spilled, this`spoiled, this`strays, this`boxes, this`received, this`handed,
               Boxes()`outMsg, Boxes()`pool, Boxes()`lost, Boxes()`spilled, Boxes()`received, Boxes()`spoiled, Boxes()`strays
      ensures Valid() && StaysCalm() && Kept(old(boxes), old(Boxes()))
      ensures old(|messageBuf|) > BUFFER_HIGH ==> Spilled(old(messageBuf), old(pool)) && boxes == old(boxes) && received == old(received)
      ensures old(|messageBuf|) < BUFFER_LOW ==> Value() == Refilled(old(Value()), BATCH, siteOf).realm
      ensures BUFFER_LOW <= old(|messageBuf|) <= BUFFER_HIGH ==> Value() == old(Value()) && boxes == old(boxes)
      ensures old(|messageBuf|) < BUFFER_LOW && !old(pool).damaged && AllKeepable(old(pool).records.queue) ==>
        Drained(old(messageBuf), old(pool))
      ensures old(|messageBuf|) < BUFFER_LOW && Oldest(old(pool)) == [] ==> Value() == old(Value()) && boxes == old(boxes)
      ensures !Lessens(old(pool), pool) && spilled == (old(spilled) || old(|messageBuf|) > BUFFER_HIGH)
    {
      hide King.BoxesFine, King.Calm, Ordered, AllKeepable;
      assert forall b | b in Boxes() :: b as object != this;
      if |messageBuf| > BUFFER_HIGH {
        Spill();
      } else if |messageBuf| < BUFFER_LOW {
        Refill();
      }
    }

    /** More than one refill takes left a sound pool. */
    ghost predicate Lessens(before: Pool, after: Pool) {
      !before.damaged && AllKeepable(before.records.queue) && |after.records.queue| + BATCH < |before.records.queue|
    }

    /** 500 messages have left the buffer; a pool with room has taken them. */
    ghost predicate Spilled(buf: seq<Pending>, before: Pool)
      reads this`messageBuf, this`pool, this`spilled
    {
      && spilled && |messageBuf| == |buf| - BATCH && pool.open == before.open && pool.damaged == before.damaged
      && |pool.records.queue| >= |before.records.queue|
      && (Roomy(before) && (forall p | p in buf :: Keepable(p.msg)) ==> |pool.records.queue| == |before.records.queue| + BATCH)
    }

    /** The oldest messages have left the pool; those of sites without an owner wait again. */
    ghost predicate Drained(buf: seq<Pending>, before: Pool)
      reads this`messageBuf, this`pool, this`site2Queen
    {
      && pool.open == before.open && !pool.damaged && pool.records.discarded == before.records.discarded
      && pool.records.queue == before.records.queue[|Oldest(before)|..]
      && messageBuf == buf + Ownerless(Oldest(before), site2Queen, siteOf)
    }

    method Spill()
      requires Ordered(Value(), siteOf) && |messageBuf| > BATCH
      modifies this`messageBuf, this`pool, this`lost, this`spilled
      ensures Ordered(Value(), siteOf) && Spilled(old(messageBuf), old(pool))
    {
      hide Target, King.Value, IsUrl, OneLine, Ordered, Pushed, Keepable, Postable;
      ghost var n, was := |messageBuf|, pool;
      ghost var roomy := Roomy(pool) && forall p | p in messageBuf :: Keepable(p.msg);
      for i := 0 to BATCH
        invariant Ordered(Value(), siteOf) && |messageBuf| == n - i && (i > 0 ==> spilled)
        invariant |pool.records.queue| >= |was.records.queue| && pool.open == was.open && pool.damaged == was.damaged
        invariant roomy ==> AllKeepable(pool.records.queue) && |pool.records.queue| == |was.records.queue| + i
        invariant roomy ==> forall p | p in messageBuf :: Keepable(p.msg)
      {
        var k: nat :| k < |messageBuf|;
        PostableHere(k);
        if roomy {
          RoomForOne(pool, messageBuf[k].msg);
        }
        PushOne(pool, messageBuf[k].msg);
        SpillAt(k);
      }
    }

    lemma PostableHere(k: nat)
      requires Ordered(Value(), siteOf) && k < |messageBuf|
      ensures OneLine(messageBuf[k].msg)
    {
      assert messageBuf[k] in messageBuf;
    }

    /** One waiting message goes to the pool. */
    method SpillAt(k: nat)
      requires Ordered(Value(), siteOf) && k < |messageBuf|
      modifies this`messageBuf, this`pool, this`lost, this`spilled
      ensures Ordered(Value(), siteOf) && messageBuf == old(messageBuf)[..k] + old(messageBuf)[k + 1..]
      ensures pool == Pushed(old(pool), old(messageBuf)[k].msg) && spilled
    {
      hide Ordered, OneInHand, Refusal, Pushed, Keepable, Postable, Target;
      var msg := messageBuf[k].msg;
      TakeFromBuffer(Value(), k, siteOf);
      InHand(FromBuffer(Value(), k), msg, siteOf);
      PutIntoPool(FromBuffer(Value(), k), msg, siteOf);
      spilled := true;
      lost := lost + Refusal(pool, msg);
      pool := Pushed(pool, msg);
      messageBuf := messageBuf[..k] + messageBuf[k + 1..];
    }

    /** One line is popped.  A message that comes back as it was finds its place; so does a stray line that looks
        like one.  Another line ends the refill, or is dropped if it only has no site. */
    method TakeBack() returns (stop: bool)
      requires Valid() && Poppable(pool)
      modifies this`messageBuf, this`pool, this`lost, this`spoiled, this`strays, this`boxes, this`received, this`handed,
               Boxes()`outMsg, Boxes()`pool, Boxes()`lost, Boxes()`spilled, Boxes()`received, Boxes()`spoiled, Boxes()`strays
      ensures Valid() && StaysCalm() && Kept(old(boxes), old(Boxes()))
      ensures Value() == TakenBack(old(Value()), siteOf) && pool == AfterPop(old(pool))
      ensures stop <==> Stops(old(pool))
      ensures Whole(old(pool)) ==> !stop && messageBuf == old(messageBuf) + Ownerless([old(pool).records.queue[0]], site2Queen, siteOf)
    {
      hide King.Value, King.Boxes, King.BoxesFine, King.Calm, Ordered, OneInHand, Target, Postable, Keepable, Ownerless, AfterPop, Read, Gone, Whole;
      ghost var whole := Whole(pool);
      BoxesApart();
      Parts();
      var read := Pop();
      stop := false;
      if |read| == 1 {
        stop := Return(read[0], whole);
      }
    }

    method Pop() returns (read: seq<string>)
      requires Ordered(Value(), siteOf) && Poppable(pool)
      modifies this`pool, this`spoiled
      ensures read == Read(old(pool)) && pool == AfterPop(old(pool)) && |read| <= 1
      ensures Value() == if Whole(old(pool)) then FromPool(old(Value())) else Spoilt(old(Value()))
      ensures if Whole(old(pool)) then read == [old(pool).records.queue[0]] && OneInHand(Value(), read[0], siteOf)
              else Ordered(Value(), siteOf) && spilled && !Keeps() && AllLines(read)
    {
      hide Ordered, OneInHand, Target, Postable, Keepable, AfterPop, Read, Gone, Whole;
      read := Read(pool);
      if Whole(pool) {
        TakeFromPool(Value(), siteOf);
      } else {
        SpoilFromPool(Value(), siteOf);
        spoiled := spoiled + multiset(Gone(pool));
      }
      pool := AfterPop(pool);
    }

    /** A popped line goes where it belongs, if it is a message, or a stray line that looks like one. */
    method Return(msg: string, ghost whole: bool) returns (stop: bool)
      requires BoxesFine() && moving == ""
      requires if whole then OneInHand(Value(), msg, siteOf) else Ordered(Value(), siteOf) && spilled && !Keeps() && OneLine(msg)
      modifies this`strays, this`messageBuf, this`boxes, this`received, this`handed,
               Boxes()`outMsg, Boxes()`pool, Boxes()`lost, Boxes()`spilled, Boxes()`received, Boxes()`spoiled, Boxes()`strays
      ensures Valid() && StaysCalm() && Kept(old(boxes), old(Boxes()))
      ensures Value() == Returned(old(Value()), msg, whole, siteOf) && (stop <==> !IsUrl(msg))
      ensures whole ==> !stop && messageBuf == old(messageBuf) + Ownerless([msg], site2Queen, siteOf)
    {
      hide King.Boxes, King.BoxesFine, King.Calm, Ordered, OneInHand, Target, Postable, Keepable, Ownerless;
      BoxesApart();
      if whole {
        InHand(Value(), msg, siteOf);
        OwnerlessOne(msg, site2Queen, siteOf);
      }
      if !IsUrl(msg) {
        return true;
      }
      var site := siteOf(Target(msg));
      if site != "" {
        if !whole {
          LooksPostable(msg);
          Stray(Value(), msg, siteOf);
          strays := strays + multiset{msg};
        }
        Place(site, msg);
      }
      stop := false;
    }

    /** From a sound pool the k oldest messages have come back; those of sites without an owner wait again. */
    ghost predicate Partly(was: Pool, buf: seq<Pending>, k: nat)
      reads this`messageBuf, this`pool, this`site2Queen
    {
      !was.damaged && AllKeepable(was.records.queue) ==>
        && k <= |was.records.queue| && messageBuf == buf + Ownerless(was.records.queue[..k], site2Queen, siteOf)
        && pool == was.(records := was.records.(queue := was.records.queue[k..], taken := pool.records.taken))
    }

    method TakeNext(ghost was: Pool, ghost buf: seq<Pending>, ghost k: nat) returns (stop: bool)
      requires Valid() && Poppable(pool) && Partly(was, buf, k)
      modifies this`messageBuf, this`pool, this`lost, this`spoiled, this`strays, this`boxes, this`received, this`handed,
               Boxes()`outMsg, Boxes()`pool, Boxes()`lost, Boxes()`spilled, Boxes()`received, Boxes()`spoiled, Boxes()`strays
      ensures Valid() && StaysCalm() && Kept(old(boxes), old(Boxes())) && Partly(was, buf, k + 1)
      ensures pool.open && |pool.records.queue| < |old(pool).records.queue|
      ensures Value() == TakenBack(old(Value()), siteOf) && (stop <==> Stops(old(pool)))
      ensures stop ==> was.damaged || !AllKeepable(was.records.queue)
    {
      hide TakenBack, Stops, King.BoxesFine, King.Calm, Ordered, Keepable, AllKeepable, Ownerless, AfterPop, Whole;
      PopOne(pool);
      if !was.damaged && AllKeepable(was.records.queue) {
        assert pool.records.queue[0] == was.records.queue[k];
        WholeHere(pool, was.records.queue, k);
        OwnerlessMore(was.records.queue, k, site2Queen, siteOf);
      }
      stop := TakeBack();
    }

    /** After i turns of a refill, k of which popped a line. */
    ghost predicate Midway(r: Realm, was: Pool, buf: seq<Pending>, i: nat, k: nat)
      reads this
    {
      && pool.open == was.open && k <= i && (i == k || !was.open) && (k > 0 ==> was.open)
      && k + |pool.records.queue| <= |was.records.queue|
      && Partly(was, buf, k) && Refilled(r, i, siteOf) == Refilling(Value(), false)
    }

    /** After the last one. */
    ghost predicate Over(r: Realm, was: Pool, buf: seq<Pending>, k: nat)
      reads this
    {
      && pool.open == was.open && |pool.records.queue| <= |was.records.queue| && (k > 0 ==> was.open && was.records.queue != [])
      && Refilled(r, BATCH, siteOf).realm == Value()
      && (!was.damaged && AllKeepable(was.records.queue) ==> Partly(was, buf, k) && k == |Oldest(was)|)
    }

    lemma MidwayEmpty(r: Realm, was: Pool, buf: seq<Pending>, i: nat, k: nat)
      requires Midway(r, was, buf, i, k) && i <= BATCH && (pool.records.queue == [] || i == BATCH)
      ensures Over(r, was, buf, k)
    {
      hide King.Partly, Refilled, AllKeepable, King.Value;
      Parts();
      PartlyMeans(was, buf, k);
      if pool.records.queue == [] {
        RefilledEnd(r, i, BATCH, siteOf);
      }
    }

    lemma MidwayClosed(r: Realm, was: Pool, buf: seq<Pending>, i: nat, k: nat)
      requires Midway(r, was, buf, i, k) && !pool.open
      ensures Midway(r, was, buf, i + 1, k)
    {
      hide King.Partly, Refilled, AllKeepable, King.Value;
      Parts();
      RefilledNext(r, i, siteOf);
    }

    /** One turn of a refill in which a line is popped. */
    method PopTurn(ghost r: Realm, ghost was: Pool, ghost buf: seq<Pending>, ghost i: nat, ghost k: nat) returns (stop: bool)
      requires Valid() && Midway(r, was, buf, i, k) && i < BATCH && Poppable(pool)
      modifies this`messageBuf, this`pool, this`lost, this`spoiled, this`strays, this`boxes, this`received, this`handed,
               Boxes()`outMsg, Boxes()`pool, Boxes()`lost, Boxes()`spilled, Boxes()`received, Boxes()`spoiled, Boxes()`strays
      ensures Valid() && StaysCalm() && Kept(old(boxes), old(Boxes()))
      ensures if stop then Over(r, was, buf, k + 1) else Midway(r, was, buf, i + 1, k + 1)
    {
      hide King.Boxes, King.BoxesFine, King.Calm, King.Value, King.Valid, AllKeepable, King.Partly, Refilled, TakenBack, Stops;
      Parts();
      RefilledNext(r, i, siteOf);
      stop := TakeNext(was, buf, k);
      if stop {
        RefilledEnd(r, i + 1, BATCH, siteOf);
      }
    }

    /** Up to 500 lines are popped; what a closed pool holds stays there. */
    method Refill()
      requires Valid()
      modifies this`messageBuf, this`pool, this`lost, this`spoiled, this`strays, this`boxes, this`received, this`handed,
               Boxes()`outMsg, Boxes()`pool, Boxes()`lost, Boxes()`spilled, Boxes()`received, Boxes()`spoiled, Boxes()`strays
      ensures Valid() && StaysCalm() && Kept(old(boxes), old(Boxes()))
      ensures Value() == Refilled(old(Value()), BATCH, siteOf).realm && |pool.records.queue| <= |old(pool).records.queue|
      ensures !old(pool).damaged && AllKeepable(old(pool).records.queue) ==> Drained(old(messageBuf), old(pool))
      ensures Oldest(old(pool)) == [] ==> Value() == old(Value()) && boxes == old(boxes)
    {
      hide King.Boxes, King.BoxesFine, King.Calm, King.Valid, King.Value, King.Midway, King.Over, King.Drained, AllKeepable, Refilled;
      BoxesApart();
      ghost var r, was, buf, k := Value(), pool, messageBuf, 0;
      Parts();
      RefillBegins(r);
      var stop := false;
      ghost var n := 0;
      for i := 0 to BATCH
        invariant Valid() && StaysCalm() && Kept(old(boxes), old(Boxes())) && Midway(r, was, buf, i, k)
        invariant n == i && !stop && (k == 0 ==> boxes == old(boxes))
      {
        if |pool.records.queue| <= 0 {
          break;
        }
        if pool.open {
          stop := PopTurn(r, was, buf, i, k);
          k := k + 1;
          if stop {
            break;
          }
        } else {
          MidwayClosed(r, was, buf, i, k);
        }
        n := i + 1;
      }
      if !stop {
        MidwayEmpty(r, was, buf, n, k);
      }
      RefillEnds(r, was, buf, k);
    }

    lemma RefillBegins(r: Realm)
      requires r == Value()
      ensures Midway(r, pool, messageBuf, 0, 0)
    {
      RefilledNext(r, 0, siteOf);
      PartlyMeans(pool, messageBuf, 0);
    }

    lemma RefillEnds(r: Realm, was: Pool, buf: seq<Pending>, k: nat)
      requires Over(r, was, buf, k) && r.pool == was
      ensures Value() == Refilled(r, BATCH, siteOf).realm && |pool.records.queue| <= |was.records.queue|
      ensures !was.damaged && AllKeepable(was.records.queue) ==> Drained(buf, was)
      ensures Oldest(was) == [] ==> Value() == r && k == 0
    {
      hide King.Partly, King.Value, Refilled, AllKeepable, King.Drained;
      PartlyMeans(was, buf, k);
      if Oldest(was) == [] {
        RefilledNext(r, 0, siteOf);
        RefilledEnd(r, 0, BATCH, siteOf);
      }
    }

    lemma PartlyMeans(was: Pool, buf: seq<Pending>, k: nat)
      ensures pool == was && messageBuf == buf && k == 0 ==> Partly(was, buf, k)
      ensures !was.damaged && AllKeepable(was.records.queue) && Partly(was, buf, k) ==>
        |pool.records.queue| == |was.records.queue| - k && (pool.open == was.open && k == |Oldest(was)| ==> Drained(buf, was))
    {
      hide Keepable;
      OwnerlessOne("", site2Queen, siteOf);
      assert was.records.queue[0..] == was.records.queue;
      assert was.records.queue[..|was.records.queue|] == was.records.queue;
    }

    /** At the end the whole buffer goes to the pool. */
    method SaveMsgToPool()
      requires Valid()
      modifies this`messageBuf, this`pool, this`lost, this`spilled
      ensures Valid() && accepted == old(accepted) && pool.open == old(pool).open
      ensures messageBuf == if pool.open then [] else old(messageBuf)
    {
      hide Ordered, King.BoxesFine, Pushed;
      if !pool.open {
        return;
      }
      assert forall b | b in Boxes() :: b as object != this;
      while |messageBuf| > 0
        invariant Valid() && pool.open
        modifies this`messageBuf, this`pool, this`lost, this`spilled
      {
        assert messageBuf[..0] + messageBuf[1..] == messageBuf[1..];
        PostableHere(0);
        PushOne(pool, messageBuf[0].msg);
        SpillAt(0);
      }
    }

    // -------------------------------------------------------------------------------------------
    // Groups

    /** The time is up for a group that is being counted. */
    predicate GroupIsDue(now: int)
      reads this`groupStart, this`groupTime
    {
      groupStart && now > groupTime + GROUP_CHECK_TIME
    }

    ghost function Marked(): set<string>
      reads this`boxes, Boxes()`groupMark
    {
      set q | q in boxes && boxes[q].groupMark
    }

    /** The group is counted anew from now on. */
    method StartGroup(now: int)
      requires Valid()
      modifies this`groupStart, this`groupTime, Boxes()`groupMark
      ensures groupStart && groupTime == now && Marked() == {}
      ensures Valid() && StaysCalm() && Value() == old(Value()) && forall q | q in boxes :: boxes[q].Value() == old(boxes[q].Value())
    {
      hide QueenBox.Value, King.Boxes, King.Marked, King.BoxesFine, King.Calm, Ordered;
      BoxesApart();
      Unmark();
      NoneMarked();
      SameBoxes();
      groupStart := true;
      groupTime := now;
    }

    twostate lemma SameBoxes()
      requires boxes == old(boxes) && received == old(received)
      requires forall q | q in boxes :: boxes[q].Value() == old(boxes[q].Value()) && boxes[q].name == old(boxes[q].name)
      ensures StaysCalm() && (old(BoxesFine()) ==> BoxesFine())
    {
      hide Good;
      assert forall q | q in boxes :: boxes[q].Value().important == boxes[q].importantMsg && boxes[q].Value().received == boxes[q].received;
    }

    method Unmark()
      requires BoxesFine()
      modifies Boxes()`groupMark
      ensures forall q | q in boxes :: !boxes[q].groupMark
      ensures forall q | q in boxes :: boxes[q].Value() == old(boxes[q].Value())
    {
      hide King.BoxesFine, King.Boxes;
      var todo := boxes.Keys;
      while todo != {}
        invariant todo <= boxes.Keys && BoxesFine()
        invariant forall q | q in boxes && q !in todo :: !boxes[q].groupMark
      {
        var queen :| queen in todo;
        IsABox(queen);
        UnmarkOne(queen);
        todo := todo - {queen};
      }
    }

    method UnmarkOne(queen: string)
      requires BoxesFine() && queen in boxes
      modifies {boxes[queen]}`groupMark
      ensures BoxesFine() && !boxes[queen].groupMark && forall q | q in boxes && q != queen :: boxes[q].groupMark == old(boxes[q].groupMark)
    {
      OtherBox(queen);
      boxes[queen].ClearGroupMark();
    }

    lemma OtherBox(queen: string)
      requires BoxesFine() && queen in boxes
      ensures forall q | q in boxes && q != queen :: boxes[q] != boxes[queen]
    {
      assert BoxFine(boxes[queen], queen, received[queen]);
      assert forall q | q in boxes :: BoxFine(boxes[q], q, received[q]);
    }

    lemma NoneMarked()
      requires forall q | q in boxes :: !boxes[q].groupMark
      ensures Marked() == {}
    {
    }

    /** A queen has spoken: she is marked if she is a group member.  When the time is up, and more than one is
        marked, those that are learn how many they are, and the others forget an older number. */
    method CheckGroup(queen: string, now: int)
      requires BoxesFine() && queen in boxes
      modifies this`groupStart, Boxes()`groupMark, Boxes()`outMsg, Boxes()`importantMsg
      ensures forall q | q in boxes ::
        boxes[q].groupMark == (old(boxes[q].groupMark) || (q == queen && old(groupStart) && boxes[q].group))
      ensures groupStart == (old(groupStart) && !old(GroupIsDue(now)))
      ensures forall q | q in boxes ::
        boxes[q].Value() == Grouped(old(boxes[q].Value()), boxes[q].groupMark, if old(GroupIsDue(now)) then |Marked()| % TWO32 else 0)
    {
      hide King.BoxesFine, King.Marked, Grouped, QueenBox.Value;
      assert forall b | b in Boxes() :: b as object != this;
      NoneTold(0);
      if groupStart {
        Mark(queen);
        NoneTold(0);
        if now > groupTime + GROUP_CHECK_TIME {
          groupStart := false;
          CountGroup();
        }
      }
    }

    method CountGroup()
      requires BoxesFine()
      modifies Boxes()`outMsg, Boxes()`importantMsg
      ensures forall q | q in boxes :: boxes[q].Value() == Grouped(old(boxes[q].Value()), boxes[q].groupMark, |Marked()| % TWO32)
    {
      hide King.BoxesFine, King.Marked, Grouped;
      var size := CountMarked();
      if size > 1 {
        TellGroup(size);
      } else {
        NoneTold(size);
      }
    }

    method Mark(queen: string)
      requires BoxesFine() && queen in boxes
      modifies {boxes[queen]}`groupMark
      ensures forall q | q in boxes :: boxes[q].groupMark == (old(boxes[q].groupMark) || (q == queen && boxes[q].group))
      ensures forall q | q in boxes :: boxes[q].Value() == old(boxes[q].Value())
    {
      OtherBox(queen);
      boxes[queen].SetGroupMark();
    }

    lemma NoneTold(size: nat)
      requires size <= 1
      ensures forall q | q in boxes :: boxes[q].Value() == Grouped(boxes[q].Value(), boxes[q].groupMark, size)
    {
    }

    /** What being told does to the boxes. */
    twostate lemma Counted(size: nat)
      requires boxes == old(boxes) && size < TWO32
      requires forall q | q in boxes :: boxes[q].Value() == Grouped(old(boxes[q].Value()), boxes[q].groupMark, size)
      ensures AtMost(Controls(), old(Controls()), if size <= 1 then 0 else 1)
      ensures (old(Spare()) ==> Calm()) && (old(Calm()) && size <= 1 ==> Calm())
      ensures old(BoxesFine()) && received == old(received) ==> BoxesFine()
    {
      hide Grouped, Good;
      forall q | q in boxes
        ensures boxes[q].importantMsg <= old(boxes[q].importantMsg) + if size <= 1 then 0 else 1
        ensures (old(boxes[q].Valid()) ==> boxes[q].Valid()) && boxes[q].received == old(boxes[q].received)
      {
        GroupedGood(old(boxes[q].Value()), boxes[q].groupMark, size);
        assert boxes[q].Value().important == boxes[q].importantMsg;
      }
    }

    /** The number of marked queens, in 32 bits. */
    method CountMarked() returns (size: nat)
      ensures size == |Marked()| % TWO32
    {
      hide King.Marked;
      size := 0;
      var todo := boxes.Keys;
      ghost var marked := Marked();
      MarkedQueens();
      assert marked - todo == {};
      while todo != {}
        invariant todo <= boxes.Keys && marked == Marked() && size == |marked - todo| % TWO32
      {
        var q :| q in todo;
        CountOn(marked, todo, q);
        MarkedMeans(q);
        todo := todo - {q};
        if boxes[q].groupMark {
          size := (size + 1) % TWO32;
        }
      }
      assert marked - todo == marked;
    }

    lemma MarkedQueens()
      ensures Marked() <= boxes.Keys
    {
    }

    lemma MarkedMeans(queen: string)
      requires queen in boxes
      ensures queen in Marked() <==> boxes[queen].groupMark
    {
    }

    method TellGroup(size: nat)
      requires BoxesFine() && 1 < size < TWO32
      modifies Boxes()`outMsg, Boxes()`importantMsg
      ensures forall q | q in boxes :: boxes[q].Value() == Grouped(old(boxes[q].Value()), boxes[q].groupMark, size)
    {
      hide Grouped, QueenBox.Value, King.BoxesFine, King.Boxes;
      var todo := boxes.Keys;
      while todo != {}
        invariant todo <= boxes.Keys && BoxesFine()
        invariant forall q | q in boxes && q in todo :: boxes[q].Value() == old(boxes[q].Value())
        invariant forall q | q in boxes && q !in todo :: boxes[q].Value() == Grouped(old(boxes[q].Value()), boxes[q].groupMark, size)
      {
        var queen :| queen in todo;
        IsABox(queen);
        TellQueen(queen, size);
        todo := todo - {queen};
      }
    }

    method TellQueen(queen: string, size: nat)
      requires BoxesFine() && queen in boxes && 1 < size < TWO32
      modifies {boxes[queen]}`outMsg, {boxes[queen]}`importantMsg
      ensures boxes[queen].Value() == Grouped(old(boxes[queen].Value()), boxes[queen].groupMark, size)
      ensures forall q | q in boxes && q != queen :: boxes[q].Value() == old(boxes[q].Value())
      ensures BoxesFine()
    {
      OtherBox(queen);
      var box := boxes[queen];
      if box.groupMark {
        box.SendGroupMsg(size);
      } else {
        box.DeleteGroupMsg();
      }
    }

    /** What a message from a queen does to the boxes, whatever it says. */
    method Hear(queen: string, now: int)
      requires Valid() && queen in boxes
      modifies this`groupStart, Boxes()`groupMark, Boxes()`outMsg, Boxes()`importantMsg
      ensures Valid() && Value() == old(Value()) && (old(Room()) ==> Room())
      ensures AtMost(Controls(), old(Controls()), if old(GroupIsDue(now)) then 1 else 0)
      ensures (old(Spare()) ==> Calm()) && (old(Calm() && !GroupIsDue(now)) ==> Calm())
      ensures AsTold(boxes[queen].Value(), old(boxes[queen].Value()), old(GroupIsDue(now)))
    {
      hide King.BoxesFine, King.Boxes, King.Calm, King.Spare, King.Marked, King.Controls, Ordered, Grouped, QueenBox.Value, King.GroupIsDue,
        King.Room;
      BoxesApart();
      CheckGroup(queen, now);
      Counted(if old(GroupIsDue(now)) then |Marked()| % TWO32 else 0);
    }

    /** A queen has asked for the size of the group. */
    method GroupAsked(now: int)
      requires Valid()
      modifies this`groupStart, this`groupTime, Boxes()`groupMark
      ensures Valid() && groupStart && groupTime == now && Marked() == {}
    {
      hide King.BoxesFine, King.Marked, Ordered;
      assert forall b | b in Boxes() :: b as object != this;
      StartGroup(now);
    }

    // -------------------------------------------------------------------------------------------
    // Messages from queens

    /** The first box, in some order, that is connected through a socket. */
    method BoxByFd(fd: int) returns (queen: string, found: bool)
      ensures found <==> Registered(fd)
      ensures found ==> queen in boxes && boxes[queen].fd == fd
    {
      found := exists q :: q in boxes && boxes[q].fd == fd;
      queen := "";
      if found {
        queen :| queen in boxes && boxes[queen].fd == fd;
      }
    }

    /** A REFER or REDIRECT message from a registered queen is accepted unless its URL has no site: it waits
        in the buffer if the site has no owner, or goes to the owner; and the sender may be told who that is. */
    method Refer(fd: int, msg: string, now: int)
      requires Valid() && Postable(msg)
      modifies this`accepted, this`messageBuf, this`pool, this`lost, this`spilled, this`spoiled, this`strays, this`boxes, this`received, this`handed, this`redirects, this`groupStart,
               Boxes()`outMsg, Boxes()`pool, Boxes()`lost, Boxes()`spilled, Boxes()`received, Boxes()`spoiled, Boxes()`strays, Boxes()`importantMsg, Boxes()`groupMark
      ensures Valid() && Kept(old(boxes), old(Boxes()))
      ensures var site, r := siteOf(Target(msg)), old(Value());
        if old(Registered(fd)) && site != "" then
          && Referred(r.(accepted := r.accepted + multiset{msg}), old(boxes), site, msg)
          && (exists q | q in old(boxes) && old(boxes[q].fd) == fd ::
                redirects == if site in site2Queen then Told(old(redirects), site, old(boxes[q].group)) else old(redirects))
        else Value() == r && redirects == old(redirects) && boxes == old(boxes)
      ensures AtMost(Controls(), old(Controls()), (if old(GroupIsDue(now)) then 1 else 0) + if redirects == old(redirects) then 0 else 1)
      ensures old(Spare()) ==> forall q | q in boxes :: boxes[q].Valid()
      ensures old(Calm() && !GroupIsDue(now)) && redirects == old(redirects) ==> Calm()
    {
      hide King.BoxesFine, King.Calm, King.Spare, Ordered, Target, Postable, Told, QueenBox.Valid, King.Referred,
        King.Registered, King.GroupIsDue;
      var sender, found := BoxByFd(fd);
      if found {
        assert sender in old(boxes) && old(boxes[sender].fd) == fd;
        ReferFrom(sender, msg, now);
      } else {
        SpareIsValid();
      }
    }

    lemma SpareIsValid()
      ensures Spare() ==> forall q | q in boxes :: boxes[q].Valid()
    {
    }

    /** An accepted message has gone to the owner of its site, or waits; then the buffer may have been exchanged
        with the pool. */
    ghost predicate Referred(r: Realm, before: map<string, QueenBox>, site: string, msg: string)
      reads this
    {
      && accepted == r.accepted
      && (site in site2Queen ==> Value() == Handed(r, site2Queen[site], msg))
      && (site !in site2Queen && |r.buf| + 1 <= BUFFER_HIGH && (BUFFER_LOW <= |r.buf| + 1 || Oldest(r.pool) == []) ==>
            Value() == Waiting(r, site, msg) && boxes == before)
      && (site !in site2Queen && |r.buf| + 1 > BUFFER_HIGH ==> Spilled(r.buf + [Pending(site, msg)], r.pool) && boxes == before)
      && spilled == (r.spilled || (site !in site2Queen && |r.buf| + 1 > BUFFER_HIGH))
    }

    method ReferFrom(sender: string, msg: string, now: int)
      requires Valid() && Postable(msg) && sender in boxes
      modifies this`accepted, this`messageBuf, this`pool, this`lost, this`spilled, this`spoiled, this`strays, this`boxes, this`received, this`handed, this`redirects, this`groupStart,
               Boxes()`outMsg, Boxes()`pool, Boxes()`lost, Boxes()`spilled, Boxes()`received, Boxes()`spoiled, Boxes()`strays, Boxes()`importantMsg, Boxes()`groupMark
      ensures Valid() && Kept(old(boxes), old(Boxes()))
      ensures var site, r := siteOf(Target(msg)), old(Value());
        if site != "" then
          && Referred(r.(accepted := r.accepted + multiset{msg}), old(boxes), site, msg)
          && redirects == (if site in site2Queen then Told(old(redirects), site, old(boxes[sender].group)) else old(redirects))
        else Value() == r && redirects == old(redirects) && boxes == old(boxes)
      ensures AtMost(Controls(), old(Controls()), (if old(GroupIsDue(now)) then 1 else 0) + if redirects == old(redirects) then 0 else 1)
      ensures old(Spare()) ==> forall q | q in boxes :: boxes[q].Valid()
      ensures old(Calm() && !GroupIsDue(now)) && redirects == old(redirects) ==> Calm()
    {
      hide King.Boxes, King.BoxesFine, King.Calm, King.Spare, King.Controls, Ordered, Target, Postable, Told, QueenBox.Valid, King.Referred,
        AsTold, King.GroupIsDue, AtMost;
      BoxesApart();
      Hear(sender, now);
      CalmIsValid();
      var site := siteOf(Target(msg));
      if site != "" {
        ghost var between := Controls();
        Forward(sender, site, msg);
        AtMostSum(Controls(), between, old(Controls()), if old(GroupIsDue(now)) then 1 else 0, if redirects == old(redirects) then 0 else 1);
      }
    }

    lemma CalmIsValid()
      ensures Calm() ==> forall q | q in boxes :: boxes[q].Valid()
    {
    }

    /** The message finds its place. */
    method Forward(sender: string, site: string, msg: string)
      requires Valid() && Postable(msg) && site == siteOf(Target(msg)) != "" && sender in boxes
      modifies this`accepted, this`messageBuf, this`pool, this`lost, this`spilled, this`spoiled, this`strays, this`boxes, this`received, this`handed, this`redirects,
               Boxes()`outMsg, Boxes()`pool, Boxes()`lost, Boxes()`spilled, Boxes()`received, Boxes()`spoiled, Boxes()`strays, Boxes()`importantMsg
      ensures Valid() && Kept(old(boxes), old(Boxes()))
      ensures var r := old(Value()); Referred(r.(accepted := r.accepted + multiset{msg}), old(boxes), site, msg)
      ensures redirects == if site in site2Queen then Told(old(redirects), site, old(boxes[sender].group)) else old(redirects)
      ensures AtMost(Controls(), old(Controls()), if redirects == old(redirects) then 0 else 1)
      ensures old(Calm()) ==> (forall q | q in boxes :: boxes[q].Valid()) && (redirects == old(redirects) ==> Calm())
    {
      hide King.BoxesFine, King.Calm, Ordered, Target, Postable, Handed, Told, King.Valid, King.Referred, QueenBox.Valid;
      assert forall b | b in Boxes() :: b as object != this;
      if site in site2Queen {
        HandOn(sender, site, msg);
      } else {
        LetWait(site, msg);
        CalmIsValid();
      }
    }

    method HandOn(sender: string, site: string, msg: string)
      requires Valid() && Postable(msg) && site == siteOf(Target(msg)) != "" && sender in boxes && site in site2Queen
      modifies this`accepted, this`boxes, this`received, this`handed, this`redirects,
               Boxes()`outMsg, Boxes()`pool, Boxes()`lost, Boxes()`spilled, Boxes()`received, Boxes()`spoiled, Boxes()`strays, Boxes()`importantMsg
      ensures Valid() && Kept(old(boxes), old(Boxes()))
      ensures var r := old(Value()); Referred(r.(accepted := r.accepted + multiset{msg}), old(boxes), site, msg)
      ensures redirects == Told(old(redirects), site, old(boxes[sender].group))
      ensures AtMost(Controls(), old(Controls()), if redirects == old(redirects) then 0 else 1)
      ensures old(Calm()) ==> (forall q | q in boxes :: boxes[q].Valid()) && (redirects == old(redirects) ==> Calm())
    {
      hide King.Boxes, King.BoxesFine, King.Calm, King.Valid, King.Value, King.Referred, King.Controls, Target, Postable, Handed, Told,
        QueenBox.Valid, AtMost;
      Parts();
      BoxesApart();
      ghost var before, r := Controls(), Value();
      IsABox(sender);
      PassOn(site, msg);
      ghost var between := Controls();
      Tell(sender, site);
      AtMostSum(Controls(), between, before, 0, if redirects == old(redirects) then 0 else 1);
      HandedIsReferred(r.(accepted := r.accepted + multiset{msg}), old(boxes), site, msg);
    }

    lemma HandedIsReferred(r: Realm, before: map<string, QueenBox>, site: string, msg: string)
      requires site in r.owner && Value() == Handed(r, r.owner[site], msg)
      ensures Referred(r, before, site, msg)
    {
    }

    method TakeIn(msg: string)
      requires Valid() && Postable(msg) && siteOf(Target(msg)) != ""
      modifies this`accepted
      ensures BoxesFine() && StaysCalm() && OneInHand(Value(), msg, siteOf) && moving == ""
      ensures var r := old(Value()); Value() == r.(accepted := r.accepted + multiset{msg})
    {
      hide King.BoxesFine, King.Calm, Ordered, OneInHand, Target, Postable, King.Boxes;
      BoxesApart();
      Accept(Value(), msg, siteOf);
      accepted := accepted + multiset{msg};
    }

    method PassOn(site: string, msg: string)
      requires Valid() && Postable(msg) && site == siteOf(Target(msg)) != "" && site in site2Queen
      modifies this`accepted, this`boxes, this`received, this`handed,
               Boxes()`outMsg, Boxes()`pool, Boxes()`lost, Boxes()`spilled, Boxes()`received, Boxes()`spoiled, Boxes()`strays
      ensures Valid() && StaysCalm() && Kept(old(boxes), old(Boxes())) && AtMost(Controls(), old(Controls()), 0)
      ensures var r := old(Value()); Value() == Handed(r.(accepted := r.accepted + multiset{msg}), site2Queen[site], msg)
    {
      hide King.BoxesFine, King.Calm, King.Value, Ordered, OneInHand, Target, Postable, Handed, QueenBox.Valid, King.Controls, AtMost, King.Boxes;
      TakeIn(msg);
      PassMsgToQueen(site2Queen[site], msg);
      SameControls();
    }

    method LetWait(site: string, msg: string)
      requires Valid() && Postable(msg) && site == siteOf(Target(msg)) != "" && site !in site2Queen
      modifies this`accepted, this`messageBuf, this`pool, this`lost, this`spilled, this`spoiled, this`strays, this`boxes, this`received, this`handed,
               Boxes()`outMsg, Boxes()`pool, Boxes()`lost, Boxes()`spilled, Boxes()`received, Boxes()`spoiled, Boxes()`strays
      ensures Valid() && StaysCalm() && Kept(old(boxes), old(Boxes())) && site2Queen == old(site2Queen)
      ensures var r := old(Value()); Referred(r.(accepted := r.accepted + multiset{msg}), old(boxes), site, msg)
    {
      hide King.Boxes, King.BoxesFine, King.Calm, Ordered, OneInHand, Target, Postable, King.Spilled, King.Drained, Oldest, AllKeepable;
      TakeIn(msg);
      Wait(Value(), msg, siteOf);
      BoxesApart();
      messageBuf := messageBuf + [Pending(site, msg)];
      ExchangePool();
    }

    /** The sender of a reference learns the owner of the site. */
    method Tell(queen: string, site: string)
      requires Valid() && queen in boxes && site in site2Queen
      modifies this`redirects, {boxes[queen]}`outMsg, {boxes[queen]}`importantMsg
      ensures Valid() && redirects == Told(old(redirects), site, boxes[queen].group) && Value() == old(Value())
      ensures AtMost(Controls(), old(Controls()), if redirects == old(redirects) then 0 else 1)
      ensures old(Calm()) ==> (forall q | q in boxes :: boxes[q].Valid()) && (redirects == old(redirects) ==> Calm())
    {
      hide Ordered, Good, Told, Line, Behind;
      OtherBox(queen);
      ToldChanges(redirects, site);
      var box := boxes[queen];
      redirects := box.RedirectSite(site, site2Queen[site], redirects);
    }

    /** A queen with the most free capacity that has asked for messages; among those, one with the fewest sites. */
    ghost predicate Best(queen: string)
      reads this`boxes, Boxes()`activeReq, Boxes()`free, Boxes()`siteNum
    {
      && queen in boxes && boxes[queen].FreeNum() > 0
      && forall q | q in boxes :: boxes[q].FreeNum() < boxes[queen].FreeNum()
            || (boxes[q].FreeNum() == boxes[queen].FreeNum() && boxes[queen].siteNum <= boxes[q].siteNum)
    }

    method ChooseQueen() returns (queen: string, found: bool)
      ensures found <==> Room()
      ensures found ==> Best(queen)
    {
      queen, found := "", false;
      var freeMax, siteNum: nat := 0, 0;
      var todo := boxes.Keys;
      while todo != {}
        invariant todo <= boxes.Keys && 0 <= freeMax
        invariant found ==> queen in boxes && freeMax == boxes[queen].FreeNum() && siteNum == boxes[queen].siteNum
        invariant !found ==> freeMax == 0 && siteNum == 0
        invariant forall q | q in boxes && q !in todo ::
          boxes[q].FreeNum() <= freeMax && (found && boxes[q].FreeNum() == freeMax ==> siteNum <= boxes[q].siteNum)
        invariant found ==> freeMax > 0
        decreases |todo|
      {
        var q :| q in todo;
        var box := boxes[q];
        if box.FreeNum() > freeMax || (box.FreeNum() == freeMax && box.siteNum < siteNum) {
          queen, found := q, true;
          freeMax := box.FreeNum();
          siteNum := box.siteNum;
        }
        todo := todo - {q};
      }
    }

    /** A site of the buffer gets an owner, the best queen there is, and all its messages go to her.  A site
        in the buffer never has an owner already. */
    method AssignSites() returns (sites: int)
      requires Valid()
      modifies this`site2Queen, this`moving, this`messageBuf, this`pool, this`lost, this`spilled, this`spoiled, this`strays, this`boxes, this`received, this`handed,
               Boxes()`outMsg, Boxes()`pool, Boxes()`lost, Boxes()`spilled, Boxes()`received, Boxes()`spoiled, Boxes()`strays,
               Boxes()`siteNum, Boxes()`free, Boxes()`activeReq
      ensures Valid() && StaysCalm() && Kept(old(boxes), old(Boxes())) && AtMost(Controls(), old(Controls()), 0)
      ensures !Lessens(old(pool), pool) && (spilled ==> old(spilled) || old(|messageBuf|) > BUFFER_HIGH)
      ensures OwnersGrow(old(site2Queen), old(messageBuf), old(boxes).Keys, site2Queen)
      ensures sites == 0 <==> old(messageBuf == [] || !Room())
      ensures if sites == 0 then Value() == old(Value()) && boxes == old(boxes) else site2Queen != old(site2Queen)
      ensures sites == 0 ==> forall q | q in boxes :: boxes[q].free == old(boxes[q].free) && boxes[q].activeReq == old(boxes[q].activeReq)
      ensures sites != 0 ==>
        exists p, queen :: p in old(messageBuf) && old(Best(queen)) && site2Queen == NewOwner(old(site2Queen), p.site, queen)
    {
      hide King.Boxes, King.BoxesFine, King.Calm, King.Controls, Ordered, OwnersGrow, King.Best, King.Room, AllKeepable, King.Lessens;
      NotLessened(pool);
      BoxesApart();
      OwnersKept(site2Queen, messageBuf, boxes.Keys);
      if |messageBuf| < 1 {
        return 0;
      }
      var k: nat :| k < |messageBuf|;
      var first := messageBuf[k];
      var queen, found := ChooseQueen();
      if !found {
        return 0;
      }
      Unowned(Value(), first, siteOf);
      OwnerAdded(site2Queen, messageBuf, boxes.Keys, first, queen);
      Settle(first.site, queen);
      sites := 1;
    }

    /** A site and its messages go to a queen. */
    method Settle(site: string, queen: string)
      requires Valid() && site !in site2Queen && site != "" && queen in boxes
      modifies this`site2Queen, this`moving, this`messageBuf, this`pool, this`lost, this`spilled, this`spoiled, this`strays, this`boxes, this`received, this`handed,
               Boxes()`outMsg, Boxes()`pool, Boxes()`lost, Boxes()`spilled, Boxes()`received, Boxes()`spoiled, Boxes()`strays,
               Boxes()`siteNum, Boxes()`free, Boxes()`activeReq
      ensures Valid() && StaysCalm() && Kept(old(boxes), old(Boxes())) && AtMost(Controls(), old(Controls()), 0)
      ensures !Lessens(old(pool), pool) && (spilled ==> old(spilled) || old(|messageBuf|) > BUFFER_HIGH)
      ensures site2Queen == old(site2Queen)[site := queen]
    {
      hide King.Boxes, King.BoxesFine, King.Calm, King.Controls, King.Valid, King.Value, King.Drained, King.Spilled, King.Lessens, AtMost;
      Award(site, queen);
      label moved:
      ghost var between := Controls();
      ExchangePool();
      SameControls@moved();
      AtMostSum(Controls(), between, old(Controls()), 0, 0);
    }

    method Award(site: string, queen: string)
      requires Valid() && site !in site2Queen && site != "" && queen in boxes
      modifies this`site2Queen, this`moving, this`messageBuf, this`boxes, this`received, this`handed,
               Boxes()`outMsg, Boxes()`pool, Boxes()`lost, Boxes()`spilled, Boxes()`received, Boxes()`spoiled, Boxes()`strays,
               Boxes()`siteNum, Boxes()`free, Boxes()`activeReq
      ensures Valid() && StaysCalm() && Kept(old(boxes), old(Boxes())) && AtMost(Controls(), old(Controls()), 0)
      ensures site2Queen == old(site2Queen)[site := queen] && |messageBuf| <= |old(messageBuf)|
    {
      hide King.Boxes, King.BoxesFine, King.Calm, King.Controls, Ordered, AtMost;
      BoxesApart();
      IsABox(queen);
      GiveSite(site, queen);
      MoveMessages(site, queen);
      SameControls();
    }

    /** A new site for a queen. */
    method GiveSite(site: string, queen: string)
      requires Valid() && site !in site2Queen && queen in boxes
      modifies this`site2Queen, this`moving, {boxes[queen]}`siteNum, {boxes[queen]}`free, {boxes[queen]}`activeReq
      ensures BoxesFine() && StaysCalm() && Ordered(Value(), siteOf)
      ensures Value() == old(Value()).(owner := old(site2Queen)[site := queen], moving := site)
    {
      hide King.Boxes, King.BoxesFine, King.Calm, Ordered;
      BoxesApart();
      Assigned(Value(), site, queen, siteOf);
      site2Queen := site2Queen[site := queen];
      moving := site;
      Charge(queen);
    }

    method Charge(queen: string)
      requires BoxesFine() && queen in boxes
      modifies {boxes[queen]}`siteNum, {boxes[queen]}`free, {boxes[queen]}`activeReq
      ensures BoxesFine() && StaysCalm()
    {
      hide King.BoxesFine, King.Calm, Good;
      CalmOne(queen);
      boxes[queen].TakeSite();
      OneChanged(queen);
    }

    /** All waiting messages of a site go to its owner. */
    method MoveMessages(site: string, queen: string)
      requires BoxesFine() && Ordered(Value(), siteOf)
      requires moving == site && site != "" && site in site2Queen && site2Queen[site] == queen && queen in boxes
      modifies this`moving, this`messageBuf, this`boxes, this`received, this`handed, Boxes()`outMsg, Boxes()`pool, Boxes()`lost, Boxes()`spilled, Boxes()`received, Boxes()`spoiled, Boxes()`strays
      ensures Valid() && StaysCalm() && Kept(old(boxes), old(Boxes())) && |messageBuf| <= old(|messageBuf|)
    {
      hide King.Value, King.Boxes, King.BoxesFine, King.Calm, Ordered;
      var i := 0;
      while i < |messageBuf|
        invariant BoxesFine() && StaysCalm() && Ordered(Value(), siteOf) && moving == site && queen in boxes
        invariant i <= |messageBuf| <= old(|messageBuf|) && forall p | p in messageBuf[..i] :: p.site != site
        invariant Kept(old(boxes), old(Boxes()))
        decreases |messageBuf| - i
      {
        if messageBuf[i].site == site {
          ghost var before := messageBuf[..i];
          MoveOne(i);
          assert messageBuf[..i] == before;
        } else {
          assert messageBuf[..i + 1] == messageBuf[..i] + [messageBuf[i]];
          i := i + 1;
        }
      }
      assert messageBuf[..i] == messageBuf;
      EndMove();
    }

    method EndMove()
      requires BoxesFine() && Ordered(Value(), siteOf) && forall p | p in messageBuf :: p.site != moving
      modifies this`moving
      ensures Valid() && StaysCalm()
    {
      hide King.Boxes, King.BoxesFine, King.Calm, Ordered;
      AllMoved(Value(), siteOf);
      BoxesApart();
      moving := "";
    }

    method MoveOne(i: nat)
      requires BoxesFine() && Ordered(Value(), siteOf) && i < |messageBuf|
      requires messageBuf[i].site in site2Queen
      modifies this`messageBuf, this`boxes, this`received, this`handed, Boxes()`outMsg, Boxes()`pool, Boxes()`lost, Boxes()`spilled, Boxes()`received, Boxes()`spoiled, Boxes()`strays
      ensures BoxesFine() && StaysCalm() && Ordered(Value(), siteOf) && Kept(old(boxes), old(Boxes()))
      ensures messageBuf == old(messageBuf)[..i] + old(messageBuf)[i + 1..]
    {
      hide King.BoxesFine, King.Calm, Ordered, OneInHand, Target, Postable;
      var p := messageBuf[i];
      TakeFromBuffer(Value(), i, siteOf);
      SiteRight(Value(), p, siteOf);
      assert forall b | b in Boxes() :: b as object != this;
      messageBuf := messageBuf[..i] + messageBuf[i + 1..];
      PassMsgToQueen(site2Queen[p.site], p.msg);
    }

    /** REQUEST: the queen gets the lines at the head of her box and the number of those left, and a site may
        find an owner.  The work is over when nobody has anything left to do. */
    method Request(fd: int, num: int, now: int) returns (written: seq<string>)
      requires Valid()
      modifies this`ended, this`groupStart, Boxes()`importantMsg, Boxes()`groupMark, Boxes()`sentUrls, Boxes()`messageSent,
               this`site2Queen, this`moving, this`messageBuf, this`pool, this`lost, this`spilled, this`spoiled, this`strays, this`boxes, this`received, this`handed,
               Boxes()`outMsg, Boxes()`pool, Boxes()`lost, Boxes()`spilled, Boxes()`received, Boxes()`spoiled, Boxes()`strays,
               Boxes()`siteNum, Boxes()`free, Boxes()`activeReq
      ensures Valid() && Kept(old(boxes), old(Boxes()))
      ensures OwnersGrow(old(site2Queen), old(messageBuf), old(boxes).Keys, site2Queen)
      ensures if old(Registered(fd)) then
          && (exists q | q in old(boxes) && old(boxes[q].fd) == fd ::
                Answered(written, old(boxes[q].Value()), fd, if num <= 0 then 1 else num, old(GroupIsDue(now))))
          && (ended <==> old(ended) || WorkFinished())
        else written == [] && Value() == old(Value()) && ended == old(ended)
      ensures old(Registered(fd) && messageBuf != [] && Room()) ==> site2Queen != old(site2Queen)
      ensures old(messageBuf) == [] ==> Value() == old(Value())
      ensures old(Registered(fd) && messageBuf == []) ==> exists q | q in old(boxes) && old(boxes[q].fd) == fd ::
        q in boxes && boxes[q].free == old(boxes[q].free) && Asked(boxes[q], old(boxes[q].activeReq))
      ensures !Lessens(old(pool), pool) && (spilled ==> old(spilled) || old(|messageBuf|) > BUFFER_HIGH)
      ensures AtMost(Controls(), old(Controls()), if old(GroupIsDue(now)) then 1 else 0)
      ensures (old(Spare()) ==> Calm()) && (old(Calm() && !GroupIsDue(now)) ==> Calm())
    {
      hide King.BoxesFine, King.Calm, King.Spare, Ordered, OwnersGrow, Answered, King.Room, King.Registered, King.GroupIsDue,
        King.WorkFinished, King.Lessens;
      var queen, found := BoxByFd(fd);
      if !found {
        OwnersKept(site2Queen, messageBuf, boxes.Keys);
        NotLessened(pool);
        SpareIsCalm();
        return [];
      }
      assert queen in old(boxes) && old(boxes[queen].fd) == fd;
      written := Respond(queen, if num <= 0 then 1 else num, now);
    }

    lemma SpareIsCalm()
      ensures Spare() ==> Calm()
    {
    }

    lemma NotLessened(p: Pool)
      ensures !Lessens(p, p)
    {
    }

    method Respond(queen: string, num: int, now: int) returns (written: seq<string>)
      requires Valid() && queen in boxes
      modifies this`ended, this`groupStart, Boxes()`importantMsg, Boxes()`groupMark, Boxes()`sentUrls, Boxes()`messageSent,
               this`site2Queen, this`moving, this`messageBuf, this`pool, this`lost, this`spilled, this`spoiled, this`strays, this`boxes, this`received, this`handed,
               Boxes()`outMsg, Boxes()`pool, Boxes()`lost, Boxes()`spilled, Boxes()`received, Boxes()`spoiled, Boxes()`strays,
               Boxes()`siteNum, Boxes()`free, Boxes()`activeReq
      ensures Valid() && Kept(old(boxes), old(Boxes()))
      ensures OwnersGrow(old(site2Queen), old(messageBuf), old(boxes).Keys, site2Queen)
      ensures Answered(written, old(boxes[queen].Value()), old(boxes[queen].fd), num, old(GroupIsDue(now)))
      ensures ended <==> old(ended) || WorkFinished()
      ensures old(messageBuf != [] && Room()) ==> site2Queen != old(site2Queen)
      ensures old(messageBuf) == [] ==> Value() == old(Value())
      ensures old(messageBuf) == [] ==> boxes[queen].free == old(boxes[queen].free) && Asked(boxes[queen], old(boxes[queen].activeReq))
      ensures !Lessens(old(pool), pool) && (spilled ==> old(spilled) || old(|messageBuf|) > BUFFER_HIGH)
      ensures AtMost(Controls(), old(Controls()), if old(GroupIsDue(now)) then 1 else 0)
      ensures (old(Spare()) ==> Calm()) && (old(Calm() && !GroupIsDue(now)) ==> Calm())
    {
      hide King.Boxes, King.BoxesFine, King.Calm, King.Spare, King.Controls, Ordered, Reply, OwnersGrow, AsTold, King.Room,
        King.GroupIsDue, King.WorkFinished, King.Lessens, AtMost, King.Valid, QueenBox.Valid;
      BoxesApart();
      Hear(queen, now);
      ghost var b, between := boxes[queen].Value(), Controls();
      written := Serve(queen, num);
      AtMostSum(Controls(), between, old(Controls()), if old(GroupIsDue(now)) then 1 else 0, 0);
      assert written == Reply(b.out, |b.pool.records.queue|, old(boxes[queen].fd), num);
    }

    /** The queen is answered, and somebody may get a site. */
    method Serve(queen: string, num: int) returns (written: seq<string>)
      requires Valid() && queen in boxes
      modifies this`ended, Boxes()`importantMsg, Boxes()`sentUrls, Boxes()`messageSent,
               this`site2Queen, this`moving, this`messageBuf, this`pool, this`lost, this`spilled, this`spoiled, this`strays, this`boxes, this`received, this`handed,
               Boxes()`outMsg, Boxes()`pool, Boxes()`lost, Boxes()`spilled, Boxes()`received, Boxes()`spoiled, Boxes()`strays,
               Boxes()`siteNum, Boxes()`free, Boxes()`activeReq
      ensures Valid() && StaysCalm() && Kept(old(boxes), old(Boxes()))
      ensures OwnersGrow(old(site2Queen), old(messageBuf), old(boxes).Keys, site2Queen)
      ensures written == old(Reply(boxes[queen].outMsg, |boxes[queen].pool.records.queue|, boxes[queen].fd, num))
      ensures ended <==> old(ended) || WorkFinished()
      ensures old(messageBuf != [] && Room()) ==> site2Queen != old(site2Queen)
      ensures old(messageBuf) == [] ==> Value() == old(Value())
      ensures old(messageBuf) == [] ==> boxes[queen].free == old(boxes[queen].free) && Asked(boxes[queen], old(boxes[queen].activeReq))
      ensures !Lessens(old(pool), pool) && (spilled ==> old(spilled) || old(|messageBuf|) > BUFFER_HIGH)
      ensures AtMost(Controls(), old(Controls()), 0)
    {
      hide King.Boxes, King.BoxesFine, King.Calm, King.Controls, Ordered, Reply, OwnersGrow, King.Room, King.Best, King.WorkFinished, King.Lessens,
        AtMost;
      IsABox(queen);
      written := SendFrom(queen, num);
      ghost var between := Controls();
      Distribute();
      AtMostSum(Controls(), between, old(Controls()), 0, 0);
    }

    method Distribute()
      requires Valid()
      modifies this`ended, this`site2Queen, this`moving, this`messageBuf, this`pool, this`lost, this`spilled, this`spoiled, this`strays, this`boxes, this`received, this`handed,
               Boxes()`outMsg, Boxes()`pool, Boxes()`lost, Boxes()`spilled, Boxes()`received, Boxes()`spoiled, Boxes()`strays,
               Boxes()`siteNum, Boxes()`free, Boxes()`activeReq
      ensures Valid() && StaysCalm() && Kept(old(boxes), old(Boxes())) && AtMost(Controls(), old(Controls()), 0)
      ensures OwnersGrow(old(site2Queen), old(messageBuf), old(boxes).Keys, site2Queen)
      ensures ended <==> old(ended) || WorkFinished()
      ensures !Lessens(old(pool), pool) && (spilled ==> old(spilled) || old(|messageBuf|) > BUFFER_HIGH)
      ensures old(messageBuf != [] && Room()) ==> site2Queen != old(site2Queen)
      ensures old(messageBuf) == [] ==> Value() == old(Value()) && boxes == old(boxes) && forall q | q in boxes ::
        boxes[q].free == old(boxes[q].free) && boxes[q].activeReq == old(boxes[q].activeReq)
    {
      hide King.Boxes, King.BoxesFine, King.Calm, King.Controls, Ordered, OwnersGrow, King.Room, King.Best, King.WorkFinished, King.Lessens, AtMost;
      var _ := AssignSites();
      BoxesApart();
      Conclude();
    }

    method Conclude()
      modifies this`ended
      ensures ended <==> old(ended) || WorkFinished()
    {
      var finished := IsWorkFinished();
      assert forall b | b in Boxes() :: b as object != this;
      if finished {
        ended := true;
      }
    }

    /** She has asked once more, if she is there. */
    ghost predicate Asked(b: QueenBox, before: nat)
      reads b
    {
      b.activeReq == before + if b.fd < 0 then 0 else 1
    }

    method SendFrom(queen: string, num: int) returns (written: seq<string>)
      requires Valid() && queen in boxes
      modifies {boxes[queen]}`outMsg, {boxes[queen]}`pool, {boxes[queen]}`lost, {boxes[queen]}`spilled, {boxes[queen]}`spoiled, {boxes[queen]}`strays,
               {boxes[queen]}`importantMsg, {boxes[queen]}`sentUrls, {boxes[queen]}`messageSent, {boxes[queen]}`activeReq
      ensures Valid() && StaysCalm() && Value() == old(Value())
      ensures AtMost(Controls(), old(Controls()), 0)
      ensures boxes[queen].activeReq == old(boxes[queen].activeReq) + if boxes[queen].fd < 0 then 0 else 1
      ensures old(Room()) ==> Room()
      ensures written == old(Reply(boxes[queen].outMsg, |boxes[queen].pool.records.queue|, boxes[queen].fd, num))
    {
      hide King.BoxesFine, King.Calm, Ordered, Good, Reply, UrlsAmong, King.Value, Exchanged, TakenAll;
      CalmOne(queen);
      var box := boxes[queen];
      var k := Clamped(num, |box.outMsg|);
      TakenKeeps(box.Value(), k);
      ExchangedKeeps(TakenAll(box.Value(), k), true);
      var sent;
      sent, written := box.SendMessage(num);
      OneChanged(queen);
    }

    /** No message waits, and every queen that is there has no lines left, has had work and has none any more. */
    ghost predicate WorkFinished()
      reads this`boxes, this`messageBuf, Boxes()
    {
      && messageBuf == []
      && forall q | q in boxes && boxes[q].fd >= 0 :: boxes[q].outMsg == [] && 0 < boxes[q].maxLoad && boxes[q].load <= 0
    }

    method IsWorkFinished() returns (finished: bool)
      ensures finished <==> WorkFinished()
    {
      if |messageBuf| > 0 {
        return false;
      }
      finished := forall q | q in boxes :: boxes[q].IsWorkFinished();
    }

    /** When the work counts as finished, every accepted message was handed to the owner of its site if the buffer
        has never spilled.  If it has, and no message was too long for a pool, every accepted message was handed over
        or refused by a full pool, exactly if the king's pool is empty. */
    lemma FinishedMeans()
      requires Valid() && WorkFinished()
      ensures accepted + strays == Held(pool) + handed + lost + spoiled
      ensures !spilled ==> accepted == handed
      ensures Keeps() ==> (accepted == handed + lost <==> pool.records.queue == [])
    {
      hide Ordered, Keepable, King.BoxesFine;
      NoneWaits(Value(), siteOf);
    }

    /** Then a queen who is there, and from whose box nothing ever spilled, was sent everything that she owns, if
        the buffer never spilled either. */
    lemma SentToOwner(m: string)
      requires Valid() && WorkFinished() && !spilled && m in accepted
      ensures siteOf(Target(m)) in site2Queen
      ensures var q := site2Queen[siteOf(Target(m))];
        q in boxes && (boxes[q].Valid() && boxes[q].fd >= 0 && !boxes[q].spilled ==> boxes[q].sentUrls[m] == accepted[m])
    {
      hide Ordered, Target, Tidy, King.BoxesFine;
      FinishedMeans();
      HandedToOwner(Value(), m, siteOf);
      var q := site2Queen[siteOf(Target(m))];
      SameQueens();
      CalmOne(q);
      var b := boxes[q];
      if b.Valid() && b.fd >= 0 && !b.spilled {
        EmptyBoxSent(b.Value());
      }
    }

    lemma SameQueens()
      requires BoxesFine()
      ensures boxes.Keys == received.Keys
    {
    }

    /** If all queens are there and nothing ever spilled, every accepted message was sent to the owner of its site,
        and nothing else was sent. */
    lemma AllSent()
      requires Valid() && WorkFinished() && !spilled
      requires forall q | q in boxes :: boxes[q].Valid() && boxes[q].fd >= 0 && !boxes[q].spilled
      ensures forall m | m in accepted ::
        siteOf(Target(m)) in site2Queen && site2Queen[siteOf(Target(m))] in boxes
        && boxes[site2Queen[siteOf(Target(m))]].sentUrls[m] == accepted[m]
      ensures forall q, m | q in boxes && m in boxes[q].sentUrls ::
        m in accepted && siteOf(Target(m)) in site2Queen && site2Queen[siteOf(Target(m))] == q
    {
      hide Ordered, Target, King.BoxesFine, Good, King.WorkFinished;
      forall m | m in accepted
        ensures siteOf(Target(m)) in site2Queen && site2Queen[siteOf(Target(m))] in boxes
        ensures boxes[site2Queen[siteOf(Target(m))]].sentUrls[m] == accepted[m]
      {
        SentToOwner(m);
      }
      FinishedMeans();
      forall q, m | q in boxes && m in boxes[q].sentUrls
        ensures m in accepted && siteOf(Target(m)) in site2Queen && site2Queen[siteOf(Target(m))] == q
      {
        CalmOne(q);
        SentWasReceived(boxes[q].Value(), m);
        OnlyOwnersHave(Value(), q, m, siteOf);
      }
    }

    /** LOAD: what the queen says she can take. */
    method Load(fd: int, free: int, load: int, now: int)
      requires Valid()
      modifies this`groupStart, Boxes()`load, Boxes()`maxLoad, Boxes()`importantMsg, Boxes()`groupMark,
               this`site2Queen, this`moving, this`messageBuf, this`pool, this`lost, this`spilled, this`spoiled, this`strays, this`boxes, this`received, this`handed,
               Boxes()`outMsg, Boxes()`pool, Boxes()`lost, Boxes()`spilled, Boxes()`received, Boxes()`spoiled, Boxes()`strays,
               Boxes()`siteNum, Boxes()`free, Boxes()`activeReq
      ensures Valid() && Kept(old(boxes), old(Boxes()))
      ensures OwnersGrow(old(site2Queen), old(messageBuf), old(boxes).Keys, site2Queen)
      ensures old(messageBuf != [] && RoomBeside(fd)) ==> site2Queen != old(site2Queen)
      ensures old(messageBuf) == [] ==> Value() == old(Value())
      ensures old(Registered(fd)) ==>
        exists q | q in old(boxes) && old(boxes[q].fd) == fd ::
          && q in boxes && boxes[q].load == load && (old(messageBuf) == [] ==> boxes[q].free == free)
          && boxes[q].maxLoad == if load > old(boxes[q].maxLoad) then load else old(boxes[q].maxLoad)
      ensures !Lessens(old(pool), pool) && (spilled ==> old(spilled) || old(|messageBuf|) > BUFFER_HIGH)
      ensures AtMost(Controls(), old(Controls()), if old(GroupIsDue(now)) then 1 else 0)
      ensures (old(Spare()) ==> Calm()) && (old(Calm() && !GroupIsDue(now)) ==> Calm())
    {
      hide King.Valid, King.Value, King.Boxes, King.BoxesFine, King.Calm, King.Spare, King.Controls, Ordered, OwnersGrow, King.Room, King.RoomBeside,
        King.Registered, King.GroupIsDue, King.Best, King.Lessens, QueenBox.Valid;
      BoxesApart();
      RoomIsRoom(fd);
      SpareIsCalm();
      var queen, found := BoxByFd(fd);
      if found {
        assert queen in old(boxes) && old(boxes[queen].fd) == fd;
        Note(queen, free, load, now);
      } else {
        var _ := AssignSites();
      }
    }

    method Note(queen: string, free: int, load: int, now: int)
      requires Valid() && queen in boxes
      modifies this`groupStart, Boxes()`load, Boxes()`maxLoad, Boxes()`importantMsg, Boxes()`groupMark,
               this`site2Queen, this`moving, this`messageBuf, this`pool, this`lost, this`spilled, this`spoiled, this`strays, this`boxes, this`received, this`handed,
               Boxes()`outMsg, Boxes()`pool, Boxes()`lost, Boxes()`spilled, Boxes()`received, Boxes()`spoiled, Boxes()`strays,
               Boxes()`siteNum, Boxes()`free, Boxes()`activeReq
      ensures Valid() && Kept(old(boxes), old(Boxes()))
      ensures OwnersGrow(old(site2Queen), old(messageBuf), old(boxes).Keys, site2Queen)
      ensures old(messageBuf != [] && RoomBeside(boxes[queen].fd)) ==> site2Queen != old(site2Queen)
      ensures old(messageBuf) == [] ==> Value() == old(Value()) && boxes[queen].free == free
      ensures boxes[queen].load == load && boxes[queen].maxLoad == if load > old(boxes[queen].maxLoad) then load else old(boxes[queen].maxLoad)
      ensures !Lessens(old(pool), pool) && (spilled ==> old(spilled) || old(|messageBuf|) > BUFFER_HIGH)
      ensures AtMost(Controls(), old(Controls()), if old(GroupIsDue(now)) then 1 else 0)
      ensures (old(Spare()) ==> Calm()) && (old(Calm() && !GroupIsDue(now)) ==> Calm())
    {
      hide King.Boxes, King.BoxesFine, King.Calm, King.Spare, King.Controls, Ordered, OwnersGrow, AsTold, King.Room,
        King.RoomBeside, King.GroupIsDue, King.Best, King.Lessens, AtMost, King.Valid, QueenBox.Valid;
      BoxesApart();
      IsABox(queen);
      SetLoad(queen, free, load);
      HearAndAssign(queen, now);
    }

    method HearAndAssign(queen: string, now: int)
      requires Valid() && queen in boxes
      modifies this`groupStart, Boxes()`importantMsg, Boxes()`groupMark,
               this`site2Queen, this`moving, this`messageBuf, this`pool, this`lost, this`spilled, this`spoiled, this`strays, this`boxes, this`received, this`handed,
               Boxes()`outMsg, Boxes()`pool, Boxes()`lost, Boxes()`spilled, Boxes()`received, Boxes()`spoiled, Boxes()`strays,
               Boxes()`siteNum, Boxes()`free, Boxes()`activeReq
      ensures Valid() && Kept(old(boxes), old(Boxes()))
      ensures OwnersGrow(old(site2Queen), old(messageBuf), old(boxes).Keys, site2Queen)
      ensures old(messageBuf != [] && Room()) ==> site2Queen != old(site2Queen)
      ensures old(messageBuf) == [] ==> Value() == old(Value()) && boxes[queen].free == old(boxes[queen].free)
      ensures !Lessens(old(pool), pool) && (spilled ==> old(spilled) || old(|messageBuf|) > BUFFER_HIGH)
      ensures AtMost(Controls(), old(Controls()), if old(GroupIsDue(now)) then 1 else 0)
      ensures (old(Spare()) ==> Calm()) && (old(Calm() && !GroupIsDue(now)) ==> Calm())
    {
      hide King.Boxes, King.BoxesFine, King.Calm, King.Spare, King.Controls, Ordered, OwnersGrow, AsTold, King.Room,
        King.GroupIsDue, King.Best, King.Lessens, AtMost, King.Valid, QueenBox.Valid;
      BoxesApart();
      Hear(queen, now);
      ghost var between := Controls();
      var _ := AssignSites();
      AtMostSum(Controls(), between, old(Controls()), if old(GroupIsDue(now)) then 1 else 0, 0);
    }

    method SetLoad(queen: string, free: int, load: int)
      requires Valid() && queen in boxes
      modifies {boxes[queen]}`free, {boxes[queen]}`load, {boxes[queen]}`maxLoad
      ensures Valid() && (old(Spare()) ==> Spare()) && StaysCalm()
      ensures old(RoomBeside(boxes[queen].fd)) ==> Room()
      ensures boxes[queen].free == free && boxes[queen].load == load
      ensures boxes[queen].maxLoad == if load > old(boxes[queen].maxLoad) then load else old(boxes[queen].maxLoad)
    {
      hide Ordered, Good, King.Room, King.RoomBeside;
      OtherBox(queen);
      boxes[queen].SetLoadInfo(free, load);
      RoomStays(queen);
    }

    twostate lemma RoomStays(queen: string)
      requires boxes == old(boxes) && queen in boxes
      requires forall q | q in boxes && q != queen :: boxes[q].activeReq == old(boxes[q].activeReq) && boxes[q].free == old(boxes[q].free)
      ensures old(RoomBeside(boxes[queen].fd)) ==> Room()
    {
    }

    ghost function BoxesOf(queen: string): set<QueenBox>
      reads this`boxes
    {
      set q | q in boxes && q == queen :: boxes[q]
    }

    /** HELLO: a queen, new or known, is connected, and the group is counted anew. */
    method Hello(fd: int, queen: string, group: bool, now: int)
      requires Valid()
      modifies this`boxes, this`received, this`groupStart, this`groupTime, Boxes()`groupMark, BoxesOf(queen)
      ensures Valid() && StaysCalm()
      ensures Value() == old(Value()).(received := old(received)[queen := Inbox(old(received), queen)])
      ensures boxes.Keys == old(boxes).Keys + {queen} && (forall q | q in old(boxes) :: boxes[q] == old(boxes[q]))
      ensures boxes[queen].fd == fd && boxes[queen].group == group
      ensures queen in old(boxes) ==> boxes[queen].Value() == Exchanged(Relieved(old(boxes[queen].Value())), fd >= 0)
      ensures queen !in old(boxes) ==> fresh(boxes[queen]) && boxes[queen].Value() == NewBox(poolsOpen, chance)
      ensures groupStart && groupTime == now && Marked() == {}
    {
      hide King.Boxes, King.Valid, King.Value, King.Calm, King.Marked, Relieved, Exchanged, QueenBox.Value, QueenBox.Valid, NewBox;
      Join(fd, queen, group);
      BoxesNow(queen);
      StartGroup(now);
    }

    twostate lemma BoxesNow(queen: string)
      requires queen in boxes && boxes.Keys == old(boxes).Keys + {queen} && forall q | q in old(boxes) :: boxes[q] == old(boxes[q])
      ensures forall b | b in Boxes() :: b in old(Boxes()) || b == boxes[queen]
    {
    }

    method Join(fd: int, queen: string, group: bool)
      requires Valid()
      modifies this`boxes, this`received, BoxesOf(queen)
      ensures Valid() && StaysCalm() && Value() == old(Value()).(received := old(received)[queen := Inbox(old(received), queen)])
      ensures boxes.Keys == old(boxes).Keys + {queen} && (forall q | q in old(boxes) :: boxes[q] == old(boxes[q]))
      ensures boxes[queen].fd == fd && boxes[queen].group == group
      ensures queen in old(boxes) ==> boxes[queen].Value() == Exchanged(Relieved(old(boxes[queen].Value())), fd >= 0)
      ensures queen !in old(boxes) ==> fresh(boxes[queen]) && boxes[queen].Value() == NewBox(poolsOpen, chance)
    {
      hide King.BoxesFine, King.Boxes, King.Calm, Ordered, Relieved, Exchanged, QueenBox.Value, QueenBox.Valid, NewBox;
      BoxesApart();
      Joined(Value(), queen, siteOf);
      NothingToRefill(poolsOpen, chance, fd >= 0);
      var _ := BoxOf(queen);
      Connect(queen, fd, group);
    }

    method Connect(queen: string, fd: int, group: bool)
      requires BoxesFine() && queen in boxes
      modifies boxes[queen]
      ensures BoxesFine() && StaysCalm() && boxes[queen].fd == fd && boxes[queen].group == group
      ensures boxes[queen].Value() == Exchanged(Relieved(old(boxes[queen].Value())), fd >= 0)
    {
      hide King.BoxesFine, King.Calm, Good, Relieved, Exchanged;
      CalmOne(queen);
      var box := boxes[queen];
      RelievedKeeps(box.Value());
      ExchangedKeeps(Relieved(box.Value()), fd >= 0);
      box.EnableFd(fd, group);
      OneChanged(queen);
    }

    /** BYEBYE: the box of the queen goes to its pool, and the group is counted anew. */
    method Byebye(fd: int, now: int)
      requires Valid()
      modifies this`groupStart, this`groupTime, Boxes()`groupMark,
               Boxes()`fd, Boxes()`outMsg, Boxes()`importantMsg, Boxes()`pool, Boxes()`lost, Boxes()`spilled
      ensures Valid() && StaysCalm() && Value() == old(Value())
      ensures old(Registered(fd)) ==>
        exists q | q in boxes && old(boxes[q].fd) == fd ::
          boxes[q].fd == -1 && boxes[q].Value() == Closed(old(boxes[q].Value()))
      ensures groupStart && groupTime == now && Marked() == {}
    {
      hide Ordered, King.Boxes, King.BoxesFine, King.Calm, King.Marked, Closed, QueenBox.Value, QueenBox.Valid;
      BoxesApart();
      var queen, found := BoxByFd(fd);
      if found {
        IsABox(queen);
        Disconnect(queen);
      }
      StartGroup(now);
    }

    method Disconnect(queen: string)
      requires Valid() && queen in boxes
      modifies {boxes[queen]}`fd, {boxes[queen]}`outMsg, {boxes[queen]}`importantMsg, {boxes[queen]}`pool, {boxes[queen]}`lost, {boxes[queen]}`spilled
      ensures Valid() && StaysCalm() && Value() == old(Value())
      ensures boxes[queen].fd == -1 && boxes[queen].Value() == Closed(old(boxes[queen].Value()))
    {
      hide King.BoxesFine, King.Calm, Ordered, Good, King.Value;
      CalmOne(queen);
      boxes[queen].DisableFd();
      OneChanged(queen);
    }
  }

  /** What becomes of the box of a queen who leaves. */
  function Closed(b: Box): Box {
    if b.pool.open then Saved(b) else b
  }

  lemma LooksPostable(m: string)
    requires IsUrl(m) && OneLine(m)
    ensures Postable(m)
  {
  }

  lemma WholeHere(p: Pool, q: seq<string>, k: nat)
    requires Poppable(p) && !p.damaged && AllKeepable(q) && k < |q| && p.records.queue[0] == q[k]
    ensures Whole(p)
  {
  }

  /** An exchange keeps the mail of a box, and does not touch its count of control messages. */
  lemma ExchangedKeeps(b: Box, there: bool)
    ensures var c := Exchanged(b, there);
      && c.received == b.received && c.important == b.important
      && (b.important <= CONTROL_LIMIT ==> Spares(b))
  {
  }

  lemma TakenKeeps(b: Box, k: nat)
    requires k <= |b.out|
    ensures var c := TakenAll(b, k); c.received == b.received && c.important <= b.important
  {
    if k > 0 {
      TakenKeeps(b, k - 1);
    }
  }

  lemma RelievedKeeps(b: Box)
    ensures Relieved(b).received == b.received && Relieved(b).important <= b.important
  {
  }

  /** A box with an empty list that never spilled has sent all it was given. */
  lemma EmptyBoxSent(b: Box)
    requires Good(b) && b.out == [] && !b.spilled
    ensures b.sentUrls == b.received
  {
    hide Tidy;
    assert Urls(b) == multiset{} && Held(b.pool) == multiset{};
    assert b.received + b.strays == b.received;
  }

  lemma SentWasReceived(b: Box, m: string)
    requires Good(b) && !b.spilled && m in b.sentUrls
    ensures m in b.received
  {
    hide Tidy;
    assert b.received + b.strays == b.received;
  }

  lemma NothingToRefill(open: bool, chance: Chance, there: bool)
    ensures var b := NewBox(open, chance); Exchanged(Relieved(b), there) == b
  {
    var b := NewBox(open, chance);
    NothingMore(b, 0, BATCH);
    RefillsNext(b, 0);
  }
}
