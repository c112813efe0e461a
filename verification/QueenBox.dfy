/** The king's outbox for one queen, src/crawler/QueenData.cpp: a list of lines that spills into a pool,
    with the control messages in front. */
module QueenBoxes {
  import opened RingArithmetic
  import opened LineMessages
  import opened SpillPools
  import LinePool

  const SPILL_ABOVE := 10000
  const REFILL_BELOW := 1000
  const BATCH := 500

  predicate IsControl(line: string) {
    var p := Meant(line);
    p.Understood? && (p.msg.Group? || p.msg.Assign?)
  }

  predicate IsGroup(line: string) {
    var p := Meant(line);
    p.Understood? && p.msg.Group?
  }

  predicate IsUrl(line: string) {
    var p := Meant(line);
    p.Understood? && (p.msg.Refer? || p.msg.Redirect?)
  }

  /** A URL message as a connection delivers it. */
  predicate Postable(line: string) {
    IsUrl(line) && OneLine(line)
  }

  /** The first n entries are the control messages, a GROUP message only at the head. */
  predicate Tidy(out: seq<string>, n: int) {
    && 0 <= n <= |out|
    && (forall i | 0 <= i < n :: IsControl(out[i]) && (i > 0 ==> !IsGroup(out[i])))
    && forall i | n <= i < |out| :: OneLine(out[i])
  }

  // ---------------------------------------------------------------------------------------------
  // The accounts of a box

  /** The list, the pool, and what has become of the URL messages put into the box: those sent, those a full pool
      refused, those that did not come back from a pool as they were, and the lines that came in their stead. */
  datatype Box = Box(out: seq<string>, important: int, pool: Pool,
                     received: multiset<string>, sentUrls: multiset<string>, lost: multiset<string>,
                     spoiled: multiset<string>, strays: multiset<string>, spilled: bool)

  function NewBox(open: bool, chance: Chance): Box {
    Box([], 0, NewPool(open, chance), multiset{}, multiset{}, multiset{}, multiset{}, multiset{}, false)
  }

  function Urls(b: Box): multiset<string>
    requires 0 <= b.important <= |b.out|
  {
    multiset(b.out[b.important..])
  }

  /** Every URL message put into the box is in exactly one place, and so is every stray line. */
  ghost predicate Conserved(b: Box) {
    && 0 <= b.important <= |b.out|
    && b.received + b.strays == Urls(b) + Held(b.pool) + b.sentUrls + b.lost + b.spoiled
    && AllLines(b.pool.records.queue) && |b.lost| == b.pool.records.discarded
  }

  /** Nothing is spoiled unless a message was too long for the pool. */
  ghost predicate Unspoiled(b: Box) {
    (forall m | m in b.received :: Keepable(m)) ==> b.spoiled == multiset{} && b.strays == multiset{} && !b.pool.damaged
  }

  /** Nothing has come to a pool that nothing went into. */
  ghost predicate Unspilled(b: Box) {
    !b.spilled ==> b.pool.records.queue == [] && b.lost == multiset{} && b.spoiled == multiset{} && b.strays == multiset{}
  }

  ghost predicate Good(b: Box) {
    Tidy(b.out, b.important) && Conserved(b) && Unspoiled(b) && Unspilled(b)
  }

  lemma InRange(b: Box)
    ensures Good(b) ==> 0 <= b.important <= |b.out|
  {
  }

  /** What leaves the list goes to the pool or is refused. */
  lemma Rearranged(a: multiset<string>, l: multiset<string>, p: multiset<string>, s: multiset<string>, t: multiset<string>,
                   x: multiset<string>, q: multiset<string>, r: multiset<string>)
    requires q + r == p + l
    ensures (a + l) + p + s + t + x == a + q + s + (t + r) + x
  {
    forall m: string ensures ((a + l) + p + s + t + x)[m] == (a + q + s + (t + r) + x)[m] {
      assert (q + r)[m] == (p + l)[m];
    }
  }

  // Spilling

  function SpilledOne(b: Box): Box
    requires b.out != []
  {
    var k := |b.out| - 1;
    b.(out := b.out[..k], pool := Pushed(b.pool, b.out[k]), lost := b.lost + Refusal(b.pool, b.out[k]), spilled := true)
  }

  function Spills(b: Box, n: nat): (c: Box)
    requires n <= |b.out|
    ensures c.out == b.out[..|b.out| - n] && c.important == b.important && c.received == b.received
  {
    if n == 0 then b else SpilledOne(Spills(b, n - 1))
  }

  lemma SpillsNone(b: Box)
    ensures Spills(b, 0) == b
  {
  }

  lemma SpillsNext(b: Box, n: nat)
    requires n < |b.out|
    ensures Spills(b, n + 1) == SpilledOne(Spills(b, n))
  {
  }

  lemma SpillOne(b: Box)
    requires Good(b) && b.important < |b.out|
    ensures Good(SpilledOne(b))
  {
    hide OneLine, IsControl, IsGroup, Pushed, Refusal, Keepable, Held, Conserved;
    SpillConserved(b);
    PushOne(b.pool, b.out[|b.out| - 1]);
  }

  lemma SpillConserved(b: Box)
    requires Conserved(b) && b.important < |b.out| && OneLine(b.out[|b.out| - 1])
    ensures Conserved(SpilledOne(b))
  {
    hide OneLine, Pushed, Refusal, Held;
    var k := |b.out| - 1;
    var c, l := SpilledOne(b), b.out[k];
    PushOne(b.pool, l);
    assert b.out[b.important..] == c.out[b.important..] + [l];
    assert Urls(b) == Urls(c) + multiset{l};
    Rearranged(Urls(c), multiset{l}, Held(b.pool), b.sentUrls, b.lost, b.spoiled, Held(c.pool), Refusal(b.pool, l));
  }

  lemma {:induction false} SpillsGood(b: Box, n: nat)
    requires Good(b) && b.important + n <= |b.out|
    ensures Good(Spills(b, n))
  {
    hide Good, SpilledOne;
    InRange(b);
    if n > 0 {
      SpillsGood(b, n - 1);
      SpillOne(Spills(b, n - 1));
    }
  }

  /** Into a pool with room the tail of the list goes line by line, the last one first. */
  lemma {:induction false} SpillsWhole(b: Box, n: nat)
    requires Roomy(b.pool) && n <= |b.out| && n <= BATCH && forall l | l in b.out :: Keepable(l) && OneLine(l)
    ensures var q, c := b.pool.records.queue, Spills(b, n);
      && c.pool == b.pool.(records := b.pool.records.(queue := c.pool.records.queue)) && c.lost == b.lost
      && |c.pool.records.queue| == |q| + n && c.pool.records.queue[..|q|] == q
      && (forall l | l in c.pool.records.queue :: Keepable(l))
      && forall i | |q| <= i < |q| + n :: c.pool.records.queue[i] == b.out[|b.out| - 1 - (i - |q|)]
  {
    hide Keepable, OneLine, Pushed, Spills;
    if n == 0 {
      SpillsNone(b);
    } else {
      SpillsWhole(b, n - 1);
      SpillsNext(b, n - 1);
      var c := Spills(b, n - 1);
      var l := c.out[|c.out| - 1];
      assert l == b.out[|b.out| - n] && l in b.out;
      RoomForOne(c.pool, l);
      TakenIn(c.pool, l);
    }
  }

  // Refilling

  /** One pop, if there is something to pop. */
  function RefilledOne(b: Box): Box {
    var p := b.pool;
    if !Poppable(p) then b
    else if Whole(p) then b.(out := b.out + Read(p), pool := AfterPop(p))
    else b.(out := b.out + Read(p), pool := AfterPop(p),
            spoiled := b.spoiled + multiset(Gone(p)), strays := b.strays + multiset(Read(p)))
  }

  function Refills(b: Box, n: nat): (c: Box)
    ensures b.out <= c.out && c.important == b.important && c.received == b.received
  {
    if n == 0 then b else RefilledOne(Refills(b, n - 1))
  }

  lemma RefillOne(b: Box)
    requires Good(b)
    ensures Good(RefilledOne(b))
  {
    hide OneLine, IsControl, IsGroup, Keepable, Read, AfterPop, Gone, Whole, Held;
    var p, c := b.pool, RefilledOne(b);
    if Poppable(p) {
      PopOne(p);
      ReadLines(p);
      assert c.out[b.important..] == b.out[b.important..] + Read(p);
      assert Urls(c) == Urls(b) + multiset(Read(p));
      if Whole(p) {
        Rearranged(Urls(b), multiset(Read(p)), Held(c.pool), b.sentUrls, b.lost, b.spoiled, Held(p), multiset{});
      } else {
        Spoiling(b.received, b.strays, Urls(b), Held(c.pool), multiset(Gone(p)), b.sentUrls, b.lost, b.spoiled, multiset(Read(p)));
        NotAllKeepable(b);
      }
    }
  }

  lemma Spoiling(r: multiset<string>, t: multiset<string>, u: multiset<string>, p: multiset<string>, g: multiset<string>,
                 s: multiset<string>, l: multiset<string>, x: multiset<string>, n: multiset<string>)
    requires r + t == u + (p + g) + s + l + x
    ensures r + (t + n) == (u + n) + p + s + l + (x + g)
  {
    assert r + (t + n) == (r + t) + n;
    assert (u + n) + p + s + l + (x + g) == (u + (p + g) + s + l + x) + n;
  }

  /** If a message does not come back as it was, one was too long or held a NUL. */
  lemma NotAllKeepable(b: Box)
    requires Conserved(b) && Unspoiled(b) && Poppable(b.pool) && !Whole(b.pool)
    ensures exists m :: m in b.received && !Keepable(m)
  {
    hide Keepable;
    var h := b.pool.records.queue[0];
    if forall m | m in b.received :: Keepable(m) {
      assert h in Held(b.pool);
      assert h in b.received + b.strays;
    }
  }

  lemma RefillsNext(b: Box, n: nat)
    ensures Refills(b, 0) == b && Refills(b, n + 1) == RefilledOne(Refills(b, n))
  {
  }

  /** From a pool that gives back what it holds, its oldest lines come back in their order. */
  lemma {:induction false} RefillsWhole(b: Box, n: nat)
    requires b.pool.open && !b.pool.damaged && AllKeepable(b.pool.records.queue)
    ensures var q, c := b.pool.records.queue, Refills(b, n);
      var k := if n < |q| then n else |q|;
      && c.out == b.out + q[..k] && c.pool.records.queue == q[k..] && c.pool.open && !c.pool.damaged
      && c.spoiled == b.spoiled && c.strays == b.strays
  {
    hide Keepable, Refills, Read, AfterPop, Gone;
    var q := b.pool.records.queue;
    if n == 0 {
      RefillsNext(b, 0);
    } else {
      RefillsWhole(b, n - 1);
      RefillsNext(b, n - 1);
      var c := Refills(b, n - 1);
      if n <= |q| {
        assert c.pool.records.queue[0] == q[n - 1] && q[n - 1] in q;
        PopOne(c.pool);
        assert q[..n] == q[..n - 1] + [q[n - 1]];
      }
    }
  }

  lemma {:induction false} RefillsGood(b: Box, n: nat)
    requires Good(b)
    ensures Good(Refills(b, n))
  {
    hide Good, RefilledOne;
    if n > 0 {
      RefillsGood(b, n - 1);
      RefillOne(Refills(b, n - 1));
    }
  }

  /** A list that is too long loses its tail; a short one, while the queen is there, is refilled. */
  function Exchanged(b: Box, there: bool): Box {
    if |b.out| > SPILL_ABOVE then Spills(b, BATCH)
    else if there && |b.out| < REFILL_BELOW then Refills(b, BATCH)
    else b
  }

  /** The spill is within the URL messages. */
  predicate Spares(b: Box) {
    |b.out| <= SPILL_ABOVE || b.important <= |b.out| - BATCH
  }

  /** Above 10000 lines the last 500 leave the list.  Below 1000, if the queen is there, the oldest lines of a sound
      pool join it, up to 500.  Otherwise nothing changes. */
  lemma ExchangedMeans(b: Box, there: bool)
    ensures var c, n := Exchanged(b, there), |b.out|;
      && c.important == b.important && c.received == b.received
      && (n > 10000 ==> c.out == b.out[..n - 500])
      && (n <= 10000 && (!there || 1000 <= n) ==> c == b)
      && (there && n < 1000 && b.pool.open && !b.pool.damaged && AllKeepable(b.pool.records.queue) ==>
            var q := b.pool.records.queue;
            var k := if |q| < 500 then |q| else 500;
            c.out == b.out + q[..k] && c.pool.records.queue == q[k..])
  {
    hide AllKeepable, Spills, Refills;
    if |b.out| < REFILL_BELOW && b.pool.open && !b.pool.damaged && AllKeepable(b.pool.records.queue) {
      RefillsWhole(b, BATCH);
    }
  }

  lemma ExchangedGood(b: Box, there: bool)
    requires Good(b)
    ensures Good(Exchanged(b, there)) <==> Spares(b)
  {
    hide Good;
    if |b.out| > SPILL_ABOVE {
      if Spares(b) {
        SpillsGood(b, BATCH);
      } else {
        InRange(Spills(b, BATCH));
      }
    } else {
      RefillsGood(b, BATCH);
    }
  }

  // Adding

  function Added(b: Box, m: string): Box {
    b.(out := b.out + [m], received := b.received + multiset{m})
  }

  lemma AddOne(b: Box, m: string)
    requires Good(b) && Postable(m)
    ensures Good(Added(b, m))
  {
    hide OneLine, IsControl, IsGroup, Keepable, Conserved;
    AddConserved(b, m);
    assert forall x | x in b.received :: x in Added(b, m).received;
  }

  lemma AddConserved(b: Box, m: string)
    requires Conserved(b)
    ensures Conserved(Added(b, m))
  {
    hide OneLine;
    var c := Added(b, m);
    assert c.out[b.important..] == b.out[b.important..] + [m];
    assert Urls(c) == Urls(b) + multiset{m};
    Entering(b.received, multiset{m}, b.strays, Urls(b), Held(b.pool), b.sentUrls, b.lost, b.spoiled);
  }

  lemma Entering(r: multiset<string>, m: multiset<string>, t: multiset<string>, u: multiset<string>, p: multiset<string>,
                 s: multiset<string>, l: multiset<string>, x: multiset<string>)
    requires r + t == u + p + s + l + x
    ensures (r + m) + t == (u + m) + p + s + l + x
  {
    assert (r + m) + t == (r + t) + m;
    assert (u + m) + p + s + l + x == (u + p + s + l + x) + m;
  }

  function Inserted(b: Box, k: nat, l: string): Box
    requires k <= |b.out|
  {
    b.(out := b.out[..k] + [l] + b.out[k..], important := b.important + 1)
  }

  /** A control message goes in behind the first one, or first. */
  lemma InsertOne(b: Box, k: nat, l: string)
    requires Good(b) && k <= b.important && IsControl(l) && (IsGroup(l) ==> k == 0)
    requires k == 0 && b.important > 0 ==> !IsGroup(b.out[0])
    ensures Good(Inserted(b, k, l))
  {
    hide OneLine, IsControl, IsGroup, Keepable;
    var c := Inserted(b, k, l);
    assert c.out[c.important..] == b.out[b.important..];
    assert forall i | 0 <= i < k :: c.out[i] == b.out[i];
    assert c.out[k] == l;
    assert forall i | k < i < |c.out| :: c.out[i] == b.out[i - 1];
  }

  /** Where a new control message goes. */
  function Behind(b: Box): nat {
    if b.important > 0 && b.out != [] then 1 else 0
  }

  // Sending

  /** The head of the list leaves it: sent, or dropped when it is a control message. */
  lemma TakeOne(b: Box)
    requires Good(b) && b.out != []
    ensures Good(Taken(b))
  {
    hide OneLine, IsControl, IsGroup, Keepable;
    var c := Taken(b);
    assert forall i | 0 <= i < |c.out| :: c.out[i] == b.out[i + 1];
    if b.important > 0 {
      assert c.out[c.important..] == b.out[b.important..];
    } else {
      TakeUrl(b);
    }
  }

  lemma TakeUrl(b: Box)
    requires Conserved(b) && b.out != [] && b.important == 0
    ensures Conserved(Taken(b))
  {
    hide OneLine;
    var c := Taken(b);
    assert b.out == [b.out[0]] + c.out && b.out[0..] == b.out && c.out[0..] == c.out;
    assert Urls(b) == Urls(c) + multiset{b.out[0]};
    Moved(Urls(c), multiset{b.out[0]}, Held(b.pool), b.sentUrls, b.lost, b.spoiled);
  }

  lemma Moved(a: multiset<string>, l: multiset<string>, p: multiset<string>, s: multiset<string>, t: multiset<string>, x: multiset<string>)
    ensures (a + l) + p + s + t + x == a + p + (s + l) + t + x
  {
    assert (a + l) + p + s + t + x == (a + p + s + t + x) + l;
    assert a + p + (s + l) + t + x == (a + p + s + t + x) + l;
  }

  function Taken(b: Box): Box
    requires b.out != []
  {
    if b.important > 0 then b.(out := b.out[1..], important := b.important - 1)
    else b.(out := b.out[1..], sentUrls := b.sentUrls + multiset{b.out[0]})
  }

  function TakenAll(b: Box, k: nat): (c: Box)
    requires k <= |b.out|
    ensures c.out == b.out[k..] && c.pool == b.pool && c.received == b.received
  {
    if k == 0 then b else Taken(TakenAll(b, k - 1))
  }

  lemma {:induction false} TakeAll(b: Box, k: nat)
    requires Good(b) && k <= |b.out|
    ensures var c := TakenAll(b, k);
      Good(c) && c.important == (if b.important < k then 0 else b.important - k) && c.lost == b.lost
  {
    hide Good, Taken, TakenAll;
    InRange(b);
    if k == 0 {
      TakenNone(b);
    } else {
      TakeAll(b, k - 1);
      TakeOne(TakenAll(b, k - 1));
      TakenPart(TakenAll(b, k - 1));
      TakenNext(b, k - 1);
    }
  }

  /** Of the first k lines, those after n control messages. */
  function UrlsAmong(o: seq<string>, k: nat, n: nat): multiset<string>
    requires k <= |o|
  {
    if n < k then multiset(o[n..k]) else multiset{}
  }

  lemma OneMore(o: seq<string>, k: nat, n: nat)
    requires 0 < k <= |o|
    ensures UrlsAmong(o, k, n) == UrlsAmong(o, k - 1, n) + (if n < k then multiset{o[k - 1]} else multiset{})
  {
    if n < k - 1 {
      assert o[n..k] == o[n..k - 1] + [o[k - 1]];
    } else if n == k - 1 {
      assert o[n..k] == [o[k - 1]];
    }
  }

  /** Of the first k lines, the URL messages are now with the queen. */
  lemma {:induction false} TakeAllSent(b: Box, k: nat)
    requires Good(b) && k <= |b.out| && 0 <= b.important
    ensures TakenAll(b, k).sentUrls == b.sentUrls + UrlsAmong(b.out, k, b.important)
  {
    hide Good, Taken, TakenAll, UrlsAmong;
    if k == 0 {
      TakenNone(b);
      NoneYet(b.out, b.important);
    } else {
      TakeAllSent(b, k - 1);
      TakeAll(b, k - 1);
      TakenPart(TakenAll(b, k - 1));
      TakenNext(b, k - 1);
      assert TakenAll(b, k - 1).out[0] == b.out[k - 1];
      OneMore(b.out, k, b.important);
      Associate(b.sentUrls, UrlsAmong(b.out, k - 1, b.important), multiset{b.out[k - 1]});
    }
  }

  lemma NoneYet(o: seq<string>, n: nat)
    ensures UrlsAmong(o, 0, n) == multiset{}
  {
  }

  lemma Associate(a: multiset<string>, u: multiset<string>, x: multiset<string>)
    ensures (a + u) + x == a + (u + x) && a + (u + multiset{}) == a + u
  {
  }

  lemma TakenPart(b: Box)
    requires b.out != []
    ensures var c := Taken(b);
      && c.lost == b.lost && c.important == (if b.important > 0 then b.important - 1 else b.important)
      && c.sentUrls == if b.important > 0 then b.sentUrls else b.sentUrls + multiset{b.out[0]}
  {
  }

  lemma TakenNone(b: Box)
    ensures TakenAll(b, 0) == b
  {
  }

  lemma TakenNext(b: Box, k: nat)
    requires k < |b.out|
    ensures TakenAll(b, k + 1) == Taken(TakenAll(b, k))
  {
  }

  // Saving

  function Clamped(n: int, most: nat): (k: nat)
    ensures k <= most
  {
    if n < 0 then 0 else if n < most then n else most
  }

  /** The outbox is saved: as many lines as there are control messages are dropped from its head, the others go to
      the pool in their order. */
  function Saved(b: Box): Box {
    var urls := b.out[Clamped(b.important, |b.out|)..];
    b.(out := [], important := 0, pool := PushedAll(b.pool, urls), lost := b.lost + RefusalAll(b.pool, urls),
        spilled := b.spilled || urls != [])
  }

  lemma SaveAll(b: Box)
    requires Good(b)
    ensures Good(Saved(b))
  {
    hide OneLine, IsControl, IsGroup, Keepable, Held, PushedAll, RefusalAll, Conserved;
    SaveConserved(b);
    InList(b);
    PushAll(b.pool, b.out[b.important..]);
    PushedNone(b.pool);
  }

  lemma InList(b: Box)
    requires Good(b)
    ensures 0 <= b.important <= |b.out| && Clamped(b.important, |b.out|) == b.important && AllLines(b.out[b.important..])
  {
    hide OneLine, IsControl, IsGroup;
    var urls := b.out[b.important..];
    assert forall i | 0 <= i < |urls| :: urls[i] == b.out[b.important + i];
  }

  lemma SaveConserved(b: Box)
    requires Good(b)
    ensures Conserved(Saved(b))
  {
    InList(b);
    hide OneLine, Held, PushedAll, RefusalAll, Tidy, Unspoiled, Unspilled;
    var c, urls := Saved(b), b.out[b.important..];
    PushAll(b.pool, urls);
    assert Urls(c) == multiset{};
    assert multiset{} + Urls(b) == multiset(urls);
    Rearranged(multiset{}, Urls(b), Held(b.pool), b.sentUrls, b.lost, b.spoiled, Held(c.pool), RefusalAll(b.pool, urls));
  }

  function Between(o: seq<string>, n: nat, j: nat): seq<string> {
    if n <= j <= |o| then o[n..j] else []
  }

  lemma PushedNext(p: Pool, o: seq<string>, n: nat, j: nat)
    requires n <= j < |o|
    ensures PushedAll(p, Between(o, n, j + 1)) == Pushed(PushedAll(p, Between(o, n, j)), o[j])
    ensures RefusalAll(p, Between(o, n, j + 1)) == RefusalAll(p, Between(o, n, j)) + Refusal(PushedAll(p, Between(o, n, j)), o[j])
  {
    hide Pushed, Refusal;
    assert o[n..j + 1][..j - n] == o[n..j];
  }

  // Groups

  /** A GROUP message can only be at the head. */
  function Ungrouped(out: seq<string>, important: int): seq<string> {
    if important > 0 && out != [] && IsGroup(out[0]) then out[1..] else out
  }

  function Relieved(b: Box): Box {
    var out := Ungrouped(b.out, b.important);
    b.(out := out, important := b.important - (|b.out| - |out|))
  }

  lemma RelieveOne(b: Box)
    requires Good(b)
    ensures Good(Relieved(b)) && forall l | l in Relieved(b).out[..Relieved(b).important] :: !IsGroup(l)
  {
    hide Conserved, IsControl, IsGroup;
    if b.important > 0 && b.out != [] && IsGroup(b.out[0]) {
      TakeOne(b);
      var c := Taken(b);
      assert c == Relieved(b);
      assert forall i | 0 <= i < c.important :: c.out[i] == b.out[i + 1];
    }
  }

  /** Being told about her group, a member has the new size in front, a queen outside has none, and otherwise her list
      is as it was. */
  lemma ToldOfGroup(b: Box, size: int)
    requires Good(b) && 0 <= size < TWO32
    ensures var c := Inserted(Relieved(b), 0, Line(Group(size)));
      && c.out != [] && Meant(c.out[0]) == Understood(Group(size)) && c.out[1..] == Relieved(b).out
      && forall l | l in Relieved(b).out[..Relieved(b).important] :: !IsGroup(l)
    ensures var r := Relieved(b);
      || (r.out == b.out && r.important == b.important)
      || (b.out != [] && IsGroup(b.out[0]) && r.out == b.out[1..] && r.important == b.important - 1)
  {
    hide Good, Line, Meant;
    ParsedAsComposed(Group(size));
    RelieveOne(b);
  }

  /** What a queen that asks for up to `n` lines gets of a list. */
  function Head(o: seq<string>, n: int): seq<string> {
    o[..Clamped(n, |o|)]
  }

  /** The lines that a queen gets: from the head of her list, and how many are left for her. */
  function Reply(out: seq<string>, pooled: nat, fd: int, num: int): seq<string> {
    if fd < 0 then []
    else var sent := Head(out, num); sent + [Line(Left(|out| - |sent| + pooled))]
  }

  /** A queen that is there gets lines from the head of her list, as many as she asks for if there are, and then a
      LEFT message: the lines sent, and those left for her, are all that were kept. */
  lemma ReplyMeans(out: seq<string>, pooled: nat, fd: int, num: int)
    requires 0 <= fd
    ensures var written := Reply(out, pooled, fd, num);
      && written != []
      && var k, p := |written| - 1, Meant(written[|written| - 1]);
      && written[..k] == out[..k] && k <= |out| && (k == |out| || k == if num < 0 then 0 else num) && (0 <= num ==> k <= num)
      && p.Understood? && p.msg.Left? && k + p.msg.left == |out| + pooled
  {
    hide Meant, Line;
    var k := Clamped(num, |out|);
    ParsedAsComposed(Left(|out| - k + pooled));
  }

  lemma AssignIsControl(site: string, queen: string)
    ensures IsControl(Line(Assign(site, queen))) && !IsGroup(Line(Assign(site, queen)))
  {
    hide Meant, Line;
    ParsedAsComposed(Assign(site, queen));
  }

  lemma GroupIsControl(size: int)
    requires 0 <= size < TWO32
    ensures IsControl(Line(Group(size))) && IsGroup(Line(Group(size)))
  {
    hide Meant, Line;
    ParsedAsComposed(Group(size));
  }

  /** The type that `setMsgString` finds is GROUP exactly for group messages. */
  lemma GroupOnly(line: string)
    ensures IsGroup(line) <==> Meant(line).Understood? && Meant(line).msg.Group?
  {
  }

  lemma ReferIsPostable(referer: string, url: string, anchor: string)
    ensures Postable(Line(Refer(referer, url, anchor)))
  {
    LineClean(Refer(referer, url, anchor));
    ParsedAsComposed(Refer(referer, url, anchor));
  }

  /** A box in order, with 9502 unread control messages and one line too many: a spill reaches the control
      messages. */
  lemma TooManyControls(chance: Chance)
    ensures var assign, url := Line(Assign("a.org", "queen")), Line(Refer("", "http://b.org/", ""));
      var o := seq(9502, _ => assign) + seq(499, _ => url);
      var b := Box(o, 9502, NewPool(true, chance), multiset(o[9502..]), multiset{}, multiset{}, multiset{}, multiset{}, false);
      Good(b) && !Spares(b)
  {
    hide IsControl, IsGroup, OneLine, Line;
    AssignIsControl("a.org", "queen");
    ReferIsPostable("", "http://b.org/", "");
  }

  // What the methods of a box do to its accounts

  lemma SendGood(b: Box, k: nat)
    requires k <= |b.out|
    ensures Good(b) ==> Good(TakenAll(b, k)) && TakenAll(b, k).sentUrls == b.sentUrls + UrlsAmong(b.out, k, b.important)
  {
    hide Good, TakenAll;
    if Good(b) {
      InRange(b);
      TakeAll(b, k);
      TakeAllSent(b, k);
    }
  }

  lemma TellGood(b: Box, site: string, queen: string)
    ensures Good(b) ==> Good(Inserted(b, Behind(b), Line(Assign(site, queen))))
  {
    hide Good, Line;
    if Good(b) {
      AssignIsControl(site, queen);
      InRange(b);
      InsertOne(b, Behind(b), Line(Assign(site, queen)));
    }
  }

  lemma RelieveGood(b: Box)
    ensures var c := Relieved(b);
      Good(b) ==> Good(c) && 0 <= c.important <= |c.out| && forall l | l in c.out[..c.important] :: !IsGroup(l)
  {
    hide Good;
    if Good(b) {
      RelieveOne(b);
      InRange(Relieved(b));
    }
  }

  lemma GroupGood(b: Box, size: int)
    requires 0 <= size < TWO32
    ensures Good(b) ==> Good(Inserted(Relieved(b), 0, Line(Group(size))))
  {
    hide Good, Line, Relieved;
    if Good(b) {
      GroupIsControl(size);
      RelieveGood(b);
      var c := Relieved(b);
      assert c.important > 0 ==> c.out[0] in c.out[..c.important];
      InsertOne(c, 0, Line(Group(size)));
    }
  }

  lemma SaveGood(b: Box)
    ensures Good(b) ==> Good(Saved(b))
  {
    hide Good;
    if Good(b) {
      SaveAll(b);
    }
  }

  class QueenBox {
    const name: string
    var fd: int
    var group: bool
    var outMsg: seq<string>
    var importantMsg: int
    var pool: Pool
    var free: int
    var load: int
    var maxLoad: int
    var siteNum: nat
    var activeReq: nat
    var messageSent: nat
    var groupMark: bool
    ghost var received: multiset<string>  // the URL messages put into the box
    ghost var sentUrls: multiset<string>  // those written to the queen
    ghost var lost: multiset<string>      // those its pool had no room for
    ghost var spoiled: multiset<string>   // those its pool did not give back as they were
    ghost var strays: multiset<string>    // the lines that it gave instead
    ghost var spilled: bool               // whether a URL message ever went to the pool

    ghost function Value(): Box
      reads this
    {
      Box(outMsg, importantMsg, pool, received, sentUrls, lost, spoiled, strays, spilled)
    }

    ghost predicate Valid()
      reads this
    {
      Good(Value())
    }

    /** What she can take; a queen that has not asked for messages since her last site counts as full. */
    function FreeNum(): int
      reads this`activeReq, this`free
    {
      if activeReq == 0 then 0 else free
    }

    /** Nothing is left to do for the queen, or she is not there. */
    function IsWorkFinished(): (finished: bool)
      reads this`fd, this`outMsg, this`maxLoad, this`load
      ensures finished <==> (fd >= 0 ==> outMsg == [] && 0 < maxLoad && load <= 0)
    {
      if fd < 0 then true
      else if |outMsg| > 0 then false
      else maxLoad > 0 && load <= 0
    }

    /** A box for a new queen, with an empty pool file. */
    constructor (name: string, poolOpen: bool, chance: Chance)
      ensures Valid() && Value() == NewBox(poolOpen, chance) && this.name == name && fd == -1
      ensures !group && !groupMark && FreeNum() == 0
    {
      this.name := name;
      fd, group, outMsg, importantMsg := -1, false, [], 0;
      pool := NewPool(poolOpen, chance);
      free, load, maxLoad, siteNum, activeReq, messageSent, groupMark := -1, -1, -1, 0, 0, 0, false;
      received, sentUrls, lost, spoiled, strays := multiset{}, multiset{}, multiset{}, multiset{}, multiset{};
      spilled := false;
    }

    /** A long list spills its tail into the pool; a short one, while the queen is there, is refilled.  The
        accounts stay in order exactly when a spill reaches no control message. */
    method ExchangePool()
      modifies this`outMsg, this`pool, this`lost, this`spilled, this`spoiled, this`strays
      ensures Value() == Exchanged(old(Value()), fd >= 0)
      ensures old(Valid()) ==> (Valid() <==> old(Spares(Value())))
    {
      hide Good, Spills, Refills;
      if Valid() {
        ExchangedGood(Value(), fd >= 0);
      }
      if |outMsg| > SPILL_ABOVE {
        Spill();
      } else if fd >= 0 && |outMsg| < REFILL_BELOW {
        Refill();
      }
    }

    method Spill()
      requires |outMsg| > SPILL_ABOVE
      modifies this`outMsg, this`pool, this`lost, this`spilled
      ensures Value() == Spills(old(Value()), BATCH)
    {
      hide Pushed, Refusal, Spills;
      ghost var b := Value();
      SpillsNone(b);
      for i := 0 to BATCH
        invariant Value() == Spills(b, i)
      {
        SpillsNext(b, i);
        var l := outMsg[|outMsg| - 1];
        lost := lost + Refusal(pool, l);
        spilled := true;
        pool := Pushed(pool, l);
        outMsg := outMsg[..|outMsg| - 1];
      }
    }

    /** What a closed pool holds stays there. */
    method Refill()
      modifies this`outMsg, this`pool, this`spoiled, this`strays
      ensures Value() == Refills(old(Value()), BATCH)
    {
      hide Read, AfterPop, Gone, Whole, Refills;
      ghost var b := Value();
      RefillsNext(b, 0);
      for i := 0 to BATCH
        invariant Value() == Refills(b, i)
      {
        RefillsNext(b, i);
        if |pool.records.queue| <= 0 {
          NothingMore(b, i, BATCH);
          break;
        }
        if pool.open {
          if !Whole(pool) {
            spoiled := spoiled + multiset(Gone(pool));
            strays := strays + multiset(Read(pool));
          }
          outMsg := outMsg + Read(pool);
          pool := AfterPop(pool);
        }
      }
    }

    /** A URL message for the queen. */
    method AddOutMessage(msg: string)
      modifies this`outMsg, this`pool, this`lost, this`spilled, this`spoiled, this`strays, this`received
      ensures Value() == Exchanged(Added(old(Value()), msg), fd >= 0)
      ensures old(Valid()) && Postable(msg) ==> (Valid() <==> Spares(Added(old(Value()), msg)))
    {
      hide Good, Postable, Exchanged;
      if Valid() && Postable(msg) {
        AddOne(Value(), msg);
      }
      received := received + multiset{msg};
      outMsg := outMsg + [msg];
      ExchangePool();
    }

    method SendFront() returns (line: string)
      requires outMsg != []
      modifies this`outMsg, this`importantMsg, this`sentUrls, this`messageSent
      ensures Value() == Taken(old(Value())) && line == old(outMsg)[0] && messageSent == old(messageSent) + 1
    {
      line := outMsg[0];
      if importantMsg > 0 {
        importantMsg := importantMsg - 1;
      } else {
        sentUrls := sentUrls + multiset{line};
      }
      outMsg := outMsg[1..];
      messageSent := messageSent + 1;
    }

    method SendLines(maxMsgNum: int) returns (k: nat, written: seq<string>)
      modifies this`outMsg, this`importantMsg, this`sentUrls, this`messageSent
      ensures k == Clamped(maxMsgNum, |old(outMsg)|)
      ensures Value() == TakenAll(old(Value()), k)
      ensures written == old(outMsg)[..k] && messageSent == old(messageSent) + k
    {
      hide TakenAll, Taken;
      ghost var b := Value();
      TakenNone(b);
      k, written := 0, [];
      while k < maxMsgNum && |outMsg| > 0
        invariant k <= |b.out| && (k == 0 || k <= maxMsgNum) && Value() == TakenAll(b, k)
        invariant written == b.out[..k] && messageSent == old(messageSent) + k
      {
        assert outMsg[0] == b.out[k] && b.out[..k + 1] == b.out[..k] + [b.out[k]];
        TakenNext(b, k);
        var line := SendFront();
        written := written + [line];
        k := k + 1;
      }
    }

    /** Up to `maxMsgNum` lines from the head of the list go to the queen, then the number of all that is
        still kept for her; of these lines, those behind the control messages count as sent. */
    method SendMessage(maxMsgNum: int) returns (ok: bool, written: seq<string>)
      modifies this`outMsg, this`pool, this`lost, this`spilled, this`spoiled, this`strays, this`importantMsg, this`sentUrls, this`messageSent,
               this`activeReq
      ensures ok <==> fd >= 0
      ensures written == Reply(old(outMsg), |old(pool).records.queue|, fd, maxMsgNum)
      ensures var b, k := old(Value()), Clamped(maxMsgNum, |old(outMsg)|);
        && Value() == (if ok then Exchanged(TakenAll(b, k), true) else b)
        && messageSent == old(messageSent) + (if ok then k else 0) && activeReq == old(activeReq) + (if ok then 1 else 0)
        && (old(Valid()) ==>
              && TakenAll(b, k).sentUrls == b.sentUrls + UrlsAmong(b.out, k, b.important)
              && (Valid() <==> !ok || Spares(TakenAll(b, k))))
    {
      hide Good, TakenAll, Line, Exchanged, UrlsAmong, Spares;
      ok, written := false, [];
      SendGood(Value(), Clamped(maxMsgNum, |outMsg|));
      if fd < 0 {
        return;
      }
      activeReq := activeReq + 1;
      written := Write(maxMsgNum);
      ExchangePool();
      ok := true;
    }

    method Write(maxMsgNum: int) returns (written: seq<string>)
      requires fd >= 0
      modifies this`outMsg, this`importantMsg, this`sentUrls, this`messageSent
      ensures written == Reply(old(outMsg), |pool.records.queue|, fd, maxMsgNum)
      ensures var k := Clamped(maxMsgNum, |old(outMsg)|);
        Value() == TakenAll(old(Value()), k) && messageSent == old(messageSent) + k
    {
      hide TakenAll, Line;
      var k;
      k, written := SendLines(maxMsgNum);
      var left := new LineMessage();
      left.ComposeLeft(|outMsg| + |pool.records.queue|);
      written := written + [left.msgString];
    }

    /** Tells a group member who owns a site: once, and again after 200 more references to it. */
    method RedirectSite(site: string, queen: string, counts: map<string, int>) returns (counts': map<string, int>)
      modifies this`outMsg, this`importantMsg
      ensures var tell, b := group && Due(counts, site), old(Value());
        && Value() == (if tell then Inserted(b, Behind(b), Line(Assign(site, queen))) else b)
        && counts' == Told(counts, site, group)
      ensures old(Valid()) ==> Valid()
    {
      hide Good, Line;
      counts' := counts;
      if !group {
        return;
      }
      if site !in counts || counts[site] >= 200 {
        Insert(site, queen);
        counts' := counts'[site := 0];
      } else {
        counts' := counts'[site := counts'[site] + 1];
      }
    }

    method Insert(site: string, queen: string)
      modifies this`outMsg, this`importantMsg
      ensures var b := old(Value()); Value() == Inserted(b, Behind(b), Line(Assign(site, queen)))
      ensures old(Valid()) ==> Valid()
    {
      hide Good, Line;
      TellGood(Value(), site, queen);
      var k := 0;
      if importantMsg > 0 && |outMsg| > 0 {
        k := 1;
      }
      var msg := new LineMessage();
      msg.ComposeAssign(site, queen);
      outMsg := outMsg[..k] + [msg.msgString] + outMsg[k..];
      importantMsg := importantMsg + 1;
    }

    method DeleteGroupMsg()
      modifies this`outMsg, this`importantMsg
      ensures Value() == Relieved(old(Value()))
      ensures old(Valid()) ==> Valid() && forall l | l in outMsg[..importantMsg] :: !IsGroup(l)
    {
      hide Good, Meant;
      RelieveGood(Value());
      if |outMsg| == 0 || importantMsg <= 0 {
        return;
      }
      var msg := new LineMessage();
      msg.SetMsgString(outMsg[0]);
      GroupOnly(outMsg[0]);
      if msg.kind == GROUP {
        outMsg := outMsg[1..];
        importantMsg := importantMsg - 1;
      }
    }

    /** The group size goes first, in place of an older one. */
    method SendGroupMsg(size: int)
      requires 0 <= size < TWO32
      modifies this`outMsg, this`importantMsg
      ensures Value() == Inserted(Relieved(old(Value())), 0, Line(Group(size)))
      ensures old(Valid()) ==> Valid()
    {
      hide Good, Line, Relieved;
      GroupGood(Value(), size);
      DeleteGroupMsg();
      var msg := new LineMessage();
      msg.ComposeGroup(size);
      importantMsg := importantMsg + 1;
      assert outMsg[..0] + [msg.msgString] + outMsg[0..] == [msg.msgString] + outMsg;
      outMsg := [msg.msgString] + outMsg;
    }

    /** The list goes to the pool when the queen leaves; control messages do not, and no URL message is
        dropped unless the pool is full. */
    method SaveMsgToPool()
      modifies this`outMsg, this`importantMsg, this`pool, this`lost, this`spilled
      ensures Value() == if old(pool).open then Saved(old(Value())) else old(Value())
      ensures old(Valid()) ==> Valid()
    {
      hide Good, Clamped, PushedAll, RefusalAll;
      SaveGood(Value());
      if pool.open {
        spilled := spilled || outMsg[Clamped(importantMsg, |outMsg|)..] != [];
        SaveLines();
        outMsg := [];
        importantMsg := 0;
      }
    }

    method SaveLines()
      modifies this`importantMsg, this`pool, this`lost
      ensures var urls := outMsg[Clamped(old(importantMsg), |outMsg|)..];
        pool == PushedAll(old(pool), urls) && lost == old(lost) + RefusalAll(old(pool), urls)
    {
      hide Pushed, Refusal, PushedAll, RefusalAll;
      ghost var p, o, n := pool, outMsg, Clamped(importantMsg, |outMsg|);
      PushedNone(p);
      var j := 0;
      while j < |outMsg|
        invariant 0 <= j <= |o|
        invariant importantMsg == if old(importantMsg) <= 0 then old(importantMsg) else old(importantMsg) - Clamped(j, old(importantMsg))
        invariant pool == PushedAll(p, Between(o, n, j)) && lost == old(lost) + RefusalAll(p, Between(o, n, j))
        modifies this`importantMsg, this`pool, this`lost
      {
        if importantMsg > 0 {
          importantMsg := importantMsg - 1;
          assert Between(o, n, j + 1) == [] == Between(o, n, j);
        } else {
          PushedNext(p, o, n, j);
          lost := lost + Refusal(pool, outMsg[j]);
          pool := Pushed(pool, outMsg[j]);
        }
        j := j + 1;
      }
      assert Between(o, n, j) == o[n..];
    }

    method ClearGroupMark()
      modifies this`groupMark
      ensures !groupMark
    {
      groupMark := false;
    }

    method SetGroupMark()
      modifies this`groupMark
      ensures groupMark == (old(groupMark) || group)
    {
      if group {
        groupMark := true;
      }
    }

    /** One more site; she has to ask again before she gets another. */
    method TakeSite()
      modifies this`siteNum, this`free, this`activeReq
      ensures siteNum == old(siteNum) + 1 && FreeNum() == 0
      ensures free == old(free) - if old(free) > 1 || load > 20 then 1 else 0
    {
      siteNum := siteNum + 1;
      if free > 1 || load > 20 {
        free := free - 1;
      }
      activeReq := 0;
    }

    method SetLoadInfo(free: int, load: int)
      modifies this`free, this`load, this`maxLoad
      ensures this.free == free && this.load == load && maxLoad == if load > old(maxLoad) then load else old(maxLoad)
    {
      this.free := free;
      this.load := load;
      if load > maxLoad {
        maxLoad := load;
      }
    }

    method EnableFd(fd: int, group: bool)
      modifies this`fd, this`group, this`outMsg, this`importantMsg, this`pool, this`lost, this`spilled, this`spoiled, this`strays
      ensures this.fd == fd && this.group == group
      ensures Value() == Exchanged(Relieved(old(Value())), fd >= 0)
      ensures old(Valid()) ==> (Valid() <==> Spares(Relieved(old(Value()))))
    {
      hide Good, IsGroup, IsControl, Exchanged;
      this.fd := fd;
      this.group := group;
      DeleteGroupMsg();
      ExchangePool();
    }

    method DisableFd()
      modifies this`fd, this`outMsg, this`importantMsg, this`pool, this`lost, this`spilled
      ensures fd == -1 && Value() == if old(pool).open then Saved(old(Value())) else old(Value())
      ensures old(Valid()) ==> Valid()
    {
      hide Good, Saved;
      fd := -1;
      SaveMsgToPool();
    }
  }

  /** A queen is told about a site when nobody was yet, and again after 200 more references. */
  predicate Due(counts: map<string, int>, site: string) {
    site !in counts || counts[site] >= 200
  }

  /** The count of references to a site, as group members are told about it. */
  function Told(counts: map<string, int>, site: string, group: bool): map<string, int> {
    if !group then counts else counts[site := if Due(counts, site) then 0 else counts[site] + 1]
  }

  /** The counts after n references to a site that were noted for group members. */
  function Noted(counts: map<string, int>, site: string, n: nat): map<string, int> {
    if n == 0 then counts else Told(Noted(counts, site, n - 1), site, true)
  }

  /** Of a site that is new, group members are told at the first reference and at every 201st one after it. */
  lemma {:induction false} ToldEvery(counts: map<string, int>, site: string, n: nat)
    requires site !in counts
    ensures Due(Noted(counts, site, n), site) <==> n % 201 == 0
    ensures n > 0 ==> site in Noted(counts, site, n) && Noted(counts, site, n)[site] == (n - 1) % 201
    ensures forall other | other != site ::
      (other in Noted(counts, site, n) <==> other in counts) && (other in counts ==> Noted(counts, site, n)[other] == counts[other])
  {
    if n > 0 {
      ToldEvery(counts, site, n - 1);
    }
  }

  /** For a group member every reference changes the counts. */
  lemma ToldChanges(counts: map<string, int>, site: string)
    ensures Told(counts, site, true) != counts
  {
    var told := Told(counts, site, true);
    assert site in told && (site in counts ==> told[site] != counts[site]);
  }

  /** Popping an empty pool brings no more. */
  lemma {:induction false} NothingMore(b: Box, i: nat, n: nat)
    requires i <= n && Refills(b, i).pool.records.queue == []
    ensures Refills(b, n) == Refills(b, i)
    decreases n
  {
    hide Refills;
    if i < n {
      NothingMore(b, i, n - 1);
      RefillsNext(b, n - 1);
    }
  }
}
