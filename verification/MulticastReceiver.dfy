/** The receiving half of the `CMultiCast` object of src/commu/mcast.cpp: its receive loop over a buffer
    of session objects does what `Multicast.Run` says. */
module MulticastReceiver {
  import opened IndexQueues
  import opened MulticastSession
  import opened Multicast

  /** The buffer as plain data. */
  ghost function StatesOf(es: Entries<Session>): (b: Sessions)
    reads set e | e in es :: e.1
    ensures |b| == |es| && forall i | 0 <= i < |es| :: b[i] == (es[i].0, es[i].1.State())
  {
    if es == [] then [] else [(es[0].0, es[0].1.State())] + StatesOf(es[1..])
  }

  ghost predicate SendersAreKeys(es: Entries<Session>) {
    forall i | 0 <= i < |es| :: es[i].1.sender == es[i].0
  }

  lemma SamePlace(es: Entries<Session>, key: string)
    ensures Place(StatesOf(es), key) == Place(es, key)
    ensures HasKey(StatesOf(es), key) <==> HasKey(es, key)
    ensures Lookup(es, key).Some? ==> Known(StatesOf(es), key) == Lookup(es, key).value.State()
    ensures Lookup(es, key).None? ==> Known(StatesOf(es), key) == Fresh(key)
  {
    hide StatesOf;
    var b := StatesOf(es);
    var i, j := Place(es, key), Place(b, key);
    if i < |es| {
      assert b[i].0 == key;
    }
    if j < |b| {
      assert es[j].0 == key;
    }
  }

  lemma StatesWithout(es: Entries<Session>, key: string)
    ensures StatesOf(Without(es, key)) == Without(StatesOf(es), key)
  {
    hide StatesOf, Place, HasKey;
    SamePlace(es, key);
    var i := Place(es, key);
    if i < |es| {
      assert StatesOf(Erased(es, i)) == Erased(StatesOf(es), i);
    }
  }

  lemma WithoutLast(b: Sessions, key: string, s: SessionState)
    requires !HasKey(b, key)
    ensures Without(b + [(key, s)], key) == b == Without(b, key) && Known(b, key) == Fresh(key)
  {
    var c := b + [(key, s)];
    assert c[|b|].0 == key;
    assert Place(c, key) == |b|;
    assert Erased(c, |b|) == b;
  }

  lemma ReplaceAgain(b: Sessions, s: SessionState, t: SessionState)
    requires s.from == t.from
    ensures Replaced(Replaced(b, s), t) == Replaced(b, t)
    ensures Without(Replaced(b, s), s.from) == Without(b, s.from)
    ensures Place(Replaced(b, s), s.from) == Place(b, s.from)
  {
    var c := Replaced(b, s);
    assert forall i | 0 <= i < |b| :: c[i].0 == b[i].0;
  }

  lemma RunStep(before: seq<Arrival>, a: Arrival, limit: nat)
    requires Run(before, limit).History?
    ensures var h := Run(before, limit); Run(before + [a], limit) == Next(h.buffer, h.reports, h.deliveries, a, limit)
  {
    assert (before + [a])[..|before|] == before;
  }

  datatype Outcome = Nothing | Message(delivery: Delivery) | Threw | Divided

  /** The effect of a step on what can be seen. */
  ghost predicate Shows(h: Heard, outcome: Outcome, b: Sessions, rs: seq<Report>) {
    match h
    case AssembleThrew => outcome == Outcome.Threw
    case DivideByZero => outcome == Divided
    case Heard(b', rs', None) => outcome == Nothing && b == b' && rs == rs'
    case Heard(b', rs', Some(d)) => outcome == Message(d) && b == b' && rs == rs'
  }

  class Receiver {
    const buffer: IndexQueue<Session>
    const maxBufferSize: nat
    ghost var reports: seq<Report>  // the calls of onStatChange so far

    ghost var arrived: seq<Arrival>
    ghost var deliveries: seq<Delivery>

    ghost function Members(): set<Session>
      reads buffer
    {
      set e | e in buffer.Contents() :: e.1
    }

    ghost predicate Valid()
      reads buffer
    {
      buffer.Valid() && SendersAreKeys(buffer.Contents())
    }

    ghost function States(): Sessions
      reads buffer, Members()
    {
      StatesOf(buffer.Contents())
    }

    /** The object is where `Run` says it is after all that has arrived so far. */
    ghost predicate Tracks()
      reads this, buffer, Members()
    {
      Valid() && Run(arrived, maxBufferSize) == History(States(), reports, deliveries)
    }

    constructor (maxBufferSize: nat)
      ensures Tracks() && arrived == [] && deliveries == [] && this.maxBufferSize == maxBufferSize
      ensures fresh(buffer)
    {
      buffer := new IndexQueue<Session>();
      this.maxBufferSize := maxBufferSize;
      reports, arrived, deliveries := [], [], [];
    }

    /** The session at the front leaves; no other session is touched. */
    method EvictOne() returns (ok: bool)
      requires Valid() && States() != []
      modifies this`reports, buffer, Members()
      ensures Valid() && Members() <= old(Members())
      ensures var s := old(States())[0].1;
        && (ok <==> !DividesByZero(s.stat, s.msgNo + 1))
        && (ok ==> States() == old(States())[1..] && reports == old(reports) + [Report(Out, Closed(s, s.msgNo + 1))])
    {
      hide Agree, DividesByZero, Recalculated, StatesOf, View;
      ghost var es := buffer.Contents();
      buffer.Indexed();
      var front := buffer.PopFront();
      var removed := front.value.value;
      assert forall i | 0 <= i < |es| - 1 :: es[1..][i].1 != removed by {
        assert forall i | 0 <= i < |es| - 1 :: es[1..][i] == es[i + 1];
        assert es[0].1.sender == es[0].0;
      }
      var _, defined := removed.Recalc(removed.msgNo + 1);
      if defined {
        reports := reports + [Report(Out, removed.State())];
      }
      ok := defined;
    }

    method Evict() returns (ok: bool)
      requires Valid()
      modifies this`reports, buffer, Members()
      ensures Valid() && Members() <= old(Members())
      ensures Shows(Evicted(old(States()), old(reports), maxBufferSize), if ok then Nothing else Divided, States(), reports)
    {
      hide Receiver.Members, Receiver.Valid, Closed, DividesByZero;
      ghost var goal := Evicted(States(), reports, maxBufferSize);
      while |buffer.list| > maxBufferSize
        invariant Valid() && Members() <= old(Members())
        invariant Evicted(States(), reports, maxBufferSize) == goal
        decreases |buffer.list|
      {
        var defined := EvictOne();
        if !defined {
          return false;
        }
      }
      ok := true;
    }

    /** Sessions are told apart by their keys. */
    lemma Apart(c: Cell<Session>)
      requires Valid() && c in buffer.list
      ensures var es := buffer.Contents(); var i := Place(es, c.key);
        && i < |es| && es[i] == (c.key, c.value) && c.value.sender == c.key
        && forall j | 0 <= j < |es| && j != i :: es[j].1 != c.value && es[j].0 != c.key
    {
      ghost var p := buffer.Position(c);
      buffer.Indexed();
    }

    /** `assemble`, and to the back of the buffer with a session that has a message to hand out. */
    method Deliver(c: Cell<Session>, p: Packet, ghost b: Sessions) returns (outcome: Outcome)
      requires Valid() && c in buffer.list && States() == Replaced(b, c.value.State())
      modifies buffer`list, c.value
      ensures Valid() && Members() == old(Members())
      ensures Shows(Put(b, reports, old(c.value.State()), p), outcome, States(), reports)
    {
      hide Agree, Assembled, StatesOf, View, Place, Increasing;
      ghost var es, s := buffer.Contents(), c.value.State();
      Apart(c);
      SamePlace(es, c.key);
      var complete, message, threw := c.value.Assemble(p.frag, p.messageNum, p.fragNum, p.length);
      if threw {
        return Outcome.Threw;
      }
      ghost var t := c.value.State();
      assert States() == Replaced(old(States()), t);
      ReplaceAgain(b, s, t);
      if !complete {
        return Nothing;
      }
      buffer.MoveToBack(c);
      StatesWithout(es, c.key);
      SamePlace(es, c.key);
      ReplaceAgain(b, t, t);
      outcome := Message(Delivery(c.key, p.messageNum, message));
    }

    /** Starts the statistics of a session or ends an interval that is over, then delivers. */
    method Feed(c: Cell<Session>, p: Packet) returns (outcome: Outcome)
      requires Valid() && c in buffer.list
      modifies this`reports, buffer`list, c.value
      ensures Valid() && Members() == old(Members())
      ensures Shows(Fed(old(States()), old(reports), old(c.value.State()), p), outcome, States(), reports)
    {
      hide Agree, Put, StatesOf, View, Place, Increasing, Recalculated, EndMsgNo;
      ghost var b := States();
      Apart(c);
      SamePlace(buffer.Contents(), c.key);
      var session := c.value;
      if session.startMsgNo == INITIAL {
        var _, _ := session.Recalc(p.messageNum);
      } else if p.messageNum >= session.startMsgNo + INTERVAL {
        var _, defined := session.Recalc(p.messageNum);
        if !defined {
          return Divided;
        }
        reports := reports + [Report(Recalc, session.State())];
      }
      assert States() == Replaced(b, session.State());
      outcome := Deliver(c, p, b);
    }

    /** A session is taken out of the buffer. */
    method Detach(c: Cell<Session>)
      requires Valid() && c in buffer.list
      modifies buffer
      ensures Valid() && Members() <= old(Members()) - {c.value}
      ensures !HasKey(States(), c.key) && States() == Without(old(States()), c.key)
    {
      hide Agree, StatesOf, View, Place, Increasing;
      ghost var es := buffer.Contents();
      Apart(c);
      StatesWithout(es, c.key);
      buffer.Indexed();
      WithoutDistinct(es, c.key);
      var _ := buffer.Remove(c.key);
      SamePlace(buffer.Contents(), c.key);
    }

    /** A session is removed and its statistics are closed. */
    method Leave(c: Cell<Session>, n: int, status: Status) returns (outcome: Outcome)
      requires Valid() && c in buffer.list
      modifies this`reports, buffer, c.value
      ensures Valid() && Members() <= old(Members()) && !HasKey(States(), c.key)
      ensures outcome == if old(DividesByZero(c.value.Statistics(), n)) then Divided else Nothing
      ensures outcome == Nothing ==>
        && States() == Without(old(States()), c.key)
        && reports == old(reports) + [Report(status, Closed(old(c.value.State()), n))]
    {
      hide Receiver.Valid, StatesOf, View, HasKey, Without, DividesByZero, Recalculated;
      Detach(c);
      var removed := c.value;
      var _, defined := removed.Recalc(n);
      if !defined {
        return Divided;
      }
      reports := reports + [Report(status, removed.State())];
      outcome := Nothing;
    }

    /** A new session at the back. */
    method Open(from: string) returns (c: Cell<Session>)
      requires Valid() && !HasKey(States(), from)
      modifies buffer
      ensures Valid() && c in buffer.list && c.key == from && Members() == old(Members()) + {c.value} && fresh(c.value)
      ensures States() == old(States()) + [(from, Fresh(from))] && c.value.State() == Fresh(from)
    {
      hide Agree, StatesOf, View, Place, Increasing;
      SamePlace(buffer.Contents(), from);
      var session := new Session(from);
      var pushed := buffer.PushBack(from, session);
      c := pushed.value;
    }

    /** The session of a sender, new if there is none. */
    method Session(from: string) returns (c: Cell<Session>)
      requires Valid()
      modifies buffer
      ensures Valid() && c in buffer.list && c.key == from
      ensures Members() == old(Members()) + {c.value} && (forall s | s in Members() :: s in old(Members()) || fresh(s))
      ensures c.value.State() == Known(old(States()), from)
      ensures States() == if HasKey(old(States()), from) then old(States()) else old(States()) + [(from, Fresh(from))]
    {
      hide Agree, StatesOf, View, Place, Increasing, HasKey;
      SamePlace(buffer.Contents(), from);
      var found := buffer.Find(from);
      if found.None? {
        c := Open(from);
      } else {
        c := found.value;
        Apart(c);
      }
    }

    /** What the loop does with one datagram. */
    method Receive(from: string, p: Packet) returns (outcome: Outcome)
      requires Valid()
      modifies this`reports, buffer, Members()
      ensures Valid() && (forall s | s in Members() :: s in old(Members()) || fresh(s))
      ensures Shows(Received(old(States()), old(reports), from, p), outcome, States(), reports)
    {
      hide Agree, Fed, StatesOf, View, Place, Recalculated, DividesByZero, HasKey, Lookup, Receiver.Valid, Receiver.Members, Receiver.States;
      ghost var b := States();
      if !HasKey(b, from) {
        WithoutLast(b, from, Fresh(from));
      }
      var c := Session(from);
      if p.fragNum == -1 {
        outcome := Leave(c, p.messageNum, Shutdown);
      } else if p.messageNum < c.value.msgNo {
        outcome := Leave(c, c.value.msgNo + 1, Reset);
        if outcome == Nothing {
          c := Open(from);
          outcome := Feed(c, p);
        }
      } else {
        outcome := Feed(c, p);
      }
    }

    /** One turn of the loop. */
    method Turn(a: Arrival) returns (outcome: Outcome)
      requires Valid()
      modifies this`reports, buffer, Members()
      ensures Valid() && (forall s | s in Members() :: s in old(Members()) || fresh(s))
      ensures Shows(Heeded(old(States()), old(reports), a, maxBufferSize), outcome, States(), reports)
    {
      hide Receiver.Valid, Receiver.Members, Receiver.States, Evicted, Received;
      var ok := Evict();
      if !ok {
        return Divided;
      }
      outcome := Receive(a.from, a.packet);
    }

    /** Reads arrivals until a message is complete; stops at the last one where `recv` would wait. */
    method Recv(arrivals: seq<Arrival>) returns (used: nat, outcome: Outcome)
      requires Tracks()
      modifies this, buffer, Members()
      ensures used <= |arrivals| && (outcome == Nothing ==> used == |arrivals|)
      ensures outcome.Nothing? || outcome.Message? ==> Tracks() && arrived == old(arrived) + arrivals[..used]
      ensures match outcome
              case Nothing => deliveries == old(deliveries)
              case Message(d) => deliveries == old(deliveries) + [d]
              case _ => Run(old(arrived) + arrivals[..used], maxBufferSize) == Failed
    {
      hide Receiver.Valid, Receiver.Members, Receiver.States, Heeded, Run;
      used := 0;
      while used < |arrivals|
        invariant used <= |arrivals| && Tracks() && arrived == old(arrived) + arrivals[..used]
        invariant deliveries == old(deliveries) && (forall s | s in Members() :: s in old(Members()) || fresh(s))
      {
        var a := arrivals[used];
        outcome := Turn(a);
        used := used + 1;
        assert old(arrived) + arrivals[..used] == arrived + [a];
        RunStep(arrived, a, maxBufferSize);
        if outcome == Outcome.Threw || outcome == Divided {
          return;
        }
        assert forall s | s in Members() :: s as object != this;
        arrived := arrived + [a];
        if outcome.Message? {
          deliveries := deliveries + [outcome.delivery];
          return;
        }
      }
      outcome := Nothing;
    }
  }
}
