/** What the receive loop of src/commu/mcast.cpp tells its caller about the losses of each sender, and which
    sessions it drops. */
module MulticastReports {
  import opened IndexQueues
  import opened MulticastSession
  import opened Multicast
  import opened MulticastDelivery
  import opened MulticastRestarts

  // ---------------------------------------------------------------------------------------------
  // Losses

  /** Where an interval ends that is closed at `n`. */
  function IntervalEnd(start: int, n: int): int {
    if n < start + INTERVAL then n else n - n % INTERVAL
  }

  /** A report about a session that was closed at `n`: of the messages since the last one, the share that was not
      delivered. */
  ghost predicate Tells(r: Report, status: Status, s: SessionState, n: int) {
    var start, end := s.stat.startMsgNo, IntervalEnd(s.stat.startMsgNo, n);
    && r.status == status && r.session.from == s.from && r.session.delivered == s.delivered
    && start < end && r.session.stat.startMsgNo == end && r.session.stat.lostRatio == LostShare(s.delivered, start, end)
  }

  lemma ClosedTells(s: SessionState, n: int, status: Status)
    requires Steady(s) && s.msgNo < n
    ensures !DividesByZero(s.stat, n) && s.stat.startMsgNo != INITIAL && Tells(Report(status, Closed(s, n)), status, s, n)
  {
    LossExact(s, n);
  }

  /** What one packet is reported with. */
  ghost predicate ToldOf(more: seq<Report>, buffer: Sessions, from: string, p: Packet) {
    var s := Known(buffer, from);
    if p.fragNum == -1 then
      && |more| == 1
      && if HasKey(buffer, from) then Tells(more[0], Shutdown, s, p.messageNum)
         else more[0].status == Shutdown && more[0].session.from == from && more[0].session.stat.lostRatio == -1
    else if !HasKey(buffer, from) then more == []
    else if p.messageNum < s.msgNo then |more| == 1 && Tells(more[0], Reset, s, s.msgNo + 1)
    else if p.messageNum >= s.stat.startMsgNo + INTERVAL then |more| == 1 && Tells(more[0], Recalc, s, p.messageNum)
    else more == []
  }

  lemma ReportsAfterFed(buffer: Sessions, reports: seq<Report>, s: SessionState, p: Packet)
    requires s == Fresh(s.from) || (Steady(s) && s.msgNo <= p.messageNum)
    ensures var h := Fed(buffer, reports, s, p);
      h.Heard? ==>
        && reports <= h.reports
        && var more := h.reports[|reports|..];
           if s == Fresh(s.from) || p.messageNum < s.stat.startMsgNo + INTERVAL then more == []
           else |more| == 1 && Tells(more[0], Recalc, s, p.messageNum)
  {
    hide Assembled, Tells, Steady, Replaced, Without;
    if s != Fresh(s.from) {
      SteadyStarted(s);
      if p.messageNum >= s.stat.startMsgNo + INTERVAL {
        ClosedTells(s, p.messageNum, Recalc);
      }
    }
  }

  lemma SteadyStarted(s: SessionState)
    requires Steady(s)
    ensures 0 <= s.stat.startMsgNo <= s.msgNo < s.stat.startMsgNo + INTERVAL && s != Fresh(s.from)
  {
  }

  /** One packet is reported at most once, with the loss of the interval that it ends. */
  lemma ReceiveTells(buffer: Sessions, reports: seq<Report>, from: string, p: Packet)
    requires AllSteady(buffer) && (p.fragNum != -1 ==> 0 <= p.messageNum)
    requires p.fragNum == -1 && HasKey(buffer, from) ==> Known(buffer, from).msgNo < p.messageNum
    ensures var h := Received(buffer, reports, from, p);
      h.Heard? ==> reports <= h.reports && ToldOf(h.reports[|reports|..], buffer, from, p)
  {
    hide AllSteady, Steady, Tells, Fed, Recalculated, DividesByZero, Without;
    var s := Known(buffer, from);
    KnownSteady(buffer, from);
    if HasKey(buffer, from) {
      SteadyStarted(s);
    }
    if p.fragNum == -1 {
      if HasKey(buffer, from) {
        ClosedTells(s, p.messageNum, Shutdown);
      } else {
        ShutFresh(from, p.messageNum);
      }
    } else if p.messageNum < s.msgNo {
      ClosedTells(s, s.msgNo + 1, Reset);
      ReportsAfterFed(Without(buffer, from) + [(from, Fresh(from))], reports + [Report(Reset, Closed(s, s.msgNo + 1))], Fresh(from), p);
    } else if HasKey(buffer, from) {
      ReportsAfterFed(buffer, reports, s, p);
    } else {
      ReportsAfterFed(buffer + [(from, s)], reports, s, p);
    }
  }

  lemma ShutFresh(from: string, n: int)
    ensures !DividesByZero(Fresh(from).stat, n) && Closed(Fresh(from), n).stat.lostRatio == -1 && Closed(Fresh(from), n).from == from
  {
  }

  /** Each session that is dropped is reported, closed behind its last message. */
  lemma {:induction false} EvictTells(buffer: Sessions, reports: seq<Report>, limit: nat)
    requires AllSteady(buffer)
    ensures var h := Evicted(buffer, reports, limit);
      && h.Heard? && reports <= h.reports && |h.reports| - |reports| == |buffer| - |h.buffer|
      && |h.buffer| == (if |buffer| <= limit then |buffer| else limit) && h.buffer == buffer[|buffer| - |h.buffer|..]
      && forall i | 0 <= i < |buffer| - |h.buffer| ::
           Tells(h.reports[|reports| + i], Out, buffer[i].1, buffer[i].1.msgNo + 1)
    decreases |buffer|
  {
    hide Steady, Tells, Recalculated;
    if |buffer| > limit {
      var s := buffer[0].1;
      assert Steady(s);
      ClosedTells(s, s.msgNo + 1, Out);
      var more := reports + [Report(Out, Closed(s, s.msgNo + 1))];
      EvictTells(buffer[1..], more, limit);
      var h := Evicted(buffer[1..], more, limit);
      assert h.reports[|reports|] == more[|reports|];
      assert forall i | 0 < i < |buffer| - |h.buffer| :: buffer[i] == buffer[1..][i - 1] && |reports| + i == |more| + (i - 1);
    }
  }

  lemma SoundIsSteady(buffer: Sessions, sent: map<string, seq<string>>)
    requires AllSound(buffer, sent)
    ensures AllSteady(buffer)
  {
    hide DeliverySound, StatSound, BufferSound;
  }

  lemma GoodbyeIsLast(buffer: Sessions, from: string, p: Packet, sent: map<string, seq<string>>)
    requires AllSound(buffer, sent) && from in sent && Honest(p, sent[from]) && HasKey(buffer, from)
    ensures p.fragNum == -1 ==> Known(buffer, from).msgNo < p.messageNum
    ensures p.fragNum != -1 ==> 0 <= p.messageNum
  {
    KnownSound(buffer, from, sent);
  }

  /** For every sequence of packets that senders once sent: the reports of each turn of the loop are those of the
      sessions it drops, and then that of its packet, each with the share of the messages of its interval that was
      not delivered. */
  lemma RunTells(arrivals: seq<Arrival>, limit: nat, sent: map<string, seq<string>>, i: nat)
    requires (forall a | a in arrivals :: a.from in sent && Honest(a.packet, sent[a.from])) && i < |arrivals|
    ensures var before, after, a := Run(arrivals[..i], limit), Run(arrivals[..i + 1], limit), arrivals[i];
      && before.History? && after.History?
      && var n := if |before.buffer| <= limit then 0 else |before.buffer| - limit;
      && |before.reports| + n <= |after.reports| && before.reports <= after.reports
      && (forall k | 0 <= k < n :: Tells(after.reports[|before.reports| + k], Out, before.buffer[k].1, before.buffer[k].1.msgNo + 1))
      && ToldOf(after.reports[|before.reports| + n..], before.buffer[n..], a.from, a.packet)
  {
    hide Honest, AllSound, ReportsSound, Genuine, Evicted, Received, Tells, ToldOf;
    var before, a := Run(arrivals[..i], limit), arrivals[i];
    RunSound(arrivals[..i], limit, sent);
    assert arrivals[..i + 1][..i] == arrivals[..i];
    RunSound(arrivals[..i + 1], limit, sent);
    SoundIsSteady(before.buffer, sent);
    EvictTells(before.buffer, before.reports, limit);
    EvictSound(before.buffer, before.reports, limit, sent);
    var h := Evicted(before.buffer, before.reports, limit);
    SoundIsSteady(h.buffer, sent);
    if HasKey(h.buffer, a.from) {
      GoodbyeIsLast(h.buffer, a.from, a.packet, sent);
    }
    HonestNumber(a.packet, sent[a.from]);
    ReceiveTells(h.buffer, h.reports, a.from, a.packet);
  }

  lemma HonestNumber(p: Packet, sent: seq<string>)
    requires Honest(p, sent)
    ensures p.fragNum != -1 ==> 0 <= p.messageNum
  {
  }

  // ---------------------------------------------------------------------------------------------
  // Who has been silent for longest

  function Keys(buffer: Sessions): seq<string> {
    seq(|buffer|, i requires 0 <= i < |buffer| => buffer[i].0)
  }

  /** The i-th packet brings a new session, or the end of a message. */
  ghost predicate Renews(arrivals: seq<Arrival>, limit: nat, i: nat)
    requires i < |arrivals|
  {
    var before, after := Run(arrivals[..i], limit), Run(arrivals[..i + 1], limit);
    && before.History? && after.History?
    && var (buffer, a) := (Standing(arrivals[..i], limit), arrivals[i]);
       a.packet.fragNum != -1
       && (!HasKey(buffer, a.from) || a.packet.messageNum < Known(buffer, a.from).msgNo || |before.deliveries| < |after.deliveries|)
  }

  /** When a sender was last heard with one of these, counting from 1. */
  ghost function LastHeard(arrivals: seq<Arrival>, limit: nat, from: string): nat {
    if arrivals == [] then 0
    else
      var n := |arrivals| - 1;
      if arrivals[n].from == from && Renews(arrivals, limit, n) then n + 1 else LastHeard(arrivals[..n], limit, from)
  }

  lemma {:induction false} HeardBefore(arrivals: seq<Arrival>, limit: nat, from: string)
    ensures LastHeard(arrivals, limit, from) <= |arrivals|
  {
    hide Renews;
    if arrivals != [] {
      HeardBefore(arrivals[..|arrivals| - 1], limit, from);
    }
  }

  /** Those that have been silent for longer come first. */
  ghost predicate InOrder(keys: seq<string>, arrivals: seq<Arrival>, limit: nat) {
    forall i, j | 0 <= i < j < |keys| :: LastHeard(arrivals, limit, keys[i]) < LastHeard(arrivals, limit, keys[j])
  }

  ghost predicate Ahead(keys: seq<string>, a: string, b: string) {
    exists k, l :: 0 <= k < l < |keys| && keys[k] == a && keys[l] == b
  }

  lemma KeysWithout(buffer: Sessions, from: string)
    requires Distinct(buffer)
    ensures var w := Keys(Without(buffer, from));
      && from !in w && |w| <= |buffer|
      && forall i, j | 0 <= i < j < |w| :: Ahead(Keys(buffer), w[i], w[j])
  {
    var i, w := Place(buffer, from), Without(buffer, from);
    WithoutDistinct(buffer, from);
    if i < |buffer| {
      assert forall j | 0 <= j < |w| :: w[j] == buffer[if j < i then j else j + 1];
    }
    forall a, b | 0 <= a < b < |w|
      ensures Ahead(Keys(buffer), Keys(w)[a], Keys(w)[b])
    {
      var k := if i < |buffer| && i <= a then a + 1 else a;
      var l := if i < |buffer| && i <= b then b + 1 else b;
      assert Keys(w)[a] == Keys(buffer)[k] && Keys(w)[b] == Keys(buffer)[l];
    }
    assert forall j | 0 <= j < |w| :: Keys(w)[j] == w[j].0 != from;
  }

  lemma PutKeys(buffer: Sessions, reports: seq<Report>, s: SessionState, p: Packet)
    requires HasKey(buffer, s.from)
    ensures var h := Put(buffer, reports, s, p);
      h.Heard? ==> Keys(h.buffer) == if h.delivery.Some? then Keys(Without(buffer, s.from)) + [s.from] else Keys(buffer)
  {
    hide Without;
    match Assembled(s, p)
    case Partial(t) =>
      assert t.from == s.from;
      assert Keys(Replaced(buffer, t)) == Keys(buffer);
    case Complete(t, _) =>
      assert Keys(Without(buffer, s.from) + [(s.from, t)]) == Keys(Without(buffer, s.from)) + [s.from];
    case Threw =>
  }

  lemma FedKeys(buffer: Sessions, reports: seq<Report>, s: SessionState, p: Packet)
    requires HasKey(buffer, s.from)
    ensures var h := Fed(buffer, reports, s, p);
      h.Heard? ==> Keys(h.buffer) == if h.delivery.Some? then Keys(Without(buffer, s.from)) + [s.from] else Keys(buffer)
  {
    hide Put, Without, HasKey, Keys, Recalculated;
    if s.stat.startMsgNo == INITIAL {
      PutKeys(buffer, reports, s.(stat := Recalculated(s.stat, p.messageNum)), p);
    } else if p.messageNum >= s.stat.startMsgNo + INTERVAL {
      if !DividesByZero(s.stat, p.messageNum) {
        PutKeys(buffer, reports + [Report(Recalc, Closed(s, p.messageNum))], Closed(s, p.messageNum), p);
      }
    } else {
      PutKeys(buffer, reports, s, p);
    }
  }

  lemma NewKey(buffer: Sessions, from: string)
    requires !HasKey(buffer, from)
    ensures var more := buffer + [(from, Fresh(from))];
      HasKey(more, from) && Keys(more) == Keys(buffer) + [from] && Without(more, from) == buffer && Without(buffer, from) == buffer
  {
    var more := buffer + [(from, Fresh(from))];
    assert more[|buffer|].0 == from;
    assert Place(more, from) == |buffer|;
  }

  /** Only a sender who brings a new session or ends a message changes his place, and then to the last. */
  lemma ReceivedKeys(buffer: Sessions, reports: seq<Report>, from: string, p: Packet)
    requires AllSteady(buffer)
    ensures var h := Received(buffer, reports, from, p);
      h.Heard? ==>
        (Keys(h.buffer) == if p.fragNum == -1 then Keys(Without(buffer, from))
         else if HasKey(buffer, from) && Known(buffer, from).msgNo <= p.messageNum && h.delivery == None then Keys(buffer)
         else Keys(Without(buffer, from)) + [from])
  {
    hide AllSteady, Fed, Without, HasKey, DividesByZero, Keys, Recalculated;
    KnownSteady(buffer, from);
    var s, rest := Known(buffer, from), Without(buffer, from);
    if p.fragNum != -1 {
      if p.messageNum < s.msgNo {
        if !DividesByZero(s.stat, s.msgNo + 1) {
          NewKey(rest, from);
          FedKeys(rest + [(from, Fresh(from))], reports + [Report(Reset, Closed(s, s.msgNo + 1))], Fresh(from), p);
        }
      } else if HasKey(buffer, from) {
        FedKeys(buffer, reports, s, p);
      } else {
        NewKey(buffer, from);
        FedKeys(buffer + [(from, s)], reports, s, p);
      }
    }
  }

  lemma OrderWithout(buffer: Sessions, from: string, arrivals: seq<Arrival>, limit: nat)
    requires Distinct(buffer) && InOrder(Keys(buffer), arrivals, limit)
    ensures InOrder(Keys(Without(buffer, from)), arrivals, limit) && from !in Keys(Without(buffer, from))
  {
    hide LastHeard, Without;
    KeysWithout(buffer, from);
    var w := Keys(Without(buffer, from));
    forall i, j | 0 <= i < j < |w| ensures LastHeard(arrivals, limit, w[i]) < LastHeard(arrivals, limit, w[j]) {
      assert Ahead(Keys(buffer), w[i], w[j]);
    }
  }

  /** The next packet, of one sender. */
  lemma OrderOnward(keys: seq<string>, arrivals: seq<Arrival>, limit: nat, last: bool)
    requires arrivals != []
    requires var n := |arrivals| - 1;
      InOrder(keys, arrivals[..n], limit) && (last <==> Renews(arrivals, limit, n)) && (last ==> arrivals[n].from !in keys)
    ensures InOrder(if last then keys + [arrivals[|arrivals| - 1].from] else keys, arrivals, limit)
  {
    hide Renews;
    var n := |arrivals| - 1;
    var from := arrivals[n].from;
    forall i | 0 <= i < |keys|
      ensures LastHeard(arrivals, limit, keys[i]) == LastHeard(arrivals[..n], limit, keys[i]) <= n
    {
      HeardBefore(arrivals[..n], limit, keys[i]);
    }
  }

  /** In every run, whoever sends, the sessions stand in the order in which their senders last began a session or
      ended a message; so those that are dropped have been silent for longest. */
  lemma {:induction false} LongestSilentFirst(arrivals: seq<Arrival>, limit: nat)
    requires forall a | a in arrivals && a.packet.fragNum != -1 :: 0 <= a.packet.messageNum
    ensures var run := Run(arrivals, limit); run.History? ==> InOrder(Keys(run.buffer), arrivals, limit)
  {
    hide AllSteady, Evicted, Received, LastHeard, InOrder, Known, Without, Keys;
    if arrivals == [] {
      NoOrder(limit);
    } else {
      var n := |arrivals| - 1;
      LongestSilentFirst(arrivals[..n], limit);
      RunExactly(arrivals[..n], limit);
      var run := Run(arrivals[..n], limit);
      if run.History? {
        EvictTells(run.buffer, run.reports, limit);
        EvictSteady(run.buffer, run.reports, limit);
        OrderTail(run.buffer, Evicted(run.buffer, run.reports, limit).buffer, arrivals[..n], limit);
        OrderStep(arrivals, limit);
      }
    }
  }

  lemma NoOrder(limit: nat)
    ensures InOrder(Keys([]), [], limit)
  {
  }

  lemma OrderTail(buffer: Sessions, tail: Sessions, arrivals: seq<Arrival>, limit: nat)
    requires |tail| <= |buffer| && tail == buffer[|buffer| - |tail|..] && InOrder(Keys(buffer), arrivals, limit)
    ensures InOrder(Keys(tail), arrivals, limit)
  {
    hide LastHeard;
    var d := |buffer| - |tail|;
    assert forall i | 0 <= i < |tail| :: Keys(tail)[i] == Keys(buffer)[d + i];
  }

  lemma OrderStep(arrivals: seq<Arrival>, limit: nat)
    requires arrivals != []
    requires var n := |arrivals| - 1;
      && Run(arrivals[..n], limit).History?
      && AllSteady(Standing(arrivals[..n], limit)) && InOrder(Keys(Standing(arrivals[..n], limit)), arrivals[..n], limit)
      && var run := Run(arrivals[..n], limit); Evicted(run.buffer, run.reports, limit).Heard?
    ensures var run := Run(arrivals, limit); run.History? ==> InOrder(Keys(run.buffer), arrivals, limit)
  {
    hide AllSteady, Evicted, Received, LastHeard, InOrder, Known, Without, Keys;
    var n, run := |arrivals| - 1, Run(arrivals, limit);
    var a, before := arrivals[n], Run(arrivals[..n], limit);
    var e := Evicted(before.buffer, before.reports, limit);
    assert Standing(arrivals[..n], limit) == e.buffer;
    if run.History? {
      assert arrivals[..n + 1] == arrivals;
      ReceivedKeys(e.buffer, e.reports, a.from, a.packet);
      SteadyDistinct(e.buffer);
      OrderWithout(e.buffer, a.from, arrivals[..n], limit);
      var last := Renews(arrivals, limit, n);
      if last {
        OrderOnward(Keys(Without(e.buffer, a.from)), arrivals, limit, last);
      } else {
        OrderOnward(Keys(run.buffer), arrivals, limit, last);
      }
    }
  }

  lemma SteadyDistinct(buffer: Sessions)
    requires AllSteady(buffer)
    ensures Distinct(buffer)
  {
  }
}
