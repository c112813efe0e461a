/** src/commu/mcast.cpp: sending messages as numbered fragments, and the receive loop over a network that
    loses, duplicates and reorders them. */
module Multicast {
  import opened IndexQueues
  import opened MulticastSession

  // ---------------------------------------------------------------------------------------------
  // Sending

  lemma {:induction false} PiecesJoin(message: string, i: nat)
    requires i <= |message| / FRAGMENT
    ensures Joined(message, i) == message[..i * FRAGMENT + |Piece(message, i)|]
  {
    PieceLength(message, i);
    if i > 0 {
      PiecesJoin(message, i - 1);
      PieceLength(message, i - 1);
    }
  }

  /** The first i + 1 pieces of a message one after the other. */
  function Joined(message: string, i: nat): string
    requires i <= |message| / FRAGMENT
  {
    if i == 0 then Piece(message, 0) else Joined(message, i - 1) + Piece(message, i)
  }

  /** The fragments are numbered from 0, exactly the last one is short, and together they are the message. */
  lemma FragmentsWhole(number: int, message: string)
    ensures var fs := Fragments(number, message);
      && (forall i | 0 <= i < |fs| :: fs[i].messageNum == number && fs[i].fragNum == i && |fs[i].frag| == fs[i].length)
      && (forall i | 0 <= i < |fs| :: fs[i].length < FRAGMENT <==> i == |fs| - 1)
      && Joined(message, |fs| - 1) == message
  {
    hide Piece, Joined;
    var fs := Fragments(number, message);
    forall i | 0 <= i < |fs|
      ensures fs[i].length < FRAGMENT <==> i == |fs| - 1
      ensures |fs[i].frag| == fs[i].length
    {
      PieceLength(message, i);
    }
    PiecesJoin(message, |fs| - 1);
    PieceLength(message, |fs| - 1);
  }

  class Sender {
    var messageNum: int
    var open: bool  // the socket, from the first message on
    ghost var sent: seq<string>

    ghost predicate Valid()
      reads this
    {
      messageNum == |sent| && (open <==> sent != [])
    }

    constructor ()
      ensures Valid() && sent == []
    {
      messageNum := 0;
      open := false;
      sent := [];
    }

    method Send(message: string) returns (packets: seq<Packet>)
      requires Valid()
      modifies this
      ensures Valid() && sent == old(sent) + [message]
      ensures packets == Fragments(old(messageNum), message)
      ensures forall p | p in packets :: Honest(p, sent)
    {
      packets := [];
      open := true;
      var done, fragNum := 0, 0;
      var last := false;
      while !last
        invariant fragNum == |packets| && messageNum == old(messageNum)
        invariant !last ==> fragNum <= |message| / FRAGMENT && done == fragNum * FRAGMENT
        invariant last ==> fragNum == |message| / FRAGMENT + 1
        invariant forall i | 0 <= i < |packets| ::
          i <= |message| / FRAGMENT && packets[i] == FragmentOf(messageNum, message, i)
        decreases !last, |message| - done
        modifies {}
      {
        var length := if |message| - done > FRAGMENT then FRAGMENT else |message| - done;
        PieceLength(message, fragNum);
        packets := packets + [Packet(messageNum, fragNum, length, message[done..done + length])];
        fragNum := fragNum + 1;
        done := done + length;
        last := length < FRAGMENT;
      }
      messageNum := messageNum + 1;
      sent := sent + [message];
      assert sent[|sent| - 1] == message;
    }

    /** The end of the sender.  One that has sent nothing says nothing. */
    method Close() returns (packets: seq<Packet>)
      requires Valid()
      ensures packets == if sent == [] then [] else [Goodbye(|sent|)]
      ensures forall p | p in packets :: Honest(p, sent)
    {
      packets := if open then [Packet(messageNum, -1, 0, "")] else [];
    }
  }

  // ---------------------------------------------------------------------------------------------
  // Receiving, as a function of the arrivals

  datatype Status = Recalc | Shutdown | Reset | Out

  /** A call of `onStatChange`. */
  datatype Report = Report(status: Status, session: SessionState)

  datatype Delivery = Delivery(from: string, number: int, message: string)

  type Sessions = Entries<SessionState>

  datatype Heard =
    | AssembleThrew
    | DivideByZero
    | Heard(buffer: Sessions, reports: seq<Report>, delivery: Option<Delivery>)

  /** Closing the statistics of a session that leaves the buffer. */
  ghost function Closed(s: SessionState, n: int): SessionState
    requires !DividesByZero(s.stat, n)
  {
    s.(stat := Recalculated(s.stat, n))
  }

  /** The longest silent sessions leave a buffer that is too full. */
  ghost function Evicted(buffer: Sessions, reports: seq<Report>, limit: nat): Heard {
    if |buffer| <= limit then Heard(buffer, reports, None)
    else
      var s := buffer[0].1;
      if DividesByZero(s.stat, s.msgNo + 1) then DivideByZero
      else Evicted(buffer[1..], reports + [Report(Out, Closed(s, s.msgNo + 1))], limit)
  }

  ghost function Known(buffer: Sessions, from: string): SessionState {
    match Lookup(buffer, from)
    case Some(s) => s
    case None => Fresh(from)
  }

  /** One fragment or session end from one sender. */
  ghost function Received(buffer: Sessions, reports: seq<Report>, from: string, p: Packet): Heard {
    var s := Known(buffer, from);
    if p.fragNum == -1 then
      if DividesByZero(s.stat, p.messageNum) then DivideByZero
      else Heard(Without(buffer, from), reports + [Report(Shutdown, Closed(s, p.messageNum))], None)
    else if p.messageNum < s.msgNo then
      if DividesByZero(s.stat, s.msgNo + 1) then DivideByZero
      else
        Fed(Without(buffer, from) + [(from, Fresh(from))], reports + [Report(Reset, Closed(s, s.msgNo + 1))], Fresh(from), p)
    else if HasKey(buffer, from) then Fed(buffer, reports, s, p)
    else Fed(buffer + [(from, s)], reports, s, p)
  }

  /** The fragment goes to its session, whose interval may be over. */
  ghost function Fed(buffer: Sessions, reports: seq<Report>, s: SessionState, p: Packet): Heard {
    if s.stat.startMsgNo == INITIAL then Put(buffer, reports, s.(stat := Recalculated(s.stat, p.messageNum)), p)
    else if p.messageNum >= s.stat.startMsgNo + INTERVAL then
      if DividesByZero(s.stat, p.messageNum) then DivideByZero
      else
        var t := Closed(s, p.messageNum);
        Put(buffer, reports + [Report(Recalc, t)], t, p)
    else Put(buffer, reports, s, p)
  }

  /** A completed message moves its session to the back. */
  ghost function Put(buffer: Sessions, reports: seq<Report>, s: SessionState, p: Packet): Heard {
    match Assembled(s, p)
    case Threw => AssembleThrew
    case Partial(t) => Heard(Replaced(buffer, t), reports, None)
    case Complete(t, message) =>
      Heard(Without(buffer, s.from) + [(s.from, t)], reports, Some(Delivery(s.from, p.messageNum, message)))
  }

  ghost function Replaced(buffer: Sessions, s: SessionState): Sessions {
    var i := Place(buffer, s.from);
    if i < |buffer| then buffer[i := (s.from, s)] else buffer
  }

  // ---------------------------------------------------------------------------------------------
  // Every run against honest senders

  ghost predicate AllSound(buffer: Sessions, sent: map<string, seq<string>>) {
    && Distinct(buffer)
    && forall i | 0 <= i < |buffer| :: buffer[i].0 in sent && SoundFor(buffer[i].1, buffer[i].0, sent[buffer[i].0])
  }

  ghost predicate SoundFor(s: SessionState, from: string, sent: seq<string>) {
    s.from == from && Sound(s, sent)
  }

  /** A reported loss ratio is a percentage; a sender that only said goodbye has none. */
  ghost predicate ReportSound(r: Report) {
    0 <= r.session.stat.lostRatio <= 100 ||
    (r.status == Shutdown && r.session.msgNo == INITIAL && r.session.stat.lostRatio == -1)
  }

  ghost predicate ReportsSound(rs: seq<Report>) {
    forall r | r in rs :: ReportSound(r)
  }

  ghost predicate Genuine(d: Delivery, sent: map<string, seq<string>>) {
    d.from in sent && 0 <= d.number < |sent[d.from]| && d.message == sent[d.from][d.number]
  }

  lemma KnownSound(buffer: Sessions, from: string, sent: map<string, seq<string>>)
    requires AllSound(buffer, sent) && from in sent
    ensures Distinct(buffer) && (HasKey(buffer, from) ==> AlmostSound(buffer, from, sent))
    ensures HasKey(buffer, from) ==> SoundFor(Known(buffer, from), from, sent[from])
    ensures !HasKey(buffer, from) ==> Known(buffer, from) == Fresh(from)
  {
  }

  lemma WithoutSound(buffer: Sessions, from: string, sent: map<string, seq<string>>)
    requires AllSound(buffer, sent)
    ensures AllSound(Without(buffer, from), sent) && !HasKey(Without(buffer, from), from)
  {
    WithoutDistinct(buffer, from);
    var i, rest := Place(buffer, from), Without(buffer, from);
    if i < |buffer| {
      assert forall j | 0 <= j < |rest| :: rest[j] == if j < i then buffer[j] else buffer[j + 1];
    }
  }

  /** Everything but one session is sound, and that one is about to take a fragment. */
  ghost predicate AlmostSound(buffer: Sessions, from: string, sent: map<string, seq<string>>) {
    && Distinct(buffer) && HasKey(buffer, from) && from in sent
    && forall i | 0 <= i < |buffer| && buffer[i].0 != from :: 
      buffer[i].0 in sent && SoundFor(buffer[i].1, buffer[i].0, sent[buffer[i].0])
  }

  lemma ReplaceSound(buffer: Sessions, s: SessionState, sent: map<string, seq<string>>)
    requires AlmostSound(buffer, s.from, sent) && Sound(s, sent[s.from])
    ensures AllSound(Replaced(buffer, s), sent) && Known(Replaced(buffer, s), s.from) == s
  {
    hide Sound;
    var now := Replaced(buffer, s);
    assert forall j | 0 <= j < |now| :: now[j].0 == buffer[j].0;
    PlaceAt(now, Place(buffer, s.from));
  }

  lemma MoveSound(buffer: Sessions, s: SessionState, sent: map<string, seq<string>>)
    requires AlmostSound(buffer, s.from, sent) && Sound(s, sent[s.from])
    ensures var now := Without(buffer, s.from) + [(s.from, s)]; AllSound(now, sent) && Known(now, s.from) == s
  {
    hide Sound;
    var i, rest := Place(buffer, s.from), Without(buffer, s.from);
    WithoutDistinct(buffer, s.from);
    assert forall j | 0 <= j < |rest| :: rest[j] == if j < i then buffer[j] else buffer[j + 1];
    PlaceAt(rest + [(s.from, s)], |rest|);
  }

  lemma PutSound(buffer: Sessions, reports: seq<Report>, s: SessionState, p: Packet, sent: map<string, seq<string>>)
    requires s.from in sent && AlmostSound(buffer, s.from, sent) && Ready(s, p, sent[s.from])
    requires Honest(p, sent[s.from]) && p.fragNum != -1
    ensures var h := Put(buffer, reports, s, p);
      && h.Heard? && AllSound(h.buffer, sent) && h.reports == reports
      && (h.delivery.Some? ==>
            h.delivery == Some(Delivery(s.from, p.messageNum, sent[s.from][p.messageNum])))
      && Known(h.buffer, s.from).delivered == s.delivered + (if h.delivery.Some? then [p.messageNum] else [])
  {
    hide Sound, Ready, Honest, Assembled, AlmostSound, AllSound, Replaced, Without;
    AssembleSound(s, p, sent[s.from]);
    match Assembled(s, p)
    case Partial(t) => ReplaceSound(buffer, t, sent);
    case Complete(t, _) => MoveSound(buffer, t, sent);
  }

  lemma FreshReady(from: string, p: Packet, sent: seq<string>)
    requires Honest(p, sent) && p.fragNum != -1
    ensures var s := Fresh(from); Ready(s.(stat := Recalculated(s.stat, p.messageNum)), p, sent)
  {
    var n := p.messageNum;
    assert (n - n % INTERVAL) % INTERVAL == 0;
  }

  lemma ClosedReady(s: SessionState, p: Packet, sent: seq<string>)
    requires Sound(s, sent) && Honest(p, sent) && p.fragNum != -1 && p.messageNum >= s.stat.startMsgNo + INTERVAL
    ensures !DividesByZero(s.stat, p.messageNum) && Ready(Closed(s, p.messageNum), p, sent)
    ensures s.stat.startMsgNo != INITIAL && ReportSound(Report(Recalc, Closed(s, p.messageNum)))
  {
    CloseSound(s, p.messageNum);
    assert forall i | 0 <= i < |s.delivered| :: s.delivered[i] in s.delivered;
  }

  lemma StillReady(s: SessionState, p: Packet, sent: seq<string>)
    requires Sound(s, sent) && s.msgNo <= p.messageNum < s.stat.startMsgNo + INTERVAL
    ensures s.stat.startMsgNo != INITIAL && Ready(s, p, sent)
  {
  }

  /** A session that is closed after its last message, or that never had one. */
  lemma LeaveSound(s: SessionState, n: int, status: Status, sent: seq<string>)
    requires (Sound(s, sent) && s.msgNo < n) || (s == Fresh(s.from) && status == Shutdown)
    ensures !DividesByZero(s.stat, n) && ReportSound(Report(status, Closed(s, n)))
  {
    if s != Fresh(s.from) {
      CloseSound(s, n);
    }
  }

  lemma FedSound(buffer: Sessions, reports: seq<Report>, s: SessionState, p: Packet, sent: map<string, seq<string>>)
    requires s.from in sent && AlmostSound(buffer, s.from, sent) && ReportsSound(reports)
    requires Honest(p, sent[s.from]) && p.fragNum != -1
    requires s == Fresh(s.from) || (Sound(s, sent[s.from]) && s.msgNo <= p.messageNum)
    ensures var h := Fed(buffer, reports, s, p);
      && h.Heard? && AllSound(h.buffer, sent) && ReportsSound(h.reports)
      && (h.delivery.Some? ==>
            h.delivery == Some(Delivery(s.from, p.messageNum, sent[s.from][p.messageNum])))
      && Known(h.buffer, s.from).delivered == s.delivered + (if h.delivery.Some? then [p.messageNum] else [])
  {
    hide Sound, Ready, Honest, Put, AlmostSound, AllSound, Recalculated;
    if s == Fresh(s.from) {
      FreshReady(s.from, p, sent[s.from]);
      PutSound(buffer, reports, s.(stat := Recalculated(s.stat, p.messageNum)), p, sent);
    } else if p.messageNum >= s.stat.startMsgNo + INTERVAL {
      var t := Closed(s, p.messageNum);
      ClosedReady(s, p, sent[s.from]);
      PutSound(buffer, reports + [Report(Recalc, t)], t, p, sent);
    } else {
      StillReady(s, p, sent[s.from]);
      PutSound(buffer, reports, s, p, sent);
    }
  }

  /** One arrival: nothing throws or divides by zero, what is handed out was sent, and it comes after
      everything its session has handed out before. */
  lemma ReceiveSound(buffer: Sessions, reports: seq<Report>, from: string, p: Packet, sent: map<string, seq<string>>)
    requires AllSound(buffer, sent) && ReportsSound(reports) && from in sent && Honest(p, sent[from])
    ensures var h := Received(buffer, reports, from, p);
      && h.Heard? && AllSound(h.buffer, sent) && ReportsSound(h.reports)
      && (h.delivery.Some? ==> Genuine(h.delivery.value, sent) && h.delivery.value.from == from)
      && (h.delivery.Some? ==>
            var earlier := if p.messageNum < Known(buffer, from).msgNo then [] else Known(buffer, from).delivered;
            Increasing(earlier + [h.delivery.value.number]) && Known(h.buffer, from).delivered == earlier + [h.delivery.value.number])
  {
    hide AlmostSound, AllSound, StatSound, ReportSound, FragmentOf, Fed, Recalculated, DividesByZero, Evicted, Place;
    var s := Known(buffer, from);
    KnownSound(buffer, from, sent);
    WithoutSound(buffer, from, sent);
    var rest := Without(buffer, from);
    if p.fragNum == -1 {
      LeaveSound(s, p.messageNum, Shutdown, sent[from]);
    } else if p.messageNum < s.msgNo {
      LeaveSound(s, s.msgNo + 1, Reset, sent[from]);
      FreshSlot(rest, from, sent);
      FedSound(rest + [(from, Fresh(from))], reports + [Report(Reset, Closed(s, s.msgNo + 1))], Fresh(from), p, sent);
    } else if HasKey(buffer, from) {
      FedSound(buffer, reports, s, p, sent);
    } else {
      FreshSlot(buffer, from, sent);
      FedSound(buffer + [(from, s)], reports, s, p, sent);
    }
    var h := Received(buffer, reports, from, p);
    if h.delivery.Some? {
      KnownSound(h.buffer, from, sent);
    }
  }

  lemma FreshSlot(buffer: Sessions, from: string, sent: map<string, seq<string>>)
    requires AllSound(buffer, sent) && from in sent && !HasKey(buffer, from)
    ensures AlmostSound(buffer + [(from, Fresh(from))], from, sent)
  {
    assert (buffer + [(from, Fresh(from))])[|buffer|].0 == from;
  }

  lemma {:induction false} EvictSound(buffer: Sessions, reports: seq<Report>, limit: nat, sent: map<string, seq<string>>)
    requires AllSound(buffer, sent) && ReportsSound(reports)
    ensures var h := Evicted(buffer, reports, limit);
      && h.Heard? && AllSound(h.buffer, sent) && ReportsSound(h.reports) && h.delivery == None
      && |h.buffer| <= |buffer| && h.buffer == buffer[|buffer| - |h.buffer|..]
      && |h.buffer| == if |buffer| <= limit then |buffer| else limit
    decreases |buffer|
  {
    if |buffer| > limit {
      var s := buffer[0].1;
      assert SoundFor(s, buffer[0].0, sent[buffer[0].0]);
      CloseSound(s, s.msgNo + 1);
      EvictSound(buffer[1..], reports + [Report(Out, Closed(s, s.msgNo + 1))], limit, sent);
    }
  }

  datatype Arrival = Arrival(from: string, packet: Packet)

  datatype History = Failed | History(buffer: Sessions, reports: seq<Report>, deliveries: seq<Delivery>)

  /** Everything `recv` hands out, call after call, while these packets arrive. */
  ghost function Run(arrivals: seq<Arrival>, limit: nat): History {
    if arrivals == [] then History([], [], [])
    else
      match Run(arrivals[..|arrivals| - 1], limit)
      case Failed => Failed
      case History(buffer, reports, deliveries) => Next(buffer, reports, deliveries, arrivals[|arrivals| - 1], limit)
  }

  ghost function Next(buffer: Sessions, reports: seq<Report>, deliveries: seq<Delivery>, a: Arrival, limit: nat): History {
    match Heeded(buffer, reports, a, limit)
    case Heard(b, rs, d) => History(b, rs, if d.Some? then deliveries + [d.value] else deliveries)
    case _ => Failed
  }

  /** One turn of the receive loop. */
  ghost function Heeded(buffer: Sessions, reports: seq<Report>, a: Arrival, limit: nat): Heard {
    match Evicted(buffer, reports, limit)
    case Heard(b, rs, _) => Received(b, rs, a.from, a.packet)
    case failure => failure
  }

  lemma NothingSound(sent: map<string, seq<string>>)
    ensures AllSound([], sent) && ReportsSound([])
  {
  }

  lemma FedKeepsSize(buffer: Sessions, reports: seq<Report>, s: SessionState, p: Packet)
    requires HasKey(buffer, s.from)
    ensures var h := Fed(buffer, reports, s, p); h.Heard? ==> |h.buffer| == |buffer|
  {
    hide Assembled, Recalculated, DividesByZero;
  }

  lemma GrowsByOne(buffer: Sessions, reports: seq<Report>, from: string, p: Packet, sent: map<string, seq<string>>)
    requires AllSound(buffer, sent) && from in sent
    ensures var h := Received(buffer, reports, from, p); h.Heard? ==> |h.buffer| <= |buffer| + 1
  {
    KnownSound(buffer, from, sent);
    hide AllSound, Sound, Fed, Recalculated, DividesByZero;
    var s, rest := Known(buffer, from), Without(buffer, from);
    if p.fragNum != -1 {
      if p.messageNum < s.msgNo {
        assert (rest + [(from, Fresh(from))])[|rest|].0 == from;
        FedKeepsSize(rest + [(from, Fresh(from))], reports + [Report(Reset, Closed(s, s.msgNo + 1))], Fresh(from), p);
      } else if HasKey(buffer, from) {
        FedKeepsSize(buffer, reports, s, p);
      } else {
        assert (buffer + [(from, s)])[|buffer|].0 == from;
        FedKeepsSize(buffer + [(from, s)], reports, s, p);
      }
    }
  }

  /** Whatever the network loses, repeats or reorders: every message handed out is one that its sender
      gave to `send`, `assemble` never throws, no statistic divides by zero, and every reported loss
      ratio is a percentage. */
  lemma {:induction false} RunSound(arrivals: seq<Arrival>, limit: nat, sent: map<string, seq<string>>)
    requires forall a | a in arrivals :: a.from in sent && Honest(a.packet, sent[a.from])
    ensures var run := Run(arrivals, limit);
      && run.History? && AllSound(run.buffer, sent) && ReportsSound(run.reports)
      && |run.buffer| <= limit + 1
      && forall d | d in run.deliveries :: Genuine(d, sent)
  {
    hide AllSound, ReportsSound, ReportSound, Honest, Genuine, Evicted, Received;
    if arrivals == [] {
      NothingSound(sent);
    } else {
      var before, a := arrivals[..|arrivals| - 1], arrivals[|arrivals| - 1];
      RunSound(before, limit, sent);
      var run := Run(before, limit);
      EvictSound(run.buffer, run.reports, limit, sent);
      var h := Evicted(run.buffer, run.reports, limit);
      ReceiveSound(h.buffer, h.reports, a.from, a.packet, sent);
      GrowsByOne(h.buffer, h.reports, a.from, a.packet, sent);
    }
  }

  /** `assemble` throws on a number below -1 and on no other: the reset has taken care of every number
      that is merely too small. */
  lemma ThrowsExactly(buffer: Sessions, reports: seq<Report>, from: string, p: Packet)
    requires -1 <= Known(buffer, from).msgNo && !DividesByZero(Known(buffer, from).stat, Known(buffer, from).msgNo + 1)
    ensures Received(buffer, reports, from, p).AssembleThrew? <==> p.fragNum != -1 && p.messageNum < -1
  {
  }

  /** The first fragment of a message whose number is a multiple of the interval starts an interval there. */
  lemma FirstFragment(from: string, message: string, n: nat, limit: nat)
    requires n % INTERVAL == 0
    ensures var run := Run([Arrival(from, FragmentOf(n, message, 0))], limit);
      && run.History? && |run.buffer| == 1 && run.buffer[0].0 == from
      && run.buffer[0].1.stat.startMsgNo == n
  {
    hide Piece;
    var a := Arrival(from, FragmentOf(n, message, 0));
    assert [a][..0] == [];
    assert Run([], limit) == History([], [], []);
    var s := Fresh(from).(stat := Recalculated(FRESH_STAT, n));
    PlaceAt([(from, Fresh(from))], 0);
    assert Heeded([], [], a, limit) == Put([(from, Fresh(from))], [], s, a.packet);
  }

  /** A late goodbye of an earlier life of the sender divides by zero: that life had as many messages as the
      number at which the interval of the new session starts. */
  lemma StaleGoodbye(from: string, earlier: seq<string>, later: seq<string>, limit: nat)
    requires 0 < limit && earlier != [] && |earlier| % INTERVAL == 0 && |later| > |earlier|
    ensures var first, second := FragmentOf(|earlier|, later[|earlier|], 0), Goodbye(|earlier|);
      && Honest(first, later) && Honest(second, earlier)
      && Run([Arrival(from, first), Arrival(from, second)], limit) == Failed
  {
    var first := Arrival(from, FragmentOf(|earlier|, later[|earlier|], 0));
    var second := Arrival(from, Goodbye(|earlier|));
    assert [first, second][..1] == [first];
    FirstFragment(from, later[|earlier|], |earlier|, limit);
    PlaceAt(Run([first], limit).buffer, 0);
  }
}
