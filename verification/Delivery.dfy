/** Completeness of the receive loop of src/commu/mcast.cpp: what arrives whole and in order is handed out. */
module MulticastDelivery {
  import opened IndexQueues
  import opened MulticastSession
  import opened Multicast

  /** The first i fragments of the message are together. */
  predicate Reached(s: SessionState, number: nat, message: string, i: nat) {
    && 0 < i <= |message| / FRAGMENT
    && s.msgNo == number && s.fragNo == i - 1 && s.msgBuffer == message[..i * FRAGMENT]
  }

  predicate Expects(s: SessionState, number: nat, message: string, i: nat) {
    if i == 0 then s.msgNo < number else Reached(s, number, message, i)
  }

  /** What a fragment that is expected brings about. */
  ghost predicate Served(before: Sessions, h: Heard, from: string, number: nat, message: string, i: nat) {
    && h.Heard?
    && if i == |message| / FRAGMENT then h.delivery == Some(Delivery(from, number, message))
       else
         && h.delivery == None && HasKey(h.buffer, from) && Known(h.buffer, from).from == from
         && Reached(Known(h.buffer, from), number, message, i + 1)
         && |h.buffer| == |before| && forall j | 0 <= j < |before| :: h.buffer[j].0 == before[j].0
  }

  lemma AssembledNext(s: SessionState, number: nat, message: string, i: nat)
    requires i <= |message| / FRAGMENT && Expects(s, number, message, i)
    ensures var r := Assembled(s, FragmentOf(number, message, i));
      if i == |message| / FRAGMENT then r.Complete? && r.message == message && r.session.from == s.from
      else r.Partial? && Reached(r.session, number, message, i + 1) && r.session.from == s.from
  {
    PieceLength(message, i);
    if i == |message| / FRAGMENT {
      assert message[..i * FRAGMENT + |Piece(message, i)|] == message;
    } else {
      assert Placed(s, FragmentOf(number, message, i)).msgBuffer == message[..(i + 1) * FRAGMENT];
    }
  }

  lemma PutServes(buffer: Sessions, reports: seq<Report>, s: SessionState, number: nat, message: string, i: nat)
    requires Distinct(buffer) && HasKey(buffer, s.from)
    requires i <= |message| / FRAGMENT && Expects(s, number, message, i)
    ensures Served(buffer, Put(buffer, reports, s, FragmentOf(number, message, i)), s.from, number, message, i)
  {
    hide Assembled, Reached, Expects, Piece, Without;
    AssembledNext(s, number, message, i);
    match Assembled(s, FragmentOf(number, message, i))
    case Partial(t) =>
      var now, k := Replaced(buffer, t), Place(buffer, s.from);
      assert forall j | 0 <= j < |now| :: now[j].0 == buffer[j].0;
      PlaceAt(now, k);
    case Complete(_, _) =>
  }

  lemma FedServes(buffer: Sessions, reports: seq<Report>, s: SessionState, number: nat, message: string, i: nat)
    requires Distinct(buffer) && HasKey(buffer, s.from)
    requires i <= |message| / FRAGMENT && Expects(s, number, message, i)
    requires Fed(buffer, reports, s, FragmentOf(number, message, i)).Heard?
    ensures Served(buffer, Fed(buffer, reports, s, FragmentOf(number, message, i)), s.from, number, message, i)
  {
    hide Put, Served, Piece, Distinct, Recalculated, HasKey;
    if s.stat.startMsgNo == INITIAL {
      PutServes(buffer, reports, s.(stat := Recalculated(s.stat, number)), number, message, i);
    } else if number >= s.stat.startMsgNo + INTERVAL {
      var t := Closed(s, number);
      PutServes(buffer, reports + [Report(Recalc, t)], t, number, message, i);
    } else {
      PutServes(buffer, reports, s, number, message, i);
    }
  }

  // ---------------------------------------------------------------------------------------------
  // One turn of the loop

  /** The buffer with a place for the session that a first fragment goes to. */
  ghost function Slotted(buffer: Sessions, from: string, number: nat): Sessions {
    if number < Known(buffer, from).msgNo then Without(buffer, from) + [(from, Fresh(from))]
    else if HasKey(buffer, from) then buffer
    else buffer + [(from, Known(buffer, from))]
  }

  lemma FirstServed(buffer: Sessions, reports: seq<Report>, from: string, number: nat, message: string, sent: map<string, seq<string>>)
    requires AllSound(buffer, sent) && from in sent && Known(buffer, from).msgNo != number
    requires Received(buffer, reports, from, FragmentOf(number, message, 0)).Heard?
    ensures var b := Slotted(buffer, from, number);
      && Served(b, Received(buffer, reports, from, FragmentOf(number, message, 0)), from, number, message, 0)
      && (|b| == |buffer| || (|b| == |buffer| + 1 && (buffer != [] ==> b[0].0 != from)))
  {
    hide Fed, Sound, Served, Place, Piece;
    KnownSound(buffer, from, sent);
    var s := Known(buffer, from);
    if number < s.msgNo {
      var b := Without(buffer, from) + [(from, Fresh(from))];
      WithoutDistinct(buffer, from);
      assert b[|b| - 1].0 == from;
      FedServes(b, reports + [Report(Reset, Closed(s, s.msgNo + 1))], Fresh(from), number, message, 0);
    } else if HasKey(buffer, from) {
      FedServes(buffer, reports, s, number, message, 0);
    } else {
      var b := buffer + [(from, s)];
      assert b[|b| - 1].0 == from;
      assert buffer != [] ==> b[0].0 == buffer[0].0;
      FedServes(b, reports, s, number, message, 0);
    }
  }

  lemma NextServed(buffer: Sessions, reports: seq<Report>, from: string, number: nat, message: string, i: nat, sent: map<string, seq<string>>)
    requires AllSound(buffer, sent) && from in sent && HasKey(buffer, from)
    requires Reached(Known(buffer, from), number, message, i)
    requires Received(buffer, reports, from, FragmentOf(number, message, i)).Heard?
    ensures Served(buffer, Received(buffer, reports, from, FragmentOf(number, message, i)), from, number, message, i)
  {
    hide Fed, Sound, Served, Place, Piece;
    KnownSound(buffer, from, sent);
    FedServes(buffer, reports, Known(buffer, from), number, message, i);
  }

  /** A session that has come to the message, by itself or by another fragment of it, waits for the next one. */
  predicate Done(s: SessionState, number: nat, i: nat) {
    s.msgNo == number && (i > 0 ==> s.fragNo == -1)
  }

  lemma NoneServed(buffer: Sessions, reports: seq<Report>, from: string, number: nat, message: string, i: nat, sent: map<string, seq<string>>)
    requires AllSound(buffer, sent) && from in sent && HasKey(buffer, from) && i <= |message| / FRAGMENT
    requires Done(Known(buffer, from), number, i)
    requires Received(buffer, reports, from, FragmentOf(number, message, i)).Heard?
    ensures var h := Received(buffer, reports, from, FragmentOf(number, message, i));
      && h.delivery == None && HasKey(h.buffer, from) && Done(Known(h.buffer, from), number, i + 1)
      && |h.buffer| == |buffer|
  {
    hide Sound, Piece, Place, Recalculated;
    KnownSound(buffer, from, sent);
    var s, p := Known(buffer, from), FragmentOf(number, message, i);
    assert forall st :: Assembled(s.(stat := st), p) == Partial(s.(stat := st, fragNo := -1));
    forall st ensures var b := Replaced(buffer, s.(stat := st, fragNo := -1));
        HasKey(b, from) && Known(b, from) == s.(stat := st, fragNo := -1) && |b| == |buffer|
    {
      var t := s.(stat := st, fragNo := -1);
      var now := Replaced(buffer, t);
      assert forall j | 0 <= j < |now| :: now[j].0 == buffer[j].0;
      PlaceAt(now, Place(buffer, from));
    }
  }

  // ---------------------------------------------------------------------------------------------
  // All fragments

  /** The session is part of the way through the message and will not be evicted on the next turn. */
  ghost predicate OnTheWay(b: Sessions, limit: nat, from: string, number: nat, message: string, i: nat) {
    && HasKey(b, from) && Reached(Known(b, from), number, message, i)
    && (|b| <= limit || (|b| == limit + 1 && b[0].0 != from))
  }

  lemma StaysBehind(b: Sessions, from: string)
    requires b != [] && b[0].0 != from
    ensures HasKey(b[1..], from) <==> HasKey(b, from)
    ensures Known(b[1..], from) == Known(b, from)
  {
    assert Place(b, from) == Place(b[1..], from) + 1;
  }

  function Parts(from: string, number: nat, message: string, i: nat): seq<Arrival>
    requires i <= |message| / FRAGMENT + 1
  {
    seq(i, j requires 0 <= j < i => Arrival(from, FragmentOf(number, message, j)))
  }

  lemma PartsNext(from: string, number: nat, message: string, i: nat)
    requires 0 < i <= |message| / FRAGMENT + 1
    ensures Parts(from, number, message, i) == Parts(from, number, message, i - 1) + [Arrival(from, FragmentOf(number, message, i - 1))]
  {
  }

  /** The sessions that are not evicted. */
  function Latest(b: Sessions, limit: nat): Sessions {
    if |b| <= limit then b else b[|b| - limit..]
  }

  /** One more arrival after a run of honest ones. */
  lemma OneMore(before: seq<Arrival>, a: Arrival, limit: nat, sent: map<string, seq<string>>)
    requires forall x | x in before + [a] :: x.from in sent && Honest(x.packet, sent[x.from])
    ensures var r := Run(before, limit);
      && r.History? && AllSound(r.buffer, sent) && |r.buffer| <= limit + 1
      && var e := Evicted(r.buffer, r.reports, limit);
      && e.Heard? && AllSound(e.buffer, sent) && e.buffer == Latest(r.buffer, limit)
      && var h := Received(e.buffer, e.reports, a.from, a.packet);
      && h.Heard?
      && Run(before + [a], limit) ==
         History(h.buffer, h.reports, if h.delivery.Some? then r.deliveries + [h.delivery.value] else r.deliveries)
  {
    hide AllSound, ReportsSound, Honest, Evicted, Received, Genuine;
    assert forall x | x in before :: x in before + [a];
    assert a in before + [a];
    RunSound(before, limit, sent);
    var r := Run(before, limit);
    EvictSound(r.buffer, r.reports, limit, sent);
    var e := Evicted(r.buffer, r.reports, limit);
    ReceiveSound(e.buffer, e.reports, a.from, a.packet, sent);
    assert (before + [a])[..|before|] == before;
  }

  ghost predicate AllHonest(arrivals: seq<Arrival>, sent: map<string, seq<string>>) {
    forall a | a in arrivals :: a.from in sent && Honest(a.packet, sent[a.from])
  }

  /** The sessions there are when the next packet is looked at. */
  ghost function Standing(before: seq<Arrival>, limit: nat): Sessions {
    match Run(before, limit)
    case Failed => []
    case History(buffer, reports, _) => var e := Evicted(buffer, reports, limit); if e.Heard? then e.buffer else []
  }

  lemma HonestParts(before: seq<Arrival>, from: string, number: nat, i: nat, sent: map<string, seq<string>>)
    requires AllHonest(before, sent) && from in sent && number < |sent[from]| && i <= |sent[from][number]| / FRAGMENT + 1
    ensures AllHonest(before + Parts(from, number, sent[from][number], i), sent)
  {
    hide Piece;
  }

  /** The session on its way is still there at the next packet. */
  lemma StillThere(b: Sessions, limit: nat, from: string, number: nat, message: string, i: nat)
    requires OnTheWay(b, limit, from, number, message, i)
    ensures var e := Latest(b, limit); HasKey(e, from) && Reached(Known(e, from), number, message, i)
  {
    hide HasKey, Known, Reached;
    if |b| > limit {
      StaysBehind(b, from);
    }
  }

  lemma NextPart(past: seq<Arrival>, from: string, number: nat, i: nat, limit: nat, sent: map<string, seq<string>>)
    requires from in sent && number < |sent[from]| && 0 < i <= |sent[from][number]| / FRAGMENT
    requires AllHonest(past + [Arrival(from, FragmentOf(number, sent[from][number], i))], sent)
    requires var r := Run(past, limit); r.History? && OnTheWay(r.buffer, limit, from, number, sent[from][number], i)
    ensures var m := sent[from][number];
      var r, r' := Run(past, limit), Run(past + [Arrival(from, FragmentOf(number, m, i))], limit);
      && r'.History?
      && (if i == |m| / FRAGMENT then r'.deliveries == r.deliveries + [Delivery(from, number, m)]
          else r'.deliveries == r.deliveries && OnTheWay(r'.buffer, limit, from, number, m, i + 1))
  {
    hide AllSound, Honest, Evicted, Received, Reached, Known, HasKey, Piece;
    var m := sent[from][number];
    OneMore(past, Arrival(from, FragmentOf(number, m, i)), limit, sent);
    var r := Run(past, limit);
    var e := Evicted(r.buffer, r.reports, limit);
    StillThere(r.buffer, limit, from, number, m, i);
    NextServed(e.buffer, e.reports, from, number, m, i, sent);
  }

  lemma FirstPart(before: seq<Arrival>, from: string, number: nat, limit: nat, sent: map<string, seq<string>>)
    requires limit > 0 && from in sent && number < |sent[from]|
    requires AllHonest(before + [Arrival(from, FragmentOf(number, sent[from][number], 0))], sent)
    requires Known(Standing(before, limit), from).msgNo != number
    ensures var m := sent[from][number];
      var r, r' := Run(before, limit), Run(before + [Arrival(from, FragmentOf(number, m, 0))], limit);
      && r.History? && r'.History?
      && (if |m| / FRAGMENT == 0 then r'.deliveries == r.deliveries + [Delivery(from, number, m)]
          else r'.deliveries == r.deliveries && OnTheWay(r'.buffer, limit, from, number, m, 1))
  {
    hide AllSound, Honest, Evicted, Received, Reached, Known, HasKey, Slotted, Piece;
    var m := sent[from][number];
    OneMore(before, Arrival(from, FragmentOf(number, m, 0)), limit, sent);
    var r := Run(before, limit);
    var e := Evicted(r.buffer, r.reports, limit);
    FirstServed(e.buffer, e.reports, from, number, m, sent);
  }

  /** After i fragments, in any honest run: the message is handed out with the last one and not before. */
  lemma {:induction false} PartOfTheWay(before: seq<Arrival>, from: string, number: nat, i: nat, limit: nat, sent: map<string, seq<string>>)
    requires limit > 0 && from in sent && number < |sent[from]| && 0 < i <= |sent[from][number]| / FRAGMENT + 1
    requires AllHonest(before, sent) && Known(Standing(before, limit), from).msgNo != number
    ensures var m := sent[from][number];
      var r, r' := Run(before, limit), Run(before + Parts(from, number, m, i), limit);
      && r.History? && r'.History?
      && (if i == |m| / FRAGMENT + 1 then r'.deliveries == r.deliveries + [Delivery(from, number, m)]
          else r'.deliveries == r.deliveries && OnTheWay(r'.buffer, limit, from, number, m, i))
  {
    hide AllHonest, Run, OnTheWay, Known, Standing, Piece;
    var m := sent[from][number];
    var past, a := before + Parts(from, number, m, i - 1), Arrival(from, FragmentOf(number, m, i - 1));
    HonestParts(before, from, number, i, sent);
    PartsNext(from, number, m, i);
    assert before + Parts(from, number, m, i) == past + [a];
    if i == 1 {
      assert past == before;
      FirstPart(before, from, number, limit, sent);
    } else {
      PartOfTheWay(before, from, number, i - 1, limit, sent);
      NextPart(past, from, number, i - 1, limit, sent);
    }
  }

  /** A session that has already come to the number takes no fragment of it, whatever becomes of the buffer. */
  ghost predicate Past(b: Sessions, limit: nat, from: string, number: nat, i: nat) {
    |b| <= limit && HasKey(b, from) && Done(Known(b, from), number, i)
  }

  lemma PassedBy(past: seq<Arrival>, from: string, number: nat, i: nat, limit: nat, sent: map<string, seq<string>>)
    requires from in sent && number < |sent[from]| && i <= |sent[from][number]| / FRAGMENT
    requires AllHonest(past + [Arrival(from, FragmentOf(number, sent[from][number], i))], sent)
    requires if i == 0 then Known(Standing(past, limit), from).msgNo == number
             else Run(past, limit).History? && Past(Run(past, limit).buffer, limit, from, number, i)
    ensures var r, r' := Run(past, limit), Run(past + [Arrival(from, FragmentOf(number, sent[from][number], i))], limit);
      r.History? && r'.History? && r'.deliveries == r.deliveries && Past(r'.buffer, limit, from, number, i + 1)
  {
    hide AllSound, Honest, Evicted, Received, Known, HasKey, Piece;
    var m := sent[from][number];
    OneMore(past, Arrival(from, FragmentOf(number, m, i)), limit, sent);
    var r := Run(past, limit);
    var e := Evicted(r.buffer, r.reports, limit);
    if i == 0 {
      NeverMet(e.buffer, from, number);
    }
    NoneServed(e.buffer, e.reports, from, number, m, i, sent);
  }

  lemma {:induction false} NoPart(before: seq<Arrival>, from: string, number: nat, i: nat, limit: nat, sent: map<string, seq<string>>)
    requires from in sent && number < |sent[from]| && 0 < i <= |sent[from][number]| / FRAGMENT + 1
    requires AllHonest(before, sent) && Known(Standing(before, limit), from).msgNo == number
    ensures var r, r' := Run(before, limit), Run(before + Parts(from, number, sent[from][number], i), limit);
      && r.History? && r'.History? && r'.deliveries == r.deliveries && Past(r'.buffer, limit, from, number, i)
  {
    hide AllHonest, Run, Past, Known, Standing, Piece;
    var m := sent[from][number];
    var past, a := before + Parts(from, number, m, i - 1), Arrival(from, FragmentOf(number, m, i - 1));
    HonestParts(before, from, number, i, sent);
    PartsNext(from, number, m, i);
    assert before + Parts(from, number, m, i) == past + [a];
    if i == 1 {
      assert past == before;
    } else {
      NoPart(before, from, number, i - 1, limit, sent);
    }
    PassedBy(past, from, number, i - 1, limit, sent);
  }

  lemma NeverMet(b: Sessions, from: string, number: nat)
    requires Known(b, from).msgNo == number
    ensures HasKey(b, from)
  {
  }

  /** Whatever has arrived before: when all fragments of a message arrive in order and nothing between them,
      the message is handed out exactly if the session, when the first of them comes, is not at its number.  One
      that is further on is reset. */
  lemma Delivered(before: seq<Arrival>, from: string, number: nat, limit: nat, sent: map<string, seq<string>>)
    requires limit > 0 && from in sent && number < |sent[from]| && AllHonest(before, sent)
    ensures var m := sent[from][number];
      var r, r' := Run(before, limit), Run(before + Parts(from, number, m, |m| / FRAGMENT + 1), limit);
      && r.History? && r'.History?
      && r'.deliveries == r.deliveries +
           if Known(Standing(before, limit), from).msgNo != number then [Delivery(from, number, m)] else []
  {
    hide AllHonest, Run, Known, Standing, Parts;
    var m := sent[from][number];
    if Known(Standing(before, limit), from).msgNo != number {
      PartOfTheWay(before, from, number, |m| / FRAGMENT + 1, limit, sent);
    } else {
      NoPart(before, from, number, |m| / FRAGMENT + 1, limit, sent);
    }
  }
}
