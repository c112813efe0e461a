/** The receive loop of src/commu/mcast.cpp on any packets at all, as from senders that start again: what still
    holds, and exactly when it fails or reports a loss ratio that is no percentage. */
module MulticastRestarts {
  import opened IndexQueues
  import opened MulticastSession
  import opened Multicast
  import opened MulticastDelivery

  /** What holds of a session in the buffer, whoever the packets came from. */
  ghost predicate Steady(s: SessionState) {
    DeliverySound(s) && StatSound(s)
  }

  ghost predicate AllSteady(buffer: Sessions) {
    Distinct(buffer) && forall i | 0 <= i < |buffer| :: buffer[i].1.from == buffer[i].0 && Steady(buffer[i].1)
  }

  /** Every session but that of one sender is steady. */
  ghost predicate MostSteady(buffer: Sessions, from: string) {
    && Distinct(buffer) && HasKey(buffer, from)
    && forall i | 0 <= i < |buffer| && buffer[i].0 != from :: buffer[i].1.from == buffer[i].0 && Steady(buffer[i].1)
  }

  /** A session that is about to take a fragment of the message with this number. */
  ghost predicate Expecting(s: SessionState, number: int) {
    && s.msgNo <= number && s.stat.startMsgNo % INTERVAL == 0
    && 0 <= s.stat.startMsgNo <= number < s.stat.startMsgNo + INTERVAL
    && CountSound(s) && RatioSound(s.stat)
    && ((s.msgNo == INITIAL && s.fragNo == INITIAL && s.delivered == []) || DeliverySound(s))
  }

  lemma AssembleSteady(s: SessionState, p: Packet)
    requires Expecting(s, p.messageNum)
    ensures match Assembled(s, p)
            case Threw => false
            case Partial(t) => Steady(t) && t.from == s.from
            case Complete(t, _) => Steady(t) && t.from == s.from
  {
    var t := Placed(s, p);
    assert Steady(t);
    if t.fragNo >= 0 {
      HandOutSound(t);
    }
  }

  lemma KnownSteady(buffer: Sessions, from: string)
    requires AllSteady(buffer)
    ensures HasKey(buffer, from) ==>
      MostSteady(buffer, from) && Known(buffer, from).from == from && Steady(Known(buffer, from))
    ensures !HasKey(buffer, from) ==> Known(buffer, from) == Fresh(from)
    ensures AllSteady(Without(buffer, from)) && !HasKey(Without(buffer, from), from)
  {
    hide Steady;
    WithoutDistinct(buffer, from);
    var i, rest := Place(buffer, from), Without(buffer, from);
    if i < |buffer| {
      assert forall j | 0 <= j < |rest| :: rest[j] == if j < i then buffer[j] else buffer[j + 1];
    }
  }

  /** A place for a new session. */
  lemma NewSteady(buffer: Sessions, s: SessionState)
    requires AllSteady(buffer) && !HasKey(buffer, s.from)
    ensures MostSteady(buffer + [(s.from, s)], s.from)
  {
    hide Steady;
    assert (buffer + [(s.from, s)])[|buffer|].0 == s.from;
  }

  lemma ReplaceSteady(buffer: Sessions, s: SessionState)
    requires MostSteady(buffer, s.from) && Steady(s)
    ensures AllSteady(Replaced(buffer, s))
  {
    hide Steady;
    var now := Replaced(buffer, s);
    assert forall j | 0 <= j < |now| :: now[j].0 == buffer[j].0;
  }

  lemma MoveSteady(buffer: Sessions, s: SessionState)
    requires MostSteady(buffer, s.from) && Steady(s)
    ensures AllSteady(Without(buffer, s.from) + [(s.from, s)])
  {
    hide Steady;
    var i, rest := Place(buffer, s.from), Without(buffer, s.from);
    WithoutDistinct(buffer, s.from);
    assert forall j | 0 <= j < |rest| :: rest[j] == if j < i then buffer[j] else buffer[j + 1];
  }

  lemma PutSteady(buffer: Sessions, reports: seq<Report>, s: SessionState, p: Packet)
    requires MostSteady(buffer, s.from) && Expecting(s, p.messageNum)
    ensures var h := Put(buffer, reports, s, p); h.Heard? && AllSteady(h.buffer) && h.reports == reports
  {
    hide Steady, Expecting, Assembled, MostSteady, AllSteady, Replaced, Without;
    AssembleSteady(s, p);
    match Assembled(s, p)
    case Partial(t) => ReplaceSteady(buffer, t);
    case Complete(t, _) => MoveSteady(buffer, t);
  }

  lemma FreshExpects(from: string, number: nat)
    ensures var s := Fresh(from); Expecting(s.(stat := Recalculated(s.stat, number)), number)
  {
    assert (number - number % INTERVAL) % INTERVAL == 0;
  }

  lemma ClosedExpects(s: SessionState, number: int)
    requires Steady(s) && number >= s.stat.startMsgNo + INTERVAL
    ensures s.stat.startMsgNo != INITIAL && !DividesByZero(s.stat, number) && Expecting(Closed(s, number), number)
    ensures ReportSound(Report(Recalc, Closed(s, number)))
  {
    CloseSound(s, number);
    assert forall i | 0 <= i < |s.delivered| :: s.delivered[i] in s.delivered;
  }

  lemma FedSteady(buffer: Sessions, reports: seq<Report>, s: SessionState, p: Packet)
    requires MostSteady(buffer, s.from) && 0 <= p.messageNum
    requires s == Fresh(s.from) || (Steady(s) && s.msgNo <= p.messageNum)
    ensures var h := Fed(buffer, reports, s, p);
      h.Heard? && AllSteady(h.buffer) && (ReportsSound(h.reports) <==> ReportsSound(reports))
  {
    hide Expecting, Put, MostSteady, AllSteady, Recalculated, ReportSound;
    if s == Fresh(s.from) {
      FreshExpects(s.from, p.messageNum);
      PutSteady(buffer, reports, s.(stat := Recalculated(s.stat, p.messageNum)), p);
    } else if p.messageNum >= s.stat.startMsgNo + INTERVAL {
      var t := Closed(s, p.messageNum);
      ClosedExpects(s, p.messageNum);
      PutSteady(buffer, reports + [Report(Recalc, t)], t, p);
      OneReport(reports, Report(Recalc, t));
    } else {
      assert Expecting(s, p.messageNum) by { Ongoing(s, p.messageNum); }
      PutSteady(buffer, reports, s, p);
    }
  }

  lemma Ongoing(s: SessionState, number: int)
    requires Steady(s) && s.msgNo <= number < s.stat.startMsgNo + INTERVAL
    ensures Expecting(s, number)
  {
  }

  lemma OneReport(reports: seq<Report>, r: Report)
    ensures ReportsSound(reports + [r]) <==> ReportsSound(reports) && ReportSound(r)
  {
    hide ReportSound;
    assert r in reports + [r];
    assert forall x | x in reports :: x in reports + [r];
  }

  // ---------------------------------------------------------------------------------------------
  // Goodbyes

  /** The goodbye says the number at which the interval of the session starts. */
  predicate Fatal(s: SessionState, p: Packet) {
    p.fragNum == -1 && s.stat.startMsgNo != INITIAL && p.messageNum == s.stat.startMsgNo
  }

  /** The goodbye says a number that does not go with what the session has counted. */
  predicate Misleading(s: SessionState, p: Packet) {
    p.fragNum == -1 && s.stat.startMsgNo != INITIAL && !InPercent(s.stat, p.messageNum)
  }

  lemma GoodbyeExactly(s: SessionState, p: Packet)
    requires p.fragNum == -1 && (s == Fresh(s.from) || Steady(s))
    ensures DividesByZero(s.stat, p.messageNum) <==> Fatal(s, p)
    ensures !Fatal(s, p) ==> (ReportSound(Report(Shutdown, Closed(s, p.messageNum))) <==> !Misleading(s, p))
  {
    DividesByZeroExactly(s.stat, p.messageNum);
    if s != Fresh(s.from) && !Fatal(s, p) {
      RatioExactly(s.stat, p.messageNum);
    }
  }

  /** One packet from anybody: it divides by zero exactly if it is a fatal goodbye, and otherwise brings a wrong
      report exactly if it is a misleading one. */
  lemma ReceiveExactly(buffer: Sessions, reports: seq<Report>, from: string, p: Packet)
    requires AllSteady(buffer) && (p.fragNum != -1 ==> 0 <= p.messageNum)
    ensures var h := Received(buffer, reports, from, p);
      var s := Known(buffer, from);
      && (h.Heard? <==> !Fatal(s, p)) && (h.DivideByZero? <==> Fatal(s, p))
      && (h.Heard? ==> AllSteady(h.buffer) && (ReportsSound(h.reports) <==> ReportsSound(reports) && !Misleading(s, p)))
  {
    hide AllSteady, MostSteady, Steady, ReportSound, ReportsSound, Fed, Recalculated, DividesByZero, Place, Without, InPercent;
    var s := Known(buffer, from);
    KnownSteady(buffer, from);
    var rest := Without(buffer, from);
    if p.fragNum == -1 {
      GoodbyeExactly(s, p);
      if !Fatal(s, p) {
        OneReport(reports, Report(Shutdown, Closed(s, p.messageNum)));
      }
    } else if p.messageNum < s.msgNo {
      ResetSteady(s);
      NewSteady(rest, Fresh(from));
      var more := Report(Reset, Closed(s, s.msgNo + 1));
      FedSteady(rest + [(from, Fresh(from))], reports + [more], Fresh(from), p);
      OneReport(reports, more);
    } else if HasKey(buffer, from) {
      FedSteady(buffer, reports, s, p);
    } else {
      NewSteady(buffer, s);
      FedSteady(buffer + [(from, s)], reports, s, p);
    }
  }

  lemma ResetSteady(s: SessionState)
    requires Steady(s)
    ensures !DividesByZero(s.stat, s.msgNo + 1)
    ensures ReportSound(Report(Reset, Closed(s, s.msgNo + 1))) && ReportSound(Report(Out, Closed(s, s.msgNo + 1)))
  {
    CloseSound(s, s.msgNo + 1);
  }

  lemma {:induction false} EvictSteady(buffer: Sessions, reports: seq<Report>, limit: nat)
    requires AllSteady(buffer)
    ensures var h := Evicted(buffer, reports, limit);
      h.Heard? && AllSteady(h.buffer) && (ReportsSound(h.reports) <==> ReportsSound(reports))
    decreases |buffer|
  {
    hide Steady, ReportSound, ReportsSound, Recalculated;
    if |buffer| > limit {
      var s := buffer[0].1;
      ResetSteady(s);
      OneReport(reports, Report(Out, Closed(s, s.msgNo + 1)));
      EvictSteady(buffer[1..], reports + [Report(Out, Closed(s, s.msgNo + 1))], limit);
    }
  }

  // ---------------------------------------------------------------------------------------------
  // Every run

  /** The session that the i-th packet of a run meets. */
  ghost function Met(arrivals: seq<Arrival>, i: nat, limit: nat): SessionState
    requires i < |arrivals|
  {
    Known(Standing(arrivals[..i], limit), arrivals[i].from)
  }

  ghost predicate SomeFatal(arrivals: seq<Arrival>, limit: nat) {
    exists i :: 0 <= i < |arrivals| && Fatal(Met(arrivals, i, limit), arrivals[i].packet)
  }

  ghost predicate SomeMisleading(arrivals: seq<Arrival>, limit: nat) {
    exists i :: 0 <= i < |arrivals| && Misleading(Met(arrivals, i, limit), arrivals[i].packet)
  }

  /** Whatever arrives, from senders that start again as often as they like: the loop fails exactly if some
      goodbye is fatal; otherwise every ratio it reports is a percentage exactly if no goodbye is misleading. */
  lemma {:induction false} RunExactly(arrivals: seq<Arrival>, limit: nat)
    requires forall a | a in arrivals && a.packet.fragNum != -1 :: 0 <= a.packet.messageNum
    ensures var run := Run(arrivals, limit);
      && (run == Failed <==> SomeFatal(arrivals, limit))
      && (run.History? ==> AllSteady(run.buffer) && (ReportsSound(run.reports) <==> !SomeMisleading(arrivals, limit)))
  {
    hide AllSteady, ReportsSound, Evicted, Received, Fatal, Misleading, Known;
    if arrivals == [] {
      Nothing();
    } else {
      var before, a := arrivals[..|arrivals| - 1], arrivals[|arrivals| - 1];
      RunExactly(before, limit);
      MetBefore(arrivals, limit);
      var run := Run(before, limit);
      if run.History? {
        EvictSteady(run.buffer, run.reports, limit);
        var h := Evicted(run.buffer, run.reports, limit);
        ReceiveExactly(h.buffer, h.reports, a.from, a.packet);
      } else {
        FailedMeets(a.from, a.packet);
      }
    }
  }

  lemma Nothing()
    ensures AllSteady([]) && ReportsSound([])
  {
  }

  lemma FailedMeets(from: string, p: Packet)
    ensures !Fatal(Known([], from), p) && !Misleading(Known([], from), p)
  {
  }

  lemma MetBefore(arrivals: seq<Arrival>, limit: nat)
    requires arrivals != []
    ensures var n := |arrivals| - 1;
      var s, a := Met(arrivals, n, limit), arrivals[n];
      && (SomeFatal(arrivals, limit) <==> SomeFatal(arrivals[..n], limit) || Fatal(s, a.packet))
      && (SomeMisleading(arrivals, limit) <==> SomeMisleading(arrivals[..n], limit) || Misleading(s, a.packet))
  {
    hide Fatal, Misleading, Known, Standing;
    var n := |arrivals| - 1;
    assert forall i | 0 <= i < n :: arrivals[..n][..i] == arrivals[..i] && arrivals[..n][i] == arrivals[i];
    assert forall i | 0 <= i < n :: Met(arrivals[..n], i, limit) == Met(arrivals, i, limit);
  }

  /** A late goodbye of an earlier life of 999 messages, after a short message 1000 of the next life, makes the
      receiver report that 200 percent were lost. */
  lemma TwiceLost(from: string, earlier: seq<string>, later: seq<string>, limit: nat)
    requires 0 < limit && |earlier| == 999 && |later| > 1000 && |later[1000]| < FRAGMENT
    ensures var first, second := FragmentOf(1000, later[1000], 0), Goodbye(999);
      && Honest(first, later) && Honest(second, earlier)
      && var run := Run([Arrival(from, first), Arrival(from, second)], limit);
      run.History? && |run.reports| == 1 && run.reports[0].session.stat.lostRatio == 200 && !ReportsSound(run.reports)
  {
    var m := later[1000];
    var first, second := Arrival(from, FragmentOf(1000, m, 0)), Arrival(from, Goodbye(999));
    PieceLength(m, 0);
    ShortMessage(from, m, limit);
    assert [first, second][..1] == [first];
    var run := Run([first], limit);
    PlaceAt(run.buffer, 0);
    var after := Run([first, second], limit);
    assert after.reports == [Report(Shutdown, Closed(run.buffer[0].1, 999))];
    assert after.reports[0] in after.reports;
  }

  lemma ShortMessage(from: string, m: string, limit: nat)
    requires |m| < FRAGMENT
    ensures var run := Run([Arrival(from, FragmentOf(1000, m, 0))], limit);
      && run.History? && |run.buffer| == 1 && run.buffer[0].0 == from && run.reports == []
      && run.buffer[0].1.stat.startMsgNo == 1000 && run.buffer[0].1.stat.msgCount == 1
  {
    PieceLength(m, 0);
    hide Piece;
    var a := Arrival(from, FragmentOf(1000, m, 0));
    assert [a][..0] == [];
    assert Run([], limit) == History([], [], []);
    var s := Fresh(from).(stat := Recalculated(FRESH_STAT, 1000));
    PlaceAt([(from, Fresh(from))], 0);
    assert Heeded([], [], a, limit) == Put([(from, Fresh(from))], [], s, a.packet);
  }
}
