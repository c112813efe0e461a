/** What the calls of the message queue of src/util/msgq.cpp do, seen from outside: for every interleaving, what
    each call was given, what it added to or took from the queue, and what it returned. */
module MessageCalls {
  import opened Counting
  import opened MessageQueue

  /** Who moves, and which call he begins, if he does. */
  datatype Move = Move(p: nat, action: Action)

  ghost predicate Moved(s: Ring, m: Move, s': Ring) {
    m.p in s.procs && Enabled(s, m.p, m.action) && InBounds(s, m.p) && s' == Step(s, m.p, m.action)
  }

  /** A run with its moves. */
  ghost predicate History(run: seq<Ring>, moves: seq<Move>) {
    && |run| == |moves| + 1 && Init(run[0])
    && forall i | 0 <= i < |moves| :: Moved(run[i], moves[i], run[i + 1])
  }

  /** Every run has its moves. */
  lemma {:induction false} RunHasMoves(run: seq<Ring>)
    requires Run(run)
    ensures exists moves :: History(run, moves)
  {
    hide Step, Enabled, InBounds;
    if |run| == 1 {
      assert History(run, []);
    } else {
      var n := |run| - 1;
      forall i | 0 <= i < n - 1 ensures Next(run[..n][i], run[..n][i + 1]) {
        assert Next(run[i], run[i + 1]);
      }
      RunHasMoves(run[..n]);
      var moves :| History(run[..n], moves);
      assert Next(run[n - 1], run[n - 1 + 1]);
      var p, a :| p in run[n - 1].procs && Enabled(run[n - 1], p, a) && InBounds(run[n - 1], p) && run[n] == Step(run[n - 1], p, a);
      var all := moves + [Move(p, a)];
      forall i | 0 <= i < |all| ensures Moved(run[i], all[i], run[i + 1]) {
        if i < n - 1 {
          assert Moved(run[..n][i], moves[i], run[..n][i + 1]);
        }
      }
      assert History(run, all);
    }
  }

  lemma PartIsRun(run: seq<Ring>, moves: seq<Move>, n: nat)
    requires History(run, moves) && n <= |moves|
    ensures Run(run[..n + 1])
  {
    hide Step, Enabled, InBounds;
    var part := run[..n + 1];
    forall i | 0 <= i < |part| - 1 ensures Next(part[i], part[i + 1]) {
      assert Moved(run[i], moves[i], run[i + 1]);
    }
  }

  // ---------------------------------------------------------------------------------------------
  // What can be seen of a call

  /** The last call of a process, what was added to and taken from the queue in its moves since, and how many
      messages were unread when it computed what remains. */
  datatype Log = Log(call: Action, added: seq<Text>, taken: seq<Text>, unread: seq<int>)

  function Since(before: seq<Text>, after: seq<Text>): seq<Text> {
    if |before| <= |after| then after[|before|..] else []
  }

  predicate Computes(s: Ring, p: nat) {
    p in s.procs && (s.procs[p].GetRemain? || s.procs[p].PutRemain?)
  }

  function Logged(run: seq<Ring>, moves: seq<Move>, n: nat, p: nat): Log
    requires n <= |moves| < |run|
  {
    if n == 0 then Log(Continue, [], [], [])
    else
      var l, m, s, s' := Logged(run, moves, n - 1, p), moves[n - 1], run[n - 1], run[n];
      if m.p != p then l
      else if !m.action.Continue? then Log(m.action, [], [], [])
      else Log(l.call, l.added + Since(s.written, s'.written), l.taken + Since(s.read, s'.read),
               l.unread + if Computes(s, p) then [|s.written| - |s.read|] else [])
  }

  /** The text given to the last call. */
  function Given(l: Log): Text {
    if l.call.BeginPut? then l.call.text else []
  }

  /** The texts given to those calls of `put` that advanced the write index, in this order. */
  function Texts(run: seq<Ring>, moves: seq<Move>, n: nat): seq<Text>
    requires n <= |moves| < |run|
  {
    if n == 0 then []
    else if |run[n].written| <= |run[n - 1].written| then Texts(run, moves, n - 1)
    else Texts(run, moves, n - 1) + [Given(Logged(run, moves, n - 1, moves[n - 1].p))]
  }

  /** The message is the text up to its first NUL. */
  predicate UpToNul(msg: Text, text: Text) {
    msg <= text && 0 !in msg && (|msg| < |text| ==> text[|msg|] == 0)
  }

  lemma UpToNulOnce(a: Text, b: Text, text: Text)
    requires UpToNul(a, text) && UpToNul(b, text)
    ensures a == b
  {
    assert forall i | 0 <= i < |a| :: a[i] == text[i] && a[i] != 0;
    assert forall i | 0 <= i < |b| :: b[i] == text[i] && b[i] != 0;
  }

  // ---------------------------------------------------------------------------------------------
  // Every step keeps the log and the process together

  predicate Nothing(l: Log) {
    l.added == l.taken == [] && l.unread == []
  }

  /** What `put` reports: all unread messages, but none if the queue is full. */
  predicate Reported(l: Log, remain: int, nmsgs: nat) {
    |l.unread| == 1 && 0 < l.unread[0] <= nmsgs && remain == if l.unread[0] < nmsgs then l.unread[0] else 0
  }

  predicate GetTracked(pc: Pc, l: Log, nmsgs: nat) {
    match pc
    case GetWaitItem(block) => l == Log(BeginGet(block), [], [], [])
    case GetRemain(buf, _) => l.taken == [buf] && l.added == [] && l.unread == []
    case GetUnlock(buf, remain, _) => l.taken == [buf] && l.added == [] && l.unread == [remain] && 0 <= remain < nmsgs
    case GetRelease(buf, remain, _) => l.taken == [buf] && l.added == [] && l.unread == [remain] && 0 <= remain < nmsgs
    case _ => Nothing(l)
  }

  predicate PutTracked(pc: Pc, l: Log, nmsgs: nat)
    requires l.call.BeginPut? && !pc.Idle? && !InGet(pc)
  {
    && UpToNul(pc.msg, l.call.text) && l.taken == []
    && match pc
       case PutWaitSlot(_, block) => Nothing(l) && l.call.block == block
       case PutRemain(msg) => l.added == [msg] && l.unread == []
       case PutUnlock(msg, remain) => l.added == [msg] && Reported(l, remain, nmsgs)
       case PutRelease(msg, remain) => l.added == [msg] && Reported(l, remain, nmsgs)
       case _ => Nothing(l)
  }

  /** What a call that is over has done. */
  predicate Returned(o: Outcome, l: Log, nmsgs: nat) {
    match o
    case NoCall => Nothing(l) && l.call == Continue
    case Failed => Nothing(l) && l.call != Continue
    case Got(msg, remain, _) =>
      l.call.BeginGet? && l.taken == [msg] && l.added == [] && l.unread == [remain] && 0 <= remain < nmsgs
    case Written(remain) =>
      l.call.BeginPut? && l.taken == [] && |l.added| == 1 && UpToNul(l.added[0], l.call.text) && Reported(l, remain, nmsgs)
  }

  predicate Tracked(pc: Pc, l: Log, nmsgs: nat) {
    if pc.Idle? then Returned(pc.outcome, l, nmsgs)
    else if InGet(pc) then l.call.BeginGet? && GetTracked(pc, l, nmsgs)
    else l.call.BeginPut? && PutTracked(pc, l, nmsgs)
  }

  lemma BeginTracked(s: Ring, p: nat, a: Action)
    requires p in s.procs && s.procs[p].Idle? && !a.Continue?
    ensures Tracked(Begin(s, p, a).procs[p], Log(a, [], [], []), s.nmsgs)
    ensures Begin(s, p, a).written == s.written && Begin(s, p, a).read == s.read
  {
    if a.BeginPut? {
      CStringFacts(a.text);
    }
  }

  /** The log of the mover after its step. */
  function Onward(s: Ring, p: nat, s': Ring, l: Log): Log {
    Log(l.call, l.added + Since(s.written, s'.written), l.taken + Since(s.read, s'.read),
        l.unread + if Computes(s, p) then [|s.written| - |s.read|] else [])
  }

  lemma GetStepTracked(s: Ring, p: nat, l: Log)
    requires Inv(s) && p in s.procs && InGet(s.procs[p]) && Enabled(s, p, Continue) && InBounds(s, p)
    requires Tracked(s.procs[p], l, s.nmsgs)
    ensures var s' := GetStep(s, p); Tracked(s'.procs[p], Onward(s, p, s', l), s.nmsgs) && s'.written == s.written
  {
    hide Inv, Remain;
    if s.procs[p].GetRemain? {
      RemainAfterGet(s, p);
    }
  }

  lemma PutCopyTracked(s: Ring, p: nat, l: Log)
    requires p in s.procs && s.procs[p].PutCopy? && Enabled(s, p, Continue) && InBounds(s, p)
    requires Tracked(s.procs[p], l, s.nmsgs)
    ensures var s' := PutStep(s, p); Tracked(s'.procs[p], Onward(s, p, s', l), s.nmsgs) && s'.written == s.written
  {
    hide UpToNul;
  }

  lemma PutAdvanceTracked(s: Ring, p: nat, l: Log)
    requires p in s.procs && s.procs[p].PutAdvance? && Tracked(s.procs[p], l, s.nmsgs) && Enabled(s, p, Continue) && InBounds(s, p)
    ensures var s' := PutStep(s, p);
      && Tracked(s'.procs[p], Onward(s, p, s', l), s.nmsgs)
      && s'.written == s.written + [s.procs[p].msg] && UpToNul(s.procs[p].msg, Given(l))
  {
    hide UpToNul;
  }

  lemma PutQuietTracked(s: Ring, p: nat, l: Log)
    requires p in s.procs && !s.procs[p].Idle? && !InGet(s.procs[p]) && Enabled(s, p, Continue) && InBounds(s, p)
    requires !s.procs[p].PutCopy? && !s.procs[p].PutAdvance? && !s.procs[p].PutRemain? && Tracked(s.procs[p], l, s.nmsgs)
    ensures var s' := PutStep(s, p); Tracked(s'.procs[p], Onward(s, p, s', l), s.nmsgs) && s'.written == s.written
  {
    hide UpToNul;
  }

  lemma PutRemainTracked(s: Ring, p: nat, l: Log)
    requires Inv(s) && p in s.procs && s.procs[p].PutRemain? && Enabled(s, p, Continue) && InBounds(s, p)
    requires Tracked(s.procs[p], l, s.nmsgs)
    ensures var s' := PutStep(s, p); Tracked(s'.procs[p], Onward(s, p, s', l), s.nmsgs) && s'.written == s.written
  {
    hide Inv, UpToNul, Remain;
    RemainAfterPut(s, p);
  }

  lemma PutStepTracked(s: Ring, p: nat, l: Log)
    requires Inv(s) && p in s.procs && !s.procs[p].Idle? && !InGet(s.procs[p]) && Enabled(s, p, Continue) && InBounds(s, p)
    requires Tracked(s.procs[p], l, s.nmsgs)
    ensures var s' := PutStep(s, p);
      && Tracked(s'.procs[p], Onward(s, p, s', l), s.nmsgs)
      && (s'.written == s.written || exists m :: s'.written == s.written + [m] && UpToNul(m, Given(l)))
  {
    hide Inv, Remain, UpToNul, PutStep, Tracked, Onward;
    if s.procs[p].PutCopy? {
      PutCopyTracked(s, p, l);
    } else if s.procs[p].PutAdvance? {
      PutAdvanceTracked(s, p, l);
    } else if s.procs[p].PutRemain? {
      PutRemainTracked(s, p, l);
    } else {
      PutQuietTracked(s, p, l);
    }
  }

  lemma StepTracked(s: Ring, m: Move, l: Log, s': Ring)
    requires Inv(s) && Moved(s, m, s') && Tracked(s.procs[m.p], l, s.nmsgs)
    ensures m.p in s'.procs
    ensures Tracked(s'.procs[m.p], if m.action.Continue? then Onward(s, m.p, s', l) else Log(m.action, [], [], []), s.nmsgs)
    ensures s'.written == s.written || exists t :: s'.written == s.written + [t] && UpToNul(t, Given(l))
  {
    hide Tracked, Inv, GetStep, PutStep, Begin;
    if s.procs[m.p].Idle? {
      BeginTracked(s, m.p, m.action);
    } else if InGet(s.procs[m.p]) {
      GetStepTracked(s, m.p, l);
    } else {
      PutStepTracked(s, m.p, l);
    }
    StepGrows(s, m.p, m.action);
  }

  lemma OthersStay(s: Ring, m: Move, s': Ring)
    requires Moved(s, m, s')
    ensures s'.procs.Keys == s.procs.Keys && forall q | q in s.procs && q != m.p :: s'.procs[q] == s.procs[q]
    ensures s'.nmsgs == s.nmsgs && s'.size == s.size
  {
    TicketMove(s, m.p, m.action);
    StepGrows(s, m.p, m.action);
  }

  lemma HistoryInv(run: seq<Ring>, moves: seq<Move>, n: nat)
    requires History(run, moves) && n <= |moves|
    ensures Inv(run[n])
  {
    hide Inv, History;
    PartIsRun(run, moves, n);
    assert |run| == |moves| + 1 by { Lengths(run, moves); }
    RunInv(run[..n + 1]);
  }

  lemma Lengths(run: seq<Ring>, moves: seq<Move>)
    requires History(run, moves)
    ensures |run| == |moves| + 1
  {
  }

  /** At every moment of a run, every process has done what its log says. */
  lemma {:induction false} LogsTrack(run: seq<Ring>, moves: seq<Move>, n: nat, p: nat)
    requires History(run, moves) && n <= |moves| && p in run[n].procs
    ensures Tracked(run[n].procs[p], Logged(run, moves, n, p), run[n].nmsgs)
  {
    hide Tracked, Inv, Step, Enabled, InBounds;
    if n == 0 {
      StartTracked(run, moves, p);
    } else {
      var s, m, s' := run[n - 1], moves[n - 1], run[n];
      assert Moved(s, m, run[n - 1 + 1]);
      OthersStay(s, m, s');
      LogsTrack(run, moves, n - 1, p);
      if m.p == p {
        HistoryInv(run, moves, n - 1);
        StepTracked(s, m, Logged(run, moves, n - 1, p), s');
      }
    }
  }

  lemma StartTracked(run: seq<Ring>, moves: seq<Move>, p: nat)
    requires History(run, moves) && p in run[0].procs
    ensures Tracked(run[0].procs[p], Logged(run, moves, 0, p), run[0].nmsgs)
  {
  }

  // ---------------------------------------------------------------------------------------------
  // Main results

  /** What is in the queue is what was put there: the k-th message written is the text given to the k-th `put`
      that advanced, up to its first NUL, and the messages read are the first of them. */
  lemma {:induction false} WrittenAsGiven(run: seq<Ring>, moves: seq<Move>, n: nat)
    requires History(run, moves) && n <= |moves|
    ensures var s, texts := run[n], Texts(run, moves, n);
      && |texts| == |s.written| && (forall k | 0 <= k < |texts| :: UpToNul(s.written[k], texts[k]))
      && s.read <= s.written
  {
    hide Tracked, Inv, Step, Enabled, InBounds, UpToNul;
    HistoryInv(run, moves, n);
    assert run[n].read <= run[n].written by { PrefixRead(run[n]); }
    if n > 0 {
      WrittenAsGiven(run, moves, n - 1);
      var s, m, s' := run[n - 1], moves[n - 1], run[n];
      assert Moved(s, m, run[n - 1 + 1]);
      HistoryInv(run, moves, n - 1);
      LogsTrack(run, moves, n - 1, m.p);
      StepTracked(s, m, Logged(run, moves, n - 1, m.p), s');
    }
  }

  lemma PrefixRead(s: Ring)
    requires Inv(s)
    ensures s.read <= s.written
  {
  }

  /** First in, first out, whatever the interleaving: what a `get` returned with ticket k is the text that was
      given to the k-th `put` that advanced, up to its first NUL; no two processes hold the same ticket, and
      never more than nmsgs texts are unread. */
  lemma FirstInFirstOut(run: seq<Ring>, moves: seq<Move>)
    requires History(run, moves)
    ensures var s, texts := run[|moves|], Texts(run, moves, |moves|);
      && |s.read| <= |texts| <= |s.read| + s.nmsgs
      && (forall k | 0 <= k < |s.read| :: UpToNul(s.read[k], texts[k]))
      && (forall p | p in s.procs && s.procs[p].Idle? && s.procs[p].outcome.Got? ::
            var o := s.procs[p].outcome; o.ticket < |s.read| && UpToNul(o.msg, texts[o.ticket]))
      && (forall p, q | p in s.procs && q in s.procs && p != q && 0 <= Ticket(s.procs[p]) ::
            Ticket(s.procs[p]) != Ticket(s.procs[q]))
  {
    hide UpToNul, Step, Enabled, InBounds;
    PartIsRun(run, moves, |moves|);
    assert run[..|moves| + 1] == run;
    ReadAsWritten(run);
    WrittenAsGiven(run, moves, |moves|);
  }

  /** A `get` that returned a message took exactly this one from the queue, and reports how many were unread when
      it computed that, which is less than the size of the queue; it put nothing there. */
  lemma GetReturns(run: seq<Ring>, moves: seq<Move>, n: nat, p: nat)
    requires History(run, moves) && n <= |moves| && p in run[n].procs
    requires run[n].procs[p].Idle? && run[n].procs[p].outcome.Got?
    ensures var o, l := run[n].procs[p].outcome, Logged(run, moves, n, p);
      && l.call.BeginGet? && l.taken == [o.msg] && l.added == []
      && l.unread == [o.remain] && 0 <= o.remain < run[n].nmsgs
    ensures var o, texts := run[n].procs[p].outcome, Texts(run, moves, n);
      o.ticket < |texts| && UpToNul(o.msg, texts[o.ticket])
  {
    hide Inv, UpToNul, History;
    Lengths(run, moves);
    LogsTrack(run, moves, n, p);
    WrittenAsGiven(run, moves, n);
    HistoryInv(run, moves, n);
    GotWhat(run[n], p);
  }

  lemma GotWhat(s: Ring, p: nat)
    requires Inv(s) && p in s.procs && s.procs[p].Idle? && s.procs[p].outcome.Got?
    ensures var o := s.procs[p].outcome; o.ticket < |s.read| <= |s.written| && o.msg == s.written[o.ticket]
  {
    assert ProcOk(s, s.procs[p]);
  }

  /** A `put` that returned added exactly its own text, up to the first NUL, and took nothing; it reports how many
      messages were unread when it computed that, if that was not a full queue, and otherwise 0. */
  lemma PutReturns(run: seq<Ring>, moves: seq<Move>, n: nat, p: nat)
    requires History(run, moves) && n <= |moves| && p in run[n].procs
    requires run[n].procs[p].Idle? && run[n].procs[p].outcome.Written?
    ensures var o, l, nmsgs := run[n].procs[p].outcome, Logged(run, moves, n, p), run[n].nmsgs;
      && l.call.BeginPut? && |l.added| == 1 && UpToNul(l.added[0], l.call.text) && l.taken == []
      && |l.unread| == 1 && 0 < l.unread[0] <= nmsgs
      && (o.remain == l.unread[0] <==> l.unread[0] < nmsgs) && (l.unread[0] == nmsgs ==> o.remain == 0)
  {
    hide History, UpToNul;
    LogsTrack(run, moves, n, p);
  }

  /** A call that failed added and took nothing. */
  lemma FailedDidNothing(run: seq<Ring>, moves: seq<Move>, n: nat, p: nat)
    requires History(run, moves) && n <= |moves| && p in run[n].procs && run[n].procs[p] == Idle(Failed)
    ensures var l := Logged(run, moves, n, p); l.call != Continue && l.added == l.taken == []
  {
    hide History;
    LogsTrack(run, moves, n, p);
  }

  /** A `put` is refused at once exactly if its text is empty or does not fit a slot with its NUL. */
  lemma RefusedExactly(run: seq<Ring>, moves: seq<Move>, i: nat, msg: Text)
    requires History(run, moves) && i < |moves| && moves[i].action.BeginPut? && UpToNul(msg, moves[i].action.text)
    ensures var p := moves[i].p;
      && p in run[i + 1].procs && (run[i + 1].procs[p] == Idle(Failed) <==> msg == [] || |msg| > run[i].size - 1)
      && (run[i + 1].procs[p].Idle? ==> run[i + 1].procs[p] == Idle(Failed))
  {
    var s, m := run[i], moves[i];
    assert Moved(s, m, run[i + 1]);
    CStringFacts(m.action.text);
    UpToNulOnce(msg, CString(m.action.text), m.action.text);
  }

  /** Later, a call gives up only if it was not to wait, and exactly if its first semaphore is at 0: no unread
      message is there that is not in the hands of another call, or no such slot. */
  lemma GivesUpExactly(run: seq<Ring>, moves: seq<Move>, i: nat)
    requires History(run, moves) && i < |moves| && moves[i].action.Continue?
    ensures var p, s := moves[i].p, run[i];
      && p in s.procs && p in run[i + 1].procs
      && (run[i + 1].procs[p] == Idle(Failed) <==>
            (s.procs[p] == GetWaitItem(false) && s.items == 0) || (s.procs[p].PutWaitSlot? && !s.procs[p].block && s.free == 0))
      && (run[i + 1].procs[p] == Idle(Failed) ==>
            !Waits(Logged(run, moves, i, p).call) && Shape(s)
            && if s.procs[p].GetWaitItem? then |s.written| - |s.read| == Count(s.procs, SlotFilled) + Count(s.procs, ItemTaken)
               else s.nmsgs - (|s.written| - |s.read|) == Count(s.procs, SlotTaken) + Count(s.procs, SlotEmptied))
  {
    var s, m := run[i], moves[i];
    assert Moved(s, m, run[i + 1]);
    LogsTrack(run, moves, i, m.p);
    HistoryInv(run, moves, i);
  }

  /** A call that waits for a message or a slot. */
  predicate Waits(call: Action) {
    !call.Continue? && call.block
  }
}
