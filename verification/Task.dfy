/** When a page is looked at again, src/crawler/task.cpp. */
module Tasks {

  const RANDOM_BASE := 4
  const GAME_OVER_TOWAIT := RANDOM_BASE * 8
  const UNCHANGED_FADE_OUT := 2
  const ACCESS_ERROR_FADE_OUT := 4
  const TWO16 := 0x1_0000

  /** The status bits. */
  datatype Status = Status(visited: bool, unknown: bool, stale: bool, bad: bool, blink: bool, deleted: bool)

  /** A task; `towait` is a 16-bit number. */
  datatype TaskState = TaskState(localstr: string, towait: nat, waited: nat, status: Status, newContentSum: nat)

  datatype PageStatus = PageStatus(getPage: bool, newURL: nat, newAnchor: nat, newParagraph: nat, outlinkSaved: nat,
                                   newScript: bool, newPlain: bool)

  const NO_PAGE := PageStatus(false, 0, 0, 0, 0, false, false)

  function NewContentNum(p: PageStatus): nat {
    if !p.getPage then 0
    else if p.newScript || p.newPlain then 1
    else p.newURL + p.newAnchor + p.newParagraph + p.outlinkSaved
  }

  function NewTextNum(p: PageStatus): nat {
    if !p.getPage then 0
    else if p.newScript || p.newPlain then 1
    else p.newAnchor + p.newParagraph
  }

  /** What `isReady` and `reschedule` assert. */
  predicate Live(t: TaskState) {
    !t.status.stale && !t.status.bad && !t.status.unknown
  }

  predicate Ready(t: TaskState) {
    !t.status.visited || t.waited >= t.towait
  }

  function Faded(t: TaskState, f: nat): TaskState {
    if t.waited * f > GAME_OVER_TOWAIT then t.(status := t.status.(stale := true))
    else if t.towait == 0 then t.(towait := 1)
    else t.(towait := t.towait * f % TWO16)
  }

  function Rescheduled(t: TaskState, p: PageStatus, random: nat): TaskState {
    if !p.getPage then
      var u := Faded(t, ACCESS_ERROR_FADE_OUT);
      u.(waited := u.waited + 1)
    else
      var s := t.(newContentSum := t.newContentSum + NewContentNum(p));
      if !t.status.visited then
        var st := t.status.(visited := true, blink := false, stale := t.status.stale || NewTextNum(p) == 0);
        s.(towait := if NewTextNum(p) > 0 then random % RANDOM_BASE else t.towait, waited := 0, status := st)
      else if NewContentNum(p) > 0 then
        s.(towait := if t.waited / 2 < t.towait then t.waited / 2 else t.towait, waited := 0)
      else
        Faded(s, UNCHANGED_FADE_OUT).(waited := 0)
  }

  class Task {
    var localstr: string
    var towait: nat
    var waited: nat
    var status: Status
    var newContentSum: nat

    ghost function State(): TaskState
      reads this
    {
      TaskState(localstr, towait, waited, status, newContentSum)
    }

    constructor (t: TaskState)
      ensures State() == t
    {
      localstr, towait, waited, status, newContentSum := t.localstr, t.towait, t.waited, t.status, t.newContentSum;
    }

    predicate IsReady()
      reads this
      requires Live(State())
      ensures IsReady() <==> Ready(State())
    {
      if !status.visited then true else waited >= towait
    }

    method Reschedule(page: PageStatus, random: nat)
      requires Live(State())
      modifies this
      ensures State() == Rescheduled(old(State()), page, random)
    {
      if page.getPage {
        newContentSum := newContentSum + NewContentNum(page);
        if !status.visited {
          if NewTextNum(page) > 0 {
            towait := random % RANDOM_BASE;
          } else {
            status := status.(stale := true);
          }
          waited := 0;
          status := status.(visited := true);
          status := status.(blink := false);
          return;
        }
        if NewContentNum(page) > 0 {
          towait := if waited / 2 < towait then waited / 2 else towait;
          waited := 0;
          return;
        }
        FadeOut(UNCHANGED_FADE_OUT);
        waited := 0;
        return;
      }
      FadeOut(ACCESS_ERROR_FADE_OUT);
      waited := waited + 1;
    }

    method FadeOut(f: nat)
      modifies this
      ensures State() == Faded(old(State()), f)
    {
      if waited * f > GAME_OVER_TOWAIT {
        status := status.(stale := true);
      } else if towait == 0 {
        towait := 1;
      } else {
        towait := towait * f % TWO16;
      }
    }
  }

  // ---------------------------------------------------------------------------------------------
  // Histories

  /** A visit; a turn in which the task is not fetched; the shift between turns. */
  datatype Event = Visit(page: PageStatus, random: nat) | Skip | Shift(turns: nat)

  function Next(t: TaskState, e: Event): TaskState {
    match e
    case Visit(page, random) => Rescheduled(t, page, random)
    case Skip => t.(waited := t.waited + 1)
    case Shift(turns) => t.(waited := t.waited + turns)
  }

  function After(t: TaskState, es: seq<Event>): TaskState {
    if es == [] then t else Next(After(t, es[..|es| - 1]), es[|es| - 1])
  }

  /** Only live tasks are kept, and only ready ones are visited. */
  predicate Possible(t: TaskState, es: seq<Event>) {
    es != [] ==>
      var before, e := es[..|es| - 1], es[|es| - 1];
      Possible(t, before) && Live(After(t, before)) && (e.Visit? ==> Ready(After(t, before)))
  }

  function Visits(es: seq<Event>): nat {
    if es == [] then 0 else Visits(es[..|es| - 1]) + (if es[|es| - 1].Visit? then 1 else 0)
  }

  predicate Bounded(t: TaskState) {
    t.status.visited && Live(t) ==> t.towait <= GAME_OVER_TOWAIT
  }

  /** In every history a visited live task waits for at most 32 turns. */
  lemma {:induction false} WaitIsBounded(t: TaskState, es: seq<Event>)
    requires Bounded(t) && Possible(t, es)
    ensures Bounded(After(t, es))
  {
    if es != [] {
      var before, e := es[..|es| - 1], es[|es| - 1];
      WaitIsBounded(t, before);
      var u := After(t, before);
      if e.Visit? && u.status.visited && (!e.page.getPage || NewContentNum(e.page) == 0) {
        var f := if e.page.getPage then UNCHANGED_FADE_OUT else ACCESS_ERROR_FADE_OUT;
        assert u.towait * f <= u.waited * f;
      }
    }
  }

  predicate NothingNew(es: seq<Event>) {
    forall e | e in es && e.Visit? :: NewContentNum(e.page) == 0
  }

  function Pow2(k: nat): nat {
    if k == 0 then 1 else 2 * Pow2(k - 1)
  }

  /** The wait at least doubles with every visit that brings nothing new. */
  lemma {:induction false} WaitDoubles(t: TaskState, es: seq<Event>)
    requires t.status.visited && Bounded(t) && Possible(t, es) && NothingNew(es)
    ensures var u := After(t, es);
      && u.status.visited && Visits(es) <= 7
      && (if Live(u) then Visits(es) <= 6 && (Visits(es) > 0 ==> Pow2(Visits(es) - 1) <= u.towait)
          else !Live(t) || u.status.stale)
  {
    if es != [] {
      var before, e := es[..|es| - 1], es[|es| - 1];
      assert NothingNew(before);
      WaitDoubles(t, before);
      WaitIsBounded(t, before);
      var u, n := After(t, before), Visits(before);
      if e.Visit? {
        assert e in es;
        VisitDoubles(u, e, n);
      }
    }
  }

  lemma VisitDoubles(u: TaskState, e: Event, n: nat)
    requires u.status.visited && Live(u) && Ready(u) && e.Visit? && NewContentNum(e.page) == 0
    requires n <= 6 && u.towait <= GAME_OVER_TOWAIT && (n > 0 ==> Pow2(n - 1) <= u.towait)
    ensures var v := Next(u, e);
      v.status.visited && (if Live(v) then n < 6 && Pow2(n) <= v.towait else v.status.stale)
  {
    var f := if e.page.getPage then UNCHANGED_FADE_OUT else ACCESS_ERROR_FADE_OUT;
    assert Pow2(5) == 32;
    if n == 6 {
      assert u.waited * f >= u.towait * f >= 64;
    } else if n > 0 {
      assert Pow2(n) == 2 * Pow2(n - 1);
      assert u.towait * f <= u.waited * f && u.towait * f >= 2 * u.towait;
    }
  }

  /** Seven ready visits in a row that bring nothing new, unchanged or failed in any mix, make a visited
      task stale; there is never an eighth. */
  lemma SevenVisits(t: TaskState, es: seq<Event>)
    requires t.status.visited && Live(t) && Bounded(t) && Possible(t, es) && NothingNew(es)
    ensures Visits(es) <= 7 && (Visits(es) == 7 ==> After(t, es).status.stale)
  {
    WaitDoubles(t, es);
  }

  /** The first fetch of a page: it is stale exactly if it has no new text, and otherwise comes again within four
      turns. */
  lemma FirstFetch(t: TaskState, p: PageStatus, random: nat)
    requires Live(t) && !t.status.visited && p.getPage
    ensures var u := Next(t, Visit(p, random));
      && u.status.visited && !u.status.blink && u.waited == 0 && (u.status.stale <==> NewTextNum(p) == 0)
      && (Live(u) ==> u.towait < 4)
  {
  }

  /** A page that has changed comes again sooner: the next wait is the longest that is no longer than the last one
      and no longer than half of the turns it had waited. */
  lemma ChangedSooner(t: TaskState, p: PageStatus, random: nat)
    requires Live(t) && t.status.visited && p.getPage && NewContentNum(p) > 0
    ensures var u := Next(t, Visit(p, random));
      && u.status == t.status && u.waited == 0
      && u.towait <= t.towait && 2 * u.towait <= t.waited
      && forall n: nat | n <= t.towait && 2 * n <= t.waited :: n <= u.towait
  {
  }

  /** Visits that find news, each on the turn at which the task gets ready. */
  predicate PromptNews(t: TaskState, es: seq<Event>) {
    es != [] ==>
      var before, e := es[..|es| - 1], es[|es| - 1];
      && PromptNews(t, before)
      && (e.Visit? ==> e.page.getPage && NewContentNum(e.page) > 0 && After(t, before).waited == After(t, before).towait)
  }

  /** Every such visit halves the wait, so that after six of them the page is looked at in every turn. */
  lemma {:induction false} NewsHalve(t: TaskState, es: seq<Event>)
    requires t.status.visited && Live(t) && Bounded(t) && PromptNews(t, es)
    ensures var u, n := After(t, es), Pow2(Visits(es));
      u.status == t.status && u.towait * n <= t.towait < (u.towait + 1) * n && (Visits(es) >= 6 ==> u.towait == 0)
  {
    if es != [] {
      var before, e := es[..|es| - 1], es[|es| - 1];
      NewsHalve(t, before);
      if e.Visit? {
        HalfAgain(After(t, before).towait, Pow2(Visits(before)), t.towait);
      }
    }
    if Visits(es) >= 6 {
      Sixtyfour(Visits(es));
      AtMostHalf(After(t, es).towait, Pow2(Visits(es)), t.towait);
    }
  }

  lemma HalfAgain(w: nat, p: nat, t: nat)
    requires w * p <= t < (w + 1) * p
    ensures (w / 2) * (2 * p) <= t < (w / 2 + 1) * (2 * p)
  {
    var h, r := w / 2, w % 2;
    assert w == 2 * h + r;
    assert w * p == h * (2 * p) + r * p;
    assert (h + 1) * (2 * p) == (2 * h + 2) * p;
    assert (w + 1) * p + (1 - r) * p == (2 * h + 2) * p;
  }

  lemma AtMostHalf(w: nat, p: nat, t: nat)
    requires w * p <= t < p
    ensures w == 0
  {
    assert w * p == (w - 1) * p + p;
  }

  lemma {:induction false} Sixtyfour(n: nat)
    requires 6 <= n
    ensures Pow2(n) >= 64
  {
    if n > 6 {
      Sixtyfour(n - 1);
    } else {
      assert Pow2(6) == 64;
    }
  }

  /** What all visits together have brought. */
  function News(es: seq<Event>): nat {
    if es == [] then 0
    else News(es[..|es| - 1]) + if es[|es| - 1].Visit? then NewContentNum(es[|es| - 1].page) else 0
  }

  lemma {:induction false} NewsAddUp(t: TaskState, es: seq<Event>)
    ensures After(t, es).newContentSum == t.newContentSum + News(es)
  {
    if es != [] {
      NewsAddUp(t, es[..|es| - 1]);
    }
  }

  predicate AllFail(es: seq<Event>) {
    forall e | e in es && e.Visit? :: !e.page.getPage
  }

  /** A page that was never fetched becomes stale with its tenth failure at the latest. */
  lemma {:induction false} TenFailures(t: TaskState, es: seq<Event>)
    requires !t.status.visited && Live(t) && Possible(t, es) && AllFail(es)
    ensures var u := After(t, es);
      && !u.status.visited && Visits(es) <= u.waited && Visits(es) <= 10
      && (if Live(u) then Visits(es) <= 9 else u.status.stale)
      && (Visits(es) == 10 ==> u.status.stale)
  {
    if es != [] {
      var before, e := es[..|es| - 1], es[|es| - 1];
      assert AllFail(before);
      TenFailures(t, before);
      if e.Visit? {
        assert e in es;
      }
    }
  }

  const FRESH_STATUS := Status(false, false, false, false, false, false)

  function Repeated(e: Event, n: nat): seq<Event> {
    if n == 0 then [] else Repeated(e, n - 1) + [e]
  }

  /** Nine failures are not enough. */
  lemma NineAreNotEnough(name: string)
    ensures var t, es := TaskState(name, 0, 0, FRESH_STATUS, 0), Repeated(Visit(NO_PAGE, 0), 9);
      Possible(t, es) && Visits(es) == 9 && AllFail(es) && Live(After(t, es))
  {
    FailuresKeepLive(name, 9);
  }

  lemma {:induction false} FailuresKeepLive(name: string, n: nat)
    requires n <= 9
    ensures var t, es := TaskState(name, 0, 0, FRESH_STATUS, 0), Repeated(Visit(NO_PAGE, 0), n);
      && Possible(t, es) && Visits(es) == n && AllFail(es)
      && Live(After(t, es)) && After(t, es).waited == n && !After(t, es).status.visited
  {
    if n > 0 {
      FailuresKeepLive(name, n - 1);
      var e := Visit(NO_PAGE, 0);
      assert Repeated(e, n)[..|Repeated(e, n)| - 1] == Repeated(e, n - 1);
    }
  }

  // ---------------------------------------------------------------------------------------------
  // The shift between turns, src/crawler/envhost.cpp

  predicate ReadyAfter(t: TaskState, turns: nat) {
    Ready(t.(waited := t.waited + turns))
  }

  predicate SomeReady(ts: seq<TaskState>) {
    exists i :: 0 <= i < |ts| && Ready(ts[i])
  }

  function Shifted(ts: seq<TaskState>, turns: nat): seq<TaskState> {
    seq(|ts|, i requires 0 <= i < |ts| => ts[i].(waited := ts[i].waited + turns))
  }

  /** Moves all tasks forward by the least number of turns that leaves one of them ready. */
  method ShiftTurn(ts: seq<TaskState>) returns (saved: seq<TaskState>, turns: nat)
    ensures saved == Shifted(ts, turns)
    ensures ts != [] ==> SomeReady(saved) && forall k: nat :: SomeReady(Shifted(ts, k)) <==> turns <= k
    ensures forall i | 0 <= i < |ts| :: ts[i].waited <= saved[i].waited && (Ready(ts[i]) ==> Ready(saved[i]))
  {
    var towaitMin: int := -1;
    for i := 0 to |ts|
      invariant -1 <= towaitMin && (towaitMin == -1 <==> i == 0)
      invariant i > 0 ==> exists j :: 0 <= j < i && ReadyAfter(ts[j], towaitMin)
      invariant forall j, k: nat | 0 <= j < i && ReadyAfter(ts[j], k) :: towaitMin <= k
    {
      var t := ts[i];
      if !t.status.visited {
        towaitMin := 0;
        assert ReadyAfter(ts[i], towaitMin);
      } else if t.towait <= t.waited {
        towaitMin := 0;
        assert ReadyAfter(ts[i], towaitMin);
      } else if towaitMin == -1 || towaitMin > t.towait - t.waited {
        towaitMin := t.towait - t.waited;
        assert ReadyAfter(ts[i], towaitMin);
      }
    }
    turns := if ts == [] then 0 else towaitMin;
    saved := [];
    for i := 0 to |ts|
      invariant |saved| == i && forall j | 0 <= j < i :: saved[j] == ts[j].(waited := ts[j].waited + turns)
    {
      saved := saved + [ts[i].(waited := ts[i].waited + turns)];
    }
    if ts != [] {
      var j :| 0 <= j < |ts| && ReadyAfter(ts[j], towaitMin);
      forall k: nat | turns <= k ensures SomeReady(Shifted(ts, k)) {
        assert Ready(Shifted(ts, k)[j]);
      }
      forall k: nat | SomeReady(Shifted(ts, k)) ensures turns <= k {
        var i :| 0 <= i < |ts| && Ready(Shifted(ts, k)[i]);
        assert ReadyAfter(ts[i], k);
      }
    }
  }
}
