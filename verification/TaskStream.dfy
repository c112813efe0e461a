/** Where the tasks of a turn go, src/crawler/task_stream.cpp: on to the next turn, to the overflow, or away. */
module TaskStream {
  import opened Tasks

  datatype Fate = Discarded | B2B | B2V | U2V | U2U | V2V | Lost

  predicate Dropped(current: TaskState) {
    current.status.deleted || current.status.bad || current.status.stale
  }

  /** The list that `put` chooses for a task that was `origin` when the turn began. */
  function FateOf(current: TaskState, origin: TaskState): Fate {
    var c, o := current.status, origin.status;
    if Dropped(current) then Discarded
    else if o.blink && c.blink then B2B
    else if o.blink && c.visited then B2V
    else if !o.visited && c.visited then U2V
    else if !o.visited && !c.visited then U2U
    else if o.visited && c.visited then V2V
    else Lost
  }

  /** What a task was and what it has become, for each list; the cases exclude each other. */
  lemma FateMeans(current: TaskState, origin: TaskState)
    requires !Dropped(current)
    ensures var fate, c, o := FateOf(current, origin), current.status, origin.status;
      && fate != Discarded
      && (fate == B2B <==> o.blink && c.blink)
      && (fate == B2V <==> o.blink && !c.blink && c.visited)
      && (fate == U2V <==> !o.blink && !o.visited && c.visited)
      && (fate == V2V <==> !o.blink && o.visited && c.visited)
      && (fate == U2U <==> !(o.blink && c.blink) && !o.visited && !c.visited)
  {
  }

  /** A task vanishes exactly when it was visited and is so no more, without staying a blinking one. */
  lemma LostExactly(current: TaskState, origin: TaskState)
    ensures FateOf(current, origin) == Lost <==>
      && !Dropped(current) && origin.status.visited && !current.status.visited
      && !(origin.status.blink && current.status.blink)
  {
  }

  /** No task that `reschedule`, a skipped turn or a mark of the crawler has changed is lost: the visited
      bit is never taken back. */
  lemma NeverLost(origin: TaskState, es: seq<Event>, bad: bool, gone: bool)
    ensures var t := After(origin, es);
      FateOf(t.(status := t.status.(bad := t.status.bad || bad, deleted := t.status.deleted || gone)), origin) != Lost
  {
    VisitedStays(origin, es);
  }

  lemma {:induction false} VisitedStays(origin: TaskState, es: seq<Event>)
    ensures origin.status.visited ==> After(origin, es).status.visited
  {
    if es != [] {
      VisitedStays(origin, es[..|es| - 1]);
    }
  }

  function Least(a: nat, b: nat): nat {
    if a < b then a else b
  }

  datatype Lists = Lists(b2b: seq<TaskState>, b2v: seq<TaskState>, u2v: seq<TaskState>, u2u: seq<TaskState>, v2v: seq<TaskState>)

  /** The waiting tasks in the order in which they get places. */
  function Joined(l: Lists): seq<TaskState> {
    l.b2b + l.v2v + l.b2v + l.u2v + l.u2u
  }

  function Added(l: Lists, fate: Fate, t: TaskState): Lists {
    match fate
    case B2B => l.(b2b := l.b2b + [t])
    case B2V => l.(b2v := l.b2v + [t])
    case U2V => l.(u2v := l.u2v + [t])
    case U2U => l.(u2u := l.u2u + [t])
    case V2V => l.(v2v := l.v2v + [t])
    case _ => l
  }

  lemma Inserted(a: seq<TaskState>, b: seq<TaskState>, t: TaskState)
    ensures multiset(a + [t] + b) == multiset(a + b) + multiset{t}
  {
  }

  lemma AddedOne(l: Lists, fate: Fate, t: TaskState)
    requires fate != Lost && fate != Discarded
    ensures multiset(Joined(Added(l, fate, t))) == multiset(Joined(l)) + multiset{t}
  {
    var a, b, c, d, e := l.b2b, l.v2v, l.b2v, l.u2v, l.u2u;
    var r := Joined(Added(l, fate, t));
    match fate {
      case B2B =>
        assert r == a + [t] + (b + c + d + e) && Joined(l) == a + (b + c + d + e);
        Inserted(a, b + c + d + e, t);
      case V2V =>
        assert r == a + b + [t] + (c + d + e) && Joined(l) == a + b + (c + d + e);
        Inserted(a + b, c + d + e, t);
      case B2V =>
        assert r == a + b + c + [t] + (d + e) && Joined(l) == a + b + c + (d + e);
        Inserted(a + b + c, d + e, t);
      case U2V =>
        assert r == a + b + c + d + [t] + e && Joined(l) == a + b + c + d + e;
        Inserted(a + b + c + d, e, t);
      case U2U =>
        assert r == a + b + c + d + e + [t] + [] && Joined(l) == a + b + c + d + e + [];
        Inserted(a + b + c + d + e, [], t);
    }
  }

  /** Every task that was put, but for lost ones, is in one place. */
  ghost predicate InPlace(all: multiset<TaskState>, waiting: seq<TaskState>, active: seq<TaskState>, overflow: seq<TaskState>, discard: seq<TaskState>) {
    all == multiset(waiting) + multiset(active) + multiset(overflow) + multiset(discard)
  }

  lemma PutOne(all: multiset<TaskState>, l: Lists, active: seq<TaskState>, overflow: seq<TaskState>, discard: seq<TaskState>,
               fate: Fate, t: TaskState)
    requires InPlace(all, Joined(l), active, overflow, discard) && fate != Lost
    ensures InPlace(all + multiset{t}, Joined(Added(l, fate, t)), active, overflow,
                    if fate == Discarded then discard + [t] else discard)
  {
    hide Joined;
    if fate != Discarded {
      AddedOne(l, fate, t);
    }
  }

  /** The tasks with and without a place among the first `max` of a list. */
  predicate Placed(active: seq<TaskState>, overflow: seq<TaskState>, done: seq<TaskState>, max: nat) {
    active == done[..Least(|done|, max)] && overflow == done[Least(|done|, max)..]
  }

  lemma OneMorePlaced(active: seq<TaskState>, overflow: seq<TaskState>, done: seq<TaskState>, max: nat, t: TaskState)
    requires Placed(active, overflow, done, max)
    ensures |done| < max ==> Placed(active + [t], overflow, done + [t], max)
    ensures |done| >= max ==> Placed(active, overflow + [t], done + [t], max)
  {
  }

  /** Of n tasks that stand from place `start` on, those without one of the first `max` places. */
  function Beyond(n: nat, start: nat, max: nat): nat {
    if start + n <= max then 0 else if start >= max then n else start + n - max
  }

  class ActiveTaskFile {
    var newOverflow: nat
    var oldOverflow: nat
    var blinkOverflow: nat
    var newDiscard: nat
    var oldDiscard: nat
    var blinkDiscard: nat
    var nActive: nat
    const maxActive: nat
    var b2b: seq<TaskState>
    var b2v: seq<TaskState>
    var u2v: seq<TaskState>
    var u2u: seq<TaskState>
    var v2v: seq<TaskState>
    var active: seq<TaskState>
    var discard: seq<TaskState>
    var overflow: seq<TaskState>
    ghost var all: multiset<TaskState>  // every task put, but for lost ones

    function Kept(): Lists
      reads this`b2b, this`b2v, this`u2v, this`u2u, this`v2v
    {
      Lists(b2b, b2v, u2v, u2u, v2v)
    }

    /** Every task is in one place, and the counters tell how many went where. */
    ghost predicate Valid()
      reads this
    {
      && InPlace(all, Joined(Kept()), active, overflow, discard)
      && |discard| == newDiscard + oldDiscard + blinkDiscard
      && |overflow| == newOverflow + oldOverflow + blinkOverflow
    }

    ghost predicate Open()
      reads this
    {
      Valid() && nActive == 0 && active == [] && overflow == []
    }

    constructor (maxActive: nat)
      ensures Open() && Joined(Kept()) == [] && discard == [] && this.maxActive == maxActive
    {
      this.maxActive := maxActive;
      newOverflow, oldOverflow, blinkOverflow, newDiscard, oldDiscard, blinkDiscard, nActive := 0, 0, 0, 0, 0, 0, 0;
      b2b, b2v, u2v, u2u, v2v, active, discard, overflow := [], [], [], [], [], [], [], [];
      all := multiset{};
    }

    method Put(current: TaskState, origin: TaskState)
      requires Open()
      modifies this
      ensures Open()
      ensures var fate := FateOf(current, origin);
        && Kept() == Added(old(Kept()), fate, current)
        && discard == old(discard) + (if fate == Discarded then [current] else [])
        && all == (if fate == Lost then old(all) else old(all) + multiset{current})
        && blinkDiscard == old(blinkDiscard) + (if fate == Discarded && origin.status.blink then 1 else 0)
        && oldDiscard == old(oldDiscard) + (if fate == Discarded && !origin.status.blink && origin.status.visited then 1 else 0)
        && newDiscard == old(newDiscard) + (if fate == Discarded && !origin.status.blink && !origin.status.visited then 1 else 0)
    {
      hide Joined, InPlace;
      if FateOf(current, origin) != Lost {
        PutOne(all, Kept(), active, overflow, discard, FateOf(current, origin), current);
      }
      if current.status.deleted || current.status.bad || current.status.stale {
        discard := discard + [current];
        if origin.status.blink {
          blinkDiscard := blinkDiscard + 1;
        } else if origin.status.visited {
          oldDiscard := oldDiscard + 1;
        } else {
          newDiscard := newDiscard + 1;
        }
        all := all + multiset{current};
        return;
      }
      if FateOf(current, origin) != Lost {
        all := all + multiset{current};
      }
      if origin.status.blink && current.status.blink {
        b2b := b2b + [current];
      } else if origin.status.blink && current.status.visited {
        b2v := b2v + [current];
      } else if !origin.status.visited && current.status.visited {
        u2v := u2v + [current];
      } else if !origin.status.visited && !current.status.visited {
        u2u := u2u + [current];
      } else if origin.status.visited && current.status.visited {
        v2v := v2v + [current];
      }
    }

    /** The tasks of one list, which come after those in `done`, get places while there are any; the others
        overflow. */
    method Collect(source: seq<TaskState>, ghost done: seq<TaskState>) returns (overflown: nat)
      requires Placed(active, overflow, done, maxActive) && nActive == Least(|done|, maxActive)
      modifies this`nActive, this`active, this`overflow
      ensures Placed(active, overflow, done + source, maxActive) && nActive == Least(|done + source|, maxActive)
      ensures overflown == Beyond(|source|, |done|, maxActive)
    {
      hide Placed;
      overflown := 0;
      assert done + source[..0] == done;
      for i := 0 to |source|
        invariant Placed(active, overflow, done + source[..i], maxActive) && nActive == Least(|done| + i, maxActive)
        invariant overflown == Beyond(i, |done|, maxActive)
      {
        OneMorePlaced(active, overflow, done + source[..i], maxActive, source[i]);
        assert done + source[..i + 1] == done + source[..i] + [source[i]];
        if nActive < maxActive {
          active := active + [source[i]];
          nActive := nActive + 1;
        } else {
          overflow := overflow + [source[i]];
          overflown := overflown + 1;
        }
      }
      assert source[..|source|] == source;
    }

    /** The five lists one after the other. */
    method CollectAll() returns (n1: nat, n2: nat, n3: nat, n4: nat, n5: nat)
      requires nActive == 0 && active == [] && overflow == []
      modifies this`nActive, this`active, this`overflow
      ensures Placed(active, overflow, Joined(Kept()), maxActive)
      ensures n1 == Beyond(|b2b|, 0, maxActive) && n2 == Beyond(|v2v|, |b2b|, maxActive)
      ensures n3 == Beyond(|b2v|, |b2b| + |v2v|, maxActive) && n4 == Beyond(|u2v|, |b2b| + |v2v| + |b2v|, maxActive)
      ensures n5 == Beyond(|u2u|, |b2b| + |v2v| + |b2v| + |u2v|, maxActive)
      ensures multiset(Joined(Kept())) == multiset(active) + multiset(overflow) && |overflow| == n1 + n2 + n3 + n4 + n5
    {
      hide Placed, Beyond;
      NonePlaced(maxActive);
      n1 := Collect(b2b, []);
      ghost var done := [] + b2b;
      n2 := Collect(v2v, done);
      done := done + v2v;
      n3 := Collect(b2v, done);
      done := done + b2v;
      n4 := Collect(u2v, done);
      done := done + u2v;
      n5 := Collect(u2u, done);
      assert done + u2u == Joined(Kept());
      PlacedAll(active, overflow, done + u2u, maxActive);
      Overflown(|b2b|, |v2v|, |b2v|, |u2v|, |u2u|, maxActive);
    }

    /** The first tasks of b2b, v2v, b2v, u2v and u2u, in this order, are active in the next turn, as many
        as there are places; all others overflow, in the same order, and are counted by their kind. */
    method Close()
      requires Open()
      modifies this
      ensures Valid() && Joined(Kept()) == [] && discard == old(discard) && all == old(all)
      ensures Placed(active, overflow, old(Joined(Kept())), maxActive)
      ensures var n1, n2, n3, n := |old(b2b)|, |old(b2b)| + |old(v2v)|, |old(b2b)| + |old(v2v)| + |old(b2v)|, maxActive;
        && blinkOverflow == old(blinkOverflow) + Beyond(|old(b2b)|, 0, n) + Beyond(|old(b2v)|, n2, n)
        && oldOverflow == old(oldOverflow) + Beyond(|old(v2v)|, n1, n)
        && newOverflow == old(newOverflow) + Beyond(|old(u2v)|, n3, n) + Beyond(|old(u2u)|, n3 + |old(u2v)|, n)
    {
      hide Placed, Beyond, InPlace, Joined;
      ghost var w := Joined(Kept());
      nActive := 0;
      var n1, n2, n3, n4, n5 := CollectAll();
      AllPlaced(all, w, active, overflow, discard);
      Finish(n1 + n3, n2, n4 + n5);
    }

    /** Adds to the counters and clears the lists. */
    method Finish(blink: nat, visited: nat, unvisited: nat)
      modifies this`b2b, this`v2v, this`b2v, this`u2v, this`u2u, this`blinkOverflow, this`oldOverflow, this`newOverflow
      ensures Joined(Kept()) == []
      ensures blinkOverflow == old(blinkOverflow) + blink && oldOverflow == old(oldOverflow) + visited
      ensures newOverflow == old(newOverflow) + unvisited
    {
      blinkOverflow := blinkOverflow + blink;
      oldOverflow := oldOverflow + visited;
      newOverflow := newOverflow + unvisited;
      b2b, v2v, b2v, u2v, u2u := [], [], [], [], [];
    }
  }

  lemma NonePlaced(max: nat)
    ensures Placed([], [], [], max)
  {
  }

  lemma PlacedAll(active: seq<TaskState>, overflow: seq<TaskState>, done: seq<TaskState>, max: nat)
    requires Placed(active, overflow, done, max)
    ensures multiset(done) == multiset(active) + multiset(overflow) && |overflow| == |done| - Least(|done|, max)
  {
    assert done == active + overflow;
  }

  lemma AllPlaced(all: multiset<TaskState>, waiting: seq<TaskState>, active: seq<TaskState>, overflow: seq<TaskState>, discard: seq<TaskState>)
    requires InPlace(all, waiting, [], [], discard) && multiset(waiting) == multiset(active) + multiset(overflow)
    ensures InPlace(all, [], active, overflow, discard)
  {
  }

  lemma Overflown(a: nat, b: nat, c: nat, d: nat, e: nat, max: nat)
    ensures Beyond(a, 0, max) + Beyond(b, a, max) + Beyond(c, a + b, max) + Beyond(d, a + b + c, max) + Beyond(e, a + b + c + d, max)
         == a + b + c + d + e - Least(a + b + c + d + e, max)
  {
  }
}
