/** The bucket queue of grey nodes, class `G_t` of src/crawler/cds.cpp: one doubly linked list per
    degree, a map from URL to node, and the largest degree in use. */
module GreyQueue {

  /** `degree` is an `unsigned`. */
  const UNSIGNED_RANGE := 0x1_0000_0000

  class Node {
    const url: string
    var degree: nat
    var prev: Node?
    var next: Node?

    constructor (url: string)
      ensures this.url == url && prev == null && next == null
    {
      this.url := url;
      prev, next := null, null;
    }
  }

  ghost function Before(ns: seq<Node>, i: nat): Node?
    requires i <= |ns|
  {
    if i == 0 then null else ns[i - 1]
  }

  ghost function After(ns: seq<Node>, i: nat): Node?
    requires i < |ns|
  {
    if i == |ns| - 1 then null else ns[i + 1]
  }

  /** `ns` is the list that starts at `head`, linked both ways, of distinct nodes of degree `d`. */
  ghost predicate Chained(ns: seq<Node>, head: Node?, d: nat)
    reads set n | n in ns
  {
    && head == (if ns == [] then null else ns[0])
    && (forall i | 0 <= i < |ns| :: ns[i].degree == d)
    && (forall i {:trigger ns[i].prev} | 0 <= i < |ns| :: ns[i].prev == Before(ns, i))
    && (forall i {:trigger ns[i].next} | 0 <= i < |ns| :: ns[i].next == After(ns, i))
    && (forall i, j | 0 <= i < j < |ns| :: ns[i] != ns[j])
  }

  ghost predicate IsMax(m: map<string, nat>, k: nat) {
    && (forall u | u in m :: m[u] <= k)
    && (k == 0 || exists u | u in m :: m[u] == k)
  }

  lemma IsMaxWith(m: map<string, nat>, k: nat, url: string, d: nat)
    requires IsMax(m, k) && url !in m
    ensures IsMax(m[url := d], if d > k then d else k)
  {
    var more := m[url := d];
    assert more[url] == d;
    if k != 0 {
      var u :| u in m && m[u] == k;
      assert more[u] == k;
    }
  }

  class G {
    var degreeQue: seq<Node?>
    var index: map<string, Node>
    var maxd: nat
    ghost var buckets: seq<seq<Node>>    // the lists, by degree
    ghost var nodes: set<Node>           // everything on some list
    ghost var degrees: map<string, nat>  // what the structure stands for

    /** The lists partition `nodes` by degree; no node has degree 0. */
    ghost predicate Lists()
      reads this`degreeQue, this`buckets, this`nodes, nodes
    {
      && |buckets| == |degreeQue| && 0 < |buckets| && buckets[0] == []
      && (forall d, i | 0 <= d < |buckets| && 0 <= i < |buckets[d]| :: buckets[d][i] in nodes)
      && (forall d | 0 <= d < |buckets| :: Chained(buckets[d], degreeQue[d], d))
      && (forall n | n in nodes :: n.degree < |buckets| && n in buckets[n.degree])
    }

    /** The index and the map agree with the nodes. */
    ghost predicate Indexed()
      reads this`index, this`nodes, this`degrees, nodes`degree
    {
      && index.Keys == degrees.Keys
      && (forall u | u in index :: index[u] in nodes && index[u].url == u)
      && (forall u | u in index :: index[u].degree == degrees[u] && 0 < degrees[u] < UNSIGNED_RANGE)
      && (forall n | n in nodes :: n.url in index && index[n.url] == n)
    }

    /** `maxd` is the largest degree in use, or 0. */
    ghost predicate MaxOk()
      reads this`maxd, this`degrees
    {
      IsMax(degrees, maxd)
    }

    ghost predicate Valid()
      reads this, nodes
    {
      Lists() && Indexed() && MaxOk()
    }

    constructor ()
      ensures Valid() && degrees == map[] && nodes == {}
    {
      degrees := map[];
      degreeQue := [null];
      index := map[];
      maxd := 0;
      buckets := [[]];
      nodes := {};
    }

    predicate Empty()
      reads this`index
    {
      index == map[]
    }

    lemma EmptyMeans()
      requires Valid()
      ensures Empty() <==> degrees == map[]
    {
      assert index.Keys == degrees.Keys;
      assert index.Keys == {} <==> index == map[];
      assert degrees.Keys == {} <==> degrees == map[];
    }

    /** A list is empty exactly when no node has its degree. */
    lemma HeadOf(d: nat)
      requires Lists()
      ensures d < |degreeQue| && degreeQue[d] != null ==> degreeQue[d] in nodes && degreeQue[d].degree == d
      ensures d < |degreeQue| && degreeQue[d] == null ==> forall n | n in nodes :: n.degree != d
    {
      if d < |degreeQue| {
        assert Chained(buckets[d], degreeQue[d], d);
        if degreeQue[d] != null {
          assert buckets[d][0] in nodes;
        }
      }
    }

    method Reserve(d: nat)
      requires Lists()
      modifies this`degreeQue, this`buckets
      ensures Lists() && d < |degreeQue| && old(|degreeQue|) <= |degreeQue|
    {
      while d >= |degreeQue|
        invariant Lists() && nodes == old(nodes) && old(|degreeQue|) <= |degreeQue|
      {
        Grow();
      }
    }

    method Grow()
      requires Lists()
      modifies this`degreeQue, this`buckets
      ensures Lists() && |degreeQue| == old(|degreeQue|) + 1
    {
      degreeQue := degreeQue + [null];
      buckets := buckets + [[]];
      forall n | n in nodes
        ensures n.degree < |buckets| && n in buckets[n.degree]
      {
        assert n in old(buckets)[n.degree];
      }
      forall d | 0 <= d < |buckets|
        ensures Chained(buckets[d], degreeQue[d], d)
      {
        assert d < |old(buckets)| ==> Chained(old(buckets)[d], old(degreeQue)[d], d);
      }
    }

    method Chain(p: Node)
      requires Lists() && p !in nodes && 0 < p.degree
      modifies this`degreeQue, this`buckets, this`nodes, nodes`prev, p`prev, p`next
      ensures Lists() && nodes == old(nodes) + {p} && old(|degreeQue|) <= |degreeQue|
    {
      Reserve(p.degree);
      PushFront(p);
    }

    method PushFront(p: Node)
      requires Lists() && p !in nodes && 0 < p.degree < |degreeQue|
      modifies this`degreeQue, this`buckets, this`nodes, nodes`prev, p`prev, p`next
      ensures Lists() && nodes == old(nodes) + {p} && old(|degreeQue|) <= |degreeQue|
    {
      var d := p.degree;
      ghost var ns := buckets[d];
      HeadOf(d);
      assert Chained(ns, degreeQue[d], d);
      assert forall i | 0 <= i < |ns| :: ns[i] in nodes;
      p.next := degreeQue[d];
      p.prev := null;
      degreeQue := degreeQue[d := p];
      if p.next != null {
        p.next.prev := p;
      }
      buckets := buckets[d := [p] + ns];
      nodes := nodes + {p};
      assert Chained(buckets[d], degreeQue[d], d) by {
        Prepended(ns, p, d);
      }
      Rejoin(d);
    }

    /** All lists are in order when the one of degree `d` is, and the others were not touched. */
    twostate lemma Rejoin(d: nat)
      requires old(Lists()) && 0 < d < |buckets| == old(|buckets|) && |degreeQue| == |buckets|
      requires forall e | 0 <= e < |buckets| && e != d :: buckets[e] == old(buckets[e]) && degreeQue[e] == old(degreeQue[e])
      requires forall n | n in old(nodes) && n.degree != d :: unchanged(n)
      requires forall n | n in old(nodes) :: n.degree == old(n.degree)
      requires forall n | n in nodes && n.degree != d :: n in old(nodes)
      requires forall n | n in old(nodes) && n.degree != d :: n in nodes
      requires Chained(buckets[d], degreeQue[d], d)
      requires forall n | n in nodes && n.degree == d :: n in buckets[d]
      requires forall i | 0 <= i < |buckets[d]| :: buckets[d][i] in nodes
      ensures Lists()
    {
      OthersChained(d);
      forall e, i | 0 <= e < |buckets| && 0 <= i < |buckets[e]|
        ensures buckets[e][i] in nodes
      {
        if e != d {
          assert old(Chained(buckets[e], degreeQue[e], e)) && old(buckets[e][i] in nodes);
        }
      }
      forall n | n in nodes
        ensures n.degree < |buckets| && n in buckets[n.degree]
      {
        if n.degree != d {
          assert n in old(buckets)[n.degree];
        }
      }
    }

    /** Putting `p` in front of a chained list whose old head now points back to it. */
    static lemma Prepended(ns: seq<Node>, p: Node, d: nat)
      requires p !in ns && p.degree == d && p.prev == null
      requires p.next == if ns == [] then null else ns[0]
      requires forall i | 0 <= i < |ns| :: ns[i].degree == d
      requires forall i {:trigger ns[i].prev} | 0 <= i < |ns| :: ns[i].prev == if i == 0 then p else Before(ns, i)
      requires forall i {:trigger ns[i].next} | 0 <= i < |ns| :: ns[i].next == After(ns, i)
      requires forall i, j | 0 <= i < j < |ns| :: ns[i] != ns[j]
      ensures Chained([p] + ns, p, d)
    {
      var all := [p] + ns;
      forall i | 0 <= i < |all|
        ensures all[i].degree == d
        ensures all[i].prev == Before(all, i)
        ensures all[i].next == After(all, i)
      {
        assert i > 0 ==> all[i] == ns[i - 1];
        assert i > 1 ==> all[i - 1] == ns[i - 2];
        assert i < |ns| ==> all[i + 1] == ns[i];
      }
    }

    /** The lists of other degrees share no node with the one at hand. */
    twostate lemma OthersChained(d: nat)
      requires old(Lists()) && d < |buckets| == old(|buckets|) && |degreeQue| == |buckets|
      requires forall e | 0 <= e < |buckets| && e != d :: buckets[e] == old(buckets[e]) && degreeQue[e] == old(degreeQue[e])
      requires forall n | n in old(nodes) && n.degree != d :: unchanged(n)
      requires forall n | n in old(nodes) :: n.degree == old(n.degree)
      ensures forall e | 0 <= e < |buckets| && e != d :: Chained(buckets[e], degreeQue[e], e)
    {
      forall e | 0 <= e < |buckets| && e != d
        ensures Chained(buckets[e], degreeQue[e], e)
      {
        assert old(Chained(buckets[e], degreeQue[e], e));
        assert forall i | 0 <= i < |buckets[e]| :: buckets[e][i] in old(nodes) && buckets[e][i].degree == e;
      }
    }
  
    method Unchain(p: Node)
      requires Lists() && p in nodes
      modifies this`degreeQue, this`buckets, this`nodes, nodes`prev, nodes`next
      ensures Lists() && nodes == old(nodes) - {p} && |degreeQue| == old(|degreeQue|)
      ensures p.prev == null && p.next == null
    {
      var d := p.degree;
      ghost var ns := buckets[d];
      ghost var k :| 0 <= k < |ns| && ns[k] == p;
      PointPast(p, k);
      buckets := buckets[d := ns[..k] + ns[k + 1..]];
      nodes := nodes - {p};
      Without(ns, k);
      Rejoin(d);
    }

    /** The neighbours of `p` (or the head of its list) point past it. */
    method PointPast(p: Node, ghost k: nat)
      requires Lists() && p in nodes && k < |buckets[p.degree]| && buckets[p.degree][k] == p
      modifies this`degreeQue, nodes`prev, nodes`next
      ensures p.prev == null && p.next == null && |degreeQue| == old(|degreeQue|)
      ensures forall n | n in nodes && n.degree != p.degree :: unchanged(n)
      ensures forall e | 0 <= e < |degreeQue| && e != p.degree :: degreeQue[e] == old(degreeQue[e])
      ensures var ns := buckets[p.degree]; Chained(ns[..k] + ns[k + 1..], degreeQue[p.degree], p.degree)
    {
      var d := p.degree;
      ghost var ns := buckets[d];
      Neighbours(d, k);
      if p.prev != null {
        p.prev.next := p.next;
      } else {
        degreeQue := degreeQue[d := p.next];
      }
      if p.next != null {
        p.next.prev := p.prev;
      }
      p.next, p.prev := null, null;
      Removed(ns, k, degreeQue[d], d);
    }

    static lemma Without(ns: seq<Node>, k: nat)
      requires k < |ns|
      ensures forall n | n in ns && n != ns[k] :: n in ns[..k] + ns[k + 1..]
      ensures forall n | n in ns[..k] + ns[k + 1..] :: n in ns
    {
      forall n | n in ns && n != ns[k]
        ensures n in ns[..k] + ns[k + 1..]
      {
        var i :| 0 <= i < |ns| && ns[i] == n;
        assert n == (ns[..k] + ns[k + 1..])[if i < k then i else i - 1];
      }
    }

    lemma Neighbours(d: nat, k: nat)
      requires Lists() && d < |buckets| && k < |buckets[d]|
      ensures var ns := buckets[d];
        && Chained(ns, degreeQue[d], d)
        && (forall i | 0 <= i < |ns| :: ns[i] in nodes)
        && ns[k].prev == Before(ns, k) && ns[k].next == After(ns, k)
        && (k == 0 <==> ns[k].prev == null)
    {
      assert Chained(buckets[d], degreeQue[d], d);
    }

    /** Taking the k-th node out of a chained list whose neighbours now point past it. */
    static lemma Removed(ns: seq<Node>, k: nat, head: Node?, d: nat)
      requires k < |ns|
      requires head == if 0 < k then ns[0] else if |ns| == 1 then null else ns[1]
      requires forall i | 0 <= i < |ns| :: ns[i].degree == d
      requires forall i {:trigger ns[i].prev} | 0 <= i < |ns| && i != k && i != k + 1 :: ns[i].prev == Before(ns, i)
      requires forall i {:trigger ns[i].next} | 0 <= i < |ns| && i != k && i != k - 1 :: ns[i].next == After(ns, i)
      requires k + 1 < |ns| ==> ns[k + 1].prev == Before(ns, k)
      requires 0 < k ==> ns[k - 1].next == After(ns, k)
      requires forall i, j | 0 <= i < j < |ns| :: ns[i] != ns[j]
      ensures Chained(ns[..k] + ns[k + 1..], head, d)
    {
      var rest := ns[..k] + ns[k + 1..];
      forall i | 0 <= i < |rest|
        ensures rest[i].degree == d
        ensures rest[i].prev == Before(rest, i)
        ensures rest[i].next == After(rest, i)
      {
        assert rest[i] == ns[if i < k then i else i + 1];
        assert i > 0 ==> rest[i - 1] == ns[if i - 1 < k then i - 1 else i];
        assert i + 1 < |rest| ==> rest[i + 1] == ns[if i + 1 < k then i + 1 else i + 2];
      }
    }

    // -------------------------------------------------------------------------------------------
    // The operations, against the map

    /** The loop at the end of `select` and `update`: walk down to the next degree in use. */
    method LowerMax()
      requires Lists() && Indexed() && maxd < |degreeQue| && forall u | u in degrees :: degrees[u] <= maxd
      modifies this`maxd
      ensures MaxOk()
    {
      while maxd > 0 && degreeQue[maxd] == null
        invariant maxd < |degreeQue| && forall u | u in degrees :: degrees[u] <= maxd
      {
        HeadOf(maxd);
        maxd := maxd - 1;
      }
      HeadOf(maxd);
    }

    lemma MaxBelow()
      requires Valid()
      ensures maxd < |degreeQue|
      ensures degrees != map[] ==> 0 < maxd && degreeQue[maxd] != null
      ensures forall u | u in degrees :: degrees[u] <= maxd
    {
      if degrees != map[] {
        var u :| u in degrees;
      }
      if maxd != 0 {
        HeadOf(maxd);
      }
    }

    /** Takes out a node of maximum degree. */
    method Select() returns (g: Node)
      requires Valid() && degrees != map[]
      modifies this, nodes`prev, nodes`next
      ensures Valid() && nodes == old(nodes) - {g} && g in old(nodes)
      ensures g.url in old(degrees) && degrees == old(degrees) - {g.url}
      ensures forall u | u in old(degrees) :: old(degrees)[u] <= old(degrees)[g.url]
    {
      MaxBelow();
      HeadOf(maxd);
      g := degreeQue[maxd];
      Remove(g);
    }

    /** Takes `p` off its list and out of the index, and walks `maxd` down. */
    method Remove(p: Node)
      requires Valid() && p in nodes
      modifies this, nodes`prev, nodes`next
      ensures Valid() && nodes == old(nodes) - {p} && degrees == old(degrees) - {p.url}
    {
      hide G.Lists, G.Indexed, Chained, IsMax;
      MaxBelow();
      Unchain(p);
      index := index - {p.url};
      degrees := degrees - {p.url};
      NotIndexed(p);
      LowerMax();
    }

    twostate lemma NotIndexed(new p: Node)
      requires old(Indexed()) && p in old(nodes) && nodes == old(nodes) - {p}
      requires index == old(index) - {p.url} && degrees == old(degrees) - {p.url}
      requires forall n | n in nodes :: n.degree == old(n.degree)
      ensures Indexed()
    {
    }

    /** Empties every list, lowest degree first. */
    method Clear()
      requires Valid()
      modifies this, nodes`prev, nodes`next
      ensures Valid() && degrees == map[] && nodes == {}
    {
      hide G.Lists, G.Indexed, Chained, IsMax;
      MaxBelow();
      Bounds();
      var i := 1;
      while i <= maxd
        invariant 1 <= i && Lists() && maxd < |degreeQue| && maxd == old(maxd) && nodes <= old(nodes)
        invariant forall n | n in nodes :: i <= n.degree <= maxd
      {
        ClearList(i);
        i := i + 1;
      }
      maxd := 0;
      index := map[];
      degrees := map[];
      assert nodes == {};
      Unindexed();
    }

    method ClearList(i: nat)
      requires Lists() && i < |degreeQue|
      modifies this`degreeQue, this`buckets, this`nodes, nodes`prev, nodes`next
      ensures Lists() && |degreeQue| == old(|degreeQue|) && nodes <= old(nodes)
      ensures forall n | n in nodes :: n.degree != i
    {
      hide G.Lists, Chained;
      while degreeQue[i] != null
        invariant Lists() && nodes <= old(nodes) && |degreeQue| == old(|degreeQue|)
        decreases nodes
      {
        HeadOf(i);
        Unchain(degreeQue[i]);
      }
      HeadOf(i);
    }

    lemma Unindexed()
      requires nodes == {} && index == map[] && degrees == map[] && maxd == 0
      ensures Indexed() && MaxOk()
    {
    }

    lemma NotQueued(n: Node)
      requires Valid() && n.url !in degrees
      ensures n !in nodes
    {
    }

    lemma DegreesInRange()
      requires Valid()
      ensures forall u | u in degrees :: 0 < degrees[u] < UNSIGNED_RANGE
    {
    }

    lemma Bounds()
      requires Valid()
      ensures forall n | n in nodes :: 1 <= n.degree <= maxd
    {
    }

    /** Adds a node unless its URL is there already; says which. */
    method Put(g: Node) returns (r: int)
      requires Valid() && g.url != "" && (g.url !in degrees ==> 0 < g.degree < UNSIGNED_RANGE)
      modifies this, nodes`prev, g`prev, g`next
      ensures Valid() && r == (if g.url in old(degrees) then -1 else 0)
      ensures g.url in old(degrees) ==> degrees == old(degrees) && nodes == old(nodes)
      ensures g.url !in old(degrees) ==> degrees == old(degrees)[g.url := g.degree] && nodes == old(nodes) + {g}
    {
      if g.url in index {
        return -1;
      }
      PutNew(g);
      return 0;
    }

    method PutNew(g: Node)
      requires Valid() && g.url !in index && g.url !in degrees && g !in nodes && 0 < g.degree < UNSIGNED_RANGE
      modifies this, nodes`prev, g`prev, g`next
      ensures Valid() && degrees == old(degrees)[g.url := g.degree] && nodes == old(nodes) + {g}
    {
      hide G.Lists, G.Indexed, Chained, IsMax;
      Chain(g);
      Enter(g);
      NowIndexed(g);
    }

    method Enter(g: Node)
      requires IsMax(degrees, maxd) && g.url !in degrees
      modifies this`maxd, this`index, this`degrees
      ensures IsMax(degrees, maxd) && index == old(index)[g.url := g] && degrees == old(degrees)[g.url := g.degree]
      ensures maxd == old(maxd) || maxd == g.degree
    {
      hide IsMax;
      IsMaxWith(degrees, maxd, g.url, g.degree);
      if g.degree > maxd {
        maxd := g.degree;
      }
      index := index[g.url := g];
      degrees := degrees[g.url := g.degree];
    }

    /** `degree + incre` in unsigned arithmetic; a node that reaches 0 leaves the queue. */
    method Update(url: string, incre: int) returns (r: int)
      requires Valid()
      modifies this, nodes
      ensures Valid() && r == (if url in old(degrees) then 0 else -1)
      ensures nodes <= old(nodes)
      ensures url !in old(degrees) ==> degrees == old(degrees)
      ensures url in old(degrees) ==>
        var d := (old(degrees)[url] + incre) % UNSIGNED_RANGE;
        degrees == if d == 0 then old(degrees) - {url} else old(degrees)[url := d]
    {
      hide G.Lists, Chained;
      if url !in index {
        return -1;
      }
      if incre == 0 {
        return 0;
      }
      var p := index[url];
      var d := (p.degree + incre) % UNSIGNED_RANGE;
      if d > 0 {
        Redegree(p, d);
      } else {
        Remove(p);
      }
      return 0;
    }

    /** Moves a node to the list of another degree. */
    method Redegree(p: Node, d: nat)
      requires Valid() && p in nodes && 0 < d < UNSIGNED_RANGE
      modifies this, nodes
      ensures Valid() && nodes == old(nodes) && degrees == old(degrees)[p.url := d]
    {
      hide G.Lists, G.Indexed, Chained, IsMax;
      MaxBelow();
      Relink(p, d);
      degrees := degrees[p.url := d];
      StillIndexed(p, d);
      SettleMax(p, d);
    }

    method SettleMax(p: Node, d: nat)
      requires Lists() && Indexed() && maxd < |degreeQue|
      requires p.degree == d && p.url in degrees && degrees[p.url] == d
      requires forall u | u in degrees && u != p.url :: degrees[u] <= maxd
      modifies this`maxd
      ensures MaxOk()
    {
      if p.degree > maxd {
        maxd := p.degree;
      } else {
        LowerMax();
      }
    }

    twostate lemma StillIndexed(new p: Node, d: nat)
      requires old(Indexed()) && p in nodes && nodes == old(nodes) && index == old(index)
      requires degrees == old(degrees)[p.url := d] && p.degree == d && 0 < d < UNSIGNED_RANGE
      requires forall n | n in nodes && n != p :: n.degree == old(n.degree)
      ensures Indexed()
    {
    }

    twostate lemma NowIndexed(new g: Node)
      requires old(Indexed()) && nodes == old(nodes) + {g} && index == old(index)[g.url := g] && g.url !in old(index)
      requires degrees == old(degrees)[g.url := g.degree] && 0 < g.degree < UNSIGNED_RANGE
      requires forall n | n in old(nodes) :: n.degree == old(n.degree)
      ensures Indexed()
    {
    }

    method Relink(p: Node, d: nat)
      requires Lists() && p in nodes && 0 < d
      modifies this`degreeQue, this`buckets, this`nodes, nodes`prev, nodes`next, p`degree
      ensures Lists() && nodes == old(nodes) && p.degree == d && old(|degreeQue|) <= |degreeQue|
    {
      hide G.Lists, Chained;
      Unchain(p);
      LoneDegree(p, d);
      Chain(p);
    }

    /** A node on no list may change its degree. */
    method LoneDegree(p: Node, d: nat)
      requires Lists() && p !in nodes
      modifies p`degree
      ensures Lists() && p.degree == d
    {
      p.degree := d;
    }
  }
}
