/** The greedy approximation of a minimum connected dominating set, class `CDSAlgorithm` of
    src/crawler/cds.cpp, over the bucket queue of GreyQueue. */
module ConnectedDominatingSet {
  import opened GreyQueue

  /** One entry of the multimap `W`: a white URL and a grey one that links to it. */
  datatype Entry = Entry(white: string, grey: string)

  type Links = map<string, seq<string>>

  /** `out_neighbor`: a URL without a link record has no out-links. */
  function Out(links: Links, url: string): seq<string> {
    if url in links then links[url] else []
  }

  // ---------------------------------------------------------------------------------------------
  // Counting links

  /** The out-link occurrences of `u` that the algorithm still waits for: the uncoloured ones, and
      those to `u` itself. */
  function Pending(out: seq<string>, u: string, colored: set<string>): seq<string> {
    if out == [] then []
    else (if out[0] !in colored || out[0] == u then [out[0]] else []) + Pending(out[1..], u, colored)
  }

  /** The white ends of the entries that name `u`. */
  function Whites(w: seq<Entry>, u: string): seq<string> {
    if w == [] then [] else (if w[0].grey == u then [w[0].white] else []) + Whites(w[1..], u)
  }

  function Named(w: seq<Entry>, u: string): nat {
    |Whites(w, u)|
  }

  /** `W` holds exactly the pending link occurrences of the coloured nodes. */
  ghost predicate WOk(links: Links, w: seq<Entry>, colored: set<string>) {
    forall v, u :: multiset(w)[Entry(v, u)] == Due(links, colored, v, u)
  }

  ghost function Due(links: Links, colored: set<string>, v: string, u: string): nat {
    if u in colored && (v !in colored || v == u) then multiset(Out(links, u))[v] else 0
  }

  lemma {:induction false} PendingCount(out: seq<string>, u: string, colored: set<string>, v: string)
    ensures multiset(Pending(out, u, colored))[v] == if v !in colored || v == u then multiset(out)[v] else 0
  {
    if out != [] {
      PendingCount(out[1..], u, colored, v);
      assert out == [out[0]] + out[1..];
    }
  }

  lemma {:induction false} WhitesCount(w: seq<Entry>, u: string, v: string)
    ensures multiset(Whites(w, u))[v] == multiset(w)[Entry(v, u)]
  {
    if w != [] {
      WhitesCount(w[1..], u, v);
      assert w == [w[0]] + w[1..];
    }
  }

  lemma {:induction false} WhitesAppend(a: seq<Entry>, b: seq<Entry>, u: string)
    ensures Whites(a + b, u) == Whites(a, u) + Whites(b, u)
  {
    if a == [] {
      assert a + b == b;
    } else {
      WhitesAppend(a[1..], b, u);
      assert (a + b)[0] == a[0] && (a + b)[1..] == a[1..] + b;
      Regroup(if a[0].grey == u then [a[0].white] else [], Whites(a[1..], u), Whites(b, u));
    }
  }

  /** The number of entries that name a coloured node is the number of its pending links. */
  lemma NamedIsPending(links: Links, w: seq<Entry>, colored: set<string>, u: string)
    requires WOk(links, w, colored)
    ensures Named(w, u) == if u in colored then |Pending(Out(links, u), u, colored)| else 0
  {
    var whites := Whites(w, u);
    var pending := if u in colored then Pending(Out(links, u), u, colored) else [];
    forall v
      ensures multiset(whites)[v] == multiset(pending)[v]
    {
      WhitesCount(w, u, v);
      PendingCount(Out(links, u), u, colored, v);
      assert multiset(w)[Entry(v, u)] == Due(links, colored, v, u);
    }
    assert multiset(whites) == multiset(pending);
    assert |multiset(whites)| == |multiset(pending)|;
  }

  lemma NamedWithout(w: seq<Entry>, i: nat, u: string)
    requires i < |w|
    ensures Named(w[..i] + w[i + 1..], u) == Named(w, u) - (if w[i].grey == u then 1 else 0)
  {
    assert w == w[..i] + ([w[i]] + w[i + 1..]);
    WhitesAppend(w[..i], [w[i]] + w[i + 1..], u);
    WhitesAppend([w[i]], w[i + 1..], u);
    WhitesAppend(w[..i], w[i + 1..], u);
    assert Whites([w[i]], u) == if w[i].grey == u then [w[i].white] else [];
  }

  // ---------------------------------------------------------------------------------------------
  // The colouring invariant

  /** Every queued URL is grey and its degree is the number of entries that name it; a grey URL that is
      not queued is named by none. */
  ghost predicate Balanced(w: seq<Entry>, degrees: map<string, nat>, colored: set<string>, black: set<string>) {
    && black <= colored
    && (forall u | u in degrees :: u in colored && u !in black && degrees[u] == Named(w, u))
    && (forall u | u in colored && u !in black && u !in degrees :: Named(w, u) == 0)
  }

  /** The degree of a queued node counts the entries that name it, which is its uncoloured out-link
      occurrences plus its links to itself. */
  lemma DegreeCounts(links: Links, w: seq<Entry>, d: map<string, nat>, colored: set<string>, black: set<string>, u: string)
    requires WOk(links, w, colored) && Balanced(w, d, colored, black) && u in d
    ensures d[u] == Named(w, u)
    ensures d[u] == |Uncoloured(Out(links, u), colored)| + multiset(Out(links, u))[u]
    ensures d[u] == |Uncoloured(Out(links, u), colored)| <==> u !in Out(links, u)
  {
    NamedIsPending(links, w, colored, u);
    PendingSplits(Out(links, u), u, colored);
    assert u in multiset(Out(links, u)) <==> u in Out(links, u);
  }

  function Uncoloured(out: seq<string>, colored: set<string>): seq<string> {
    if out == [] then [] else (if out[0] in colored then [] else [out[0]]) + Uncoloured(out[1..], colored)
  }

  lemma {:induction false} PendingSplits(out: seq<string>, u: string, colored: set<string>)
    requires u in colored
    ensures |Pending(out, u, colored)| == |Uncoloured(out, colored)| + multiset(out)[u]
  {
    if out != [] {
      PendingSplits(out[1..], u, colored);
      assert out == [out[0]] + out[1..];
    }
  }

  /** `w` lost the entry at `i`, and the queue was told. */
  lemma EraseKeeps(w: seq<Entry>, i: nat, d: map<string, nat>, d': map<string, nat>, colored: set<string>, black: set<string>)
    requires Balanced(w, d, colored, black) && i < |w|
    requires forall u | u in d :: 0 < d[u]
    requires var u := w[i].grey;
      d' == if u !in d then d else if d[u] == 1 then d - {u} else d[u := d[u] - 1]
    requires w[i].grey in colored
    ensures Balanced(w[..i] + w[i + 1..], d', colored, black)
  {
    forall u
      ensures Named(w[..i] + w[i + 1..], u) == Named(w, u) - (if w[i].grey == u then 1 else 0)
    {
      NamedWithout(w, i, u);
    }
    assert forall u | u in d' :: u in d;
  }

  lemma {:induction false} NamedNone(w: seq<Entry>, u: string)
    requires forall i | 0 <= i < |w| :: w[i].grey != u
    ensures Named(w, u) == 0
  {
    if w != [] {
      NamedNone(w[1..], u);
    }
  }

  lemma {:induction false} NamedAll(w: seq<Entry>, u: string)
    requires forall i | 0 <= i < |w| :: w[i].grey == u
    ensures Named(w, u) == |w|
  {
    if w != [] {
      NamedAll(w[1..], u);
    }
  }

  /** `W` without the entries for `x`. */
  function Erased(w: seq<Entry>, x: string): seq<Entry> {
    if w == [] then [] else (if w[0].white == x then [] else [w[0]]) + Erased(w[1..], x)
  }

  lemma Regroup<T>(a: seq<T>, b: seq<T>, c: seq<T>)
    ensures a + (b + c) == a + b + c
  {
  }

  lemma {:induction false} ErasedAppend(a: seq<Entry>, b: seq<Entry>, x: string)
    ensures Erased(a + b, x) == Erased(a, x) + Erased(b, x)
  {
    if a == [] {
      assert a + b == b;
    } else {
      ErasedAppend(a[1..], b, x);
      assert (a + b)[0] == a[0] && (a + b)[1..] == a[1..] + b;
      Regroup(if a[0].white == x then [] else [a[0]], Erased(a[1..], x), Erased(b, x));
    }
  }

  lemma ErasedWithout(w: seq<Entry>, i: nat, x: string)
    requires i < |w| && w[i].white == x
    ensures Erased(w[..i] + w[i + 1..], x) == Erased(w, x)
  {
    assert w == w[..i] + ([w[i]] + w[i + 1..]);
    ErasedAppend(w[..i], [w[i]] + w[i + 1..], x);
    ErasedAppend([w[i]], w[i + 1..], x);
    ErasedAppend(w[..i], w[i + 1..], x);
  }

  lemma {:induction false} ErasedAll(w: seq<Entry>, x: string)
    requires forall j | 0 <= j < |w| :: w[j].white != x
    ensures Erased(w, x) == w
  {
    if w != [] {
      ErasedAll(w[1..], x);
    }
  }

  lemma {:induction false} ErasedCount(w: seq<Entry>, x: string, e: Entry)
    ensures multiset(Erased(w, x))[e] == if e.white == x then 0 else multiset(w)[e]
  {
    if w != [] {
      ErasedCount(w[1..], x, e);
      assert w == [w[0]] + w[1..];
    }
  }

  /** Entries name coloured nodes only. */
  lemma GreysColored(links: Links, w: seq<Entry>, colored: set<string>)
    requires WOk(links, w, colored)
    ensures forall i | 0 <= i < |w| :: w[i].grey in colored
  {
    forall i | 0 <= i < |w|
      ensures w[i].grey in colored
    {
      var e := w[i];
      assert e in multiset(w) && e == Entry(e.white, e.grey);
      assert multiset(w)[Entry(e.white, e.grey)] == Due(links, colored, e.white, e.grey);
    }
  }

  /** The entries that colouring `x` adds. */
  function NewEntries(out: seq<string>, x: string, colored: set<string>): seq<Entry> {
    if out == [] then []
    else
      var last := out[|out| - 1];
      NewEntries(out[..|out| - 1], x, colored) + if last in colored then [] else [Entry(last, x)]
  }

  lemma {:induction false} NewEntriesCount(out: seq<string>, x: string, colored: set<string>, v: string, u: string)
    ensures multiset(NewEntries(out, x, colored))[Entry(v, u)] == if u == x && v !in colored then multiset(out)[v] else 0
  {
    if out != [] {
      NewEntriesCount(out[..|out| - 1], x, colored, v, u);
      assert out == out[..|out| - 1] + [out[|out| - 1]];
    }
  }

  /** Colouring `x`: its entries go, those of its own links come. */
  function Recoloured(links: Links, w: seq<Entry>, colored: set<string>, x: string): seq<Entry> {
    Erased(w, x) + NewEntries(Out(links, x), x, colored)
  }

  lemma ColourCount(links: Links, w: seq<Entry>, colored: set<string>, x: string, v: string, u: string)
    requires multiset(w)[Entry(v, u)] == Due(links, colored, v, u) && x !in colored
    ensures multiset(Recoloured(links, w, colored, x))[Entry(v, u)] == Due(links, colored + {x}, v, u)
  {
    var kept, more := Erased(w, x), NewEntries(Out(links, x), x, colored);
    hide Erased, NewEntries, Out;
    ErasedCount(w, x, Entry(v, u));
    NewEntriesCount(Out(links, x), x, colored, v, u);
    assert multiset(kept + more)[Entry(v, u)] == multiset(kept)[Entry(v, u)] + multiset(more)[Entry(v, u)];
  }

  lemma ColourKeeps(links: Links, w: seq<Entry>, colored: set<string>, x: string)
    requires WOk(links, w, colored) && x !in colored
    ensures WOk(links, Recoloured(links, w, colored, x), colored + {x})
  {
    hide Recoloured, Due;
    forall v, u
      ensures multiset(Recoloured(links, w, colored, x))[Entry(v, u)] == Due(links, colored + {x}, v, u)
    {
      ColourCount(links, w, colored, x, v, u);
    }
  }

  lemma {:induction false} NewEntriesName(out: seq<string>, x: string, colored: set<string>)
    ensures forall i | 0 <= i < |NewEntries(out, x, colored)| :: NewEntries(out, x, colored)[i].grey == x
  {
    if out != [] {
      NewEntriesName(out[..|out| - 1], x, colored);
    }
  }

  /** `x` joins the grey nodes with the `more` entries that name it. */
  lemma ColourBalance(w: seq<Entry>, more: seq<Entry>, d: map<string, nat>, colored: set<string>, black: set<string>, x: string)
    requires Balanced(w, d, colored, black) && x !in colored
    requires forall i | 0 <= i < |w| :: w[i].grey in colored
    requires forall i | 0 <= i < |more| :: more[i].grey == x
    ensures Balanced(w + more, if more == [] then d else d[x := |more|], colored + {x}, black)
  {
    forall u
      ensures Named(w + more, u) == if u == x then |more| else Named(w, u)
    {
      WhitesAppend(w, more, u);
      if u == x {
        NamedNone(w, u);
        NamedAll(more, u);
      } else {
        NamedNone(more, u);
      }
    }
  }

  // ---------------------------------------------------------------------------------------------
  // What a run must achieve

  function Urls(b: seq<Node>): seq<string> {
    seq(|b|, i requires 0 <= i < |b| => b[i].url)
  }

  function Members(vs: seq<string>): set<string> {
    set v | v in vs
  }

  /** What is coloured once `bs` are black: the root and every out-neighbour of a black node. */
  function Coloured(links: Links, root: string, bs: seq<string>): set<string> {
    if bs == [] then {root}
    else Coloured(links, root, bs[..|bs| - 1]) + Members(Out(links, bs[|bs| - 1]))
  }

  /** The black nodes are distinct, start at the root, and each other one is an out-neighbour of an
      earlier one. */
  ghost predicate Connected(links: Links, root: string, bs: seq<string>) {
    && (bs != [] ==> bs[0] == root)
    && (forall i | 0 < i < |bs| :: exists j :: 0 <= j < i && bs[i] in Out(links, bs[j]))
    && (forall i, j | 0 <= i < j < |bs| :: bs[i] != bs[j])
  }

  function Waits(links: Links, colored: set<string>, u: string): nat {
    |Pending(Out(links, u), u, colored)|
  }

  /** Each black node was, when it was chosen, a grey node with the most pending links, and had some. */
  ghost predicate Greedy(links: Links, root: string, bs: seq<string>) {
    forall i | 0 <= i < |bs| :: Chosen(links, Coloured(links, root, bs[..i]), bs[..i], bs[i])
  }

  ghost predicate Chosen(links: Links, colored: set<string>, black: seq<string>, x: string) {
    && x in colored && x !in black && 0 < Waits(links, colored, x)
    && forall u | u in colored && u !in black :: Waits(links, colored, u) <= Waits(links, colored, x)
  }

  ghost predicate Link(links: Links, p: seq<string>, i: nat)
    requires i + 1 < |p|
  {
    p[i + 1] in Out(links, p[i])
  }

  ghost predicate Path(links: Links, p: seq<string>) {
    p != [] && forall i | 0 <= i < |p| - 1 :: Link(links, p, i)
  }

  ghost predicate Reachable(links: Links, root: string, v: string) {
    exists p :: Path(links, p) && p[0] == root && p[|p| - 1] == v
  }

  /** The root dominates itself, a black node its out-neighbours. */
  ghost predicate Dominated(links: Links, root: string, bs: seq<string>, v: string) {
    v == root || exists j :: 0 <= j < |bs| && v in Out(links, bs[j])
  }

  lemma {:induction false} ColouredMeans(links: Links, root: string, bs: seq<string>, v: string)
    ensures v in Coloured(links, root, bs) <==> Dominated(links, root, bs, v)
  {
    if bs != [] {
      ColouredMeans(links, root, bs[..|bs| - 1], v);
    }
  }

  lemma PathExtends(links: Links, root: string, u: string, v: string)
    requires Reachable(links, root, u) && v in Out(links, u)
    ensures Reachable(links, root, v)
  {
    var p :| Path(links, p) && p[0] == root && p[|p| - 1] == u;
    var q := p + [v];
    forall i | 0 <= i < |q| - 1
      ensures Link(links, q, i)
    {
      assert i < |p| - 1 ==> Link(links, p, i);
    }
    assert q[|q| - 1] == v;
  }

  lemma RootReachable(links: Links, root: string)
    ensures Reachable(links, root, root)
  {
    assert Path(links, [root]);
  }

  lemma {:induction false} BlackReachable(links: Links, root: string, bs: seq<string>, k: nat)
    requires Connected(links, root, bs) && k < |bs|
    ensures Reachable(links, root, bs[k])
  {
    hide Reachable, Out;
    if k == 0 {
      RootReachable(links, root);
    } else {
      var j :| 0 <= j < k && bs[k] in Out(links, bs[j]);
      BlackReachable(links, root, bs, j);
      PathExtends(links, root, bs[j], bs[k]);
    }
  }

  /** Coloured nodes are reachable. */
  lemma ColouredReachable(links: Links, root: string, bs: seq<string>, v: string)
    requires Connected(links, root, bs) && v in Coloured(links, root, bs)
    ensures Reachable(links, root, v)
  {
    hide Reachable, Out, Connected;
    ColouredMeans(links, root, bs, v);
    if v == root {
      RootReachable(links, root);
    } else {
      var j :| 0 <= j < |bs| && v in Out(links, bs[j]);
      BlackReachable(links, root, bs, j);
      PathExtends(links, root, bs[j], v);
    }
  }

  /** A set that holds the root and is closed under links holds everything reachable. */
  lemma {:induction false} ClosedReach(links: Links, root: string, colored: set<string>, p: seq<string>)
    requires root in colored && forall u, v | u in colored && v in Out(links, u) :: v in colored
    requires Path(links, p) && p[0] == root
    ensures p[|p| - 1] in colored
  {
    if 1 < |p| {
      var q := p[..|p| - 1];
      forall i | 0 <= i < |q| - 1
        ensures Link(links, q, i)
      {
        assert Link(links, p, i);
      }
      ClosedReach(links, root, colored, q);
      assert Link(links, p, |p| - 2);
    }
  }

  lemma {:induction false} NothingPending(out: seq<string>, u: string, colored: set<string>)
    requires Pending(out, u, colored) == []
    ensures forall v | v in out :: v in colored
  {
    if out != [] {
      NothingPending(out[1..], u, colored);
      assert out == [out[0]] + out[1..];
    }
  }

  /** When nothing is queued, the coloured nodes are closed under links. */
  lemma Done(links: Links, root: string, w: seq<Entry>, colored: set<string>, bs: seq<string>)
    requires WOk(links, w, colored) && Balanced(w, map[], colored, set u | u in bs)
    requires colored == Coloured(links, root, bs)
    ensures forall v :: Reachable(links, root, v) ==> v in colored
  {
    forall u, v | u in colored && v in Out(links, u)
      ensures v in colored
    {
      if u in bs {
        ColouredMeans(links, root, bs, v);
      } else {
        NamedIsPending(links, w, colored, u);
        NothingPending(Out(links, u), u, colored);
      }
    }
    ColouredMeans(links, root, bs, root);
    forall v | Reachable(links, root, v)
      ensures v in colored
    {
      var p :| Path(links, p) && p[0] == root && p[|p| - 1] == v;
      ClosedReach(links, root, colored, p);
    }
  }

  /** What the queue offers is what the definition of a greedy choice asks for. */
  lemma ChoiceIsGreedy(links: Links, w: seq<Entry>, d: map<string, nat>, colored: set<string>, bs: seq<string>, x: string)
    requires WOk(links, w, colored) && Balanced(w, d, colored, set u | u in bs)
    requires x in d && 0 < d[x] && forall u | u in d :: d[u] <= d[x]
    ensures Chosen(links, colored, bs, x)
  {
    forall u | u in colored
      ensures Waits(links, colored, u) == Named(w, u)
    {
      NamedIsPending(links, w, colored, u);
    }
  }

  /** One more black node. */
  lemma Extend(links: Links, root: string, bs: seq<string>, x: string)
    requires Connected(links, root, bs) && Greedy(links, root, bs)
    requires Chosen(links, Coloured(links, root, bs), bs, x)
    ensures Connected(links, root, bs + [x]) && Greedy(links, root, bs + [x])
    ensures Coloured(links, root, bs + [x]) == Coloured(links, root, bs) + Members(Out(links, x))
  {
    assert (bs + [x])[..|bs + [x]| - 1] == bs;
    ColouredMeans(links, root, bs, x);
    ExtendConnected(links, root, bs, x);
    ExtendGreedy(links, root, bs, x);
  }

  lemma ExtendConnected(links: Links, root: string, bs: seq<string>, x: string)
    requires Connected(links, root, bs) && x !in bs
    requires x == root || exists j :: 0 <= j < |bs| && x in Out(links, bs[j])
    requires bs == [] ==> x == root
    ensures Connected(links, root, bs + [x])
  {
    hide Out;
    var more := bs + [x];
    assert forall i | 0 <= i < |bs| :: more[i] == bs[i];
    forall i | 0 < i < |more|
      ensures exists j :: 0 <= j < i && more[i] in Out(links, more[j])
    {
      if i < |bs| {
        var j :| 0 <= j < i && bs[i] in Out(links, bs[j]);
        assert more[j] == bs[j];
      } else {
        var j :| 0 <= j < |bs| && x in Out(links, bs[j]);
        assert more[j] == bs[j];
      }
    }
  }

  lemma ExtendGreedy(links: Links, root: string, bs: seq<string>, x: string)
    requires Greedy(links, root, bs) && Chosen(links, Coloured(links, root, bs), bs, x)
    ensures Greedy(links, root, bs + [x])
  {
    hide Chosen, Coloured;
    var more := bs + [x];
    forall i | 0 <= i < |more|
      ensures Chosen(links, Coloured(links, root, more[..i]), more[..i], more[i])
    {
      if i < |bs| {
        assert more[..i] == bs[..i];
        assert Chosen(links, Coloured(links, root, bs[..i]), bs[..i], bs[i]);
      } else {
        assert more[..i] == bs;
      }
    }
  }

  /** Every URL that can ever be coloured. */
  function Universe(links: Links, root: string): set<string> {
    {root} + set u, v | u in links && v in links[u] :: v
  }

  lemma {:induction false} ColouredInUniverse(links: Links, root: string, bs: seq<string>)
    ensures Coloured(links, root, bs) <= Universe(links, root)
  {
    if bs != [] {
      ColouredInUniverse(links, root, bs[..|bs| - 1]);
    }
  }

  lemma StartOk(links: Links, root: string)
    ensures WOk(links, [], {}) && Balanced([], map[], {}, {})
    ensures Coloured(links, root, []) == {root} && Connected(links, root, []) && Greedy(links, root, [])
  {
  }

  lemma UrlsAppend(b: seq<Node>, g: Node)
    ensures Urls(b + [g]) == Urls(b) + [g.url]
  {
  }

  class CdsAlgorithm {
    var W: seq<Entry>
    const G: G
    var B: seq<Node>
    var colored: set<string>
    var links: Links

    ghost function Black(): set<string>
      reads this`B
    {
      set n | n in B :: n.url
    }

    ghost predicate Ok()
      reads this, G, G.nodes
    {
      && G.Valid()
      && WOk(links, W, colored)
      && (forall u | u in links :: |links[u]| < UNSIGNED_RANGE)
      && Out(links, "") == []
    }

    constructor ()
      ensures G.Valid() && G.degrees == map[] && G.nodes == {} && fresh(G)
    {
      G := new G();
      W := [];
      B := [];
      colored := {};
      links := map[];
    }

    /** The first loop of `greyen`: each grey node that waited for `x` waits for one link less. */
    method Settle(x: string, ghost black: set<string>)
      requires G.Valid() && Balanced(W, G.degrees, colored, black)
      requires forall i | 0 <= i < |W| :: W[i].grey in colored
      modifies this`W, G, G.nodes
      ensures G.Valid() && Balanced(W, G.degrees, colored, black) && G.nodes <= old(G.nodes)
      ensures W == Erased(old(W), x) && forall i | 0 <= i < |W| :: W[i].grey in colored
    {
      hide G.Valid, Balanced, Erased;
      var i := 0;
      while i < |W|
        invariant i <= |W| && G.Valid() && G.nodes <= old(G.nodes) && Balanced(W, G.degrees, colored, black)
        invariant forall j | 0 <= j < i :: W[j].white != x
        invariant forall i | 0 <= i < |W| :: W[i].grey in colored
        invariant Erased(W, x) == Erased(old(W), x)
        decreases |W| - i
      {
        if W[i].white == x {
          ErasedWithout(W, i, x);
          Forget(i, black);
        } else {
          i := i + 1;
        }
      }
      ErasedAll(W, x);
    }

    method Forget(i: nat, ghost black: set<string>)
      requires G.Valid() && Balanced(W, G.degrees, colored, black) && i < |W| && W[i].grey in colored
      modifies this`W, G, G.nodes
      ensures G.Valid() && Balanced(W, G.degrees, colored, black) && G.nodes <= old(G.nodes)
      ensures W == old(W)[..i] + old(W)[i + 1..]
    {
      hide G.Valid, Balanced;
      G.DegreesInRange();
      var _ := G.Update(W[i].grey, -1);
      EraseKeeps(W, i, old(G.degrees), G.degrees, colored, black);
      W := W[..i] + W[i + 1..];
    }
  
    /** The second loop of `greyen`: `x` waits for its out-links that are not coloured yet. */
    method Await(x: string) returns (d: nat)
      modifies this`W
      ensures W == old(W) + NewEntries(Out(links, x), x, colored)
      ensures d == |NewEntries(Out(links, x), x, colored)| <= |Out(links, x)|
    {
      var out := Out(links, x);
      var i := 0;
      d := 0;
      while i < |out|
        invariant i <= |out| && d <= i
        invariant W == old(W) + NewEntries(out[..i], x, colored)
        invariant d == |NewEntries(out[..i], x, colored)|
      {
        assert out[..i + 1][..i] == out[..i];
        if out[i] !in colored {
          W := W + [Entry(out[i], x)];
          d := d + 1;
        }
        i := i + 1;
      }
      assert out[..i] == out;
    }

    /** Colours a white node: the grey ones stop waiting for it, and it waits for its own links. */
    method Greyen(n: Node)
      requires Ok() && Balanced(W, G.degrees, colored, Black()) && n.url !in colored
      modifies this`W, this`colored, G, G.nodes, n
      ensures Ok() && Balanced(W, G.degrees, colored, Black())
      ensures colored == old(colored) + {n.url} && G.nodes <= old(G.nodes) + {n}
    {
      hide G.Valid, WOk, Balanced, Erased, NewEntries;
      GreysColored(links, W, colored);
      ColourKeeps(links, W, colored, n.url);
      Settle(n.url, Black());
      ghost var w := W;
      QueuedColored(n.url);
      G.NotQueued(n);
      var d := Await(n.url);
      NewEntriesName(Out(links, n.url), n.url, colored);
      ColourBalance(w, NewEntries(Out(links, n.url), n.url, colored), G.degrees, colored, Black(), n.url);
      colored := colored + {n.url};
      n.degree := d;
      if n.degree > 0 {
        var _ := G.Put(n);
      }
    }

    lemma QueuedColored(x: string)
      requires Balanced(W, G.degrees, colored, Black()) && x !in colored
      ensures x !in G.degrees
    {
    }
  
    /** Makes a grey node black: all its white out-neighbours turn grey. */
    method Blacken(g: Node)
      requires Ok() && Balanced(W, G.degrees, colored, Black() + {g.url})
      modifies this`W, this`colored, this`B, G, G.nodes
      ensures Ok() && Balanced(W, G.degrees, colored, Black())
      ensures B == old(B) + [g] && fresh(G.nodes - old(G.nodes))
      ensures colored == old(colored) + Members(Out(links, g.url))
      ensures old(colored) < colored || (colored == old(colored) && G.degrees == old(G.degrees))
    {
      hide G.Valid, WOk, Balanced;
      B := B + [g];
      assert Black() == old(Black()) + {g.url};
      var n := Out(links, g.url);
      var i := 0;
      while i < |n|
        invariant i <= |n| && Ok() && Balanced(W, G.degrees, colored, Black()) && B == old(B) + [g]
        invariant fresh(G.nodes - old(G.nodes))
        invariant colored == old(colored) + Members(n[..i])
        invariant old(colored) < colored || (colored == old(colored) && G.degrees == old(G.degrees))
        invariant links == old(links)
      {
        assert n[..i + 1] == n[..i] + [n[i]];
        if n[i] !in colored {
          var w := new Node(n[i]);
          Greyen(w);
        }
        i := i + 1;
      }
      assert n[..i] == n;
    }
  
    lemma BlackUrls()
      ensures Black() == set u | u in Urls(B)
    {
      forall n | n in B
        ensures n.url in Urls(B)
      {
        var i :| 0 <= i < |B| && B[i] == n;
        assert Urls(B)[i] == n.url;
      }
    }

    /** The node that the queue offers is a greedy choice, and black is the next thing it may be. */
    lemma Advance(d: map<string, nat>, root: string, x: string)
      requires WOk(links, W, colored) && Balanced(W, d, colored, Black())
      requires x in d && 0 < d[x] && forall u | u in d :: d[u] <= d[x]
      requires colored == Coloured(links, root, Urls(B)) && Connected(links, root, Urls(B)) && Greedy(links, root, Urls(B))
      ensures Balanced(W, d - {x}, colored, Black() + {x})
      ensures Connected(links, root, Urls(B) + [x]) && Greedy(links, root, Urls(B) + [x])
      ensures Coloured(links, root, Urls(B) + [x]) == colored + Members(Out(links, x))
    {
      hide WOk, Coloured, Connected, Greedy, Chosen, Out;
      BlackUrls();
      ChoiceIsGreedy(links, W, d, colored, Urls(B), x);
      Extend(links, root, Urls(B), x);
    }

    lemma Finish(root: string)
      requires WOk(links, W, colored) && Balanced(W, map[], colored, Black())
      requires colored == Coloured(links, root, Urls(B)) && Connected(links, root, Urls(B))
      ensures forall v :: v in colored <==> Reachable(links, root, v)
      ensures forall v :: Reachable(links, root, v) <==> Dominated(links, root, Urls(B), v)
    {
      hide WOk, Balanced, Coloured, Connected, Reachable, Dominated;
      BlackUrls();
      Done(links, root, W, colored, Urls(B));
      forall v | v in colored
        ensures Reachable(links, root, v)
      {
        ColouredReachable(links, root, Urls(B), v);
      }
      forall v
        ensures v in colored <==> Dominated(links, root, Urls(B), v)
      {
        ColouredMeans(links, root, Urls(B), v);
      }
    }

    /** The root is the first node to be coloured. */
    method Begin(links: Links, root: string)
      requires G.Valid() && colored == {} && root != ""
      requires Out(links, "") == [] && forall u | u in links :: |links[u]| < UNSIGNED_RANGE
      modifies this, G, G.nodes
      ensures Ok() && Balanced(W, G.degrees, colored, Black()) && this.links == links && fresh(G.nodes - old(G.nodes))
      ensures colored == Coloured(links, root, Urls(B))
      ensures Connected(links, root, Urls(B)) && Greedy(links, root, Urls(B))
    {
      hide G.Valid, WOk, Balanced, Dominated, Coloured, Connected, Greedy, Chosen, Reachable, Out;
      this.links := links;
      W := [];
      G.Clear();
      B := [];
      StartOk(links, root);
      assert Urls(B) == [] && Black() == {};
      var r := new Node(root);
      Greyen(r);
    }

    /** The whole run, on a fresh object. */
    method Cal(links: Links, root: string)
      requires G.Valid() && colored == {} && root != ""
      requires Out(links, "") == [] && forall u | u in links :: |links[u]| < UNSIGNED_RANGE
      modifies this, G, G.nodes
      ensures Connected(links, root, Urls(B)) && Greedy(links, root, Urls(B))
      ensures colored == Coloured(links, root, Urls(B))
      ensures forall v :: v in colored <==> Reachable(links, root, v)
      ensures forall v :: Reachable(links, root, v) <==> Dominated(links, root, Urls(B), v)
    {
      hide G.Valid, WOk, Balanced, Dominated, Coloured, Connected, Greedy, Chosen, Reachable, Out;
      Begin(links, root);
      ghost var universe := Universe(links, root);
      G.EmptyMeans();
      while !G.Empty()
        invariant Ok() && Balanced(W, G.degrees, colored, Black()) && this.links == links
        invariant G.Empty() <==> G.degrees == map[]
        invariant colored == Coloured(links, root, Urls(B))
        invariant Connected(links, root, Urls(B)) && Greedy(links, root, Urls(B))
        invariant fresh(G.nodes - old(G.nodes))
        decreases universe - colored, G.degrees.Keys
      {
        G.DegreesInRange();
        ColouredInUniverse(links, root, Urls(B));
        ghost var d := G.degrees;
        var g := G.Select();
        Advance(d, root, g.url);
        UrlsAppend(B, g);
        Blacken(g);
        ColouredInUniverse(links, root, Urls(B));
        G.EmptyMeans();
      }
      Finish(root);
    }
  }
}
