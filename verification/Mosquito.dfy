/** The crawl of one host, src/crawler/mosquito.cpp: three queues of pages to visit, and a memory of all
    pages ever queued. */
module Mosquitos {
  import opened IndexQueues
  import opened ShadowChains
  import opened Tasks
  import opened TaskStream

  type Queue = IndexQueue<TaskState>
  type Listing = Entries<TaskState>

  /** A link as `check` sees it, with what robots.txt and the list of hosts to note say about it. */
  datatype Link = Link(localstr: string, full: string, textual: bool, sameHost: bool, allowed: bool, wanted: bool)

  datatype FetchResult = RequestOK | RequestFailure | ServerFailure | ServerBusy | ServerDOS

  datatype ReplyStatus = PageOK | PageRedirect | PageUnwanted | PageBad | PageError | PageNotFound | PageGone

  /** What `parse` looks at. */
  datatype Content =
    | Moved(location: Link)
    | Script(body: string)
    | Plain(body: string)
    | Html(links: seq<Link>, anchors: seq<string>, paragraphs: seq<string>)
    | Opaque

  /** What a fetch of a page would bring: each page is fetched at most once. */
  datatype Reply = Reply(arrived: bool, retries: nat, status: ReplyStatus, content: Content, random: nat)

  function LinksOf(c: Content): seq<Link> {
    match c
    case Moved(location) => [location]
    case Html(links, _, _) => links
    case _ => []
  }

  /** A link to a page of this host that may be queued. */
  predicate Queueable(l: Link) {
    l.textual && l.sameHost && l.allowed
  }

  predicate Within(links: seq<Link>, universe: set<string>) {
    forall l | l in links && Queueable(l) :: l.localstr in universe
  }

  ghost predicate Leads(links: seq<Link>, key: string) {
    exists l :: l in links && Queueable(l) && l.localstr == key
  }

  // ---------------------------------------------------------------------------------------------
  // The three queues as values

  datatype Front = Front(blink: Listing, visited: Listing, unvisit: Listing)

  ghost predicate Listed(f: Front, key: string) {
    HasKey(f.blink, key) || HasKey(f.visited, key) || HasKey(f.unvisit, key)
  }

  /** No page is in two queues. */
  ghost predicate OneQueue(f: Front) {
    forall k :: !(HasKey(f.blink, k) && HasKey(f.visited, k)) && !(HasKey(f.blink, k) && HasKey(f.unvisit, k))
             && !(HasKey(f.visited, k) && HasKey(f.unvisit, k))
  }

  predicate Clean(t: TaskState) {
    !t.status.stale && !t.status.bad && !t.status.deleted
  }

  ghost predicate KeyedTasks(es: Listing) {
    forall i | 0 <= i < |es| :: es[i].1.localstr == es[i].0 && Clean(es[i].1)
  }

  /** Tasks carry their keys and are fit to be crawled; an unknown one is only among the unvisited. */
  ghost predicate TasksFine(f: Front) {
    && KeyedTasks(f.blink) && KeyedTasks(f.visited) && KeyedTasks(f.unvisit)
    && (forall i | 0 <= i < |f.blink| :: !f.blink[i].1.status.unknown && !f.blink[i].1.status.visited)
    && (forall i | 0 <= i < |f.visited| :: !f.visited[i].1.status.unknown && f.visited[i].1.status.visited)
    && (forall i | 0 <= i < |f.unvisit| :: !f.unvisit[i].1.status.visited)
  }

  ghost predicate NoRepeat(s: seq<string>) {
    forall i, j | 0 <= i < j < |s| :: s[i] != s[j]
  }

  /** No page is queued twice, or again after it was taken. */
  ghost predicate Once(f: Front, popped: seq<string>) {
    OneQueue(f) && TasksFine(f) && NoRepeat(popped) && forall k | k in popped :: !Listed(f, k)
  }

  lemma HasAppended(es: Listing, key: string, t: TaskState)
    ensures forall k :: HasKey(es + [(key, t)], k) <==> HasKey(es, k) || k == key
  {
    var now := es + [(key, t)];
    assert now[|es|].0 == key;
    forall k | HasKey(es, k) ensures HasKey(now, k) {
      var i :| 0 <= i < |es| && es[i].0 == k;
      assert now[i].0 == k;
    }
  }

  lemma HasRest(es: Listing)
    requires es != [] && Distinct(es)
    ensures forall k :: HasKey(es[1..], k) <==> HasKey(es, k) && k != es[0].0
  {
    forall k | HasKey(es, k) && k != es[0].0 ensures HasKey(es[1..], k) {
      var i :| 0 <= i < |es| && es[i].0 == k;
      assert es[1..][i - 1].0 == k;
    }
    forall k | HasKey(es[1..], k) ensures HasKey(es, k) && k != es[0].0 {
      var i :| 0 <= i < |es| - 1 && es[1..][i].0 == k;
      assert es[i + 1].0 == k;
    }
  }

  lemma HasWithout(es: Listing, key: string)
    requires Distinct(es)
    ensures forall k :: HasKey(Without(es, key), k) <==> HasKey(es, k) && k != key
  {
    WithoutDistinct(es, key);
    forall k | k != key ensures HasKey(Without(es, key), k) <==> HasKey(es, k) {
      LookupWithout(es, key, k);
    }
  }

  /** The first page of the first queue that has one. */
  ghost predicate PoppedFrom(f: Front, g: Front, key: string, t: TaskState) {
    if f.blink != [] then (key, t) == f.blink[0] && g == f.(blink := f.blink[1..])
    else if f.visited != [] then (key, t) == f.visited[0] && g == f.(visited := f.visited[1..])
    else f.unvisit != [] && (key, t) == f.unvisit[0] && g == f.(unvisit := f.unvisit[1..])
  }

  /** Taking the first page of a queue. */
  lemma PopOnce(f: Front, popped: seq<string>, g: Front, key: string, t: TaskState)
    requires Once(f, popped) && PoppedFrom(f, g, key, t)
    requires Distinct(f.blink) && Distinct(f.visited) && Distinct(f.unvisit)
    ensures Once(g, popped + [key]) && key !in popped && Listed(f, key)
    ensures forall k :: Listed(g, k) <==> Listed(f, k) && k != key
    ensures t.localstr == key && Clean(t)
    ensures f.blink != [] || f.visited != [] ==> !t.status.unknown
  {
    if f.blink != [] { HasRest(f.blink); }
    if f.visited != [] { HasRest(f.visited); }
    if f.unvisit != [] { HasRest(f.unvisit); }
    assert Listed(f, key);
    hide HasKey, Distinct;
    assert key !in popped;
  }

  /** Queueing a page that is in no queue and was not taken. */
  lemma PushOnce(f: Front, popped: seq<string>, g: Front, key: string, t: TaskState)
    requires Once(f, popped) && !Listed(f, key) && key !in popped && t.localstr == key && Clean(t)
    requires (g == f.(blink := f.blink + [(key, t)]) && !t.status.unknown && !t.status.visited)
          || (g == f.(visited := f.visited + [(key, t)]) && !t.status.unknown && t.status.visited)
          || (g == f.(unvisit := f.unvisit + [(key, t)]) && !t.status.visited)
    ensures Once(g, popped)
    ensures forall k :: Listed(g, k) <==> Listed(f, k) || k == key
  {
    HasAppended(f.blink, key, t);
    HasAppended(f.visited, key, t);
    HasAppended(f.unvisit, key, t);
    hide HasKey;
  }

  /** Removing a page from the unvisited ones. */
  lemma RemoveOnce(f: Front, popped: seq<string>, key: string)
    requires Once(f, popped) && Distinct(f.unvisit)
    ensures Once(f.(unvisit := Without(f.unvisit, key)), popped)
    ensures forall k :: Listed(f.(unvisit := Without(f.unvisit, key)), k) <==>
      HasKey(f.blink, k) || HasKey(f.visited, k) || (HasKey(f.unvisit, k) && k != key)
  {
    HasWithout(f.unvisit, key);
    hide HasKey, Distinct;
    var i, rest := Place(f.unvisit, key), Without(f.unvisit, key);
    assert forall j | 0 <= j < |rest| :: rest[j] == if i == |f.unvisit| || j < i then f.unvisit[j] else f.unvisit[j + 1];
    assert TasksFine(f.(unvisit := rest));
    assert OneQueue(f.(unvisit := rest));
    assert forall k | k in popped :: !Listed(f, k);
  }

  lemma {:induction false} NoRepeatSize(s: seq<string>, universe: set<string>)
    requires NoRepeat(s) && forall k | k in s :: k in universe
    ensures |s| <= |universe|
  {
    if s != [] {
      var last := s[|s| - 1];
      assert last in s && last !in s[..|s| - 1];
      NoRepeatSize(s[..|s| - 1], universe - {last});
    }
  }

  // ---------------------------------------------------------------------------------------------
  // What reading a page does to the queues

  /** What is queued, and what is remembered. */
  datatype Extent = Extent(front: Front, memory: iset<string>)

  /** No page leaves, `n` pages join: the blinking ones when the page that led to them was visited before,
      the unvisited ones otherwise. */
  ghost predicate Grown(f: Front, g: Front, visited: bool, n: nat) {
    && g.visited == f.visited && (forall k | Listed(f, k) :: Listed(g, k))
    && (if visited then f.blink <= g.blink && |g.blink| == |f.blink| + n && |g.unvisit| <= |f.unvisit|
        else g.blink == f.blink && f.unvisit <= g.unvisit && |g.unvisit| == |f.unvisit| + n)
    && (n == 0 ==> g == f)
  }

  /** Every page that the links lead to is remembered, and those that join are of these and were not. */
  ghost predicate Spread(a: Extent, b: Extent, links: seq<Link>, visited: bool, n: nat) {
    && Grown(a.front, b.front, visited, n) && a.memory <= b.memory
    && (forall l | l in links && Queueable(l) :: l.localstr in b.memory)
    && (forall k | Listed(b.front, k) && !Listed(a.front, k) :: k !in a.memory && Leads(links, k))
  }

  lemma SpreadOn(a: Extent, b: Extent, c: Extent, links: seq<Link>, link: Link, visited: bool, m: nat, n: nat)
    requires Spread(a, b, links, visited, m) && Spread(b, c, [link], visited, n)
    ensures Spread(a, c, links + [link], visited, m + n)
  {
    hide Listed;
    forall k | Listed(c.front, k) && !Listed(a.front, k) ensures k !in a.memory && Leads(links + [link], k) {
      if Listed(b.front, k) {
        var l :| l in links && Queueable(l) && l.localstr == k;
        assert l in links + [link];
      } else {
        assert link in [link] && link in links + [link];
      }
    }
  }

  /** One page joins the queues. */
  lemma SpreadQueued(f: Front, g: Front, task: TaskState, link: Link, before: iset<string>, after: iset<string>)
    requires g == Queued(f, task, link.localstr) && Queueable(link) && link.localstr !in before
    requires before <= after && link.localstr in after
    ensures Spread(Extent(f, before), Extent(g, after), [link], task.status.visited, 1)
  {
    var key := link.localstr;
    HasAppended(f.blink, key, NewTask(key, NEW_STATUS.(blink := true)));
    HasAppended(f.unvisit, key, NewTask(key, NEW_STATUS.(unknown := true)));
    HasAppended(f.unvisit, key, NewTask(key, NEW_STATUS));
    hide HasKey;
    assert link in [link];
  }

  /** One page changes its queue. */
  lemma SpreadMoved(f: Front, popped: seq<string>, t: TaskState, link: Link, before: iset<string>, after: iset<string>)
    requires Once(f, popped) && Distinct(f.unvisit) && Lookup(f.unvisit, link.localstr) == Some(t)
    requires before <= after && (Queueable(link) ==> link.localstr in after)
    ensures Spread(Extent(f, before), Extent(MovedToBlink(f, link.localstr, t), after), [link], true, 1)
  {
    MoveOnce(f, popped, link.localstr, t);
  }

  // ---------------------------------------------------------------------------------------------
  // What a turn makes of a task

  predicate Readable(reply: Reply) {
    reply.arrived && (reply.status == PageOK || reply.status == PageRedirect)
  }

  function Treated(t: TaskState, reply: Reply, page: PageStatus): TaskState {
    if Readable(reply) then Rescheduled(t, page, reply.random)
    else if !reply.arrived || reply.status == PageError then Rescheduled(t, NO_PAGE, reply.random)
    else if reply.status == PageNotFound || reply.status == PageGone then t.(status := t.status.(deleted := true))
    else t.(status := t.status.(bad := true))
  }

  /** A page that its server says is gone, or answers for in any other way than with the page, a redirection or an
      error of its own, is dropped in this turn; after an error or no answer it is kept unless it got stale. */
  lemma TreatedFate(t: TaskState, reply: Reply, page: PageStatus)
    requires Live(t) && Clean(t)
    ensures var u := Treated(t, reply, page);
      var refused := reply.arrived && reply.status != PageOK && reply.status != PageRedirect && reply.status != PageError;
      && u.localstr == t.localstr
      && (FateOf(u, t) == Discarded <==> refused || u.status.stale)
      && (u.status.deleted <==> reply.arrived && (reply.status == PageNotFound || reply.status == PageGone))
      && (u.status.bad <==> refused && !u.status.deleted)
      && (!Readable(reply) && !refused ==> u.waited == t.waited + 1 && u.newContentSum == t.newContentSum)
  {
  }

  /** The pages of a turn, each put back once. */
  ghost predicate PutBack(all: multiset<TaskState>, names: seq<string>) {
    && |all| == |names| && (forall t | t in all :: t.localstr in names)
    && (forall k | k in names :: exists t :: t in all && t.localstr == k)
  }

  lemma NothingBack()
    ensures PutBack(multiset{}, [])
  {
  }

  lemma OneMoreBack(all: multiset<TaskState>, names: seq<string>, t: TaskState)
    requires PutBack(all, names)
    ensures PutBack(all + multiset{t}, names + [t.localstr])
  {
    forall k | k in names + [t.localstr] ensures exists u :: u in all + multiset{t} && u.localstr == k {
      if k in names {
        var u :| u in all && u.localstr == k;
        assert u in all + multiset{t};
      } else {
        assert t in all + multiset{t};
      }
    }
  }

  // ---------------------------------------------------------------------------------------------
  // Filling the queues

  ghost function Enqueued(f: Front, t: TaskState): Front {
    if t.status.visited then f.(visited := f.visited + [(t.localstr, t)])
    else if t.status.blink then f.(blink := f.blink + [(t.localstr, t)])
    else f.(unvisit := f.unvisit + [(t.localstr, t)])
  }

  /** A task of the last turn, or one imported from another host (unknown) if its page is not known. */
  ghost function Loaded(f: Front, t: TaskState, allowed: bool, known: bool): Front {
    if !allowed || Listed(f, t.localstr) || !Clean(t) || (t.status.unknown && known) then f
    else if t.status.unknown then Enqueued(f, t.(status := t.status.(visited := false, unknown := false)))
    else Enqueued(f, t)
  }

  lemma LoadedLists(f: Front, t: TaskState, allowed: bool, known: bool)
    ensures forall k :: Listed(Loaded(f, t, allowed, known), k) <==>
      Listed(f, k) || (k == t.localstr && allowed && Clean(t) && !(t.status.unknown && known))
  {
    var u := t.(status := t.status.(visited := false, unknown := false));
    forall v | v == t || v == u
      ensures forall k :: Listed(Enqueued(f, v), k) <==> Listed(f, k) || k == t.localstr
    {
      HasAppended(f.visited, t.localstr, v);
      HasAppended(f.blink, t.localstr, v);
      HasAppended(f.unvisit, t.localstr, v);
    }
    hide HasKey;
  }

  // ---------------------------------------------------------------------------------------------
  // The crawler

  const NEW_STATUS := Status(false, false, false, false, false, false)

  function NewTask(localstr: string, status: Status): TaskState {
    TaskState(localstr, 0, 0, status, 0)
  }

  class Mosquito {
    const queBlink: Queue
    const queVisited: Queue
    const queUnvisit: Queue
    const shadows: ShadowChain
    const hub: ActiveTaskFile
    const npages: nat
    var task: TaskState
    var fetchResult: FetchResult
    var totalRetry: nat
    var nfetch: nat
    var contFetchFailure: nat
    var contPageError: nat
    var tries: nat      // blink_try + new_try + old_try
    var gets: nat       // blink_get + new_get
    var oldChanged: nat
    ghost var popped: seq<string>
    ghost const universe: set<string>

    ghost function Queues(): Front
      reads queBlink, queVisited, queUnvisit
    {
      Front(queBlink.Contents(), queVisited.Contents(), queUnvisit.Contents())
    }

    ghost function Memory(): iset<string>
      reads shadows, shadows.Parts()
    {
      iset s | shadows.Remembers(s)
    }

    ghost function Reach(): Extent
      reads queBlink, queVisited, queUnvisit, shadows, shadows.Parts()
    {
      Extent(Queues(), Memory())
    }

    /** The crawl has had enough: of failures, of tries, or of pages. */
    predicate Enough()
      reads this
    {
      || totalRetry > 20 || tries >= npages * 10 || gets + oldChanged >= npages
      || fetchResult == ServerBusy || fetchResult == ServerDOS
    }

    /** The objects are as many as they seem. */
    ghost predicate Separate()
      reads shadows
    {
      && queBlink != queVisited && queBlink != queUnvisit && queVisited != queUnvisit
      && (shadows as object) !in {this, queBlink, queVisited, queUnvisit, hub}
      && forall o | o in PartsOf(shadows.chain) ::
           o != this && o != queBlink && o != queVisited && o != queUnvisit && o != hub
    }

    ghost predicate QueuesValid()
      reads queBlink, queVisited, queUnvisit
    {
      queBlink.Valid() && queVisited.Valid() && queUnvisit.Valid()
    }

    /** Every page that is or was queued is remembered, and is one of the pages there are. */
    ghost predicate Remembered(f: Front)
      reads this`popped, shadows, shadows.Parts()
    {
      forall k | Listed(f, k) || k in popped :: shadows.Remembers(k) && k in universe
    }

    ghost predicate Valid()
      reads this`popped, queBlink, queVisited, queUnvisit, shadows, shadows.Parts()
    {
      && Separate() && QueuesValid() && shadows.Valid()
      && Once(Queues(), popped) && Remembered(Queues())
    }

    constructor (shadows: ShadowChain, hub: ActiveTaskFile, npages: nat, ghost universe: set<string>)
      requires shadows.Valid() && hub.Open() && (forall o | o in PartsOf(shadows.chain) :: o != hub)
      ensures Valid() && popped == [] && this.shadows == shadows && this.hub == hub && this.universe == universe
      ensures forall k :: !Listed(Queues(), k)
      ensures tries == 0 && gets == 0 && oldChanged == 0 && this.npages == npages
    {
      hide ShadowChain.Valid, ShadowChain.Remembers, Agree, View;
      queBlink := new IndexQueue<TaskState>();
      queVisited := new IndexQueue<TaskState>();
      queUnvisit := new IndexQueue<TaskState>();
      this.shadows, this.hub, this.npages, this.universe := shadows, hub, npages, universe;
      task, fetchResult := NewTask("", NEW_STATUS), RequestOK;
      totalRetry, nfetch, contFetchFailure, contPageError, tries, gets, oldChanged := 0, 0, 0, 0, 0, 0, 0;
      popped := [];
    }

    /** The first page; tells whether it is an unvisited one. */
    method PopAny() returns (c: Option<Cell<TaskState>>, unvisited: bool)
      requires QueuesValid() && queBlink != queVisited && queBlink != queUnvisit && queVisited != queUnvisit
      modifies queBlink, queVisited, queUnvisit
      ensures QueuesValid()
      ensures c.None? ==> Queues() == old(Queues()) == Front([], [], [])
      ensures c.Some? ==> PoppedFrom(old(Queues()), Queues(), c.value.key, c.value.value)
      ensures c.Some? ==> (unvisited <==> old(Queues().blink == [] && Queues().visited == []))
    {
      hide Agree, View;
      unvisited := false;
      c := queBlink.PopFront();
      if c.None? {
        c := queVisited.PopFront();
        if c.None? {
          c := queUnvisit.PopFront();
          unvisited := true;
        }
      }
    }

    lemma AllDistinct()
      requires QueuesValid()
      ensures Distinct(Queues().blink) && Distinct(Queues().visited) && Distinct(Queues().unvisit)
    {
      queBlink.Indexed();
      queVisited.Indexed();
      queUnvisit.Indexed();
    }

    /** Takes the next page, the blinking ones first and the new ones last.  It was not taken before, and
        what `isReady` and `reschedule` assert of it holds. */
    method GetTask() returns (r: bool)
      requires Valid()
      modifies this`task, this`popped, queBlink, queVisited, queUnvisit
      ensures Valid()
      ensures r <==> old(Queues()) != Front([], [], [])
      ensures !r ==> popped == old(popped) && Queues() == old(Queues())
      ensures r ==> popped == old(popped) + [task.localstr] && task.localstr !in old(popped)
      ensures r ==> Live(task) && !task.status.deleted && Listed(old(Queues()), task.localstr)
      ensures forall k | old(Listed(Queues(), k)) :: Listed(Queues(), k) || (r && k == task.localstr)
      ensures r ==> exists t: TaskState :: PoppedFrom(old(Queues()), Queues(), t.localstr, t) && task == t.(status := t.status.(unknown := false))
    {
      hide Once, Distinct, Listed, PoppedFrom, Mosquito.Queues, Mosquito.QueuesValid, ShadowChain.Valid, ShadowChain.Remembers;
      ghost var f := Queues();
      AllDistinct();
      var c, unvisited := PopAny();
      if c.None? {
        return false;
      }
      Some1(f, Queues(), c.value.key, c.value.value);
      PopOnce(f, popped, Queues(), c.value.key, c.value.value);
      task := c.value.value;
      if unvisited {
        task := task.(status := task.status.(unknown := false));
      }
      popped := popped + [c.value.key];
      r := true;
    }

    /** A page that is new goes to the blinking ones when it was found on a page visited before, and to the
        unvisited ones otherwise; one found on a blinking page is marked, as it may be blinking too.  An
        older marked page that turns up on a visited page is moved to the blinking ones. */
    method InQue(localstr: string, isNew: bool) returns (r: bool)
      requires Valid()
      requires isNew ==> !Listed(Queues(), localstr) && localstr !in popped && shadows.Remembers(localstr) && localstr in universe
      modifies queBlink, queVisited, queUnvisit
      ensures Valid()
      ensures isNew ==> r && Queues() == Queued(old(Queues()), task, localstr)
      ensures !isNew ==>
        var t := Lookup(old(Queues().unvisit), localstr);
        && (r <==> task.status.visited && t.Some? && t.value.status.unknown)
        && Queues() == if r then MovedToBlink(old(Queues()), localstr, t.value) else old(Queues())
    {
      hide Once, Distinct, Listed, ShadowChain.Valid, ShadowChain.Remembers, HasKey, Agree, View;
      ghost var f := Queues();
      AllDistinct();
      if isNew {
        PushNew(localstr);
        r := true;
      } else {
        r := Reconsider(localstr);
      }
    }

    method PushNew(localstr: string)
      requires Valid()
      requires !Listed(Queues(), localstr) && localstr !in popped && shadows.Remembers(localstr) && localstr in universe
      modifies queBlink, queVisited, queUnvisit
      ensures Valid() && Queues() == Queued(old(Queues()), task, localstr)
    {
      hide Once, Distinct, ShadowChain.Valid, ShadowChain.Remembers, HasKey, Agree, View;
      ghost var f := Queues();
      var t;
      if task.status.visited {
        t := NewTask(localstr, NEW_STATUS.(blink := true));
        var _ := queBlink.PushBack(localstr, t);
      } else if task.status.blink {
        t := NewTask(localstr, NEW_STATUS.(unknown := true));
        var _ := queUnvisit.PushBack(localstr, t);
      } else {
        t := NewTask(localstr, NEW_STATUS);
        var _ := queUnvisit.PushBack(localstr, t);
      }
      PushOnce(f, popped, Queues(), localstr, t);
    }

    method Reconsider(localstr: string) returns (r: bool)
      requires Valid()
      modifies queBlink, queVisited, queUnvisit
      ensures Valid()
      ensures var t := Lookup(old(Queues().unvisit), localstr);
        && (r <==> task.status.visited && t.Some? && t.value.status.unknown)
        && Queues() == if r then MovedToBlink(old(Queues()), localstr, t.value) else old(Queues())
    {
      hide Once, Distinct, ShadowChain.Valid, ShadowChain.Remembers, HasKey, Agree, View, Without, Place;
      ghost var f := Queues();
      AllDistinct();
      r := false;
      if task.status.visited {
        var found := queUnvisit.Find(localstr);
        if found.Some? && found.value.value.status.unknown {
          MoveOnce(f, popped, localstr, found.value.value);
          var removed := queUnvisit.Remove(localstr);
          var t := removed.value;
          var _ := queBlink.PushBack(localstr, t.(status := NEW_STATUS.(blink := true)));
          r := true;
        }
      }
    }

    /** A string is remembered, and no queue is touched. */
    method Remember(s: string) returns (isNew: bool)
      requires Valid()
      modifies shadows.Parts()
      ensures Valid() && Queues() == old(Queues())
      ensures (isNew <==> s !in old(Memory())) && s in Memory() && old(Memory()) <= Memory()
      ensures !isNew ==> Memory() == old(Memory())
      ensures isNew ==> !Listed(Queues(), s) && s !in popped
      ensures forall o | o in shadows.Parts() :: o in old(shadows.Parts()) || fresh(o)
    {
      hide Once, Listed, ShadowChain.Valid, ShadowChain.Remembers, Agree;
      isNew := shadows.Put(s);
    }

    /** What a link is: of the right kind, on this host, and new; a new one is remembered from here on. */
    method Check(link: Link) returns (rightType: bool, sameHost: bool, isNew: bool)
      requires Valid() && Within([link], universe)
      modifies shadows.Parts()
      ensures Valid() && Queues() == old(Queues()) && old(Memory()) <= Memory()
      ensures rightType <==> link.textual && (link.sameHost ==> link.allowed)
      ensures sameHost <==> link.textual && link.sameHost
      ensures isNew <==> Queueable(link) && link.localstr !in old(Memory())
      ensures if Queueable(link) then link.localstr in Memory() && link.localstr in universe else Memory() == old(Memory())
      ensures isNew ==> !Listed(Queues(), link.localstr) && link.localstr !in popped
      ensures forall o | o in shadows.Parts() :: o in old(shadows.Parts()) || fresh(o)
    {
      hide Once, Listed, ShadowChain.Valid, ShadowChain.Remembers, Mosquito.Valid;
      rightType, sameHost, isNew := false, false, false;
      if !link.textual {
        return;
      }
      rightType := true;
      if link.sameHost {
        sameHost := true;
        if !link.allowed {
          rightType := false;
          return;
        }
        assert link in [link];
        isNew := Remember(link.localstr);
      }
    }

    /** Queues the new pages of this host; of other hosts, and of links that are no page, those asked for
        are noted. */
    method CollectURL(links: seq<Link>) returns (newURL: nat, outlinkSaved: nat)
      requires Valid() && Within(links, universe)
      modifies queBlink, queVisited, queUnvisit, shadows.Parts()
      ensures Valid() && newURL + outlinkSaved <= |links|
      ensures Spread(old(Reach()), Reach(), links, task.status.visited, newURL)
      ensures forall o | o in shadows.Parts() :: o in old(shadows.Parts()) || fresh(o)
    {
      hide Once, ShadowChain.Valid, ShadowChain.Remembers, Mosquito.Valid, Mosquito.Queues, Mosquito.Memory, Spread, Queueable;
      newURL, outlinkSaved := 0, 0;
      ghost var a := Reach();
      NothingSpread(a, task.status.visited);
      for i := 0 to |links|
        invariant Valid() && newURL + outlinkSaved <= i
        invariant Spread(a, Reach(), links[..i], task.status.visited, newURL)
        invariant forall o | o in shadows.Parts() :: o in old(shadows.Parts()) || fresh(o)
      {
        ghost var b := Reach();
        var queued, saved := Collect(links[i]);
        SpreadOn(a, b, Reach(), links[..i], links[i], task.status.visited, newURL, if queued then 1 else 0);
        assert links[..i + 1] == links[..i] + [links[i]];
        newURL := newURL + if queued then 1 else 0;
        outlinkSaved := outlinkSaved + if saved then 1 else 0;
      }
      assert links[..|links|] == links;
    }

    method Collect(link: Link) returns (queued: bool, saved: bool)
      requires Valid() && Within([link], universe)
      modifies queBlink, queVisited, queUnvisit, shadows.Parts()
      ensures Valid()
      ensures Spread(old(Reach()), Reach(), [link], task.status.visited, if queued then 1 else 0)
      ensures var t := Lookup(old(Queues().unvisit), link.localstr);
        if link.textual && link.sameHost then
          && !saved
          && (link.allowed && link.localstr !in old(Memory()) ==>
                queued && Queues() == Queued(old(Queues()), task, link.localstr))
          && (!(link.allowed && link.localstr !in old(Memory())) ==>
                && (queued <==> task.status.visited && t.Some? && t.value.status.unknown)
                && Queues() == if queued then MovedToBlink(old(Queues()), link.localstr, t.value) else old(Queues()))
        else
          !queued && Queues() == old(Queues()) && (saved <==> link.wanted && link.full !in old(Memory()))
      ensures forall o | o in shadows.Parts() :: o in old(shadows.Parts()) || fresh(o)
    {
      hide Once, Listed, ShadowChain.Valid, ShadowChain.Remembers, Agree, Spread, View, Distinct, HasKey;
      queued, saved := false, false;
      ghost var a := Reach();
      AllDistinct();
      var rightType, sameHost, isNew := Check(link);
      if sameHost {
        queued := InQue(link.localstr, isNew);
        if isNew {
          SpreadQueued(a.front, Queues(), task, link, a.memory, Memory());
        } else if queued {
          SpreadMoved(a.front, popped, Lookup(a.front.unvisit, link.localstr).value, link, a.memory, Memory());
        } else {
          SpreadNot(a, Reach(), link, task.status.visited);
        }
      } else {
        if link.wanted {
          saved := Remember(link.full);
        }
        SpreadNot(a, Reach(), link, task.status.visited);
      }
    }

    /** Remembers texts and counts the new ones. */
    method RememberAll(texts: seq<string>) returns (n: nat)
      requires Valid()
      modifies shadows.Parts()
      ensures Valid() && n <= |texts| && Queues() == old(Queues())
      ensures old(Memory()) <= Memory() && (forall t | t in texts :: t in Memory())
      ensures n == 0 <==> forall t | t in texts :: t in old(Memory())
      ensures forall o | o in shadows.Parts() :: o in old(shadows.Parts()) || fresh(o)
    {
      hide Mosquito.Valid, Mosquito.Queues, Mosquito.Memory, ShadowChain.Remembers, Listed;
      n := 0;
      for i := 0 to |texts|
        invariant Valid() && n <= i && Queues() == old(Queues())
        invariant old(Memory()) <= Memory() && forall j | 0 <= j < i :: texts[j] in Memory()
        invariant n == 0 ==> Memory() == old(Memory())
        invariant n > 0 ==> exists j :: 0 <= j < i && texts[j] !in old(Memory())
        invariant forall o | o in shadows.Parts() :: o in old(shadows.Parts()) || fresh(o)
      {
        var isNew := Remember(texts[i]);
        n := n + if isNew then 1 else 0;
      }
    }

    /** What a page brings. */
    method Parse(content: Content) returns (page: PageStatus)
      requires Valid() && Within(LinksOf(content), universe)
      modifies queBlink, queVisited, queUnvisit, shadows.Parts()
      ensures Valid() && page.getPage
      ensures Spread(old(Reach()), Reach(), LinksOf(content), task.status.visited, page.newURL)
      ensures page.newScript <==> content.Script? && content.body !in old(Memory())
      ensures page.newPlain <==> content.Plain? && content.body !in old(Memory())
      ensures content.Script? || content.Plain? ==> content.body in Memory()
      ensures content.Html? ==> forall t | t in content.anchors || t in content.paragraphs :: t in Memory()
      ensures !content.Html? ==> page.newAnchor == 0 && page.newParagraph == 0
      ensures forall o | o in shadows.Parts() :: o in old(shadows.Parts()) || fresh(o)
    {
      hide Mosquito.Valid, Mosquito.Queues, Mosquito.Memory, ShadowChain.Remembers, Listed, Spread;
      var newURL, newAnchor, newParagraph, saved, newScript, newPlain := 0, 0, 0, 0, false, false;
      ghost var a := Reach();
      NothingSpread(a, task.status.visited);
      match content {
        case Moved(location) =>
          newURL, saved := CollectURL([location]);
        case Script(body) =>
          newScript := Remember(body);
          MemoryGrown(a, a, Reach(), [], task.status.visited, 0);
        case Plain(body) =>
          newPlain := Remember(body);
          MemoryGrown(a, a, Reach(), [], task.status.visited, 0);
        case Html(links, anchors, paragraphs) =>
          newURL, saved := CollectURL(links);
          ghost var b := Reach();
          newAnchor := RememberAll(anchors);
          newParagraph := RememberAll(paragraphs);
          MemoryGrown(a, b, Reach(), links, task.status.visited, newURL);
        case Opaque =>
      }
      page := PageStatus(true, newURL, newAnchor, newParagraph, saved, newScript, newPlain);
    }

    /** Fills the queues: each page once, with a status fit for crawling; a page from elsewhere only if it
        is not remembered.  `clean` drops session numbers from an address, `allow` is robots.txt. */
    method LoadEnv(tasks: seq<TaskState>, clean: string -> string, allow: string -> bool)
      requires Valid() && popped == [] && forall t | t in tasks :: clean(t.localstr) in universe
      modifies queBlink, queVisited, queUnvisit, shadows.Parts()
      ensures Valid()
      ensures forall t | t in tasks && allow(clean(t.localstr)) && Clean(t) :: clean(t.localstr) in Memory()
      ensures forall t | t in tasks && allow(clean(t.localstr)) && Clean(t) && !t.status.unknown ::
        Listed(Queues(), clean(t.localstr))
      ensures forall k | Listed(Queues(), k) && !old(Listed(Queues(), k)) ::
        exists t :: t in tasks && clean(t.localstr) == k && allow(k) && Clean(t) && (t.status.unknown ==> k !in old(Memory()))
    {
      hide Mosquito.Valid, Mosquito.Queues, Mosquito.Memory, Listed;
      for i := 0 to |tasks|
        invariant Valid() && popped == [] && old(Memory()) <= Memory()
        invariant forall t | t in tasks[..i] && allow(clean(t.localstr)) && Clean(t) :: clean(t.localstr) in Memory()
        invariant forall t | t in tasks[..i] && allow(clean(t.localstr)) && Clean(t) && !t.status.unknown ::
          Listed(Queues(), clean(t.localstr))
        invariant forall k | Listed(Queues(), k) && !old(Listed(Queues(), k)) ::
          exists t :: t in tasks[..i] && clean(t.localstr) == k && allow(k) && Clean(t) && (t.status.unknown ==> k !in old(Memory()))
        invariant forall o | o in shadows.Parts() :: o in old(shadows.Parts()) || fresh(o)
      {
        var t := tasks[i].(localstr := clean(tasks[i].localstr));
        LoadedLists(Queues(), t, allow(t.localstr), t.localstr in Memory());
        LoadTask(t, allow);
        assert tasks[..i + 1] == tasks[..i] + [tasks[i]];
      }
      assert tasks[..|tasks|] == tasks;
    }

    method HasTask(key: string) returns (queued: bool)
      requires Valid()
      ensures queued <==> Listed(Queues(), key)
    {
      hide Once, ShadowChain.Valid, ShadowChain.Remembers, Agree, Distinct, HasKey, View;
      var blinking := queBlink.Find(key);
      var visited := queVisited.Find(key);
      var unvisited := queUnvisit.Find(key);
      ListedWhere(Queues(), key);
      queued := blinking.Some? || visited.Some? || unvisited.Some?;
    }

    method LoadTask(loaded: TaskState, allow: string -> bool)
      requires Valid() && popped == [] && loaded.localstr in universe
      modifies queBlink, queVisited, queUnvisit, shadows.Parts()
      ensures Valid() && old(Memory()) <= Memory()
      ensures Queues() == Loaded(old(Queues()), loaded, allow(loaded.localstr), loaded.localstr in old(Memory()))
      ensures allow(loaded.localstr) && Clean(loaded) ==> loaded.localstr in Memory()
      ensures forall o | o in shadows.Parts() :: o in old(shadows.Parts()) || fresh(o)
    {
      hide Once, Listed, ShadowChain.Valid, ShadowChain.Remembers, Agree, Distinct, HasKey, View;
      var t, key := loaded, loaded.localstr;
      if !allow(key) {
        return;
      }
      var queued := HasTask(key);
      if queued {
        return;
      }
      if t.status.stale || t.status.bad || t.status.deleted {
        return;
      }
      if t.status.unknown {
        var isNew := Remember(key);
        if !isNew {
          return;
        }
        t := t.(status := t.status.(visited := false, unknown := false));
      }
      var _ := Remember(key);
      Enqueue(t);
    }

    method Enqueue(t: TaskState)
      requires Valid() && Clean(t) && !t.status.unknown && !Listed(Queues(), t.localstr) && popped == []
      requires shadows.Remembers(t.localstr) && t.localstr in universe
      modifies queBlink, queVisited, queUnvisit
      ensures Valid() && Queues() == Enqueued(old(Queues()), t)
    {
      hide Once, Distinct, ShadowChain.Valid, ShadowChain.Remembers, HasKey, Agree, View;
      ghost var f := Queues();
      if t.status.visited {
        var _ := queVisited.PushBack(t.localstr, t);
      } else if t.status.blink {
        var _ := queBlink.PushBack(t.localstr, t);
      } else {
        var _ := queUnvisit.PushBack(t.localstr, t);
      }
      PushOnce(f, popped, Queues(), t.localstr, t);
    }

    /** Three tries to get a page; the first page of all decides whether there is a server. */
    method Fetch(reply: Reply) returns (r: FetchResult)
      modifies this`tries, this`totalRetry, this`nfetch, this`contFetchFailure
      ensures tries == old(tries) + 1 && nfetch == old(nfetch) + 1 && totalRetry == old(totalRetry) + reply.retries
      ensures r == RequestOK <==> reply.arrived
      ensures r == ServerFailure <==> !reply.arrived && old(nfetch) == 0
      ensures contFetchFailure == if reply.arrived then 0 else old(contFetchFailure) + 1
      ensures r == ServerDOS <==> !reply.arrived && old(nfetch) > 0 && contFetchFailure >= 3
      ensures r != ServerBusy
    {
      tries := tries + 1;
      totalRetry := totalRetry + reply.retries;
      nfetch := nfetch + 1;
      if reply.arrived {
        contFetchFailure := 0;
        return RequestOK;
      }
      contFetchFailure := contFetchFailure + 1;
      if nfetch == 1 {
        return ServerFailure;
      }
      if contFetchFailure >= 3 {
        return ServerDOS;
      }
      r := RequestFailure;
    }

    /** The page has arrived; the assertion is the one of `reschedule`. */
    method Answer(reply: Reply) returns (page: PageStatus)
      requires Valid() && Live(task) && Within(LinksOf(reply.content), universe) && reply.arrived
      modifies this`task, this`fetchResult, this`contPageError, this`gets, this`oldChanged,
               queBlink, queVisited, queUnvisit, shadows.Parts()
      ensures Valid() && popped == old(popped)
      ensures task == Treated(old(task), reply, page) && (page.getPage <==> Readable(reply))
      ensures if Readable(reply) then
          Spread(old(Reach()), Reach(), LinksOf(reply.content), old(task).status.visited, page.newURL)
        else Reach() == old(Reach())
      ensures gets == old(gets) + (if Readable(reply) && !old(task).status.visited then 1 else 0)
      ensures oldChanged == old(oldChanged) + (if old(task).status.visited && NewContentNum(page) > 0 then 1 else 0)
      ensures contPageError == (if Readable(reply) then 0 else old(contPageError) + if reply.status == PageError then 1 else 0)
      ensures fetchResult == if reply.status == PageError && old(contPageError) > 20 then ServerDOS else old(fetchResult)
      ensures forall o | o in shadows.Parts() :: o in old(shadows.Parts()) || fresh(o)
    {
      hide Mosquito.Valid, Mosquito.Queues, Mosquito.Memory, ShadowChain.Remembers, Listed, Spread;
      page := NO_PAGE;
      if reply.status == PageUnwanted || reply.status == PageBad {
        task := task.(status := task.status.(bad := true));
      } else if reply.status == PageError {
        if contPageError > 20 {
          fetchResult := ServerDOS;
        }
        contPageError := contPageError + 1;
        assert Live(task);
        task := Rescheduled(task, NO_PAGE, reply.random);
      } else if reply.status == PageNotFound || reply.status == PageGone {
        task := task.(status := task.status.(deleted := true));
      } else {
        page := ReadPage(reply);
      }
    }

    method ReadPage(reply: Reply) returns (page: PageStatus)
      requires Valid() && Live(task) && Within(LinksOf(reply.content), universe)
      modifies this`task, this`contPageError, this`gets, this`oldChanged,
               queBlink, queVisited, queUnvisit, shadows.Parts()
      ensures Valid() && popped == old(popped)
      ensures task == Rescheduled(old(task), page, reply.random) && page.getPage && contPageError == 0
      ensures Spread(old(Reach()), Reach(), LinksOf(reply.content), old(task).status.visited, page.newURL)
      ensures gets == old(gets) + (if old(task).status.visited then 0 else 1)
      ensures oldChanged == old(oldChanged) + (if old(task).status.visited && NewContentNum(page) > 0 then 1 else 0)
      ensures forall o | o in shadows.Parts() :: o in old(shadows.Parts()) || fresh(o)
    {
      hide Mosquito.Valid, Mosquito.Queues, Mosquito.Memory, ShadowChain.Remembers, Listed, Spread;
      if !task.status.visited {
        gets := gets + 1;
      }
      contPageError := 0;
      NotThis();
      page := Parse(reply.content);
      NotThis();
      if NewContentNum(page) > 0 && task.status.visited {
        oldChanged := oldChanged + 1;
      }
      assert Live(task);
      task := Rescheduled(task, page, reply.random);
    }

    /** The crawler is no part of its memory. */
    lemma NotThis()
      requires Valid()
      ensures (this as object) !in shadows.Parts()
    {
    }

    /** A ready task is visited. */
    method Attempt(reply: Reply) returns (page: PageStatus)
      requires Valid() && Live(task) && Within(LinksOf(reply.content), universe)
      modifies this`task, this`fetchResult, this`tries, this`totalRetry, this`nfetch, this`contFetchFailure,
               this`contPageError, this`gets, this`oldChanged, queBlink, queVisited, queUnvisit, shadows.Parts()
      ensures Valid() && popped == old(popped)
      ensures task == Treated(old(task), reply, page) && (page.getPage <==> Readable(reply))
      ensures if Readable(reply) then
          Spread(old(Reach()), Reach(), LinksOf(reply.content), old(task).status.visited, page.newURL)
        else Reach() == old(Reach())
      ensures tries == old(tries) + 1
      ensures gets == old(gets) + (if Readable(reply) && !old(task).status.visited then 1 else 0)
      ensures oldChanged == old(oldChanged) + (if old(task).status.visited && NewContentNum(page) > 0 then 1 else 0)
      ensures fetchResult == if reply.arrived then
          if reply.status == PageError && old(contPageError) > 20 then ServerDOS else RequestOK
        else if old(nfetch) == 0 then ServerFailure
        else if old(contFetchFailure) >= 2 then ServerDOS else RequestFailure
      ensures forall o | o in shadows.Parts() :: o in old(shadows.Parts()) || fresh(o)
    {
      hide Mosquito.Valid, Mosquito.Queues, Mosquito.Memory, ShadowChain.Remembers, Listed, Spread, Rescheduled;
      page := NO_PAGE;
      fetchResult := Fetch(reply);
      if fetchResult != RequestOK {
        assert Live(task);
        task := Rescheduled(task, NO_PAGE, reply.random);
        return;
      }
      page := Answer(reply);
    }

    /** The task is visited, or put off when it is not ready or the crawl has had enough.  Wherever it is
        asked about, it is neither stale, bad nor unknown, as `isReady` and `reschedule` assert. */
    method Visit(reply: Reply) returns (page: PageStatus)
      requires Valid() && Live(task) && Within(LinksOf(reply.content), universe)
      modifies this`task, this`fetchResult, this`tries, this`totalRetry, this`nfetch, this`contFetchFailure,
               this`contPageError, this`gets, this`oldChanged, queBlink, queVisited, queUnvisit, shadows.Parts()
      ensures Valid() && popped == old(popped)
      ensures var t := old(task);
        if old(Enough()) || !Ready(t) then
          && task == t.(waited := t.waited + 1) && Reach() == old(Reach())
          && tries == old(tries) && gets == old(gets) && oldChanged == old(oldChanged)
          && fetchResult == (if old(tries) >= npages * 10 then ServerBusy
                             else if old(totalRetry) > 20 then ServerDOS else old(fetchResult))
        else
          && task == Treated(t, reply, page) && (page.getPage <==> Readable(reply))
          && (if Readable(reply) then
                Spread(old(Reach()), Reach(), LinksOf(reply.content), t.status.visited, page.newURL)
              else Reach() == old(Reach()))
          && tries == old(tries) + 1
          && gets == old(gets) + (if Readable(reply) && !t.status.visited then 1 else 0)
          && oldChanged == old(oldChanged) + (if t.status.visited && NewContentNum(page) > 0 then 1 else 0)
          && fetchResult == (if reply.arrived then
                               if reply.status == PageError && old(contPageError) > 20 then ServerDOS else RequestOK
                             else if old(nfetch) == 0 then ServerFailure
                             else if old(contFetchFailure) >= 2 then ServerDOS else RequestFailure)
      ensures forall o | o in shadows.Parts() :: o in old(shadows.Parts()) || fresh(o)
    {
      hide Mosquito.Valid, Mosquito.Queues, Mosquito.Memory, ShadowChain.Remembers, Listed, Spread, Rescheduled;
      page := NO_PAGE;
      if totalRetry > 20 {
        fetchResult := ServerDOS;
      }
      if tries >= npages * 10 {
        fetchResult := ServerBusy;
      }
      assert Live(task);
      if !Ready(task) || gets + oldChanged >= npages || fetchResult == ServerBusy || fetchResult == ServerDOS {
        task := task.(waited := task.waited + 1);
        return;
      }
      page := Attempt(reply);
    }

    /** Whatever a turn makes of a task, it stays visited and keeps its name. */
    lemma StaysVisited(t: TaskState, reply: Reply, page: PageStatus)
      ensures Treated(t, reply, page).localstr == t.localstr
      ensures t.status.visited ==> Treated(t, reply, page).status.visited
    {
    }

    lemma PoppedBound()
      requires Valid()
      ensures NoRepeat(popped) && (forall k | k in popped :: k in universe) && |popped| <= |universe|
    {
      hide Listed, OneQueue, TasksFine;
      NoRepeatSize(popped, universe);
    }

    /** One task from its visit to its place in the next turn; none is lost. */
    method Turn(reply: Reply)
      requires Valid() && hub.Open() && Live(task) && !task.status.deleted && Within(LinksOf(reply.content), universe)
      modifies this`task, this`fetchResult, this`tries, this`totalRetry, this`nfetch, this`contFetchFailure,
               this`contPageError, this`gets, this`oldChanged, queBlink, queVisited, queUnvisit, shadows.Parts(), hub
      ensures Valid() && hub.Open() && popped == old(popped) && task.localstr == old(task).localstr
      ensures hub.all == old(hub.all) + multiset{task} && FateOf(task, old(task)) != Lost
      ensures hub.Kept() == Added(old(hub.Kept()), FateOf(task, old(task)), task)
      ensures forall k | old(Listed(Queues(), k)) :: Listed(Queues(), k)
      ensures old(tries) <= npages * 10 ==> tries <= npages * 10
      ensures old(gets + oldChanged) <= npages ==> gets + oldChanged <= npages
      ensures forall o | o in shadows.Parts() :: o in old(shadows.Parts()) || fresh(o)
    {
      hide ShadowChain.Valid, ShadowChain.Remembers, Once, Listed, InPlace, Agree, ActiveTaskFile.Valid, Joined, Rescheduled, Memory;
      var origin := task;
      var page := Visit(reply);
      StaysVisited(origin, reply, page);
      LostExactly(task, origin);
      hub.Put(task, origin);
    }

    /** Every page that was taken was put back, but for the one at hand. */
    ghost predicate AtHand(more: bool)
      reads this, hub, queBlink, queVisited, queUnvisit
    {
      && (more ==> popped != [] && popped[|popped| - 1] == task.localstr && Live(task) && !task.status.deleted)
      && PutBack(hub.all, popped[..|popped| - if more then 1 else 0])
      && (!more ==> Queues() == Front([], [], []))
    }

    /** Takes the first page of all. */
    method Start() returns (more: bool)
      requires Valid() && popped == [] && hub.all == multiset{}
      modifies this`task, this`popped, queBlink, queVisited, queUnvisit
      ensures Valid() && AtHand(more)
      ensures forall k | old(Listed(Queues(), k)) :: k in popped || Listed(Queues(), k)
    {
      hide Mosquito.Valid, Mosquito.Queues, ShadowChain.Remembers, Once, Listed, PutBack, PoppedFrom;
      NothingBack();
      more := GetTask();
      assert popped[..|popped| - if more then 1 else 0] == [];
    }

    /** A turn for the page at hand; then the next one is at hand. */
    method Proceed(reply: Reply) returns (more: bool)
      requires Valid() && hub.Open() && AtHand(true) && Within(LinksOf(reply.content), universe)
      requires tries <= npages * 10 && gets + oldChanged <= npages
      modifies this, queBlink, queVisited, queUnvisit, shadows.Parts(), hub
      ensures Valid() && hub.Open() && AtHand(more)
      ensures old(popped) <= popped && |popped| == |old(popped)| + if more then 1 else 0
      ensures tries <= npages * 10 && gets + oldChanged <= npages
      ensures forall k | old(Listed(Queues(), k)) :: k in popped || Listed(Queues(), k)
      ensures forall o | o in shadows.Parts() :: o in old(shadows.Parts()) || fresh(o)
    {
      hide Mosquito.Queues, Mosquito.Valid, ActiveTaskFile.Open, ActiveTaskFile.Valid, NoRepeat, Joined, Within, ShadowChain.Valid,
        ShadowChain.Remembers, Once, Listed, QueuesValid, PutBack, FateOf, Added, PoppedFrom;
      ghost var done, all := popped, hub.all;
      Turn(reply);
      assert done[..|done| - 1] + [task.localstr] == done;
      OneMoreBack(all, done[..|done| - 1], task);
      assert PutBack(hub.all, done);
      more := GetTask();
      assert popped[..|popped| - if more then 1 else 0] == done;
    }

    /** A whole crawl against any server.  It ends, as every page is taken at most once; every page that is
        ever queued is taken and put back exactly once, unless a dead server is noticed, which costs the page
        at hand; and no more than `npages` pages are new or changed. */
    method Run(world: string -> Reply, resolved: bool)
      requires Valid() && hub.Open() && popped == [] && hub.all == multiset{}
      requires tries <= npages * 10 && gets + oldChanged <= npages
      requires forall u | u in universe :: Within(LinksOf(world(u).content), universe)
      modifies this, queBlink, queVisited, queUnvisit, shadows.Parts(), hub
      ensures Valid() && NoRepeat(popped) && forall k | k in popped :: k in universe
      ensures fetchResult != ServerFailure ==> Queues() == Front([], [], [])
      ensures forall k | old(Listed(Queues(), k)) :: k in popped || Listed(Queues(), k)
      ensures PutBack(hub.all, popped) ||
        (fetchResult == ServerFailure && popped != [] && PutBack(hub.all, popped[..|popped| - 1]))
      ensures hub.Valid() && Joined(hub.Kept()) == []
      ensures tries <= npages * 10 && gets + oldChanged <= npages
    {
      hide Mosquito.Queues, Mosquito.Valid, ActiveTaskFile.Open, ActiveTaskFile.Valid, NoRepeat, Joined, Within, ShadowChain.Valid,
        ShadowChain.Remembers, Once, Listed, QueuesValid, PutBack;
      if (|queBlink.list| > 0 || |queVisited.list| > 0 || |queUnvisit.list| > 0) && !resolved {
        fetchResult := ServerFailure;
      }
      totalRetry := 0;
      var more := Start();
      PoppedBound();
      while more
        invariant Valid() && hub.Open() && AtHand(more) && |popped| <= |universe|
        invariant forall k | k in popped :: k in universe
        invariant forall k | old(Listed(Queues(), k)) :: k in popped || Listed(Queues(), k)
        invariant tries <= npages * 10 && gets + oldChanged <= npages
        invariant forall o | o in shadows.Parts() :: o in old(shadows.Parts()) || fresh(o)
        decreases |universe| - |popped|, more
      {
        if fetchResult == ServerFailure {
          break;
        }
        assert task.localstr in popped;
        more := Proceed(world(task.localstr));
        PoppedBound();
      }
      PoppedBound();
      assert !more ==> popped[..|popped|] == popped;
      CloseHub();
    }

    method CloseHub()
      requires Valid() && hub.Open()
      modifies hub
      ensures Valid() && hub.all == old(hub.all) && Queues() == old(Queues())
      ensures hub.Valid() && Joined(hub.Kept()) == []
    {
      hide ShadowChain.Valid, ShadowChain.Remembers, Once, Listed, Agree, Placed, Beyond, Joined, InPlace, ActiveTaskFile.Valid;
      hub.Close();
    }
  }

  lemma ListedWhere(f: Front, key: string)
    ensures Listed(f, key) <==> HasKey(f.blink, key) || HasKey(f.visited, key) || HasKey(f.unvisit, key)
  {
  }

  lemma NothingSpread(a: Extent, visited: bool)
    ensures Spread(a, a, [], visited, 0)
  {
  }

  /** A link that no queue takes. */
  lemma SpreadNot(a: Extent, b: Extent, link: Link, visited: bool)
    requires b.front == a.front && a.memory <= b.memory && (Queueable(link) ==> link.localstr in b.memory)
    ensures Spread(a, b, [link], visited, 0)
  {
  }

  /** What is remembered besides pages makes no difference. */
  lemma MemoryGrown(a: Extent, b: Extent, c: Extent, links: seq<Link>, visited: bool, n: nat)
    requires Spread(a, b, links, visited, n) && c.front == b.front && b.memory <= c.memory
    ensures Spread(a, c, links, visited, n)
  {
  }

  /** Where a new page goes. */
  ghost function Queued(f: Front, task: TaskState, key: string): Front {
    if task.status.visited then f.(blink := f.blink + [(key, NewTask(key, NEW_STATUS.(blink := true)))])
    else if task.status.blink then f.(unvisit := f.unvisit + [(key, NewTask(key, NEW_STATUS.(unknown := true)))])
    else f.(unvisit := f.unvisit + [(key, NewTask(key, NEW_STATUS))])
  }

  ghost function MovedToBlink(f: Front, key: string, t: TaskState): Front {
    f.(unvisit := Without(f.unvisit, key), blink := f.blink + [(key, t.(status := NEW_STATUS.(blink := true)))])
  }

  /** A page moves from one queue to another. */
  lemma MoveOnce(f: Front, popped: seq<string>, key: string, t: TaskState)
    requires Once(f, popped) && Distinct(f.unvisit) && Lookup(f.unvisit, key) == Some(t)
    ensures Once(MovedToBlink(f, key, t), popped) && !HasKey(f.blink, key)
    ensures forall k :: Listed(MovedToBlink(f, key, t), k) <==> Listed(f, k)
  {
    RemoveOnce(f, popped, key);
    var g := f.(unvisit := Without(f.unvisit, key));
    assert f.unvisit[Place(f.unvisit, key)] == (key, t);
    assert HasKey(f.unvisit, key) && Listed(f, key);
    PushOnce(g, popped, MovedToBlink(f, key, t), key, t.(status := NEW_STATUS.(blink := true)));
  }

  lemma Some1(f: Front, g: Front, key: string, t: TaskState)
    requires PoppedFrom(f, g, key, t)
    ensures f != Front([], [], [])
  {
  }
}
