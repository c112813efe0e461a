/** The accounts of the king of src/crawler/king.cpp: every site has one owner for ever, and every URL message is
    kept in one place until it is with the owner of its site. */
module Realms {
  import opened LineMessages
  import opened SpillPools
  import opened QueenBoxes
  import LinePool

  /** A message whose site has no owner yet. */
  datatype Pending = Pending(site: string, msg: string)

  /** The URL that a message is about. */
  function Target(msg: string): string {
    match Meant(msg)
    case Understood(Refer(_, url, _)) => url
    case Understood(Redirect(_, target)) => target
    case _ => ""
  }

  function Texts(buf: seq<Pending>): seq<string> {
    seq(|buf|, i requires 0 <= i < |buf| => buf[i].msg)
  }

  type Mail = multiset<string>

  /** What the king and his boxes hold: site owners, messages without an owner, his pool, and what has become of all
      accepted messages: handed over, refused by a full pool, or not given back by the pool as they were; and the
      lines that it gave instead and that he took for messages.  `spilled` says whether anything ever went into the
      pool.  While the messages of a site go over to its new owner, `moving` is that site. */
  datatype Realm = Realm(owner: map<string, string>, moving: string, buf: seq<Pending>, pool: Pool,
                         received: map<string, Mail>, accepted: Mail, handed: Mail, lost: Mail, spoiled: Mail, strays: Mail,
                         spilled: bool)

  function Inbox(received: map<string, Mail>, queen: string): Mail {
    if queen in received then received[queen] else multiset{}
  }

  /** A message without an owner is of a site without one. */
  ghost predicate PendingFine(p: Pending, owner: map<string, string>, moving: string, siteOf: string -> string) {
    p.site == siteOf(Target(p.msg)) && p.site != "" && (p.site !in owner || p.site == moving) && Postable(p.msg)
  }

  ghost predicate BufferFine(buf: seq<Pending>, owner: map<string, string>, moving: string, siteOf: string -> string) {
    forall p | p in buf :: PendingFine(p, owner, moving, siteOf)
  }

  ghost predicate PoolFine(pool: Pool, lost: Mail, siteOf: string -> string) {
    (forall m | m in pool.records.queue :: Postable(m) && siteOf(Target(m)) != "") && |lost| == pool.records.discarded
  }

  /** What was handed to queens is in the box of the owner of its site, and nowhere else. */
  ghost predicate OwnersHave(owner: map<string, string>, received: map<string, Mail>, handed: Mail, siteOf: string -> string) {
    && (forall q, m | q in received && m in received[q] ::
          siteOf(Target(m)) in owner && owner[siteOf(Target(m))] == q)
    && forall m :: handed[m] == OwnersShare(owner, received, m, siteOf)
  }

  ghost function OwnersShare(owner: map<string, string>, received: map<string, Mail>, m: string, siteOf: string -> string): nat {
    if siteOf(Target(m)) in owner then Inbox(received, owner[siteOf(Target(m))])[m] else 0
  }

  /** The messages in the buffer, in the pool, with the queens, and those lost to a full or damaged pool. */
  function Everywhere(r: Realm): Mail {
    multiset(Texts(r.buf)) + Held(r.pool) + r.handed + r.lost + r.spoiled
  }

  ghost predicate Fine(r: Realm, siteOf: string -> string) {
    && BufferFine(r.buf, r.owner, r.moving, siteOf) && PoolFine(r.pool, r.lost, siteOf)
    && OwnersHave(r.owner, r.received, r.handed, siteOf)
  }

  /** Nothing is spoiled unless a message was accepted that is too long for a pool. */
  ghost predicate Unharmed(r: Realm) {
    (forall m | m in r.accepted :: Keepable(m)) ==> r.spoiled == multiset{} && r.strays == multiset{} && !r.pool.damaged
  }

  /** A pool that nothing went into is empty, and nothing came to harm there. */
  ghost predicate Fresh(r: Realm) {
    !r.spilled ==> r.pool.records.queue == [] && r.lost == multiset{} && r.spoiled == multiset{} && r.strays == multiset{}
  }

  /** Every accepted message is in exactly one place, and so is every stray one. */
  ghost predicate Ordered(r: Realm, siteOf: string -> string) {
    Fine(r, siteOf) && Unharmed(r) && Fresh(r) && r.accepted + r.strays == Everywhere(r)
  }

  lemma NewOrdered(r: Realm, siteOf: string -> string)
    requires r.buf == [] && r.pool.records.queue == [] && r.pool.records.discarded == 0 && !r.pool.damaged && r.received == map[]
    requires r.accepted == r.handed == r.lost == r.spoiled == r.strays == multiset{}
    ensures Ordered(r, siteOf)
  {
    hide Target, Postable;
  }

  // ---------------------------------------------------------------------------------------------
  // The moves

  function Waiting(r: Realm, site: string, m: string): Realm {
    r.(buf := r.buf + [Pending(site, m)])
  }

  function Handed(r: Realm, q: string, m: string): Realm {
    r.(received := r.received[q := Inbox(r.received, q) + multiset{m}], handed := r.handed + multiset{m})
  }

  /** One message is out of its place and has to go somewhere. */
  ghost predicate OneInHand(r: Realm, m: string, siteOf: string -> string) {
    && Fine(r, siteOf) && Unharmed(r) && Fresh(r) && r.accepted + r.strays == Everywhere(r) + multiset{m}
    && Postable(m) && siteOf(Target(m)) != ""
  }

  lemma InHand(r: Realm, m: string, siteOf: string -> string)
    requires OneInHand(r, m, siteOf)
    ensures Postable(m) && IsUrl(m) && siteOf(Target(m)) != ""
  {
  }

  lemma Accept(r: Realm, m: string, siteOf: string -> string)
    requires Ordered(r, siteOf) && Postable(m) && siteOf(Target(m)) != ""
    ensures OneInHand(r.(accepted := r.accepted + multiset{m}), m, siteOf)
  {
    hide Postable, Keepable, BufferFine, PoolFine, OwnersHave, Everywhere;
    var s := r.(accepted := r.accepted + multiset{m});
    assert Everywhere(s) == Everywhere(r) by { EverywhereSame(r, s); }
    assert s.accepted + s.strays == (r.accepted + r.strays) + multiset{m};
    assert forall x | x in r.accepted :: x in s.accepted;
  }

  lemma EverywhereSame(r: Realm, s: Realm)
    requires s == r.(accepted := s.accepted, strays := s.strays)
    ensures Everywhere(s) == Everywhere(r)
  {
  }

  /** A line that a pool gave instead of a message, and that looks like one, is treated like one. */
  lemma Stray(r: Realm, m: string, siteOf: string -> string)
    requires Ordered(r, siteOf) && r.spilled && !(forall x | x in r.accepted :: Keepable(x))
    requires Postable(m) && siteOf(Target(m)) != ""
    ensures OneInHand(r.(strays := r.strays + multiset{m}), m, siteOf)
  {
    hide Postable, Keepable, BufferFine, PoolFine, OwnersHave, Everywhere;
    var s := r.(strays := r.strays + multiset{m});
    EverywhereSame(r, s);
    assert s.accepted + s.strays == (r.accepted + r.strays) + multiset{m};
  }

  lemma Sum5(a: Mail, b: Mail, c: Mail, d: Mail, e: Mail, x: Mail)
    ensures a + b + c + d + e + x == (a + x) + b + c + d + e == a + (b + x) + c + d + e == a + b + (c + x) + d + e
  {
    assert (a + x) + b + c + d + e == (a + b + c + d + e) + x;
    assert a + (b + x) + c + d + e == (a + b + c + d + e) + x;
    assert a + b + (c + x) + d + e == (a + b + c + d + e) + x;
  }

  lemma OneMoreText(buf: seq<Pending>, p: Pending)
    ensures multiset(Texts(buf + [p])) == multiset(Texts(buf)) + multiset{p.msg}
  {
    assert Texts(buf + [p]) == Texts(buf) + [p.msg];
  }

  lemma Wait(r: Realm, m: string, siteOf: string -> string)
    requires OneInHand(r, m, siteOf) && siteOf(Target(m)) !in r.owner
    ensures Ordered(Waiting(r, siteOf(Target(m)), m), siteOf)
  {
    hide Postable, Keepable, PoolFine, OwnersHave, Texts, Target;
    OneMoreText(r.buf, Pending(siteOf(Target(m)), m));
    Sum5(multiset(Texts(r.buf)), Held(r.pool), r.handed, r.lost, r.spoiled, multiset{m});
  }

  lemma OwnerGets(owner: map<string, string>, received: map<string, Mail>, handed: Mail, m: string, siteOf: string -> string)
    requires OwnersHave(owner, received, handed, siteOf) && siteOf(Target(m)) in owner
    ensures var q := owner[siteOf(Target(m))];
      OwnersHave(owner, received[q := Inbox(received, q) + multiset{m}], handed + multiset{m}, siteOf)
  {
    hide Target;
  }

  lemma HandOver(r: Realm, m: string, siteOf: string -> string)
    requires OneInHand(r, m, siteOf) && siteOf(Target(m)) in r.owner
    ensures Ordered(Handed(r, r.owner[siteOf(Target(m))], m), siteOf)
  {
    hide Postable, Keepable, PoolFine, BufferFine, OwnersHave, Texts, Target;
    OwnerGets(r.owner, r.received, r.handed, m, siteOf);
    Sum5(multiset(Texts(r.buf)), Held(r.pool), r.handed, r.lost, r.spoiled, multiset{m});
  }

  function FromBuffer(r: Realm, k: nat): Realm
    requires k < |r.buf|
  {
    r.(buf := r.buf[..k] + r.buf[k + 1..])
  }

  lemma OneTextLess(buf: seq<Pending>, k: nat)
    requires k < |buf|
    ensures multiset(Texts(buf)) == multiset(Texts(buf[..k] + buf[k + 1..])) + multiset{buf[k].msg}
    ensures forall p | p in buf[..k] + buf[k + 1..] :: p in buf
  {
    var now := buf[..k] + buf[k + 1..];
    assert Texts(buf) == Texts(buf)[..k] + [buf[k].msg] + Texts(buf)[k + 1..];
    assert Texts(now) == Texts(buf)[..k] + Texts(buf)[k + 1..];
  }

  lemma TakeFromBuffer(r: Realm, k: nat, siteOf: string -> string)
    requires Ordered(r, siteOf) && k < |r.buf|
    ensures OneInHand(FromBuffer(r, k), r.buf[k].msg, siteOf)
  {
    hide Postable, Keepable, PoolFine, OwnersHave, Texts, Target;
    var s, m := FromBuffer(r, k), r.buf[k].msg;
    OneTextLess(r.buf, k);
    assert r.buf[k] in r.buf;
    Sum5(multiset(Texts(s.buf)), Held(r.pool), r.handed, r.lost, r.spoiled, multiset{m});
  }

  function IntoPool(r: Realm, m: string): Realm {
    r.(pool := Pushed(r.pool, m), lost := r.lost + Refusal(r.pool, m), spilled := true)
  }

  lemma PutIntoPool(r: Realm, m: string, siteOf: string -> string)
    requires OneInHand(r, m, siteOf)
    ensures Ordered(IntoPool(r, m), siteOf)
  {
    hide IsUrl, Keepable, Refusal, Pushed, OwnersHave, BufferFine, Texts, Target, Held;
    var s := IntoPool(r, m);
    PushOne(r.pool, m);
    PoolMove(multiset(Texts(r.buf)), Held(r.pool), r.handed, r.lost, r.spoiled, multiset{m}, Held(s.pool), Refusal(r.pool, m));
  }

  lemma PoolMove(a: Mail, p: Mail, h: Mail, l: Mail, e: Mail, x: Mail, q: Mail, r: Mail)
    requires q + r == p + x
    ensures a + p + h + l + e + x == a + q + h + (l + r) + e
  {
    forall y: string ensures (a + p + h + l + e + x)[y] == (a + q + h + (l + r) + e)[y] {
      assert (q + r)[y] == (p + x)[y];
    }
  }

  function FromPool(r: Realm): Realm
    requires Poppable(r.pool)
  {
    r.(pool := AfterPop(r.pool))
  }

  /** The oldest message comes back as it was. */
  lemma TakeFromPool(r: Realm, siteOf: string -> string)
    requires Ordered(r, siteOf) && Poppable(r.pool) && Whole(r.pool)
    ensures Read(r.pool) == [r.pool.records.queue[0]] && OneInHand(FromPool(r), r.pool.records.queue[0], siteOf)
  {
    hide Postable, Keepable, OwnersHave, BufferFine, Texts, Target, Held, AfterPop, Read, Gone;
    var s, m := FromPool(r), r.pool.records.queue[0];
    PopOne(r.pool);
    assert m in r.pool.records.queue;
    Sum5(multiset(Texts(r.buf)), Held(s.pool), r.handed, r.lost, r.spoiled, multiset{m});
  }

  /** It does not. */
  function Spoilt(r: Realm): Realm
    requires Poppable(r.pool)
  {
    r.(pool := AfterPop(r.pool), spoiled := r.spoiled + multiset(Gone(r.pool)))
  }

  lemma SpoilFromPool(r: Realm, siteOf: string -> string)
    requires Ordered(r, siteOf) && Poppable(r.pool) && !Whole(r.pool)
    ensures Ordered(Spoilt(r), siteOf) && r.spilled && !(forall x | x in r.accepted :: Keepable(x))
    ensures AllLines(Read(r.pool)) && |Read(r.pool)| <= 1
  {
    hide IsUrl, Keepable, OwnersHave, BufferFine, Texts, Target, AfterPop, Read, Gone;
    var s, h := Spoilt(r), r.pool.records.queue[0];
    PopOne(r.pool);
    assert h in Held(r.pool) && h in Everywhere(r);
    if forall x | x in r.accepted :: Keepable(x) {
      assert false;
    }
    assert forall l | l in r.pool.records.queue :: Postable(l) && OneLine(l);
    ReadLines(r.pool);
    assert multiset(Texts(r.buf)) + (Held(s.pool) + multiset(Gone(r.pool))) + r.handed + r.lost + r.spoiled
        == multiset(Texts(r.buf)) + Held(s.pool) + r.handed + r.lost + (r.spoiled + multiset(Gone(r.pool)));
  }

  /** The message goes to the owner of its site, or waits for one. */
  function Routed(r: Realm, m: string, siteOf: string -> string): Realm {
    var site := siteOf(Target(m));
    if site in r.owner then Handed(r, r.owner[site], m) else Waiting(r, site, m)
  }

  /** A popped line finds its place if it is a URL message of a site. */
  function Returned(r: Realm, m: string, whole: bool, siteOf: string -> string): Realm {
    if !IsUrl(m) || siteOf(Target(m)) == "" then r
    else Routed(if whole then r else r.(strays := r.strays + multiset{m}), m, siteOf)
  }

  /** One pop. */
  function TakenBack(r: Realm, siteOf: string -> string): Realm
    requires Poppable(r.pool)
  {
    var whole, read := Whole(r.pool), Read(r.pool);
    var s := if whole then FromPool(r) else Spoilt(r);
    if read == [] then s else Returned(s, read[0], whole, siteOf)
  }

  /** A line that is no URL message ends a refill. */
  predicate Stops(p: Pool)
    requires Poppable(p)
  {
    var read := Read(p); |read| == 1 && !IsUrl(read[0])
  }

  datatype Refilling = Refilling(realm: Realm, stop: bool)

  /** Up to n pops, one after the other. */
  function Refilled(r: Realm, n: nat, siteOf: string -> string): Refilling {
    if n == 0 then Refilling(r, false)
    else
      var before := Refilled(r, n - 1, siteOf);
      if before.stop || !Poppable(before.realm.pool) then before
      else Refilling(TakenBack(before.realm, siteOf), Stops(before.realm.pool))
  }

  lemma RefilledNext(r: Realm, n: nat, siteOf: string -> string)
    ensures Refilled(r, 0, siteOf) == Refilling(r, false)
    ensures var before := Refilled(r, n, siteOf);
      Refilled(r, n + 1, siteOf) ==
      if before.stop || !Poppable(before.realm.pool) then before
      else Refilling(TakenBack(before.realm, siteOf), Stops(before.realm.pool))
  {
  }

  lemma {:induction false} RefilledEnd(r: Realm, i: nat, n: nat, siteOf: string -> string)
    requires i <= n && (var before := Refilled(r, i, siteOf); before.stop || !Poppable(before.realm.pool))
    ensures Refilled(r, n, siteOf) == Refilled(r, i, siteOf)
    decreases n
  {
    hide Refilled;
    if i < n {
      RefilledEnd(r, i, n - 1, siteOf);
      RefilledNext(r, n - 1, siteOf);
    }
  }

  lemma FirstOwner(owner: map<string, string>, received: map<string, Mail>, handed: Mail, site: string, queen: string,
                   siteOf: string -> string)
    requires OwnersHave(owner, received, handed, siteOf) && site !in owner
    ensures OwnersHave(owner[site := queen], received, handed, siteOf)
  {
    hide Target;
    forall m ensures handed[m] == OwnersShare(owner[site := queen], received, m, siteOf) {
      assert siteOf(Target(m)) == site ==> Inbox(received, queen)[m] == 0;
    }
  }

  /** A site gets its first owner; its messages are to be handed over. */
  lemma Assigned(r: Realm, site: string, queen: string, siteOf: string -> string)
    requires Ordered(r, siteOf) && r.moving == "" && site !in r.owner
    ensures Ordered(r.(owner := r.owner[site := queen], moving := site), siteOf)
  {
    hide Postable, Keepable, Target, PoolFine, Texts, OwnersHave;
    FirstOwner(r.owner, r.received, r.handed, site, queen, siteOf);
  }

  lemma AllMoved(r: Realm, siteOf: string -> string)
    requires Ordered(r, siteOf) && forall p | p in r.buf :: p.site != r.moving
    ensures Ordered(r.(moving := ""), siteOf)
  {
    hide Postable, Keepable, Target, PoolFine, OwnersHave, Texts;
  }

  /** A new queen owns nothing yet. */
  lemma Joined(r: Realm, queen: string, siteOf: string -> string)
    requires Ordered(r, siteOf)
    ensures Ordered(r.(received := r.received[queen := Inbox(r.received, queen)]), siteOf)
  {
    hide Postable, Keepable, Target, BufferFine, PoolFine, OwnersHave, Texts;
    EmptyInbox(r.owner, r.received, r.handed, queen, siteOf);
  }

  lemma EmptyInbox(owner: map<string, string>, received: map<string, Mail>, handed: Mail, queen: string, siteOf: string -> string)
    requires OwnersHave(owner, received, handed, siteOf)
    ensures OwnersHave(owner, received[queen := Inbox(received, queen)], handed, siteOf)
  {
    hide Target;
  }

  // ---------------------------------------------------------------------------------------------
  // What order implies

  lemma SiteRight(r: Realm, p: Pending, siteOf: string -> string)
    requires Ordered(r, siteOf) && p in r.buf
    ensures p.site == siteOf(Target(p.msg)) && p.site != "" && Postable(p.msg)
  {
  }

  lemma Unowned(r: Realm, p: Pending, siteOf: string -> string)
    requires Ordered(r, siteOf) && p in r.buf && r.moving == ""
    ensures p.site !in r.owner && p.site != ""
  {
  }

  /** If no accepted message is too long for a pool, no message anywhere is, and the pool is sound. */
  lemma AllKept(r: Realm, siteOf: string -> string)
    requires Ordered(r, siteOf) && forall m | m in r.accepted :: Keepable(m)
    ensures !r.pool.damaged && AllKeepable(r.pool.records.queue)
    ensures forall p | p in r.buf :: p.msg in r.accepted && Keepable(p.msg)
  {
    hide Keepable, Postable, Target;
    forall m | m in r.pool.records.queue ensures Keepable(m) {
      assert m in Held(r.pool) && m in Everywhere(r);
    }
    forall p | p in r.buf ensures p.msg in r.accepted {
      var i :| 0 <= i < |r.buf| && r.buf[i] == p;
      assert Texts(r.buf)[i] == p.msg;
      assert p.msg in Everywhere(r);
    }
  }

  /** Where all messages are when none waits. */
  lemma NoneWaits(r: Realm, siteOf: string -> string)
    requires Ordered(r, siteOf) && r.buf == []
    ensures r.accepted + r.strays == Held(r.pool) + r.handed + r.lost + r.spoiled
    ensures (forall m | m in r.accepted :: Keepable(m)) ==> (r.accepted == r.handed + r.lost <==> r.pool.records.queue == [])
    ensures !r.spilled ==> r.accepted == r.handed
  {
    hide Fine, Keepable;
    assert multiset(Texts(r.buf)) == multiset{};
    if forall m | m in r.accepted :: Keepable(m) {
      assert r.accepted == r.accepted + r.strays;
      assert Held(r.pool) + r.handed + r.lost + r.spoiled == Held(r.pool) + (r.handed + r.lost);
      if r.pool.records.queue != [] {
        assert Held(r.pool)[r.pool.records.queue[0]] > 0;
      }
    }
  }

  lemma HandedToOwner(r: Realm, m: string, siteOf: string -> string)
    requires Ordered(r, siteOf) && m in r.handed
    ensures siteOf(Target(m)) in r.owner && r.owner[siteOf(Target(m))] in r.received
    ensures r.received[r.owner[siteOf(Target(m))]][m] == r.handed[m]
  {
    hide Target, Postable, Keepable;
    assert r.handed[m] == OwnersShare(r.owner, r.received, m, siteOf);
  }

  lemma OnlyOwnersHave(r: Realm, q: string, m: string, siteOf: string -> string)
    requires Ordered(r, siteOf) && q in r.received && m in r.received[q]
    ensures siteOf(Target(m)) in r.owner && r.owner[siteOf(Target(m))] == q && m in r.handed
  {
    hide Target, Postable, Keepable;
    assert r.handed[m] == OwnersShare(r.owner, r.received, m, siteOf);
  }

  /** What a refill takes out of a pool: the 500 oldest messages, or all if there are fewer. */
  function Oldest(p: Pool): seq<string> {
    if !p.open then [] else if |p.records.queue| <= BATCH then p.records.queue else p.records.queue[..BATCH]
  }

  /** The messages of sites without an owner. */
  function Ownerless(ms: seq<string>, owner: map<string, string>, siteOf: string -> string): seq<Pending> {
    if ms == [] then []
    else
      var m := ms[|ms| - 1];
      Ownerless(ms[..|ms| - 1], owner, siteOf) + (if siteOf(Target(m)) in owner then [] else [Pending(siteOf(Target(m)), m)])
  }

  lemma OwnerlessOne(m: string, owner: map<string, string>, siteOf: string -> string)
    ensures Ownerless([], owner, siteOf) == []
    ensures Ownerless([m], owner, siteOf) == if siteOf(Target(m)) in owner then [] else [Pending(siteOf(Target(m)), m)]
  {
    assert [m][..0] == [];
  }

  lemma OwnerlessMore(q: seq<string>, k: nat, owner: map<string, string>, siteOf: string -> string)
    requires k < |q|
    ensures Ownerless(q[..k + 1], owner, siteOf) == Ownerless(q[..k], owner, siteOf) + Ownerless([q[k]], owner, siteOf)
  {
    hide Target;
    assert q[..k + 1][..k] == q[..k];
    assert [q[k]][..0] == [];
  }

  function NewOwner(owner: map<string, string>, site: string, queen: string): map<string, string> {
    owner[site := queen]
  }

  /** At most one site, for which messages wait, gets an owner among the queens; no site changes its owner. */
  ghost predicate OwnersGrow(before: map<string, string>, buf: seq<Pending>, queens: set<string>, after: map<string, string>) {
    || after == before
    || exists p, queen :: p in buf && p.site !in before && queen in queens && after == NewOwner(before, p.site, queen)
  }

  lemma OwnersKept(owner: map<string, string>, buf: seq<Pending>, queens: set<string>)
    ensures OwnersGrow(owner, buf, queens, owner)
  {
  }

  lemma OwnerAdded(owner: map<string, string>, buf: seq<Pending>, queens: set<string>, p: Pending, queen: string)
    requires p in buf && p.site !in owner && queen in queens
    ensures NewOwner(owner, p.site, queen) == owner[p.site := queen] && OwnersGrow(owner, buf, queens, owner[p.site := queen])
  {
    assert NewOwner(owner, p.site, queen) == owner[p.site := queen];
  }
}
