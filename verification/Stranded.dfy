/** Messages that the king of src/crawler/king.cpp fails: a run that ends with some left in his pool, and one that
    is too long to come back from any pool. */
module StrandedMessages {
  import opened LineMessages
  import opened SpillPools
  import opened QueenBoxes
  import opened Realms
  import opened Kings
  import LinePool

  ghost predicate OnlyOne(accepted: Mail, m: string) {
    forall x | x in accepted :: x == m
  }

  /** The only queen so far, what she has said she can take, and whether she has asked for work. */
  ghost predicate OneQueen(king: King, free: int, asked: bool)
    reads king, king.Boxes()
  {
    && king.boxes.Keys == {"a"}
    && var box := king.boxes["a"];
    && box.fd == 1 && !box.group
    && (free > 0 ==> box.free == free && box.load == 1) && (asked ==> box.activeReq > 0)
  }

  /** Messages of one site are waiting for an owner. */
  ghost predicate Collecting(king: King, m: string, waiting: nat, pooled: nat)
    reads king
  {
    && !king.ended && king.groupTime == 0 && king.pool.open && king.site2Queen == map[]
    && OnlyOne(king.accepted, m) && |king.messageBuf| == waiting && |king.pool.records.queue| == pooled
  }

  ghost predicate Fine(king: King)
    reads king, king.Boxes()
  {
    king.Valid() && king.Calm()
  }

  lemma Common(king: King, free: int, asked: bool, m: string)
    requires OneQueen(king, free, asked) && OnlyOne(king.accepted, m) && Keepable(m) && king.groupTime == 0
    ensures king.Keeps() && king.Registered(1) && !king.GroupIsDue(0)
  {
    assert "a" in king.boxes;
  }

  method Arrive(king: King, m: string)
    requires Fine(king) && Collecting(king, m, 0, 0) && king.boxes == map[]
    modifies king
    ensures Fine(king) && Collecting(king, m, 0, 0) && OneQueen(king, 0, false) && fresh(king.Boxes())
    ensures king.messageBuf == old(king.messageBuf) && king.accepted == old(king.accepted)
  {
    hide King.Valid, King.Calm, King.Spare;
    assert king.BoxesOf("a") == {} && king.Boxes() == {};
    king.Hello(1, "a", false, 0);
  }

  method Report(king: King, m: string)
    requires Fine(king) && Collecting(king, m, 0, 0) && OneQueen(king, 0, false) && Keepable(m)
    modifies king, king.Boxes()
    ensures Fine(king) && Collecting(king, m, 0, 0) && OneQueen(king, 10, false) && king.Boxes() == old(king.Boxes())
  {
    hide King.Valid, King.Calm, King.Spare, OwnersGrow, Keepable;
    Common(king, 0, false, m);
    king.Load(1, 10, 1, 0);
  }

  method Ask(king: King, m: string)
    requires Fine(king) && Collecting(king, m, 0, 0) && OneQueen(king, 10, false) && Keepable(m)
    modifies king, king.Boxes()
    ensures Fine(king) && Collecting(king, m, 0, 0) && OneQueen(king, 10, true) && king.Boxes() == old(king.Boxes())
  {
    hide King.Valid, King.Calm, King.Spare, King.Registered, King.GroupIsDue, King.Room, King.Lessens, King.Controls, King.WorkFinished,
      QueenBox.Valid, OwnersGrow, Answered, Keepable, AtMost;
    Common(king, 10, false, m);
    var _ := king.Request(1, 1, 0);
    StillBusy(king);
  }

  /** One more reference; from 200001 on, 500 spill. */
  method ReferOnce(king: King, m: string, ghost waiting: nat, ghost pooled: nat)
    requires Fine(king) && Collecting(king, m, waiting, pooled) && OneQueen(king, 10, true)
    requires Postable(m) && Keepable(m) && king.siteOf(Target(m)) != ""
    requires pooled <= 200000 && (waiting + 1 >= BUFFER_LOW || pooled == 0)
    modifies king, king.Boxes()
    ensures Fine(king) && OneQueen(king, 10, true) && king.Boxes() == old(king.Boxes())
    ensures if waiting + 1 <= BUFFER_HIGH then Collecting(king, m, waiting + 1, pooled)
            else Collecting(king, m, waiting + 1 - BATCH, pooled + BATCH)
  {
    hide King.Valid, King.Calm, King.Spare, King.Registered, King.GroupIsDue, King.Controls, King.Referred, King.Kept, AtMost, QueenBox.Valid,
      King.Value, King.Boxes, OneQueen, Keepable, Postable, Target;
    Common(king, 10, true, m);
    RoomInPool(king, m);
    king.Parts();
    king.BoxesApart();
    ghost var r, boxes := king.Value(), king.boxes;
    king.Refer(1, m, 0);
    OneMore(king, r.(accepted := r.accepted + multiset{m}), boxes, m);
    SameQueen(king);
  }

  twostate predicate SameReport(b: QueenBox)
    reads b
  {
    b.fd == old(b.fd) && b.group == old(b.group) && b.free == old(b.free) && b.load == old(b.load) && b.activeReq == old(b.activeReq)
  }

  twostate lemma SameQueen(king: King)
    requires old(OneQueen(king, 10, true)) && king.Kept(old(king.boxes), old(king.Boxes())) && king.site2Queen == map[]
    requires forall b | b in old(king.Boxes()) :: SameReport(b)
    ensures OneQueen(king, 10, true) && king.Boxes() == old(king.Boxes())
  {
    assert "a" in king.boxes && old(king.boxes["a"]) in old(king.Boxes());
    assert SameReport(king.boxes["a"]);
  }

  /** What has become of the buffer and the pool. */
  lemma OneMore(king: King, r: Realm, boxes: map<string, QueenBox>, m: string)
    requires king.Referred(r, boxes, king.siteOf(Target(m)), m) && king.site2Queen == map[]
    requires Roomy(r.pool) && forall p | p in r.buf + [Pending(king.siteOf(Target(m)), m)] :: Keepable(p.msg)
    requires |r.buf| + 1 >= BUFFER_LOW || r.pool.records.queue == []
    ensures king.accepted == r.accepted && king.pool.open
    ensures if |r.buf| + 1 <= BUFFER_HIGH then |king.messageBuf| == |r.buf| + 1 && king.pool == r.pool
            else |king.messageBuf| == |r.buf| + 1 - BATCH && |king.pool.records.queue| == |r.pool.records.queue| + BATCH
  {
    hide Keepable, Target;
  }

  lemma RoomInPool(king: King, m: string)
    requires king.Valid() && king.Keeps() && king.pool.open && |king.pool.records.queue| <= 200000 && Keepable(m)
    ensures Roomy(king.pool) && forall p | p in king.messageBuf + [Pending(king.siteOf(Target(m)), m)] :: Keepable(p.msg)
  {
    hide Ordered, Keepable, King.BoxesFine;
    AllKept(king.Value(), king.siteOf);
  }

  method Collect(king: King, m: string)
    requires Fine(king) && Collecting(king, m, 0, 0) && OneQueen(king, 10, true)
    requires Postable(m) && Keepable(m) && king.siteOf(Target(m)) != ""
    modifies king, king.Boxes()
    ensures Fine(king) && Collecting(king, m, BUFFER_HIGH + 1 - BATCH, 2 * BATCH) && OneQueen(king, 10, true)
    ensures king.Boxes() == old(king.Boxes())
  {
    hide Fine, Collecting, OneQueen, Keepable, Postable, Target, King.Boxes;
    for i := 0 to BUFFER_HIGH
      invariant Fine(king) && Collecting(king, m, i, 0) && OneQueen(king, 10, true) && king.Boxes() == old(king.Boxes())
    {
      ReferOnce(king, m, i, 0);
    }
    ReferOnce(king, m, BUFFER_HIGH, 0);
    var n := BUFFER_HIGH + 1 - BATCH;
    for i := 0 to BATCH - 1
      invariant Fine(king) && Collecting(king, m, n + i, BATCH) && OneQueen(king, 10, true) && king.Boxes() == old(king.Boxes())
    {
      ReferOnce(king, m, n + i, BATCH);
    }
    ReferOnce(king, m, BUFFER_HIGH, BATCH);
  }

  /** The site has an owner, nobody waits, and messages are left in the pool. */
  ghost predicate Left(king: King, m: string)
    reads king
  {
    && !king.ended && king.groupTime == 0 && king.messageBuf == [] && king.pool.records.queue != []
    && OnlyOne(king.accepted, m) && king.site2Queen.Values == {"a"}
  }

  /** The queen asks again and gets the site. */
  method Assign(king: King, m: string, ghost waiting: nat, ghost pooled: nat)
    requires Fine(king) && Collecting(king, m, waiting, pooled) && OneQueen(king, 10, true) && waiting > 0 && pooled > BATCH
    requires Keepable(m)
    modifies king, king.Boxes()
    ensures Fine(king) && Left(king, m) && king.boxes.Keys == {"a"} && king.boxes["a"].fd == 1
    ensures king.Boxes() == old(king.Boxes())
  {
    hide King.Valid, King.Calm, King.Keeps, Keepable, OwnersGrow, Target;
    Common(king, 10, true, m);
    SoundPool(king);
    OneSite(king, m);
    ghost var buf := king.messageBuf;
    AskAgain(king);
    OneSite(king, m);
    OneOwner(king, m, buf);
  }

  method AskAgain(king: King)
    requires Fine(king) && OneQueen(king, 10, true) && king.groupTime == 0 && king.messageBuf != [] && !king.ended
    requires !king.pool.damaged && AllKeepable(king.pool.records.queue) && |king.pool.records.queue| > BATCH
    modifies king, king.Boxes()
    ensures Fine(king) && king.Kept(old(king.boxes), old(king.Boxes())) && king.boxes["a"].fd == 1
    ensures king.groupTime == 0 && king.accepted == old(king.accepted) && king.pool.records.queue != []
    ensures OwnersGrow(old(king.site2Queen), old(king.messageBuf), {"a"}, king.site2Queen) && king.site2Queen != old(king.site2Queen)
    ensures !king.ended
  {
    hide King.Valid, King.Calm, King.Spare, King.Registered, King.Room, King.GroupIsDue, King.Lessens, King.Controls, King.WorkFinished,
      Answered, AllKeepable, OwnersGrow, AtMost, QueenBox.Valid;
    FirstQueen(king);
    CanTake(king);
    ghost var pool := king.pool;
    var _ := king.Request(1, 1, 0);
    StillLeft(king, pool);
    StillBusy(king);
  }

  lemma StillBusy(king: King)
    requires "a" in king.boxes && king.boxes["a"].fd == 1 && king.boxes["a"].load == 1
    ensures !king.WorkFinished()
  {
  }

  lemma FirstQueen(king: King)
    requires OneQueen(king, 10, true) && king.groupTime == 0
    ensures king.Registered(1) && !king.GroupIsDue(0)
  {
    assert "a" in king.boxes;
  }

  lemma CanTake(king: King)
    requires OneQueen(king, 10, true)
    ensures king.Room()
  {
    assert king.boxes["a"].FreeNum() > 0;
  }

  lemma SoundPool(king: King)
    requires king.Valid() && king.Keeps()
    ensures !king.pool.damaged && AllKeepable(king.pool.records.queue)
  {
    hide Ordered, Keepable, King.BoxesFine;
    AllKept(king.Value(), king.siteOf);
  }

  lemma StillLeft(king: King, before: Pool)
    requires !king.Lessens(before, king.pool) && !before.damaged && AllKeepable(before.records.queue) && |before.records.queue| > BATCH
    ensures king.pool.records.queue != []
  {
  }

  lemma OneSite(king: King, m: string)
    requires king.Valid() && OnlyOne(king.accepted, m) && Keepable(m)
    ensures forall p | p in king.messageBuf :: p.site == king.siteOf(Target(m)) && p.site !in king.site2Queen
  {
    hide Target, Ordered, Keepable, King.BoxesFine;
    AllKept(king.Value(), king.siteOf);
    forall p | p in king.messageBuf ensures p.site == king.siteOf(Target(m)) && p.site !in king.site2Queen {
      SiteRight(king.Value(), p, king.siteOf);
      Unowned(king.Value(), p, king.siteOf);
    }
  }

  lemma SomePending(buf: seq<Pending>)
    requires |buf| > 0
    ensures exists p :: p in buf
  {
    assert buf[0] in buf;
  }

  lemma OneOwner(king: King, m: string, buf: seq<Pending>)
    requires OwnersGrow(map[], buf, {"a"}, king.site2Queen) && king.site2Queen != map[]
    requires forall p | p in buf :: p.site == king.siteOf(Target(m))
    requires forall p | p in king.messageBuf :: p.site == king.siteOf(Target(m)) && p.site !in king.site2Queen
    ensures king.site2Queen.Values == {"a"} && king.messageBuf == []
  {
    hide Target;
    var p, queen :| p in buf && queen in {"a"} && king.site2Queen == NewOwner(map[], p.site, queen);
    if |king.messageBuf| > 0 {
      SomePending(king.messageBuf);
      assert false;
    }
  }

  method Leave(king: King, m: string)
    requires Fine(king) && Left(king, m) && king.boxes.Keys == {"a"} && king.boxes["a"].fd == 1
    modifies king, king.Boxes()
    ensures Fine(king) && Left(king, m) && king.boxes.Keys == {"a"} && king.boxes["a"].fd == -1
    ensures king.Boxes() == old(king.Boxes())
  {
    hide King.Valid, King.Calm, King.Spare;
    assert "a" in king.boxes && king.Registered(1);
    king.Byebye(1, 0);
  }

  /** The first queen is gone; a second one has nothing to do. */
  ghost predicate TwoQueens(king: King)
    reads king, king.Boxes()
  {
    && king.boxes.Keys == {"a", "b"} && king.boxes["a"].fd == -1
    && king.boxes["b"].fd == 2 && king.boxes["b"].importantMsg <= 0
    && "b" in king.received && king.received["b"] == multiset{}
  }

  ghost predicate Reported(king: King, load: int)
    reads king, king.Boxes()
  {
    "b" in king.boxes && king.boxes["b"].maxLoad >= 1 && king.boxes["b"].load == load
  }

  method Replace(king: King, m: string)
    requires Fine(king) && Left(king, m) && king.boxes.Keys == {"a"} && king.boxes["a"].fd == -1
    modifies king, king.Boxes()
    ensures Fine(king) && Left(king, m) && TwoQueens(king)
    ensures forall b | b in king.Boxes() :: b in old(king.Boxes()) || fresh(b)
  {
    hide King.Valid, King.Calm, King.Value, King.Marked, QueenBox.Valid, Exchanged, Relieved;
    assert king.BoxesOf("b") == {};
    Inboxes(king);
    king.Parts();
    king.Hello(2, "b", false, 0);
    king.Parts();
  }

  lemma Inboxes(king: King)
    requires king.Valid()
    ensures king.received.Keys == king.boxes.Keys
  {
  }

  method Idle(king: King, m: string, load: int)
    requires Fine(king) && Left(king, m) && TwoQueens(king) && Keepable(m) && (load == 1 || Reported(king, 1))
    modifies king, king.Boxes()
    ensures Fine(king) && Left(king, m) && TwoQueens(king) && Reported(king, load)
    ensures king.Boxes() == old(king.Boxes())
  {
    hide King.Valid, King.Calm, King.Spare, King.Controls, King.Registered, King.GroupIsDue, King.Keeps, King.Room, King.RoomBeside,
      King.Lessens, QueenBox.Valid, Keepable, OwnersGrow, AtMost;
    SecondQueen(king, m);
    ghost var before := king.Controls();
    king.Load(2, 0, load, 0);
    NothingUnread(king, before);
  }

  lemma SecondQueen(king: King, m: string)
    requires TwoQueens(king) && OnlyOne(king.accepted, m) && Keepable(m) && king.groupTime == 0
    ensures king.Registered(2) && king.Keeps() && !king.GroupIsDue(0)
    ensures "b" in king.Controls() && king.Controls()["b"] <= 0
  {
    assert "b" in king.boxes;
  }

  lemma NothingUnread(king: King, before: map<string, int>)
    requires AtMost(king.Controls(), before, 0) && "b" in before && before["b"] <= 0
    ensures "b" in king.boxes && king.boxes["b"].importantMsg <= 0
  {
    assert "b" in king.Controls() && king.Controls()["b"] <= before["b"];
  }

  method Finish(king: King, m: string)
    requires Fine(king) && Left(king, m) && TwoQueens(king) && Reported(king, 0) && Keepable(m)
    modifies king, king.Boxes()
    ensures king.Valid() && king.ended && king.WorkFinished() && king.pool.records.queue != [] && king.Keeps()
  {
    hide King.Valid, King.Calm, King.Spare, King.Controls, King.Registered, King.GroupIsDue, King.Keeps, King.Room, King.RoomBeside,
      King.Lessens, QueenBox.Valid, Keepable, OwnersGrow, AtMost,
      Answered, King.WorkFinished;
    SecondQueen(king, m);
    ghost var before := king.Controls();
    var _ := king.Request(2, 1, 0);
    NothingUnread(king, before);
    NothingFor(king);
    OnlyOneKept(king, m);
  }

  lemma OnlyOneKept(king: King, m: string)
    requires OnlyOne(king.accepted, m) && Keepable(m)
    ensures king.Keeps()
  {
  }

  lemma NothingFor(king: King)
    requires Fine(king) && TwoQueens(king) && Reported(king, 0) && king.messageBuf == []
    ensures king.WorkFinished()
  {
    hide Ordered, Good;
    var box := king.boxes["b"];
    assert BoxFine(box, "b", king.received["b"]);
    NothingKept(box.Value());
  }

  /** A box without messages and control messages is empty. */
  lemma NothingKept(b: Box)
    requires Good(b) && b.received == multiset{} && b.important <= 0
    ensures b.out == []
  {
    assert b.received + b.strays == multiset{};
    assert Urls(b) == multiset{};
    assert b.out[0..] == b.out && |multiset(b.out)| == |b.out|;
  }

  method Work(king: King, m: string)
    requires Fine(king) && Collecting(king, m, 0, 0) && king.boxes == map[]
    requires Postable(m) && Keepable(m) && king.siteOf(Target(m)) != ""
    modifies king
    ensures Fine(king) && Collecting(king, m, BUFFER_HIGH + 1 - BATCH, 2 * BATCH) && OneQueen(king, 10, true) && fresh(king.Boxes())
  {
    hide Fine, Collecting, OneQueen, Postable, Keepable, Target, King.Boxes;
    Arrive(king, m);
    Report(king, m);
    Ask(king, m);
    Collect(king, m);
  }

  method Rest(king: King, m: string)
    requires Fine(king) && Collecting(king, m, BUFFER_HIGH + 1 - BATCH, 2 * BATCH) && OneQueen(king, 10, true) && Keepable(m)
    modifies king, king.Boxes()
    ensures Fine(king) && Left(king, m) && TwoQueens(king)
    ensures forall b | b in king.Boxes() :: b in old(king.Boxes()) || fresh(b)
  {
    hide Fine, Collecting, OneQueen, Left, TwoQueens, Keepable;
    Assign(king, m, BUFFER_HIGH + 1 - BATCH, 2 * BATCH);
    Leave(king, m);
    Replace(king, m);
  }

  method End(king: King, m: string)
    requires Fine(king) && Left(king, m) && TwoQueens(king) && Keepable(m)
    modifies king, king.Boxes()
    ensures king.Valid() && king.ended && king.WorkFinished() && king.pool.records.queue != [] && king.Keeps()
  {
    hide Fine, Left, Keepable, TwoQueens, Reported, King.Boxes, King.WorkFinished, King.Valid;
    Idle(king, m, 1);
    Idle(king, m, 0);
    Finish(king, m);
  }

  /** A whole run, for any URL message of a site: the king declares the work finished, and hundreds of copies of
      the message are in his pool, which no queen will get in that run. */
  method Stranded(siteOf: string -> string, m: string, chance: Chance) returns (king: King)
    requires Postable(m) && Keepable(m) && siteOf(Target(m)) != ""
    ensures king.Valid() && king.ended && king.WorkFinished()
    ensures king.pool.records.queue != [] && king.accepted != king.handed + king.lost
  {
    hide Fine, Collecting, OneQueen, Left, TwoQueens, Postable, Keepable, Target, King.Boxes, King.WorkFinished, King.Valid, King.Calm;
    king := new King(siteOf, true, chance);
    NewKing(king, m);
    Work(king, m);
    Rest(king, m);
    End(king, m);
    king.FinishedMeans();
  }

  /** There is such a message. */
  lemma Example(siteOf: string -> string)
    requires siteOf("http://b.org/") != ""
    ensures exists m :: Postable(m) && Keepable(m) && siteOf(Target(m)) != ""
  {
    hide Postable, Line, Sanitised;
    var u := "http://b.org/";
    var m := Line(Refer("", u, ""));
    ReferIsPostable("", u, "");
    ParsedAsComposed(Refer("", u, ""));
    PlainRefer(u, "");
    assert Postable(m) && Keepable(m) && siteOf(Target(m)) != "";
  }

  /** A URL and an anchor text without breaks and NULs make a line that is six characters longer. */
  lemma PlainRefer(u: string, a: string)
    requires (forall i | 0 <= i < |u| :: !IsBreak(u[i])) && (forall i | 0 <= i < |a| :: !IsBreak(a[i]))
    requires '\0' !in u && '\0' !in a
    ensures |Line(Refer("", u, a))| == |u| + |a| + 6 && '\0' !in Line(Refer("", u, a))
    ensures Sanitised(Refer("", u, a)) == Refer("", u, a)
  {
    hide Join;
    SafeUrlCut(u, |u|);
    SafeUrlCut("", 0);
    assert SafeUrl(u) == u && SafeUrl("") == "" && SafeText(a) == a;
    assert Fields(Refer("", u, a)) == ["ref", "", u, a];
    JoinLacks(["ref", "", u, a], '\0');
    JoinedLength(u, a);
  }

  lemma JoinedLength(u: string, a: string)
    ensures |Join(["ref", "", u, a])| == |u| + |a| + 6
  {
    assert [u, a][1..] == [a] && |Join([u, a])| == |u| + 1 + |a|;
    assert ["", u, a][1..] == [u, a] && |Join(["", u, a])| == |u| + 2 + |a|;
    assert ["ref", "", u, a][1..] == ["", u, a];
  }

  // ---------------------------------------------------------------------------------------------
  // A message that is too long

  /** A reference to a short URL by a link with a long text. */
  function LongText(): string {
    Line(Refer("", "http://b.org/", seq(5000, _ => 'a')))
  }

  lemma LongTextMeans()
    ensures Postable(LongText()) && OneLine(LongText()) && Target(LongText()) == "http://b.org/" && |LongText()| == 5019 && !Keepable(LongText())
  {
    hide Postable, Line, Sanitised;
    var u, a := "http://b.org/", seq(5000, _ => 'a');
    ReferIsPostable("", u, a);
    ParsedAsComposed(Refer("", u, a));
    PlainRefer(u, a);
  }

  /** The king accepts it like any other: it waits for an owner of its site. */
  method Accepted(siteOf: string -> string, chance: Chance) returns (king: King)
    requires siteOf("http://b.org/") != ""
    ensures king.Valid() && king.accepted == multiset{LongText()} && !king.Keeps()
    ensures king.messageBuf == [Pending(siteOf("http://b.org/"), LongText())]
  {
    hide King.Valid, King.Calm, King.Keeps, Postable, Target, Line, LongText, Keepable, Collecting, OneQueen;
    LongTextMeans();
    king := new King(siteOf, true, chance);
    NewKing(king, LongText());
    Arrive(king, LongText());
    ReferLong(king);
  }

  method ReferLong(king: King)
    requires Fine(king) && Collecting(king, LongText(), 0, 0) && OneQueen(king, 0, false)
    requires king.messageBuf == [] && king.accepted == multiset{} && king.siteOf("http://b.org/") != ""
    modifies king, king.Boxes()
    ensures king.Valid() && king.accepted == multiset{LongText()} && !king.Keeps()
    ensures king.messageBuf == [Pending(king.siteOf("http://b.org/"), LongText())]
  {
    hide King.Valid, King.Calm, King.Spare, King.Registered, King.GroupIsDue, King.Controls, AtMost, Postable, Target, Line, LongText, Keepable;
    LongTextMeans();
    Connected(king);
    king.Refer(1, LongText(), 0);
  }

  lemma Connected(king: King)
    requires OneQueen(king, 0, false)
    ensures king.Registered(1)
  {
    assert "a" in king.boxes;
  }

  /** It goes into the box of a queen, who leaves and comes back: then it is neither in the box nor in its pool. */
  method Spoiled(chance: Chance) returns (box: QueenBox)
    ensures box.Valid() && box.fd == 1 && box.received == multiset{LongText()} == box.spoiled
    ensures LongText() !in box.outMsg && box.pool.records.queue == [] && box.sentUrls == box.lost == multiset{}
  {
    hide Good, Postable, Line, LongText, Exchanged, Relieved, Saved, NewBox, Spares;
    LongTextMeans();
    NothingToRefill(true, chance, true);
    Goes(LongText(), chance);
    ComesBack(LongText(), chance);
    box := new QueenBox("a", true, chance);
    box.EnableFd(1, false);
    box.AddOutMessage(LongText());
    box.DisableFd();
    box.EnableFd(1, false);
  }

  /** What is in the box when the queen has left. */
  lemma Goes(m: string, chance: Chance)
    requires OneLine(m) && |m| < 10000
    ensures var a := NewBox(true, chance); Spares(Relieved(a)) && Spares(Added(a, m))
    ensures var b := Added(NewBox(true, chance), m);
      Exchanged(b, true) == b && b.pool.open && Saved(b) == b.(out := [], pool := b.pool.(records := LinePool.Record([m], [], 0)), spilled := true)
  {
    hide Refills, OneLine;
    var b := Added(NewBox(true, chance), m);
    assert b.out == [m];
    RefillsNext(b, 0);
    NothingMore(b, 0, BATCH);
    FirstLineIsAll(m);
    assert b.out[0..] == [m] && [m][..0] == [];
    PushedNone(b.pool);
  }

  /** And when she comes back. */
  lemma ComesBack(m: string, chance: Chance)
    requires OneLine(m) && LinePool.LINE_BUFFER <= |m| < 10000
    ensures var b := Saved(Added(NewBox(true, chance), m));
      var c := Exchanged(Relieved(b), true);
      && Spares(Relieved(b)) && c.received == c.spoiled == multiset{m} && m !in c.out && c.pool.records.queue == []
      && c.sentUrls == c.lost == multiset{}
  {
    hide Refills, RefilledOne, OneLine, Saved;
    Goes(m, chance);
    var b := Saved(Added(NewBox(true, chance), m));
    assert Relieved(b) == b && b.pool == Pool(LinePool.Record([m], [], 0), true, false, chance);
    PopsShort(b, m);
    RefillsNext(b, 0);
    NothingMore(b, 1, BATCH);
  }

  lemma PopsShort(b: Box, m: string)
    requires b.out == [] && b.pool.open && !b.pool.damaged && b.pool.records == LinePool.Record([m], [], 0)
    requires LinePool.LINE_BUFFER <= |m|
    ensures var c := RefilledOne(b);
      && c.pool.records.queue == [] && c.spoiled == b.spoiled + multiset{m} && m !in c.out
      && c.received == b.received && c.sentUrls == b.sentUrls && c.lost == b.lost
  {
    assert [m][1..] == [];
  }

  lemma NewKing(king: King, m: string)
    requires king.Valid() && king.Calm() && king.boxes == map[] && king.site2Queen == map[] && king.accepted == multiset{}
    requires king.messageBuf == [] && king.pool == NewPool(true, king.chance) && !king.ended && king.groupTime == 0
    ensures Fine(king) && Collecting(king, m, 0, 0)
  {
    hide King.Valid, King.Calm, King.Spare;
  }
}
