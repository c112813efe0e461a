/** What the normal form of a URI, src/url/uri.l, has to do with the URI: part by part, the same bytes. */
module UriMeanings {
  import opened Escapes
  import opened Uris

  // ---------------------------------------------------------------------------------------------
  // Escapes

  /** Every escape is needed, and has upper-case digits. */
  predicate Needed(s: Text) {
    s != [] ==>
      if IsEscape(s) then !Unescaped(EscapeValue(s)) && Upper(s[1]) == s[1] && Upper(s[2]) == s[2] && Needed(s[3..])
      else Needed(s[1..])
  }

  lemma {:induction false} NormedNeeded(s: Text)
    requires WellEscaped(s)
    ensures Needed(Normed(s))
  {
    if s == [] {
    } else if IsEscape(s) {
      NormedNeeded(s[3..]);
      var v, rest := EscapeValue(s), Normed(s[3..]);
      if Unescaped(v) {
        AfterChar(v, rest);
      } else {
        UpperHex(s[1]);
        UpperHex(s[2]);
        AfterEscape(NormalEscape(s), rest);
        assert NormalEscape(s)[1] == (NormalEscape(s) + rest)[1] && NormalEscape(s)[2] == (NormalEscape(s) + rest)[2];
      }
    } else {
      NormedNeeded(s[1..]);
      AfterChar(s[0], Normed(s[1..]));
    }
  }

  lemma {:induction false} LoweredEach(s: Text)
    ensures |Lowered(s)| == |s| && forall i | 0 <= i < |s| :: Lowered(s)[i] == Lower(s[i])
  {
    if s != [] {
      LoweredEach(s[1..]);
    }
  }

  lemma {:induction false} LoweredProper(s: Text)
    requires WellEscaped(s)
    ensures WellEscaped(Lowered(s))
  {
    LoweredEscape(s);
    if s == [] {
    } else if IsEscape(s) {
      LoweredProper(s[3..]);
    } else {
      LoweredProper(s[1..]);
      LowerFacts(s[0]);
      assert Lowered(s)[1..] == Lowered(s[1..]);
    }
  }

  /** The same bytes, part by part. */
  predicate SameBytes(a: seq<Text>, b: seq<Text>) {
    |a| == |b| && forall i | 0 <= i < |a| :: Decoded(a[i]) == Decoded(b[i])
  }

  lemma {:induction false} AllMean(ts: seq<Text>)
    requires forall t | t in ts :: WellEscaped(t)
    ensures SameBytes(NormedAll(ts), ts)
  {
    if ts != [] {
      NormedOnce(ts[0]);
      AllMean(ts[1..]);
      var r, rest := NormedAll(ts), NormedAll(ts[1..]);
      assert forall i | 0 < i < |ts| :: r[i] == rest[i - 1] && ts[i] == ts[1..][i - 1];
    }
  }

  predicate SameSegment(a: Segment, b: Segment) {
    Decoded(a.str) == Decoded(b.str) && SameBytes(a.params, b.params)
  }

  lemma {:induction false} SegmentsMean(ss: seq<Segment>)
    requires forall s | s in ss :: ProperSegment(s)
    ensures var t := NormedSegments(ss); |t| == |ss| && forall i | 0 <= i < |ss| :: SameSegment(t[i], ss[i])
  {
    hide Decoded, WellEscaped;
    if ss != [] {
      var s := ss[0];
      assert ProperSegment(s);
      NormedOnce(s.str);
      AllMean(s.params);
      SegmentsMean(ss[1..]);
      var t, rest := NormedSegments(ss), NormedSegments(ss[1..]);
      assert forall i | 0 < i < |ss| :: t[i] == rest[i - 1] && ss[i] == ss[1..][i - 1];
    }
  }

  /** Each part of the normal form stands for the bytes of the same part: scheme and host in lower case, the
      segments of the path before dots are taken out; and a missing port is that of the scheme. */
  lemma NormalizedMeans(u: UriState)
    requires Proper(u)
    ensures var n := Normalized(u);
      && Decoded(n.scheme) == Decoded(Lowered(u.scheme)) && Decoded(n.host) == Decoded(Lowered(u.host))
      && Decoded(n.userinfo) == Decoded(u.userinfo) && Decoded(n.opaquePart) == Decoded(u.opaquePart)
      && Decoded(n.fragment) == Decoded(u.fragment) && SameBytes(n.query, u.query)
      && n.port == if u.port != 0 then u.port else if n.scheme == "http" then 80 else if n.scheme == "ftp" then 21 else 0
    ensures exists path ::
      && |path| == |u.segments| && Normalized(u).segments == NormedPath(path)
      && forall i | 0 <= i < |path| :: SameSegment(path[i], u.segments[i])
  {
    hide Normed, Decoded, WellEscaped, NormedAll, NormedPath, NormedSegments, ProperSegment;
    LoweredProper(u.scheme);
    LoweredProper(u.host);
    NormedOnce(Lowered(u.scheme));
    NormedOnce(Lowered(u.host));
    NormedOnce(u.userinfo);
    NormedOnce(u.opaquePart);
    NormedOnce(u.fragment);
    AllMean(u.query);
    SegmentsMean(u.segments);
    var path := NormedSegments(u.segments);
    assert Normalized(u).segments == NormedPath(path);
  }

  // ---------------------------------------------------------------------------------------------
  // Dots

  /** A self segment that is not last leaves no trace. */
  lemma {:induction false} SelfVanishes(stack: seq<Segment>, before: seq<Segment>, self: Segment, rest: seq<Segment>)
    requires IsSelf(self) && AllRooted(before) && rest != []
    ensures Resolved(stack, before + [self] + rest) == Resolved(stack, before + rest)
    decreases |before|
  {
    var all, less := before + [self] + rest, before + rest;
    if before == [] {
      assert all == [self] + rest && less == rest && all[1..] == rest;
    } else {
      hide Resolved, IsSelf, IsParent;
      assert all[1..] == before[1..] + [self] + rest && less[1..] == before[1..] + rest;
      ResolvedNext(stack, all);
      ResolvedNext(stack, less);
      SelfVanishes(Stacked(stack, before[0]), before[1..], self, rest);
    }
  }

  /** One that is last makes the path end with a slash. */
  lemma {:induction false} SelfAtEnd(stack: seq<Segment>, before: seq<Segment>, self: Segment)
    requires IsSelf(self) && AllRooted(before)
    ensures var r := Resolved(stack, before + [self]); r != [] && r[|r| - 1] == self.(str := "/")
    decreases |before|
  {
    var all := before + [self];
    if before == [] {
      assert all == [self];
    } else {
      hide Resolved, IsSelf, IsParent;
      assert all[1..] == before[1..] + [self];
      ResolvedNext(stack, all);
      SelfAtEnd(Stacked(stack, before[0]), before[1..], self);
    }
  }

  /** A path does not lead above its root. */
  lemma ParentOfRoot(parent: Segment, rest: seq<Segment>)
    requires IsParent(parent)
    ensures NormedPath([parent] + rest) == NormedPath(rest)
  {
    assert ([parent] + rest)[1..] == rest;
  }
}
