/** The normal form of URIs, the C++ part of src/url/uri.l. */
module Uris {
  import opened Escapes

  datatype Segment = Segment(str: Text, params: seq<Text>)

  const SLASH := Segment("/", [])

  predicate Rooted(s: Segment) {
    s.str != [] && s.str[0] == '/'
  }

  predicate IsSelf(s: Segment) {
    s.str == "/" || s.str == "/."
  }

  predicate IsParent(s: Segment) {
    s.str == "/.."
  }

  predicate IsName(s: Segment) {
    Rooted(s) && !IsSelf(s) && !IsParent(s)
  }

  // ---------------------------------------------------------------------------------------------
  // The segment pass

  /** Names go on a stack, a parent takes one off, and a lone slash counts only at the end; from a
      segment that has no slash the rest is left alone. */
  function Resolved(stack: seq<Segment>, todo: seq<Segment>): seq<Segment>
    decreases |todo|
  {
    if todo == [] then stack
    else
      var s := todo[0];
      if !Rooted(s) then stack + todo
      else if IsSelf(s) then (if |todo| == 1 then stack + [s.(str := "/")] else Resolved(stack, todo[1..]))
      else if IsParent(s) then Resolved(if stack == [] then [] else stack[..|stack| - 1], todo[1..])
      else Resolved(stack + [s], todo[1..])
  }

  function NormedPath(segs: seq<Segment>): seq<Segment> {
    var r := Resolved([], segs);
    if r == [] then [SLASH] else r
  }

  function Erased(segs: seq<Segment>, i: nat): seq<Segment>
    requires i < |segs|
  {
    segs[..i] + segs[i + 1..]
  }

  /** The list is changed in place, at an iterator. */
  method NormalizePath(segs: seq<Segment>) returns (list: seq<Segment>)
    ensures list == NormedPath(segs)
  {
    list := segs;
    var iter := 0;
    assert list[..0] == [] && list[0..] == segs;
    while iter < |list|
      invariant 0 <= iter <= |list| && Resolved(list[..iter], list[iter..]) == Resolved([], segs)
      decreases |list| - iter
    {
      ghost var stack, todo := list[..iter], list[iter..];
      assert todo[1..] == list[iter + 1..];
      if list[iter].str == [] || list[iter].str[0] != '/' {
        break;
      }
      if list[iter].str == "/" || list[iter].str == "/." {
        list := list[iter := list[iter].(str := "/")];
        if iter + 1 < |list| {
          list := Erased(list, iter);
          assert list[..iter] == stack && list[iter..] == todo[1..];
        } else {
          iter := iter + 1;
          assert list[..iter] == stack + [todo[0].(str := "/")] && list[iter..] == [];
        }
        continue;
      }
      if list[iter].str == "/.." {
        list := Erased(list, iter);
        assert list[..iter] == stack && list[iter..] == todo[1..];
        if iter > 0 {
          list := Erased(list, iter - 1);
          iter := iter - 1;
          assert list[..iter] == stack[..|stack| - 1] && list[iter..] == todo[1..];
        }
        continue;
      }
      iter := iter + 1;
      assert list[..iter] == stack + [todo[0]];
    }
    assert list == list[..iter] + list[iter..];
    if |list| == 0 {
      list := [SLASH];
    }
  }

  predicate AllRooted(segs: seq<Segment>) {
    forall s | s in segs :: Rooted(s)
  }

  /** Only names, but for a slash that may stand last. */
  predicate Plain(segs: seq<Segment>) {
    && (forall i | 0 <= i < |segs| - 1 :: IsName(segs[i]))
    && (segs != [] ==> IsName(segs[|segs| - 1]) || segs[|segs| - 1].str == "/")
  }

  lemma {:induction false} ResolvedPlain(stack: seq<Segment>, todo: seq<Segment>)
    requires (forall s | s in stack :: IsName(s)) && AllRooted(todo)
    ensures Plain(Resolved(stack, todo))
    decreases |todo|
  {
    if todo != [] {
      var s := todo[0];
      assert AllRooted(todo[1..]);
      if IsSelf(s) {
        if |todo| > 1 {
          ResolvedPlain(stack, todo[1..]);
        }
      } else if IsParent(s) {
        ResolvedPlain(if stack == [] then [] else stack[..|stack| - 1], todo[1..]);
      } else {
        ResolvedPlain(stack + [s], todo[1..]);
      }
    }
  }

  lemma {:induction false} PlainStays(stack: seq<Segment>, todo: seq<Segment>)
    requires Plain(todo)
    ensures Resolved(stack, todo) == stack + todo
    decreases |todo|
  {
    if todo != [] {
      assert todo == [todo[0]] + todo[1..];
      if |todo| > 1 || IsName(todo[0]) {
        PlainStays(stack + [todo[0]], todo[1..]);
      } else {
        assert todo[0].(str := "/") == todo[0];
      }
    }
  }

  /** The pass over an absolute path leaves no "/." and no "/..", leaves "/" only at the end, and once is
      enough. */
  lemma PathOnce(segs: seq<Segment>)
    requires AllRooted(segs)
    ensures Plain(NormedPath(segs)) && NormedPath(segs) != [] && NormedPath(NormedPath(segs)) == NormedPath(segs)
  {
    ResolvedPlain([], segs);
    PlainStays([], NormedPath(segs));
  }

  function Stacked(stack: seq<Segment>, s: Segment): seq<Segment> {
    if IsSelf(s) then stack
    else if IsParent(s) then (if stack == [] then [] else stack[..|stack| - 1])
    else stack + [s]
  }

  lemma ResolvedNext(stack: seq<Segment>, todo: seq<Segment>)
    requires todo != [] && Rooted(todo[0]) && (IsSelf(todo[0]) ==> |todo| > 1)
    ensures Resolved(stack, todo) == Resolved(Stacked(stack, todo[0]), todo[1..])
  {
  }

  lemma Vanish(stack: seq<Segment>, name: Segment, parent: Segment, rest: seq<Segment>)
    requires IsName(name) && IsParent(parent)
    ensures Resolved(stack, [name, parent] + rest) == Resolved(stack, rest)
  {
    var all := [name, parent] + rest;
    assert all[1..] == [parent] + rest && ([parent] + rest)[1..] == rest;
    assert (stack + [name])[..|stack|] == stack;
  }

  /** A parent segment and the name before it vanish together, but for one case: they stand at the end and
      bare a self segment, which counts when it is last. */
  lemma {:induction false} ParentCancels(stack: seq<Segment>, before: seq<Segment>, name: Segment, parent: Segment, rest: seq<Segment>)
    requires IsName(name) && IsParent(parent) && AllRooted(before)
    ensures Resolved(stack, before + [name, parent] + rest) == Resolved(stack, before + rest) <==>
      rest != [] || before == [] || !IsSelf(before[|before| - 1])
    decreases |before|
  {
    var all, less := before + [name, parent] + rest, before + rest;
    if before == [] {
      Vanish(stack, name, parent, rest);
      assert all == [name, parent] + rest && less == rest;
    } else if |before| == 1 && IsSelf(before[0]) {
      Vanish(stack, name, parent, rest);
      assert all[1..] == [name, parent] + rest && less[1..] == rest;
      assert Resolved(stack, all) == Resolved(stack, rest);
      if rest == [] {
        assert |Resolved(stack, less)| == |stack| + 1;
      }
    } else {
      hide Resolved, IsSelf, IsParent, IsName;
      assert all[1..] == before[1..] + [name, parent] + rest && less[1..] == before[1..] + rest;
      ResolvedNext(stack, all);
      ResolvedNext(stack, less);
      ParentCancels(Stacked(stack, before[0]), before[1..], name, parent, rest);
    }
  }

  // ---------------------------------------------------------------------------------------------
  // The whole URI

  datatype UriState = UriState(scheme: Text, userinfo: Text, host: Text, port: int, opaquePart: Text,
                               segments: seq<Segment>, query: seq<Text>, fragment: Text)

  function Lowered(s: Text): Text {
    if s == [] then [] else [Lower(s[0])] + Lowered(s[1..])
  }

  /** Hosts and schemes are put in lower case before their escapes are resolved. */
  function NormedName(s: Text): Text {
    Normed(Lowered(s))
  }

  function NormedAll(ts: seq<Text>): seq<Text> {
    if ts == [] then [] else [Normed(ts[0])] + NormedAll(ts[1..])
  }

  function NormedSegment(s: Segment): Segment {
    Segment(Normed(s.str), NormedAll(s.params))
  }

  function NormedSegments(ss: seq<Segment>): seq<Segment> {
    if ss == [] then [] else [NormedSegment(ss[0])] + NormedSegments(ss[1..])
  }

  function DefaultPort(scheme: Text): int {
    if scheme == "http" then 80 else if scheme == "ftp" then 21 else 0
  }

  function Normalized(u: UriState): UriState {
    var scheme := NormedName(u.scheme);
    UriState(scheme, Normed(u.userinfo), NormedName(u.host), if u.port == 0 then DefaultPort(scheme) else u.port,
             Normed(u.opaquePart), NormedPath(NormedSegments(u.segments)), NormedAll(u.query), Normed(u.fragment))
  }

  // ---------------------------------------------------------------------------------------------
  // Once is enough

  /** An escape stands for a capital letter. */
  predicate HidesUpper(s: Text) {
    s != [] && if IsEscape(s) then IsUpper(EscapeValue(s)) || HidesUpper(s[3..]) else HidesUpper(s[1..])
  }

  lemma LowerFacts(c: Byte)
    ensures Lower(Lower(c)) == Lower(c) && (Lower(c) == '%' <==> c == '%')
    ensures IsHex(Lower(c)) <==> IsHex(c)
    ensures IsHex(c) ==> HexValue(Lower(c)) == HexValue(c) && Upper(Lower(c)) == Upper(c) && Lower(Upper(c)) == Lower(c)
  {
  }

  lemma LoweredEscape(s: Text)
    ensures IsEscape(Lowered(s)) <==> IsEscape(s)
    ensures IsEscape(s) ==>
      EscapeValue(Lowered(s)) == EscapeValue(s) && NormalEscape(Lowered(s)) == NormalEscape(s) && Lowered(s)[3..] == Lowered(s[3..])
  {
    if s != [] {
      LowerFacts(s[0]);
      assert Lowered(s)[1..] == Lowered(s[1..]);
      if |s| > 1 {
        LowerFacts(s[1]);
        assert Lowered(s[1..])[1..] == Lowered(s[1..][1..]) && s[1..][1..] == s[2..];
        if |s| > 2 {
          LowerFacts(s[2]);
          assert Lowered(s[2..])[1..] == Lowered(s[2..][1..]) && s[2..][1..] == s[3..];
          assert Lowered(s)[3..] == Lowered(s)[1..][1..][1..];
        }
      }
    }
  }

  lemma NormedNameEscape(s: Text)
    requires IsEscape(s)
    ensures NormedName(s) == NormalEscape(s) + NormedName(s[3..])
  {
    LoweredEscape(s);
  }

  lemma NormedNameChar(s: Text)
    requires s != [] && !IsEscape(s)
    ensures NormedName(s) == [Lower(s[0])] + NormedName(s[1..])
  {
    LoweredEscape(s);
    assert Lowered(s)[1..] == Lowered(s[1..]);
  }

  /** A second pass over a host changes it exactly if an escape hid a capital letter. */
  lemma {:induction false} NameOnceExactly(s: Text)
    requires WellEscaped(s)
    ensures NormedName(NormedName(s)) == NormedName(s) <==> !HidesUpper(s)
    ensures |NormedName(NormedName(s))| == |NormedName(s)|
  {
    if s == [] {
    } else if IsEscape(s) {
      NameOnceExactly(s[3..]);
      NormedNameEscape(s);
      var v, rest := EscapeValue(s), NormedName(s[3..]);
      if Unescaped(v) {
        NormedNameChar([v] + rest);
        AfterChar(v, rest);
        Heads(Lower(v), NormedName(rest), v, rest);
      } else {
        UpperHex(s[1]);
        UpperHex(s[2]);
        AfterEscape(NormalEscape(s), rest);
        NormedNameEscape(NormalEscape(s) + rest);
      }
    } else {
      NameOnceExactly(s[1..]);
      NormedNameChar(s);
      var rest := NormedName(s[1..]);
      LowerFacts(s[0]);
      AfterChar(Lower(s[0]), rest);
      NormedNameChar([Lower(s[0])] + rest);
    }
  }

  lemma Heads(a: Byte, s: Text, b: Byte, t: Text)
    ensures [a] + s == [b] + t <==> a == b && s == t
  {
    assert ([a] + s)[1..] == s && ([b] + t)[1..] == t;
  }

  /** There is no escape in it. */
  predicate Bare(s: Text) {
    '%' !in s
  }

  lemma {:induction false} BareHidesNothing(s: Text)
    requires Bare(s)
    ensures WellEscaped(s) && !HidesUpper(s)
  {
    if s != [] {
      assert s[0] in s && !IsEscape(s);
      BareHidesNothing(s[1..]);
    }
  }

  predicate ProperSegment(s: Segment) {
    WellEscaped(s.str) && forall p | p in s.params :: WellEscaped(p)
  }

  /** Only the first segment may be without a slash. */
  predicate ProperPath(ss: seq<Segment>) {
    (forall s | s in ss :: ProperSegment(s)) && forall i | 0 < i < |ss| :: Rooted(ss[i])
  }

  /** All parts have proper escapes, as those of a corrected URL have. */
  predicate Proper(u: UriState) {
    && WellEscaped(u.scheme) && WellEscaped(u.userinfo) && WellEscaped(u.host) && WellEscaped(u.opaquePart)
    && WellEscaped(u.fragment) && (forall q | q in u.query :: WellEscaped(q)) && ProperPath(u.segments)
  }

  /** What the tokenizer makes of a corrected URL: its schemes and hosts have no escapes. */
  predicate Tokenized(u: UriState) {
    Proper(u) && Bare(u.scheme) && Bare(u.host)
  }

  lemma {:induction false} AllOnce(ts: seq<Text>)
    requires forall t | t in ts :: WellEscaped(t)
    ensures NormedAll(NormedAll(ts)) == NormedAll(ts) && forall t | t in NormedAll(ts) :: WellEscaped(t)
  {
    if ts != [] {
      NormedOnce(ts[0]);
      AllOnce(ts[1..]);
      assert NormedAll(ts)[1..] == NormedAll(ts[1..]);
    }
  }

  /** A segment that is already normal. */
  predicate Settled(s: Segment) {
    NormedSegment(s) == s
  }

  lemma SegmentSettles(s: Segment)
    requires ProperSegment(s)
    ensures Settled(NormedSegment(s)) && ProperSegment(NormedSegment(s)) && (Rooted(NormedSegment(s)) <==> Rooted(s))
    ensures Settled(NormedSegment(s).(str := "/"))
  {
    NormedOnce(s.str);
    AllOnce(s.params);
    assert IsEscape("/") == false && Normed("/") == "/";
    if s.str != [] && IsEscape(s.str) {
      assert Normed(s.str)[0] == NormalEscape(s.str)[0];
    }
  }

  lemma {:induction false} SegmentsSettle(ss: seq<Segment>)
    requires forall s | s in ss :: ProperSegment(s)
    ensures var t := NormedSegments(ss);
      && |t| == |ss| && (forall i | 0 <= i < |ss| :: Rooted(t[i]) <==> Rooted(ss[i]))
      && forall s | s in t :: Settled(s) && ProperSegment(s) && Settled(s.(str := "/"))
  {
    hide ProperSegment, Settled, Rooted;
    if ss != [] {
      SegmentSettles(ss[0]);
      SegmentsSettle(ss[1..]);
    }
  }

  /** The pass makes no segments but by cutting some down to a slash. */
  lemma {:induction false} ResolvedFrom(stack: seq<Segment>, todo: seq<Segment>, ok: Segment -> bool)
    requires forall s | s in stack + todo :: ok(s) && ok(s.(str := "/"))
    ensures forall s | s in Resolved(stack, todo) :: ok(s)
    decreases |todo|
  {
    if todo != [] {
      var s := todo[0];
      assert s in stack + todo;
      assert forall x | x in todo[1..] :: x in stack + todo;
      assert forall x | x in stack :: x in stack + todo;
      if !Rooted(s) {
      } else if IsSelf(s) {
        if |todo| > 1 {
          ResolvedFrom(stack, todo[1..], ok);
        }
      } else if IsParent(s) {
        ResolvedFrom(if stack == [] then [] else stack[..|stack| - 1], todo[1..], ok);
      } else {
        ResolvedFrom(stack + [s], todo[1..], ok);
      }
    }
  }

  lemma {:induction false} SettledStay(ss: seq<Segment>)
    requires forall s | s in ss :: Settled(s)
    ensures NormedSegments(ss) == ss
  {
    if ss != [] {
      assert Settled(ss[0]) && ss == [ss[0]] + ss[1..];
      SettledStay(ss[1..]);
    }
  }

  /** A path of proper segments is settled by one pass; an absolute one is then plain, a relative one is
      left alone. */
  lemma SegmentsOnce(ss: seq<Segment>)
    requires ProperPath(ss)
    ensures var r := NormedPath(NormedSegments(ss));
      && NormedPath(NormedSegments(r)) == r && r != [] && (forall s | s in r :: Settled(s))
      && (if ss != [] && !Rooted(ss[0]) then r == NormedSegments(ss) else AllRooted(r) && Plain(r))
  {
    hide Rooted, ProperSegment, Settled;
    SegmentsSettle(ss);
    var t := NormedSegments(ss);
    if ss != [] && !Rooted(ss[0]) {
      Untouched(t);
      SettledStay(t);
    } else {
      assert forall i | 0 <= i < |t| :: Rooted(t[i]);
      ResolvedFrom([], t, Settled);
      PathOnce(t);
      SlashSettled();
      SettledStay(NormedPath(t));
      PlainRooted(NormedPath(t));
    }
  }

  lemma Untouched(t: seq<Segment>)
    requires t != [] && !Rooted(t[0])
    ensures NormedPath(t) == t
  {
    assert Resolved([], t) == [] + t;
  }

  lemma SlashSettled()
    ensures Settled(SLASH)
  {
    assert Normed("/") == "/" && NormedAll([]) == [];
  }

  lemma PlainRooted(t: seq<Segment>)
    requires Plain(t)
    ensures AllRooted(t)
  {
    forall s | s in t ensures Rooted(s) {
      var i :| 0 <= i < |t| && t[i] == s;
      if i < |t| - 1 {
        assert IsName(t[i]);
      }
    }
  }

  /** Normalizing a URI with proper escapes twice is normalizing it once exactly if neither its host nor its
      scheme hides a capital letter in an escape. */
  lemma NormalizedOnceExactly(u: UriState)
    requires Proper(u)
    ensures Normalized(Normalized(u)) == Normalized(u) <==> !HidesUpper(u.host) && !HidesUpper(u.scheme)
  {
    hide Normed, NormedName, NormedPath, NormedSegments, NormedAll, WellEscaped, HidesUpper, ProperPath;
    NameOnceExactly(u.host);
    NameOnceExactly(u.scheme);
    NormedOnce(u.userinfo);
    NormedOnce(u.opaquePart);
    NormedOnce(u.fragment);
    AllOnce(u.query);
    SegmentsOnce(u.segments);
  }

  /** What the tokenizer finds in a URL, absolute or relative, is normal after one pass. */
  lemma NormalizedOnce(u: UriState)
    requires Tokenized(u)
    ensures Normalized(Normalized(u)) == Normalized(u)
  {
    BareHidesNothing(u.host);
    BareHidesNothing(u.scheme);
    NormalizedOnceExactly(u);
  }

  // ---------------------------------------------------------------------------------------------
  // The URI object

  lemma NormedAllAt(ts: seq<Text>, i: nat)
    requires i < |ts|
    ensures NormedAll(ts[..i + 1]) == NormedAll(ts[..i]) + [Normed(ts[i])]
  {
    hide Normed;
    if i > 0 {
      NormedAllAt(ts[1..], i - 1);
      assert ts[..i + 1][1..] == ts[1..][..i] && ts[..i][1..] == ts[1..][..i - 1];
    }
  }

  lemma NormedSegmentsAt(ss: seq<Segment>, i: nat)
    requires i < |ss|
    ensures NormedSegments(ss[..i + 1]) == NormedSegments(ss[..i]) + [NormedSegment(ss[i])]
  {
    hide NormedSegment;
    if i > 0 {
      NormedSegmentsAt(ss[1..], i - 1);
      assert ss[..i + 1][1..] == ss[1..][..i] && ss[..i][1..] == ss[1..][..i - 1];
    }
  }

  lemma LoweredAt(s: Text, i: nat)
    requires i < |s|
    ensures Lowered(s[..i + 1]) == Lowered(s[..i]) + [Lower(s[i])]
  {
    if i > 0 {
      LoweredAt(s[1..], i - 1);
      assert s[..i + 1][1..] == s[1..][..i] && s[..i][1..] == s[1..][..i - 1];
    }
  }

  method ToLower(s: Text) returns (r: Text)
    ensures r == Lowered(s)
  {
    r := [];
    for i := 0 to |s|
      invariant r == Lowered(s[..i])
    {
      LoweredAt(s, i);
      r := r + [Lower(s[i])];
    }
    assert s[..|s|] == s;
  }

  method NormalizeTexts(ts: seq<Text>) returns (r: seq<Text>)
    ensures r == NormedAll(ts)
  {
    r := [];
    for i := 0 to |ts|
      invariant r == NormedAll(ts[..i])
    {
      NormedAllAt(ts, i);
      var t := NormalizeEscaped(ts[i]);
      r := r + [t];
    }
    assert ts[..|ts|] == ts;
  }

  class Uri {
    var scheme: Text
    var userinfo: Text
    var host: Text
    var port: int
    var opaquePart: Text
    var segments: seq<Segment>
    var query: seq<Text>
    var fragment: Text

    ghost function State(): UriState
      reads this
    {
      UriState(scheme, userinfo, host, port, opaquePart, segments, query, fragment)
    }

    /** A reference that is only a path. */
    constructor (segments: seq<Segment>)
      ensures State() == UriState([], [], [], 0, [], segments, [], [])
    {
      scheme, userinfo, host, port, opaquePart := [], [], [], 0, [];
      this.segments := segments;
      query, fragment := [], [];
    }

    method Normalize()
      modifies this
      ensures State() == Normalized(old(State()))
    {
      hide Normed, NormedPath;
      scheme := ToLower(scheme);
      host := ToLower(host);
      scheme := NormalizeEscaped(scheme);
      userinfo := NormalizeEscaped(userinfo);
      host := NormalizeEscaped(host);
      opaquePart := NormalizeEscaped(opaquePart);
      NormalizeSegments();
      query := NormalizeTexts(query);
      fragment := NormalizeEscaped(fragment);
      segments := NormalizePath(segments);
      if port == 0 {
        port := DefaultPort(scheme);
      }
    }

    /** A reference, found on the page `base`, becomes a whole URL. */
    method Link(base: UriState)
      requires NeedsPath(Normalized(State())) ==> base.segments != []
      modifies this
      ensures State() == Linked(old(State()), base)
    {
      hide Normalized, Absolute;
      Normalize();
      ToAbs(base);
      Normalize();
    }

    method NormalizeSegments()
      modifies this`segments
      ensures segments == NormedSegments(old(segments))
    {
      hide Normed;
      var r: seq<Segment> := [];
      for i := 0 to |segments|
        invariant segments == old(segments) && r == NormedSegments(segments[..i])
      {
        NormedSegmentsAt(segments, i);
        var str := NormalizeEscaped(segments[i].str);
        var params := NormalizeTexts(segments[i].params);
        r := r + [Segment(str, params)];
      }
      assert segments[..|segments|] == segments;
      segments := r;
    }

    /** A relative reference takes from its base what it lacks; a relative path replaces the last segment
        of the path of the base. */
    method ToAbs(base: UriState)
      requires NeedsPath(State()) ==> base.segments != []
      modifies this
      ensures State() == Absolute(old(State()), base)
      ensures Resolves(State(), old(State()), base)
    {
      hide Resolves;
      ResolvedExactly(State(), base, Absolute(State(), base));
      if scheme != [] {
        return;
      }
      scheme := base.scheme;
      if host == [] {
        host := base.host;
      } else {
        return;
      }
      if userinfo == [] {
        userinfo := base.userinfo;
      }
      if port == 0 {
        port := base.port;
      }
      if segments == [] {
        segments := base.segments;
      } else if !Rooted(segments[0]) {
        segments := segments[0 := segments[0].(str := ['/'] + segments[0].str)];
        segments := base.segments[..|base.segments| - 1] + segments;
      }
    }
  }

  /** It has a relative path of its own. */
  predicate NeedsPath(u: UriState) {
    u.scheme == [] && u.host == [] && u.segments != [] && !Rooted(u.segments[0])
  }

  function Absolute(u: UriState, base: UriState): UriState
    requires NeedsPath(u) ==> base.segments != []
  {
    if u.scheme != [] then u
    else if u.host != [] then u.(scheme := base.scheme)
    else
      u.(scheme := base.scheme, host := base.host, userinfo := if u.userinfo == [] then base.userinfo else u.userinfo,
         port := if u.port == 0 then base.port else u.port,
         segments :=
           if u.segments == [] then base.segments
           else if Rooted(u.segments[0]) then u.segments
           else base.segments[..|base.segments| - 1] + [u.segments[0].(str := ['/'] + u.segments[0].str)] + u.segments[1..])
  }

  /** A reference with a scheme stays as it is.  One with a host gets the scheme of its page.  Another one gets the
      scheme and the host of the page, and its user and port where it has none; and its path, where it has none,
      or the segments of the page but the last in front of a relative path, with a slash between.  Query, fragment
      and opaque part are always its own. */
  predicate Resolves(a: UriState, u: UriState, base: UriState) {
    && (a.opaquePart, a.query, a.fragment) == (u.opaquePart, u.query, u.fragment)
    && a.scheme == (if u.scheme != [] then u.scheme else base.scheme)
    && a.host == (if u.scheme != [] || u.host != [] then u.host else base.host)
    && a.userinfo == (if u.scheme != [] || u.host != [] || u.userinfo != [] then u.userinfo else base.userinfo)
    && a.port == (if u.scheme != [] || u.host != [] || u.port != 0 then u.port else base.port)
    && if u.scheme == [] && u.host == [] && u.segments == [] then a.segments == base.segments
       else if !NeedsPath(u) then a.segments == u.segments
       else
         var n := |base.segments| - 1;
         && 0 <= n && |a.segments| == n + |u.segments|
         && (forall i | 0 <= i < n :: a.segments[i] == base.segments[i])
         && a.segments[n].str == ['/'] + u.segments[0].str && a.segments[n].params == u.segments[0].params
         && forall i | 0 < i < |u.segments| :: a.segments[n + i] == u.segments[i]
  }

  lemma ResolvedExactly(u: UriState, base: UriState, a: UriState)
    requires NeedsPath(u) ==> base.segments != []
    ensures Resolves(a, u, base) <==> a == Absolute(u, base)
  {
    var b := Absolute(u, base);
    if NeedsPath(u) && Resolves(a, u, base) {
      assert forall i | 0 <= i < |a.segments| :: a.segments[i] == b.segments[i];
      assert a.segments == b.segments;
    }
  }

  function SegmentText(s: Segment): Text {
    s.str + Concat(s.params)
  }

  function Concat(ts: seq<Text>): Text {
    if ts == [] then [] else ts[0] + Concat(ts[1..])
  }

  function PathText(ss: seq<Segment>): Text {
    if ss == [] then [] else SegmentText(ss[0]) + PathText(ss[1..])
  }

  /** The text up to its last slash. */
  predicate UpToSlash(d: Text, text: Text) {
    d <= text && d != [] && d[|d| - 1] == '/' && '/' !in text[|d|..]
  }

  lemma {:induction false} PathTextAppend(a: seq<Segment>, b: seq<Segment>)
    ensures PathText(a + b) == PathText(a) + PathText(b)
  {
    hide SegmentText;
    if a == [] {
      assert a + b == b;
    } else {
      PathTextAppend(a[1..], b);
      assert (a + b)[1..] == a[1..] + b && (a + b)[0] == a[0];
      Associate(SegmentText(a[0]), PathText(a[1..]), PathText(b));
    }
  }

  /** As section 5.2.3 of RFC 3986 has it, a relative path replaces the path of the page behind its last slash. */
  lemma MergedPath(u: UriState, base: UriState, d: Text)
    requires NeedsPath(u) && base.segments != []
    requires var last := base.segments[|base.segments| - 1]; Rooted(last) && '/' !in SegmentText(last)[1..]
    requires UpToSlash(d, PathText(base.segments))
    ensures PathText(Absolute(u, base).segments) == d + PathText(u.segments)
  {
    var n := |base.segments| - 1;
    var front, last, first := base.segments[..n], base.segments[n], u.segments[0];
    var slashed := first.(str := ['/'] + first.str);
    assert base.segments == front + [last] && u.segments == [first] + u.segments[1..];
    assert Absolute(u, base).segments == front + ([slashed] + u.segments[1..]);
    Merged(front, last, first, u.segments[1..], d);
  }

  lemma Merged(front: seq<Segment>, last: Segment, first: Segment, rest: seq<Segment>, d: Text)
    requires Rooted(last) && '/' !in SegmentText(last)[1..] && UpToSlash(d, PathText(front + [last]))
    ensures PathText(front + ([first.(str := ['/'] + first.str)] + rest)) == d + PathText([first] + rest)
  {
    hide PathText, UpToSlash;
    var slashed := first.(str := ['/'] + first.str);
    assert SegmentText(slashed) == ['/'] + SegmentText(first);
    PathTextOne(last);
    PathTextAppend(front, [last]);
    OneDirectory(PathText(front), SegmentText(last), d);
    PathTextAppend(front, [slashed] + rest);
    PathTextAppend([slashed], rest);
    PathTextAppend([first], rest);
    PathTextOne(slashed);
    PathTextOne(first);
  }

  lemma PathTextOne(s: Segment)
    ensures PathText([s]) == SegmentText(s)
  {
    assert [s][1..] == [];
  }

  lemma OneDirectory(front: Text, last: Text, d: Text)
    requires last != [] && last[0] == '/' && '/' !in last[1..] && UpToSlash(d, front + last)
    ensures d == front + ['/']
  {
    var t := front + last;
    assert t[|front|] == '/';
    assert forall i | |d| <= i < |t| :: t[i] == t[|d|..][i - |d|] && t[i] != '/';
    assert forall i | |front| < i < |t| :: t[i] == last[1..][i - |front| - 1] && t[i] != '/';
    assert d[|d| - 1] == t[|d| - 1];
  }

  // ---------------------------------------------------------------------------------------------
  // A reference on a page

  /** What the constructor of a URL makes of a reference and the URL of its page. */
  function Linked(u: UriState, base: UriState): UriState
    requires NeedsPath(Normalized(u)) ==> base.segments != []
  {
    Normalized(Absolute(Normalized(u), base))
  }

  lemma {:induction false} BareNormed(s: Text)
    requires Bare(s)
    ensures Bare(NormedName(s))
  {
    if s != [] {
      assert s[0] in s && !IsEscape(s);
      LowerFacts(s[0]);
      BareNormed(s[1..]);
      NormedNameChar(s);
    }
  }

  lemma ProperSlash(s: Segment)
    requires ProperSegment(s)
    ensures ProperSegment(s.(str := "/")) && ProperSegment(s.(str := ['/'] + s.str))
  {
    assert (['/'] + s.str)[1..] == s.str && !IsEscape(['/'] + s.str);
    assert !IsEscape("/") && ("/")[1..] == [];
  }

  lemma ProperPathNormed(ss: seq<Segment>)
    requires ProperPath(ss)
    ensures ProperPath(NormedPath(NormedSegments(ss)))
  {
    hide Rooted, ProperSegment, Settled;
    SegmentsSettle(ss);
    SegmentsOnce(ss);
    var t := NormedSegments(ss);
    if ss == [] || Rooted(ss[0]) {
      forall s | s in t ensures ProperSegment(s.(str := "/")) {
        ProperSlash(s);
      }
      ResolvedFrom([], t, ProperSegment);
      SlashProper();
    }
  }

  lemma SlashProper()
    ensures ProperSegment(SLASH)
  {
    assert !IsEscape("/") && ("/")[1..] == [];
  }

  lemma TokenizedNormalized(u: UriState)
    requires Tokenized(u)
    ensures Tokenized(Normalized(u))
  {
    hide Normed, NormedName, NormedPath, NormedSegments, NormedAll, WellEscaped, Bare, ProperPath;
    BareNormed(u.scheme);
    BareNormed(u.host);
    BareHidesNothing(NormedName(u.scheme));
    BareHidesNothing(NormedName(u.host));
    NormedOnce(u.userinfo);
    NormedOnce(u.opaquePart);
    NormedOnce(u.fragment);
    AllOnce(u.query);
    ProperPathNormed(u.segments);
  }

  lemma AbsoluteTokenized(u: UriState, base: UriState)
    requires Tokenized(u) && Tokenized(base) && AllRooted(base.segments) && base.segments != []
    ensures Tokenized(Absolute(u, base))
  {
    hide WellEscaped, Bare, ProperSegment;
    if NeedsPath(u) {
      ProperSlash(u.segments[0]);
      var n, a := |base.segments| - 1, Absolute(u, base).segments;
      forall i | 0 <= i < |a| ensures ProperSegment(a[i]) && (i > 0 ==> Rooted(a[i])) {
        if i < n {
          assert a[i] == base.segments[i] && base.segments[i] in base.segments;
        } else if i > n {
          assert a[i] == u.segments[i - n];
        }
      }
    }
  }

  lemma FirstRooted(ss: seq<Segment>)
    requires AllRooted(ss)
    ensures ss == [] || Rooted(ss[0])
  {
  }

  lemma FirstStays(ss: seq<Segment>)
    requires ProperPath(ss)
    ensures var r := NormedPath(NormedSegments(ss));
      r != [] && (Rooted(r[0]) <==> ss == [] || Rooted(ss[0]))
  {
    hide Rooted, ProperSegment, Settled;
    SegmentsSettle(ss);
    SegmentsOnce(ss);
  }

  lemma NormedNameEmpty(s: Text)
    ensures NormedName(s) == [] <==> s == []
  {
    if s != [] {
      if IsEscape(s) {
        NormedNameEscape(s);
      } else {
        NormedNameChar(s);
      }
    }
  }

  lemma SlashStays()
    ensures NormedPath(NormedSegments([])) == [SLASH] == NormedPath(NormedSegments([SLASH]))
  {
    SlashSettled();
    SettledStay([SLASH]);
    assert [SLASH][1..] == [];
  }

  lemma AbsoluteRooted(u: UriState, base: UriState)
    requires base.segments != [] && AllRooted(base.segments) && ProperPath(u.segments) && u.segments != []
    ensures var a := Absolute(u, base).segments; a != [] && (Rooted(a[0]) <==> NeedsPath(u) || Rooted(u.segments[0]))
  {
    if NeedsPath(u) {
      var a := Absolute(u, base).segments;
      if |base.segments| > 1 {
        assert a[0] == base.segments[0] && base.segments[0] in base.segments;
      }
    }
  }

  /** The URL of a reference, found on a page with an absolute URL, is normal, and its path is plain unless
      the reference has a scheme or a host, and then a relative path, of its own.  A reference without a path
      leads to the root of the host, not to the page. */
  lemma LinkedNormal(u: UriState, page: UriState)
    requires Tokenized(u) && Tokenized(page) && AllRooted(page.segments)
    ensures var base := Normalized(page);
      && base.segments != []
      && var r := Linked(u, base);
      && Normalized(r) == r && r.segments != []
      && ((u.scheme == [] && u.host == []) || u.segments == [] || Rooted(u.segments[0]) ==> AllRooted(r.segments) && Plain(r.segments))
      && (u.segments == [] ==> r.segments == [SLASH])
  {
    hide Normed, NormedName, NormedAll, Bare, ProperSegment, Rooted, Plain, Resolved, ProperPath, NormedSegments, AllRooted;
    var base, v := Normalized(page), Normalized(u);
    TokenizedNormalized(page);
    TokenizedNormalized(u);
    SegmentsOnce(page.segments);
    SegmentsOnce(u.segments);
    FirstRooted(page.segments);
    NormedNameEmpty(u.scheme);
    NormedNameEmpty(u.host);
    SlashStays();
    FirstStays(u.segments);
    AbsoluteTokenized(v, base);
    var a := Absolute(v, base);
    NormalizedOnce(a);
    SegmentsOnce(a.segments);
    AbsoluteRooted(v, base);
  }

  // ---------------------------------------------------------------------------------------------
  // A link of the crawler, which is not normalized after it was resolved

  /** The path of a reference behind the path of its page. */
  function Behind(ss: seq<Segment>): seq<Segment>
    requires ss != []
  {
    [ss[0].(str := ['/'] + ss[0].str)] + ss[1..]
  }

  lemma SettledBehind(s: Segment)
    requires Settled(s)
    ensures Settled(s.(str := ['/'] + s.str))
  {
    assert (['/'] + s.str)[1..] == s.str && !IsEscape(['/'] + s.str);
  }

  /** A rooted path is normal exactly if it is plain. */
  lemma NormalExactly(ss: seq<Segment>)
    requires ss != [] && AllRooted(ss) && forall s | s in ss :: Settled(s)
    ensures NormedPath(NormedSegments(ss)) == ss <==> Plain(ss)
  {
    hide Settled;
    SettledStay(ss);
    PathOnce(ss);
    if Plain(ss) {
      PlainStays([], ss);
    }
  }

  lemma PlainBehind(front: seq<Segment>, last: Segment, tail: seq<Segment>)
    requires Plain(front + [last]) && tail != []
    ensures Plain(front + tail) <==> Plain(tail)
  {
    hide IsName;
    var all := front + tail;
    assert forall i | 0 <= i < |front| :: (front + [last])[i] == front[i] == all[i];
    assert forall i | 0 <= i < |tail| :: all[|front| + i] == tail[i];
  }

  lemma RelativeNormalExactly(ss: seq<Segment>, base: seq<Segment>)
    requires ss != [] && base != [] && AllRooted(base) && Plain(base)
    requires (forall s | s in ss :: Settled(s)) && (forall s | s in base :: Settled(s)) && forall i | 0 < i < |ss| :: Rooted(ss[i])
    ensures var a := base[..|base| - 1] + Behind(ss); NormedPath(NormedSegments(a)) == a <==> Plain(Behind(ss))
  {
    hide Settled, Plain;
    var front, tail := base[..|base| - 1], Behind(ss);
    SettledBehind(ss[0]);
    assert base == front + [base[|base| - 1]];
    PlainBehind(front, base[|base| - 1], tail);
    forall s | s in front + tail ensures Rooted(s) && Settled(s) {
      if s in front {
        assert s in base;
      } else {
        var i :| 0 <= i < |tail| && tail[i] == s;
        assert i > 0 ==> s == ss[i];
      }
    }
    NormalExactly(front + tail);
  }

  /** A resolved link is normal as it is exactly if it has a scheme of its own; or a host of its own, and a
      port that is not left to the scheme of the page; or no relative path, or one without dot segments. */
  lemma LinkNormalExactly(u: UriState, page: UriState)
    requires Tokenized(u) && Tokenized(page) && AllRooted(page.segments)
    ensures var v, base := Normalized(u), Normalized(page);
      && base.segments != [] && v.segments != []
      && var a := Absolute(v, base);
      Normalized(a) == a <==>
        if u.scheme != [] then true
        else if u.host != [] then v.port != 0 || DefaultPort(base.scheme) == 0
        else Rooted(v.segments[0]) || Plain(Behind(v.segments))
  {
    hide Normed, NormedName, NormedAll, Bare, ProperSegment, Rooted, Plain, Resolved, NormedSegments, AllRooted, Settled, ProperPath;
    var v, base := Normalized(u), Normalized(page);
    TokenizedNormalized(page);
    TokenizedNormalized(u);
    NormalizedOnce(page);
    NormalizedOnce(u);
    SegmentsOnce(page.segments);
    SegmentsOnce(u.segments);
    FirstRooted(page.segments);
    NormedNameEmpty(u.scheme);
    NormedNameEmpty(u.host);
    if u.scheme == [] && u.host == [] && !Rooted(v.segments[0]) {
      RestRooted(v.segments);
      RelativeNormalExactly(v.segments, base.segments);
      assert Absolute(v, base).segments == base.segments[..|base.segments| - 1] + Behind(v.segments);
    }
  }

  lemma RestRooted(ss: seq<Segment>)
    requires ProperPath(ss)
    ensures forall i | 0 < i < |ss| :: Rooted(ss[i])
  {
  }

  lemma DotsInside()
    ensures NormedPath([Segment("/d", []), Segment("/a", []), Segment("/..", []), Segment("/b", [])]) == [Segment("/d", []), Segment("/b", [])]
  {
    var d, x, up, b := Segment("/d", []), Segment("/a", []), Segment("/..", []), Segment("/b", []);
    assert [d, x, up, b] == [d] + [x, up] + [b] && [d] + [b] == [d, b];
    ParentCancels([], [d], x, up, [b]);
    PlainStays([], [d, b]);
  }

  /** On the page /d/p, the link a/../b leads to /d/a/../b, another address of /d/b. */
  method TwoAddresses(page: UriState) returns (link: Uri)
    requires page.segments == [Segment("/d", []), Segment("/p", [])]
    ensures fresh(link) && link.scheme == page.scheme && link.host == page.host
    ensures link.segments == [Segment("/d", []), Segment("/a", []), Segment("/..", []), Segment("/b", [])]
    ensures NormedPath(link.segments) == [Segment("/d", []), Segment("/b", [])]
  {
    link := new Uri([Segment("a", []), Segment("/..", []), Segment("/b", [])]);
    link.ToAbs(page);
    var first: Text, whole: Text := "a", "/a";
    assert ['/'] + first == whole;
    DotsInside();
  }

  /** Resolved against an absolute base, a reference has an absolute path, which normalization then frees
      of dots. */
  lemma AbsolutePath(u: UriState, base: UriState)
    requires base.segments != [] && AllRooted(base.segments)
    requires forall i | 0 < i < |u.segments| :: Rooted(u.segments[i])
    requires u.scheme == [] && u.host == []
    ensures var a := Absolute(u, base).segments; AllRooted(a) && Plain(NormedPath(a)) && NormedPath(a) != []
  {
    var a := Absolute(u, base).segments;
    forall i | 0 <= i < |a| ensures Rooted(a[i]) {
      var n := |base.segments| - 1;
      if u.segments == [] {
        assert a[i] in base.segments;
      } else if !Rooted(u.segments[0]) {
        if i < n {
          assert a[i] == base.segments[i] && base.segments[i] in base.segments;
        } else if i > n {
          assert a[i] == u.segments[i - n];
        }
      }
    }
    PathOnce(a);
  }
}
