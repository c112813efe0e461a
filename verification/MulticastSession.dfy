/** src/commu/mcast_session.cpp: putting the fragments of one sender together, and its statistics. */
module MulticastSession {

  const FRAGMENT := 1024
  const INTERVAL := 1000
  const INITIAL := -1

  // ---------------------------------------------------------------------------------------------
  // Statistics

  datatype Stat = Stat(startMsgNo: int, msgCount: int, byteCount: int, totalMesgs: int, totalBytes: int, lostRatio: int)

  const FRESH_STAT := Stat(INITIAL, 0, 0, 0, 0, -1)

  /** C's remainder, which has the sign of the dividend. */
  function Rem(a: int, b: int): int
    requires b > 0
  {
    if a >= 0 then a % b else -((-a) % b)
  }

  /** C's division, towards zero. */
  function Quotient(a: int, b: int): int
    requires b != 0
  {
    var q := (if a >= 0 then a else -a) / (if b >= 0 then b else -b);
    if (a >= 0) == (b >= 0) then q else -q
  }

  function EndMsgNo(start: int, n: int): int {
    if n <= start + INTERVAL then n else n - Rem(n, INTERVAL)
  }

  predicate DividesByZero(st: Stat, n: int) {
    st.startMsgNo != INITIAL && EndMsgNo(st.startMsgNo, n) == st.startMsgNo
  }

  function Recalculated(st: Stat, n: int): Stat
    requires !DividesByZero(st, n)
  {
    if st.startMsgNo == INITIAL then st.(startMsgNo := n - Rem(n, INTERVAL))
    else
      var end := EndMsgNo(st.startMsgNo, n);
      st.(lostRatio := Quotient((end - st.startMsgNo - st.msgCount) * 100, end - st.startMsgNo),
          msgCount := 0, byteCount := 0, startMsgNo := end)
  }

  /** The statistics divide by zero exactly when they are closed at the number they start from. */
  lemma DividesByZeroExactly(st: Stat, n: int)
    ensures DividesByZero(st, n) <==> st.startMsgNo != INITIAL && n == st.startMsgNo
  {
    if n > st.startMsgNo + INTERVAL {
      assert Rem(n, INTERVAL) < INTERVAL;
    }
  }

  lemma DivBound(q: int, r: int, w: int, c: int)
    requires 0 <= r < w && q * w + r <= c * w
    ensures q <= c
  {
    assert (c - q) * w >= r;
  }

  /** A part of a whole is between 0 and 100 percent of it. */
  lemma RatioInRange(lost: int, whole: int)
    requires 0 <= lost <= whole && 0 < whole
    ensures 0 <= Quotient(lost * 100, whole) <= 100
  {
    DivBound(lost * 100 / whole, lost * 100 % whole, whole, 100);
  }

  /** Closing at `n` the statistics of `msgCount` messages since `startMsgNo` gives a percentage: going on, if
      hardly more messages came than there are numbers; going back, if hardly any came. */
  predicate InPercent(st: Stat, n: int) {
    var whole := EndMsgNo(st.startMsgNo, n) - st.startMsgNo;
    if whole > 0 then 100 * (st.msgCount - whole) < whole else 100 * st.msgCount < -whole
  }

  lemma RatioExactly(st: Stat, n: int)
    requires st.startMsgNo != INITIAL && !DividesByZero(st, n) && 0 <= st.msgCount
    ensures 0 <= Recalculated(st, n).lostRatio <= 100 <==> InPercent(st, n)
  {
    hide Quotient;
    var w := EndMsgNo(st.startMsgNo, n) - st.startMsgNo;
    PercentExactly(w - st.msgCount, w);
  }

  lemma PercentExactly(lost: int, whole: int)
    requires whole != 0 && lost <= whole
    ensures 0 <= Quotient(lost * 100, whole) <= 100 <==>
      if whole > 0 then 100 * -lost < whole else 100 * (whole - lost) < -whole
  {
    if lost >= 0 {
      DivideAt(lost * 100, whole, 101);
    } else if whole > 0 {
      DivideAt(-lost * 100, whole, 1);
    } else {
      DivideAt(-lost * 100, -whole, 101);
    }
  }

  lemma MulAtMost(a: int, b: int, w: int)
    requires a <= b && 0 <= w
    ensures a * w <= b * w
  {
  }

  /** A quotient is below a bound exactly if the dividend is below its multiple. */
  lemma DivideAt(a: nat, w: int, k: nat)
    requires w > 0
    ensures a / w < k <==> a < k * w
  {
    var q, r := a / w, a % w;
    assert a == q * w + r;
    if q < k {
      MulAtMost(q + 1, k, w);
    } else {
      MulAtMost(k, q, w);
    }
  }

  /** The next interval starts at a multiple of 1000 at or just below `n`. */
  lemma EndIsMultiple(start: int, n: int)
    requires start % INTERVAL == 0 && 0 <= start && start + INTERVAL <= n
    ensures EndMsgNo(start, n) % INTERVAL == 0 && start + INTERVAL <= EndMsgNo(start, n) <= n < EndMsgNo(start, n) + INTERVAL
  {
  }

  // ---------------------------------------------------------------------------------------------
  // Assembling

  datatype Packet = Packet(messageNum: int, fragNum: int, length: int, frag: string)

  /** A session; `delivered` holds the numbers of the messages it has handed out so far. */
  datatype SessionState = SessionState(from: string, msgNo: int, fragNo: int, msgBuffer: string, stat: Stat, delivered: seq<int>)

  function Fresh(from: string): SessionState {
    SessionState(from, INITIAL, -1, "", FRESH_STAT, [])
  }

  datatype Assembly = Threw | Partial(session: SessionState) | Complete(session: SessionState, message: string)

  function Placed(s: SessionState, p: Packet): SessionState {
    if p.messageNum == s.msgNo && s.fragNo >= 0 && p.fragNum == s.fragNo + 1 then
      s.(fragNo := p.fragNum, msgBuffer := s.msgBuffer + p.frag)
    else if p.messageNum > s.msgNo && p.fragNum == 0 then
      s.(msgNo := p.messageNum, fragNo := 0, msgBuffer := p.frag)
    else
      s.(msgNo := p.messageNum, fragNo := INITIAL)
  }

  function Counted(st: Stat, size: int): Stat {
    st.(msgCount := st.msgCount + 1, byteCount := st.byteCount + size,
        totalMesgs := st.totalMesgs + 1, totalBytes := st.totalBytes + size)
  }

  function HandedOut(s: SessionState): SessionState {
    s.(stat := Counted(s.stat, |s.msgBuffer|), msgBuffer := "", fragNo := INITIAL, delivered := s.delivered + [s.msgNo])
  }

  function Assembled(s: SessionState, p: Packet): Assembly {
    if p.messageNum < s.msgNo then Threw
    else
      var t := Placed(s, p);
      if t.msgNo >= 0 && t.fragNo >= 0 && p.length < FRAGMENT then Complete(HandedOut(t), t.msgBuffer)
      else Partial(t)
  }

  // ---------------------------------------------------------------------------------------------
  // What an honest sender puts on the wire

  /** The bytes of fragment number i. */
  function Piece(message: string, i: nat): string
    requires i <= |message| / FRAGMENT
  {
    var from := i * FRAGMENT;
    if |message| - from > FRAGMENT then message[from..from + FRAGMENT] else message[from..]
  }

  function FragmentOf(number: int, message: string, i: nat): Packet
    requires i <= |message| / FRAGMENT
  {
    Packet(number, i, |Piece(message, i)|, Piece(message, i))
  }

  /** The last word of a sender of n messages. */
  function Goodbye(n: nat): Packet {
    Packet(n, -1, 0, "")
  }

  /** The packet is a fragment of a message in `sent`, or the last word of a sender that has sent these. */
  ghost predicate Honest(p: Packet, sent: seq<string>) {
    if p.fragNum == -1 then sent != [] && p == Goodbye(|sent|)
    else
      && 0 <= p.messageNum < |sent| && 0 <= p.fragNum <= |sent[p.messageNum]| / FRAGMENT
      && p == FragmentOf(p.messageNum, sent[p.messageNum], p.fragNum)
  }

  /** Only the last piece is shorter than a full fragment. */
  lemma PieceLength(message: string, i: nat)
    requires i <= |message| / FRAGMENT
    ensures |Piece(message, i)| == if i < |message| / FRAGMENT then FRAGMENT else |message| % FRAGMENT
    ensures message[..i * FRAGMENT] + Piece(message, i) == message[..i * FRAGMENT + |Piece(message, i)|]
  {
  }

  // ---------------------------------------------------------------------------------------------
  // What a session in the buffer satisfies

  predicate Increasing(s: seq<int>) {
    forall i, j | 0 <= i < j < |s| :: s[i] < s[j]
  }

  lemma {:induction false} IncreasingSpan(s: seq<int>, lo: int, hi: int)
    requires Increasing(s) && forall x | x in s :: lo <= x <= hi
    ensures |s| <= hi - lo + 1 || s == []
  {
    if |s| > 1 {
      var k := |s| - 1;
      assert s[k] in s && s[0] in s;
      assert forall x | x in s[..k] :: x < s[k];
      IncreasingSpan(s[..k], lo, s[k] - 1);
    } else if |s| == 1 {
      assert s[0] in s;
    }
  }

  /** The buffer holds the first fragments of the current message, unless it was handed out or given up. */
  ghost predicate BufferSound(s: SessionState, sent: seq<string>) {
    && 0 <= s.msgNo < |sent| && -1 <= s.fragNo
    && (s.fragNo >= 0 ==>
          (s.fragNo + 1) * FRAGMENT <= |sent[s.msgNo]| && s.msgBuffer == sent[s.msgNo][..(s.fragNo + 1) * FRAGMENT])
  }

  /** Message numbers are handed out in order, and at most once. */
  ghost predicate DeliverySound(s: SessionState) {
    && Increasing(s.delivered)
    && forall x | x in s.delivered :: 0 <= x <= s.msgNo && (s.fragNo >= 0 ==> x < s.msgNo)
  }

  /** `msgCount` counts the messages handed out since `startMsgNo`. */
  ghost predicate CountSound(s: SessionState) {
    var st := s.stat;
    && 0 <= st.msgCount <= |s.delivered|
    && (forall i | 0 <= i < |s.delivered| - st.msgCount :: s.delivered[i] < st.startMsgNo)
    && (forall i | |s.delivered| - st.msgCount <= i < |s.delivered| :: st.startMsgNo <= s.delivered[i])
    && st.totalMesgs == |s.delivered|
  }

  ghost predicate RatioSound(st: Stat) {
    st.lostRatio == -1 || 0 <= st.lostRatio <= 100
  }

  /** The current interval starts at a multiple of 1000 and holds the current message. */
  ghost predicate StatSound(s: SessionState) {
    && s.stat.startMsgNo % INTERVAL == 0 && 0 <= s.stat.startMsgNo <= s.msgNo < s.stat.startMsgNo + INTERVAL
    && CountSound(s) && RatioSound(s.stat)
  }

  ghost predicate Sound(s: SessionState, sent: seq<string>) {
    BufferSound(s, sent) && DeliverySound(s) && StatSound(s)
  }

  /** Closing the statistics at any later number is well defined, and the ratio is a percentage. */
  lemma CloseSound(s: SessionState, n: int)
    requires DeliverySound(s) && StatSound(s) && s.msgNo < n
    ensures !DividesByZero(s.stat, n)
    ensures 0 <= Recalculated(s.stat, n).lostRatio <= 100
    ensures n >= s.stat.startMsgNo + INTERVAL ==>
      var start := Recalculated(s.stat, n).startMsgNo;
      start % INTERVAL == 0 && s.msgNo < start <= n < start + INTERVAL
  {
    DividesByZeroExactly(s.stat, n);
    var st, end, k := s.stat, EndMsgNo(s.stat.startMsgNo, n), |s.delivered| - s.stat.msgCount;
    var recent := s.delivered[k..];
    assert forall i | 0 <= i < |recent| :: recent[i] == s.delivered[k + i] && recent[i] in s.delivered;
    IncreasingSpan(recent, st.startMsgNo, s.msgNo);
    if n >= st.startMsgNo + INTERVAL {
      EndIsMultiple(st.startMsgNo, n);
    }
    RatioInRange(end - st.startMsgNo - st.msgCount, end - st.startMsgNo);
  }

  // What the ratio says

  /** The numbers of an interval. */
  function Numbers(start: int, end: int): (numbers: set<int>)
    requires start <= end
    ensures |numbers| == end - start && forall k :: k in numbers <==> start <= k < end
    decreases end - start
  {
    if start == end then {} else Numbers(start, end - 1) + {end - 1}
  }

  function Missing(delivered: seq<int>, start: int, end: int): set<int>
    requires start <= end
  {
    set k | k in Numbers(start, end) && k !in delivered
  }

  /** How many of a hundred messages of an interval were not delivered. */
  function LostShare(delivered: seq<int>, start: int, end: int): int
    requires start < end
  {
    Percent(|Missing(delivered, start, end)|, end - start)
  }

  function Percent(part: nat, whole: int): int
    requires 0 < whole
  {
    100 * part / whole
  }

  function Elements(s: seq<int>): set<int> {
    set x | x in s
  }

  lemma {:induction false} CountIncreasing(s: seq<int>)
    requires Increasing(s)
    ensures |Elements(s)| == |s|
  {
    if s == [] {
      assert Elements(s) == {};
    } else {
      var k := |s| - 1;
      CountIncreasing(s[..k]);
      assert s == s[..k] + [s[k]];
      assert s[k] !in s[..k];
      assert Elements(s) == Elements(s[..k]) + {s[k]};
    }
  }

  /** The messages counted are those delivered since the interval began. */
  lemma Recent(s: SessionState)
    requires DeliverySound(s) && StatSound(s)
    ensures var recent := s.delivered[|s.delivered| - s.stat.msgCount..];
      && Increasing(recent) && forall x :: x in recent <==> s.stat.startMsgNo <= x <= s.msgNo && x in s.delivered
  {
    hide RatioSound;
    var k := |s.delivered| - s.stat.msgCount;
    var recent := s.delivered[k..];
    forall x | s.stat.startMsgNo <= x && x in s.delivered ensures x in recent {
      var i :| 0 <= i < |s.delivered| && s.delivered[i] == x;
      assert recent[i - k] == x;
    }
    assert forall i | 0 <= i < |recent| :: recent[i] == s.delivered[k + i] && recent[i] in s.delivered;
  }

  lemma CountMissing(s: SessionState, end: int)
    requires DeliverySound(s) && StatSound(s) && s.msgNo < end
    ensures |Missing(s.delivered, s.stat.startMsgNo, end)| == end - s.stat.startMsgNo - s.stat.msgCount
  {
    var start, recent := s.stat.startMsgNo, s.delivered[|s.delivered| - s.stat.msgCount..];
    Recent(s);
    hide DeliverySound, Increasing, RatioSound;
    CountIncreasing(recent);
    assert Missing(s.delivered, start, end) == Numbers(start, end) - Elements(recent);
    assert Elements(recent) <= Numbers(start, end);
  }

  /** The ratio that is reported when an interval ends is the share of its messages that were not delivered.  It
      is 0 if all were, and 100 exactly if none was.  Before the next multiple of 1000 the interval ends with the
      number that it is closed at, and otherwise with the last multiple up to that. */
  lemma LossExact(s: SessionState, n: int)
    requires DeliverySound(s) && StatSound(s) && s.msgNo < n
    ensures !DividesByZero(s.stat, n) && s.stat.startMsgNo != INITIAL
    ensures var start, after := s.stat.startMsgNo, Recalculated(s.stat, n);
      var end := after.startMsgNo;
      && start < end && s.msgNo < end && end == (if n < start + INTERVAL then n else n - n % INTERVAL)
      && after.lostRatio == LostShare(s.delivered, start, end)
      && (Missing(s.delivered, start, end) == {} ==> after.lostRatio == 0)
      && (after.lostRatio == 100 <==> forall k | start <= k < end :: k !in s.delivered)
  {
    CloseSound(s, n);
    var start, end := s.stat.startMsgNo, EndMsgNo(s.stat.startMsgNo, n);
    hide DeliverySound, CountSound, RatioSound, Missing;
    CountMissing(s, end);
    ShareMeans(s.delivered, start, end);
  }

  lemma ShareMeans(delivered: seq<int>, start: int, end: int)
    requires start < end
    ensures Missing(delivered, start, end) == {} ==> LostShare(delivered, start, end) == 0
    ensures LostShare(delivered, start, end) == 100 <==> forall k | start <= k < end :: k !in delivered
  {
    var missing, all := Missing(delivered, start, end), Numbers(start, end);
    AllMissing(delivered, start, end);
    hide Missing, Percent;
    WholeSize(missing, all);
    WholeShare(|missing|, end - start);
  }

  lemma AllMissing(delivered: seq<int>, start: int, end: int)
    requires start <= end
    ensures Missing(delivered, start, end) <= Numbers(start, end)
    ensures Missing(delivered, start, end) == Numbers(start, end) <==> forall k | start <= k < end :: k !in delivered
  {
    var missing, all := Missing(delivered, start, end), Numbers(start, end);
    if forall k | start <= k < end :: k !in delivered {
      assert forall k :: k in missing <==> k in all;
    }
    if missing == all {
      forall k | start <= k < end ensures k !in delivered {
        assert k in all && k in missing;
      }
    }
  }

  lemma WholeSize(a: set<int>, b: set<int>)
    requires a <= b
    ensures |a| <= |b| && (|a| == |b| <==> a == b)
  {
    assert b == a + (b - a);
  }

  lemma WholeShare(part: nat, whole: int)
    requires part <= whole && 0 < whole
    ensures Percent(0, whole) == 0 && (Percent(part, whole) == 100 <==> part == whole)
  {
    DivideAt(100 * part, whole, 100);
    DivBound(100 * part / whole, 100 * part % whole, whole, 100);
  }

  /** The session just before a fragment is put in: it may be new, and its interval may have moved on. */
  ghost predicate Ready(s: SessionState, p: Packet, sent: seq<string>) {
    && s.msgNo <= p.messageNum && s.stat.startMsgNo % INTERVAL == 0
    && 0 <= s.stat.startMsgNo <= p.messageNum < s.stat.startMsgNo + INTERVAL
    && CountSound(s) && RatioSound(s.stat)
    && ((s.msgNo == INITIAL && s.fragNo == INITIAL && s.delivered == []) || (BufferSound(s, sent) && DeliverySound(s)))
  }

  /** Placing a fragment keeps what was handed out apart from what is being put together. */
  lemma PlaceSound(s: SessionState, p: Packet, sent: seq<string>)
    requires Ready(s, p, sent) && Honest(p, sent) && p.fragNum != -1
    ensures var t := Placed(s, p);
      && t.msgNo == p.messageNum && -1 <= t.fragNo && DeliverySound(t) && StatSound(t)
      && (t.fragNo >= 0 ==> t.fragNo == p.fragNum)
      && (t.fragNo >= 0 ==> t.msgBuffer == sent[p.messageNum][..p.fragNum * FRAGMENT + p.length])
  {
    PieceLength(sent[p.messageNum], p.fragNum);
  }

  lemma HandOutSound(t: SessionState)
    requires DeliverySound(t) && StatSound(t) && t.fragNo >= 0
    ensures DeliverySound(HandedOut(t)) && StatSound(HandedOut(t))
  {
    var u := HandedOut(t);
    assert forall i | 0 <= i < |t.delivered| :: u.delivered[i] == t.delivered[i] && t.delivered[i] in t.delivered;
  }

  /** A fragment never makes `assemble` throw, and what it completes is the message that was sent. */
  lemma AssembleSound(s: SessionState, p: Packet, sent: seq<string>)
    requires Ready(s, p, sent) && Honest(p, sent) && p.fragNum != -1
    ensures match Assembled(s, p)
            case Threw => false
            case Partial(t) => Sound(t, sent) && t.delivered == s.delivered && t.from == s.from
            case Complete(t, message) =>
              && Sound(t, sent) && t.from == s.from && t.delivered == s.delivered + [p.messageNum]
              && message == sent[p.messageNum]
  {
    var m, t := sent[p.messageNum], Placed(s, p);
    PlaceSound(s, p, sent);
    PieceLength(m, p.fragNum);
    if t.fragNo >= 0 {
      HandOutSound(t);
    }
  }

  function Bytes(sent: seq<string>, numbers: seq<int>): nat
    requires forall x | x in numbers :: 0 <= x < |sent|
  {
    if numbers == [] then 0
    else
      var before, last := numbers[..|numbers| - 1], numbers[|numbers| - 1];
      assert last in numbers && forall x | x in before :: x in numbers;
      Bytes(sent, before) + |sent[last]|
  }

  /** All bytes of the messages handed out are counted. */
  ghost predicate BytesCounted(s: SessionState, sent: seq<string>) {
    (forall x | x in s.delivered :: 0 <= x < |sent|) && s.stat.totalBytes == Bytes(sent, s.delivered)
  }

  /** A fragment keeps that, and the bytes of a message that it completes join those of the interval. */
  lemma AssembleCounts(s: SessionState, p: Packet, sent: seq<string>)
    requires Ready(s, p, sent) && Honest(p, sent) && p.fragNum != -1 && BytesCounted(s, sent)
    ensures match Assembled(s, p)
            case Threw => false
            case Partial(t) => BytesCounted(t, sent) && t.stat == s.stat
            case Complete(t, m) =>
              && BytesCounted(t, sent) && t.stat.byteCount == s.stat.byteCount + |m|
              && t.stat.msgCount == s.stat.msgCount + 1 && t.stat.totalMesgs == s.stat.totalMesgs + 1
  {
    AssembleSound(s, p, sent);
    BytesMore(sent, s.delivered, p.messageNum);
    hide Bytes, Ready, Honest, Sound;
  }

  lemma BytesMore(sent: seq<string>, numbers: seq<int>, n: int)
    requires (forall x | x in numbers :: 0 <= x < |sent|) && 0 <= n < |sent|
    ensures Bytes(sent, numbers + [n]) == Bytes(sent, numbers) + |sent[n]|
  {
    assert (numbers + [n])[..|numbers|] == numbers;
  }

  // ---------------------------------------------------------------------------------------------
  // A message whose fragments arrive in order and undisturbed

  function Fragments(number: int, message: string): seq<Packet> {
    seq(|message| / FRAGMENT + 1, i requires 0 <= i < |message| / FRAGMENT + 1 => FragmentOf(number, message, i))
  }

  function AssembledAll(s: SessionState, packets: seq<Packet>): Assembly
    decreases |packets|
  {
    if packets == [] then Partial(s)
    else
      match Assembled(s, packets[0])
      case Partial(t) => AssembledAll(t, packets[1..])
      case other => if |packets| == 1 then other else Threw
  }

  lemma {:induction false} FromThere(s: SessionState, number: int, message: string, i: nat)
    requires i <= |message| / FRAGMENT && 0 <= number
    requires if i == 0 then s.msgNo < number
             else s.msgNo == number && s.fragNo == i - 1 && s.msgBuffer == message[..i * FRAGMENT]
    ensures var r := AssembledAll(s, Fragments(number, message)[i..]);
      r.Complete? && r.message == message && r.session.delivered == s.delivered + [number]
    decreases |message| / FRAGMENT - i
  {
    var rest := Fragments(number, message)[i..];
    PieceLength(message, i);
    assert rest[0] == FragmentOf(number, message, i);
    if i < |message| / FRAGMENT {
      var t := Placed(s, rest[0]);
      assert Assembled(s, rest[0]) == Partial(t);
      assert t.msgBuffer == message[..(i + 1) * FRAGMENT];
      assert rest[1..] == Fragments(number, message)[i + 1..];
      FromThere(t, number, message, i + 1);
    } else {
      assert message[..i * FRAGMENT + |Piece(message, i)|] == message;
    }
  }

  lemma {:induction false} NotAgain(s: SessionState, number: int, packets: seq<Packet>, k: nat)
    requires s.msgNo == number && forall i | 0 <= i < |packets| :: packets[i].messageNum == number && packets[i].fragNum == k + i
    requires s.fragNo == -1 || (s.fragNo >= 0 && k == 0)
    ensures AssembledAll(s, packets).Partial?
    decreases |packets|
  {
    if packets != [] {
      var t := Placed(s, packets[0]);
      assert t.fragNo == -1;
      forall i | 0 <= i < |packets| - 1
        ensures packets[1..][i].messageNum == number && packets[1..][i].fragNum == k + 1 + i
      {
        assert packets[1..][i] == packets[i + 1];
      }
      NotAgain(t, number, packets[1..], k + 1);
    }
  }

  /** Whatever its length - the empty message and exact multiples of 1024 included - a message comes out
      whole exactly when the session has not yet seen its number. */
  lemma InOrderDelivery(s: SessionState, number: int, message: string)
    requires -1 <= s.fragNo && s.msgNo <= number && 0 <= number
    ensures var r := AssembledAll(s, Fragments(number, message));
      (r.Complete? && r.message == message) <==> s.msgNo != number
  {
    if s.msgNo == number {
      NotAgain(s, number, Fragments(number, message), 0);
    } else {
      assert Fragments(number, message)[0..] == Fragments(number, message);
      FromThere(s, number, message, 0);
    }
  }

  // ---------------------------------------------------------------------------------------------
  // The session object

  /** `CMultiCastSession` with its `CStat` member laid out in place. */
  class Session {
    const sender: string
    var msgNo: int
    var fragNo: int
    var msgBuffer: string
    var startMsgNo: int
    var msgCount: int
    var byteCount: int
    var totalMesgs: int
    var totalBytes: int
    var lostRatio: int
    ghost var delivered: seq<int>

    ghost function Statistics(): Stat
      reads this
    {
      Stat(startMsgNo, msgCount, byteCount, totalMesgs, totalBytes, lostRatio)
    }

    ghost function State(): SessionState
      reads this
    {
      SessionState(sender, msgNo, fragNo, msgBuffer, Statistics(), delivered)
    }

    constructor (sender: string)
      ensures State() == Fresh(sender)
    {
      this.sender := sender;
      msgNo, fragNo, msgBuffer := INITIAL, -1, "";
      startMsgNo, msgCount, byteCount, totalMesgs, totalBytes, lostRatio := -1, 0, 0, 0, 0, -1;
      delivered := [];
    }

    method CountMsg(size: nat)
      modifies this
      ensures State() == old(State()).(stat := Counted(old(Statistics()), size))
    {
      msgCount := msgCount + 1;
      byteCount := byteCount + size;
      totalMesgs := totalMesgs + 1;
      totalBytes := totalBytes + size;
    }

    /** `ok` is false where the original divides by zero. */
    method Recalc(messageNum: int) returns (ended: bool, ok: bool)
      modifies this
      ensures ok <==> !old(DividesByZero(Statistics(), messageNum))
      ensures ok ==> State() == old(State()).(stat := Recalculated(old(Statistics()), messageNum))
      ensures ended <==> ok && old(startMsgNo) != INITIAL
      ensures old(DeliverySound(State()) && StatSound(State()) && msgNo < messageNum) ==>
        ended && old(startMsgNo) < startMsgNo && lostRatio == LostShare(delivered, old(startMsgNo), startMsgNo)
    {
      hide DeliverySound, StatSound, LostShare, Quotient, Rem;
      if DeliverySound(State()) && StatSound(State()) && msgNo < messageNum {
        LossExact(State(), messageNum);
      }
      if startMsgNo == INITIAL {
        startMsgNo := messageNum - Rem(messageNum, INTERVAL);
        return false, true;
      }
      var endMsgNo;
      if messageNum <= startMsgNo + INTERVAL {
        endMsgNo := messageNum;
      } else {
        endMsgNo := messageNum - Rem(messageNum, INTERVAL);
      }
      if endMsgNo - startMsgNo == 0 {
        return false, false;
      }
      lostRatio := endMsgNo - startMsgNo - msgCount;
      lostRatio := lostRatio * 100;
      lostRatio := Quotient(lostRatio, endMsgNo - startMsgNo);
      msgCount := 0;
      byteCount := 0;
      startMsgNo := endMsgNo;
      return true, true;
    }

    /** `threw` is true where the original throws. */
    method Assemble(frag: string, messageNum: int, fragNum: int, length: int)
      returns (complete: bool, message: string, threw: bool)
      modifies this
      ensures match Assembled(old(State()), Packet(messageNum, fragNum, length, frag))
              case Threw => threw && !complete
              case Partial(s) => !threw && !complete && State() == s
              case Complete(s, m) => !threw && complete && State() == s && message == m
    {
      complete, message, threw := false, "", false;
      if messageNum < msgNo {
        threw := true;
        return;
      }
      if messageNum == msgNo && fragNo >= 0 && fragNum == fragNo + 1 {
        fragNo := fragNum;
        msgBuffer := msgBuffer + frag;
      } else if messageNum > msgNo && fragNum == 0 {
        msgNo := messageNum;
        fragNo := 0;
        msgBuffer := frag;
      } else {
        msgNo := messageNum;
        fragNo := INITIAL;
      }
      if msgNo >= 0 && fragNo >= 0 && length < FRAGMENT {
        CountMsg(|msgBuffer|);
        message := msgBuffer;
        msgBuffer := "";
        fragNo := INITIAL;
        delivered := delivered + [msgNo];
        complete := true;
      }
    }
  }
}
