/** The merge of sorted streams of counted keys in src/util/sort.hpp. */
module Merge {
  import Counting

  /** Keys stand for any totally ordered type. */
  datatype Record = Record(key: int, data: int)

  /** Of an entry of the sort buffer: the sum so far, and the streams that wait for it to be written. */
  datatype Buffered = Buffered(sum: int, queues: seq<nat>)

  /** A stream that is null or already failed is never read. */
  datatype Stream = Unusable | Usable(records: seq<Record>)

  function Records(s: Stream): seq<Record> {
    if s.Usable? then s.records else []
  }

  type Streams = seq<Stream>

  predicate Increasing(rs: seq<Record>) {
    forall i, j | 0 <= i < j < |rs| :: rs[i].key < rs[j].key
  }

  // ---------------------------------------------------------------------------------------------
  // Sums over what has been read

  /** What a record adds to a key: its data, or 1 for counting. */
  function Weight(r: Record, key: int, counting: bool): int {
    if r.key != key then 0 else if counting then 1 else r.data
  }

  function Sum(rs: seq<Record>, key: int, counting: bool): int {
    if rs == [] then 0 else Sum(rs[..|rs| - 1], key, counting) + Weight(rs[|rs| - 1], key, counting)
  }

  predicate Positions(streams: Streams, pos: seq<nat>) {
    |pos| == |streams| && forall i | 0 <= i < |pos| :: pos[i] <= |Records(streams[i])|
  }

  function ReadSum(streams: Streams, pos: seq<nat>, key: int, counting: bool): int
    requires Positions(streams, pos)
  {
    if streams == [] then 0
    else
      var k := |streams| - 1;
      ReadSum(streams[..k], pos[..k], key, counting) + Sum(Records(streams[k])[..pos[k]], key, counting)
  }

  function Remaining(streams: Streams, pos: seq<nat>): nat
    requires Positions(streams, pos)
  {
    if streams == [] then 0
    else var k := |streams| - 1; Remaining(streams[..k], pos[..k]) + (|Records(streams[k])| - pos[k])
  }

  lemma {:induction false} ReadOne(streams: Streams, pos: seq<nat>, q: nat, key: int, counting: bool)
    requires Positions(streams, pos) && q < |pos| && pos[q] < |Records(streams[q])|
    ensures var now := pos[q := pos[q] + 1];
      && Positions(streams, now)
      && ReadSum(streams, now, key, counting) == ReadSum(streams, pos, key, counting) + Weight(Records(streams[q])[pos[q]], key, counting)
      && Remaining(streams, now) == Remaining(streams, pos) - 1
  {
    var now, k, rs := pos[q := pos[q] + 1], |streams| - 1, Records(streams[q]);
    if q == k {
      assert now[..k] == pos[..k];
      assert rs[..pos[q] + 1][..pos[q]] == rs[..pos[q]];
    } else {
      ReadOne(streams[..k], pos[..k], q, key, counting);
      assert now[..k] == pos[..k][q := pos[q] + 1];
    }
  }

  // ---------------------------------------------------------------------------------------------
  // The invariant

  datatype State = State(pos: seq<nat>, ready: seq<nat>, buffer: map<int, Buffered>, out: seq<Record>)

  ghost predicate NoRepeat(s: seq<nat>) {
    forall i, j | 0 <= i < |s| && 0 <= j < |s| && s[i] == s[j] :: i == j
  }

  ghost predicate Waits(s: State, i: nat, key: int) {
    key in s.buffer && i in s.buffer[key].queues
  }

  /** Every stream is ready, waits under the key it delivered last, or has been read to its end. */
  ghost predicate Placed(streams: Streams, s: State) {
    Positions(streams, s.pos) && Lists(streams, s) && Waiting(streams, s) && Somewhere(streams, s)
  }

  ghost predicate Lists(streams: Streams, s: State) {
    && NoRepeat(s.ready) && (forall i | i in s.ready :: i < |streams|)
    && forall key | key in s.buffer :: NoRepeat(s.buffer[key].queues)
  }

  ghost predicate Waiting(streams: Streams, s: State)
    requires Positions(streams, s.pos)
  {
    forall i: nat, key | Waits(s, i, key) ::
      i < |streams| && i !in s.ready && 0 < s.pos[i] && Records(streams[i])[s.pos[i] - 1].key == key
  }

  ghost predicate Somewhere(streams: Streams, s: State)
    requires Positions(streams, s.pos)
  {
    forall i | 0 <= i < |streams| && s.pos[i] < |Records(streams[i])| :: i in s.ready || exists key :: Waits(s, i, key)
  }

  /** Ready streams have not been read yet, or their last key is the one written last. */
  ghost predicate InStep(streams: Streams, s: State) {
    Positions(streams, s.pos) &&
    forall i | i in s.ready && i < |streams| ::
      if s.pos[i] == 0 then s.out == []
      else s.out != [] && Records(streams[i])[s.pos[i] - 1].key == s.out[|s.out| - 1].key
  }

  ghost predicate InputsIncrease(streams: Streams, pos: seq<nat>)
    requires Positions(streams, pos)
  {
    forall i | 0 <= i < |streams| :: Increasing(Records(streams[i])[..pos[i]])
  }

  /** What is written increases, and so it will with the next key. */
  ghost predicate OutputIncreases(s: State) {
    && Increasing(s.out)
    && (s.out != [] ==> forall key | key in s.buffer :: s.out[|s.out| - 1].key < key)
  }

  ghost predicate Ordered(streams: Streams, s: State) {
    Positions(streams, s.pos) && (InputsIncrease(streams, s.pos) <==> OutputIncreases(s))
  }

  /** For every key: what was read of it has been written or is in the buffer. */
  ghost predicate Conserved(streams: Streams, s: State) {
    && Positions(streams, s.pos)
    && (forall key :: ReadSum(streams, s.pos, key, false)
                       == Sum(s.out, key, false) + (if key in s.buffer then s.buffer[key].sum else 0))
    && (forall key :: ReadSum(streams, s.pos, key, true) > 0 <==> Sum(s.out, key, true) > 0 || key in s.buffer)
  }

  ghost predicate Inv(streams: Streams, s: State) {
    Placed(streams, s) && InStep(streams, s) && Ordered(streams, s) && Conserved(streams, s)
  }

  // ---------------------------------------------------------------------------------------------
  // The steps

  function Entry(buffer: map<int, Buffered>, key: int): Buffered {
    if key in buffer then buffer[key] else Buffered(0, [])
  }

  /** The stream at the end of the ready list has another record. */
  function AfterRead(s: State, q: nat, r: Record): State
    requires s.ready != [] && q < |s.pos|
  {
    var e := Entry(s.buffer, r.key);
    State(s.pos[q := s.pos[q] + 1], s.ready[..|s.ready| - 1],
          s.buffer[r.key := Buffered(e.sum + r.data, e.queues + [q])], s.out)
  }

  function AfterEnd(s: State): State
    requires s.ready != []
  {
    s.(ready := s.ready[..|s.ready| - 1])
  }

  function AfterWrite(s: State, key: int): State
    requires key in s.buffer
  {
    State(s.pos, s.ready + s.buffer[key].queues, s.buffer - {key}, s.out + [Record(key, s.buffer[key].sum)])
  }

  ghost predicate CanRead(streams: Streams, s: State, q: nat) {
    s.ready != [] && q == s.ready[|s.ready| - 1] && q < |streams| && Positions(streams, s.pos) && s.pos[q] < |Records(streams[q])|
  }

  /** After a read, only the stream that was read waits anew. */
  lemma ReadWaits(streams: Streams, s: State, q: nat, r: Record)
    requires Placed(streams, s) && CanRead(streams, s, q)
    ensures var t := AfterRead(s, q, r);
      && (forall i | i in t.ready :: i in s.ready && i != q) && (forall i | i in s.ready :: i in t.ready || i == q)
      && (forall i: nat, key :: Waits(t, i, key) <==> Waits(s, i, key) || (i == q && key == r.key))
      && forall key :: !Waits(s, q, key)
  {
    var t := AfterRead(s, q, r);
    assert q in s.ready;
    forall i: nat, key ensures Waits(t, i, key) <==> Waits(s, i, key) || (i == q && key == r.key) {
    }
  }

  lemma ReadPlaced(streams: Streams, s: State, q: nat)
    requires Placed(streams, s) && CanRead(streams, s, q)
    ensures Placed(streams, AfterRead(s, q, Records(streams[q])[s.pos[q]]))
  {
    var r := Records(streams[q])[s.pos[q]];
    var t := AfterRead(s, q, r);
    ReadWaits(streams, s, q, r);
    ReadLists(streams, s, q, r);
    hide Waits, Lists, NoRepeat;
    assert forall i | 0 <= i < |streams| :: t.pos[i] == if i == q then s.pos[q] + 1 else s.pos[i];
    assert Waits(t, q, r.key);
    assert forall i: nat, key | Waits(s, i, key) :: Waits(t, i, key);
  }

  lemma ReadLists(streams: Streams, s: State, q: nat, r: Record)
    requires Placed(streams, s) && CanRead(streams, s, q)
    ensures Lists(streams, AfterRead(s, q, r))
  {
    var t := AfterRead(s, q, r);
    assert q in s.ready && !Waits(s, q, r.key);
    assert q !in Entry(s.buffer, r.key).queues;
    assert NoRepeat(t.buffer[r.key].queues);
    assert forall key | key in t.buffer && key != r.key :: t.buffer[key] == s.buffer[key];
    assert forall i | i in t.ready :: i in s.ready;
  }

  lemma ReadInStep(streams: Streams, s: State, q: nat)
    requires Placed(streams, s) && InStep(streams, s) && CanRead(streams, s, q)
    ensures InStep(streams, AfterRead(s, q, Records(streams[q])[s.pos[q]]))
  {
    var t := AfterRead(s, q, Records(streams[q])[s.pos[q]]);
    assert forall i | i in t.ready :: i in s.ready && i != q;
  }

  /** The next record keeps its stream increasing exactly when its key is above the last one written. */
  lemma ReadOrdered(streams: Streams, s: State, q: nat)
    requires InStep(streams, s) && Ordered(streams, s) && CanRead(streams, s, q)
    ensures Ordered(streams, AfterRead(s, q, Records(streams[q])[s.pos[q]]))
  {
    var rs, p := Records(streams[q]), s.pos[q];
    assert q in s.ready;
    InputsNext(streams, s.pos, q);
    OutputNext(s, q, rs[p]);
  }

  lemma OutputNext(s: State, q: nat, r: Record)
    requires s.ready != [] && q < |s.pos|
    ensures OutputIncreases(AfterRead(s, q, r)) <==>
      OutputIncreases(s) && (s.out == [] || s.out[|s.out| - 1].key < r.key)
  {
    var t := AfterRead(s, q, r);
    assert forall key :: key in t.buffer <==> key in s.buffer || key == r.key;
  }

  lemma InputsNext(streams: Streams, pos: seq<nat>, q: nat)
    requires Positions(streams, pos) && q < |streams| && pos[q] < |Records(streams[q])|
    ensures var rs, p := Records(streams[q]), pos[q];
      Positions(streams, pos[q := p + 1]) &&
      (InputsIncrease(streams, pos[q := p + 1]) <==> InputsIncrease(streams, pos) && (p == 0 || rs[p - 1].key < rs[p].key))
  {
    var rs, p := Records(streams[q]), pos[q];
    var now := pos[q := p + 1];
    IncreasingNext(rs[..p], rs[p]);
    assert rs[..p + 1] == rs[..p] + [rs[p]];
    if InputsIncrease(streams, now) {
      assert Increasing(Records(streams[q])[..now[q]]);
      forall i | 0 <= i < |streams| ensures Increasing(Records(streams[i])[..pos[i]]) {
        assert Increasing(Records(streams[i])[..now[i]]);
      }
    }
    if InputsIncrease(streams, pos) && (p == 0 || rs[p - 1].key < rs[p].key) {
      forall i | 0 <= i < |streams| ensures Increasing(Records(streams[i])[..now[i]]) {
        assert Increasing(Records(streams[i])[..pos[i]]);
      }
    }
  }

  lemma IncreasingNext(rs: seq<Record>, r: Record)
    ensures Increasing(rs + [r]) <==> Increasing(rs) && (rs == [] || rs[|rs| - 1].key < r.key)
  {
    var now := rs + [r];
    if Increasing(now) {
      assert forall i | 0 <= i < |rs| :: now[i] == rs[i];
      assert rs != [] ==> now[|rs| - 1].key < now[|rs|].key;
    }
  }

  lemma ReadConserved(streams: Streams, s: State, q: nat)
    requires Conserved(streams, s) && CanRead(streams, s, q)
    ensures Conserved(streams, AfterRead(s, q, Records(streams[q])[s.pos[q]]))
  {
    var r := Records(streams[q])[s.pos[q]];
    var t := AfterRead(s, q, r);
    forall key, counting
      ensures ReadSum(streams, t.pos, key, counting) == ReadSum(streams, s.pos, key, counting) + Weight(r, key, counting)
    {
      ReadOne(streams, s.pos, q, key, counting);
    }
    ReadOne(streams, s.pos, q, r.key, true);
    forall key ensures ReadSum(streams, s.pos, key, true) >= 0 {
      CountNotNegative(streams, s.pos, key);
    }
  }

  lemma {:induction false} CountNotNegative(streams: Streams, pos: seq<nat>, key: int)
    requires Positions(streams, pos)
    ensures ReadSum(streams, pos, key, true) >= 0
  {
    if streams != [] {
      var k := |streams| - 1;
      CountNotNegative(streams[..k], pos[..k], key);
      SumNotNegative(Records(streams[k])[..pos[k]], key);
    }
  }

  lemma {:induction false} SumNotNegative(rs: seq<Record>, key: int)
    ensures Sum(rs, key, true) >= 0
    ensures Sum(rs, key, true) > 0 <==> exists i :: 0 <= i < |rs| && rs[i].key == key
  {
    if rs != [] {
      var k := |rs| - 1;
      SumNotNegative(rs[..k], key);
      if i :| 0 <= i < |rs| && rs[i].key == key && i < k {
        assert rs[..k][i].key == key;
      }
    }
  }

  lemma WriteInv(streams: Streams, s: State, key: int)
    requires Inv(streams, s) && s.ready == [] && key in s.buffer && forall k | k in s.buffer :: key <= k
    ensures Inv(streams, AfterWrite(s, key))
  {
    WritePlaced(streams, s, key);
    WriteOrdered(streams, s, key);
    WriteConserved(streams, s, key);
  }

  lemma WritePlaced(streams: Streams, s: State, key: int)
    requires Placed(streams, s) && s.ready == [] && key in s.buffer
    ensures Placed(streams, AfterWrite(s, key)) && InStep(streams, AfterWrite(s, key))
  {
    var t := AfterWrite(s, key);
    assert t.ready == s.buffer[key].queues;
    assert forall i: nat :: i in t.ready <==> Waits(s, i, key);
    assert forall i: nat, k :: Waits(t, i, k) <==> Waits(s, i, k) && k != key;
    forall i | 0 <= i < |streams| && t.pos[i] < |Records(streams[i])| ensures i in t.ready || exists k :: Waits(t, i, k) {
      var k :| Waits(s, i, k);
      assert k != key ==> Waits(t, i, k);
    }
  }

  lemma WriteOrdered(streams: Streams, s: State, key: int)
    requires Ordered(streams, s) && key in s.buffer && forall k | k in s.buffer :: key <= k
    ensures Ordered(streams, AfterWrite(s, key))
  {
    IncreasingNext(s.out, Record(key, s.buffer[key].sum));
  }

  lemma WriteConserved(streams: Streams, s: State, key: int)
    requires Conserved(streams, s) && key in s.buffer
    ensures Conserved(streams, AfterWrite(s, key))
  {
    var t := AfterWrite(s, key);
    assert t.out[..|s.out|] == s.out;
    forall k ensures Sum(s.out, k, true) >= 0 {
      SumNotNegative(s.out, k);
    }
  }

  ghost predicate AtEnd(streams: Streams, s: State, q: nat) {
    s.ready != [] && q == s.ready[|s.ready| - 1] && q < |streams| && Positions(streams, s.pos) && s.pos[q] == |Records(streams[q])|
  }

  lemma EndPlaced(streams: Streams, s: State, q: nat)
    requires Placed(streams, s) && AtEnd(streams, s, q)
    ensures Placed(streams, AfterEnd(s))
  {
    var t := AfterEnd(s);
    assert forall i | i in s.ready :: i in t.ready || i == q;
    assert forall i | i in t.ready :: i in s.ready;
    assert forall i: nat, k :: Waits(t, i, k) <==> Waits(s, i, k);
    forall i | 0 <= i < |streams| && t.pos[i] < |Records(streams[i])| ensures i in t.ready || exists k :: Waits(t, i, k) {
      if i !in s.ready {
        var k :| Waits(s, i, k);
        assert Waits(t, i, k);
      }
    }
  }

  lemma EndInv(streams: Streams, s: State, q: nat)
    requires Inv(streams, s) && AtEnd(streams, s, q)
    ensures Inv(streams, AfterEnd(s))
  {
    hide Placed, InputsIncrease, ReadSum, Sum, Increasing;
    EndPlaced(streams, s, q);
    assert forall i | i in AfterEnd(s).ready :: i in s.ready;
  }

  // ---------------------------------------------------------------------------------------------
  // The merge

  lemma StartInv(streams: Streams, s: State)
    requires |s.pos| == |streams| && (forall i | 0 <= i < |streams| :: s.pos[i] == 0)
    requires s.buffer == map[] && s.out == [] && NoRepeat(s.ready)
    requires forall i: nat :: i in s.ready <==> i < |streams| && streams[i].Usable?
    ensures Inv(streams, s)
  {
    forall key, counting ensures ReadSum(streams, s.pos, key, counting) == 0 {
      NothingRead(streams, s.pos, key, counting);
    }
  }

  lemma {:induction false} NothingRead(streams: Streams, pos: seq<nat>, key: int, counting: bool)
    requires Positions(streams, pos) && forall i | 0 <= i < |pos| :: pos[i] == 0
    ensures ReadSum(streams, pos, key, counting) == 0
  {
    if streams != [] {
      NothingRead(streams[..|streams| - 1], pos[..|streams| - 1], key, counting);
    }
  }

  /** Every record has been read. */
  function Whole(streams: Streams): (pos: seq<nat>)
    ensures Positions(streams, pos)
  {
    seq(|streams|, i requires 0 <= i < |streams| => |Records(streams[i])|)
  }

  lemma EndReached(streams: Streams, s: State)
    requires Inv(streams, s) && s.ready == [] && s.buffer == map[]
    ensures s.pos == Whole(streams)
  {
    assert forall i, k :: !Waits(s, i, k);
  }

  lemma MinKey(buffer: map<int, Buffered>)
    requires |buffer| > 0
    ensures exists key :: key in buffer && forall k | k in buffer :: key <= k
  {
    Counting.MinOf(buffer.Keys);
  }

  lemma WholeIncreases(streams: Streams)
    ensures InputsIncrease(streams, Whole(streams)) <==> forall i | 0 <= i < |streams| :: Increasing(Records(streams[i]))
  {
    var pos := Whole(streams);
    forall i | 0 <= i < |streams| ensures Records(streams[i])[..pos[i]] == Records(streams[i]) {
    }
  }

  /** What is written holds every key of the inputs and no other, with the data of all its records; it is
      strictly increasing, and so holds each key once, exactly when every input is. */
  method Merge(streams: Streams) returns (out: seq<Record>)
    ensures forall key :: Sum(out, key, false) == ReadSum(streams, Whole(streams), key, false)
    ensures forall key :: (exists i :: 0 <= i < |out| && out[i].key == key) <==> ReadSum(streams, Whole(streams), key, true) > 0
    ensures Increasing(out) <==> forall i | 0 <= i < |streams| :: Increasing(Records(streams[i]))
  {
    hide Inv, ReadSum, Sum, Increasing, Remaining;
    var pos: seq<nat> := seq(|streams|, _ => 0);
    var buffer: map<int, Buffered> := map[];
    out := [];
    var ready: seq<nat> := [];
    for i := 0 to |streams|
      invariant NoRepeat(ready) && forall k: nat :: k in ready <==> k < i && streams[k].Usable?
    {
      if streams[i].Usable? {
        ready := ready + [i];
      }
    }
    StartInv(streams, State(pos, ready, buffer, out));
    while |ready| > 0 || |buffer| > 0
      invariant Inv(streams, State(pos, ready, buffer, out))
      invariant Positions(streams, pos)
      decreases 2 * Remaining(streams, pos) + |buffer|, |ready|
    {
      ghost var s := State(pos, ready, buffer, out);
      if |ready| > 0 {
        var q := ready[|ready| - 1];
        ReadyIsStream(streams, s);
        if pos[q] < |Records(streams[q])| {
          var r := Records(streams[q])[pos[q]];
          ReadInv(streams, s, q);
          ReadOne(streams, pos, q, r.key, false);
          Fewer(buffer, r.key, Buffered(Entry(buffer, r.key).sum + r.data, Entry(buffer, r.key).queues + [q]));
          ready := ready[..|ready| - 1];
          buffer := buffer[r.key := Buffered(Entry(buffer, r.key).sum + r.data, Entry(buffer, r.key).queues + [q])];
          pos := pos[q := pos[q] + 1];
        } else {
          EndInv(streams, s, q);
          ready := ready[..|ready| - 1];
        }
      } else {
        MinKey(buffer);
        var key :| key in buffer && forall k | k in buffer :: key <= k;
        WriteInv(streams, s, key);
        Smaller(buffer, key);
        out := out + [Record(key, buffer[key].sum)];
        ready := ready + buffer[key].queues;
        buffer := buffer - {key};
      }
    }
    ghost var s := State(pos, ready, buffer, out);
    EndReached(streams, s);
    AtTheEnd(streams, s);
  }

  lemma ReadInv(streams: Streams, s: State, q: nat)
    requires Inv(streams, s) && CanRead(streams, s, q)
    ensures Inv(streams, AfterRead(s, q, Records(streams[q])[s.pos[q]]))
  {
    ReadPlaced(streams, s, q);
    ReadInStep(streams, s, q);
    ReadOrdered(streams, s, q);
    ReadConserved(streams, s, q);
  }

  lemma ReadyIsStream(streams: Streams, s: State)
    requires Inv(streams, s)
    ensures Positions(streams, s.pos) && forall i | 0 <= i < |s.ready| :: s.ready[i] < |streams|
  {
    forall i | 0 <= i < |s.ready| ensures s.ready[i] < |streams| {
      assert s.ready[i] in s.ready;
    }
  }

  lemma Fewer(buffer: map<int, Buffered>, key: int, e: Buffered)
    ensures |buffer[key := e]| <= |buffer| + 1
  {
    if key in buffer {
      assert buffer[key := e].Keys == buffer.Keys;
    } else {
      assert buffer[key := e].Keys == buffer.Keys + {key};
    }
  }

  lemma Smaller(buffer: map<int, Buffered>, key: int)
    requires key in buffer
    ensures |buffer - {key}| == |buffer| - 1
  {
    assert (buffer - {key}).Keys == buffer.Keys - {key};
  }

  lemma AtTheEnd(streams: Streams, s: State)
    requires Inv(streams, s) && s.buffer == map[] && s.pos == Whole(streams)
    ensures forall key :: Sum(s.out, key, false) == ReadSum(streams, Whole(streams), key, false)
    ensures forall key :: (exists i :: 0 <= i < |s.out| && s.out[i].key == key) <==> ReadSum(streams, Whole(streams), key, true) > 0
    ensures Increasing(s.out) <==> forall i | 0 <= i < |streams| :: Increasing(Records(streams[i]))
  {
    WholeIncreases(streams);
    forall key
      ensures (exists i :: 0 <= i < |s.out| && s.out[i].key == key) <==> ReadSum(streams, Whole(streams), key, true) > 0
    {
      SumNotNegative(s.out, key);
    }
  }
}
