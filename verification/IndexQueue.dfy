/** The queue with a key index of src/util/index_queue.hpp: a list whose nodes are also found by key. */
module IndexQueues {

  /** A list node; an iterator of the list is a reference to one. */
  class Cell<V> {
    const key: string
    const value: V

    constructor (key: string, value: V)
      ensures this.key == key && this.value == value
    {
      this.key := key;
      this.value := value;
    }
  }

  datatype Option<V> = None | Some(value: V)

  /** A queue seen from outside: keys with their values, oldest first. */
  type Entries<V> = seq<(string, V)>

  ghost function View<V>(list: seq<Cell<V>>): (es: Entries<V>)
    ensures |es| == |list|
    ensures forall i | 0 <= i < |list| :: es[i] == (list[i].key, list[i].value)
  {
    seq(|list|, i requires 0 <= i < |list| => (list[i].key, list[i].value))
  }

  ghost predicate Distinct<V>(es: Entries<V>) {
    forall i, j | 0 <= i < |es| && 0 <= j < |es| && es[i].0 == es[j].0 :: i == j
  }

  ghost predicate HasKey<V>(es: Entries<V>, key: string) {
    exists i :: 0 <= i < |es| && es[i].0 == key
  }

  /** Where a key stands, if it does. */
  ghost function Place<V>(es: Entries<V>, key: string): (i: nat)
    ensures i <= |es| && (i < |es| <==> HasKey(es, key))
    ensures i < |es| ==> es[i].0 == key
    ensures forall j | 0 <= j < i :: es[j].0 != key
  {
    if es == [] then 0
    else if es[0].0 == key then 0
    else
      var k := Place(es[1..], key);
      assert HasKey(es[1..], key) ==> es[k + 1].0 == key;
      assert forall j | 0 < j <= k :: es[j].0 == es[1..][j - 1].0;
      assert HasKey(es, key) ==> HasKey(es[1..], key) by {
        if j :| 0 <= j < |es| && es[j].0 == key {
          assert es[1..][j - 1].0 == key;
        }
      }
      k + 1
  }

  ghost function Lookup<V>(es: Entries<V>, key: string): Option<V> {
    var i := Place(es, key);
    if i < |es| then Some(es[i].1) else None
  }

  /** The queue without a key. */
  ghost function Without<V>(es: Entries<V>, key: string): Entries<V> {
    var i := Place(es, key);
    if i < |es| then Erased(es, i) else es
  }

  lemma PlaceAt<V>(es: Entries<V>, p: nat)
    requires Distinct(es) && p < |es|
    ensures Place(es, es[p].0) == p && Lookup(es, es[p].0) == Some(es[p].1)
  {
    assert HasKey(es, es[p].0);
  }

  lemma WithoutDistinct<V>(es: Entries<V>, key: string)
    requires Distinct(es)
    ensures Distinct(Without(es, key)) && !HasKey(Without(es, key), key)
  {
    var i, rest := Place(es, key), Without(es, key);
    if i < |es| {
      assert forall j | 0 <= j < |rest| :: rest[j] == if j < i then es[j] else es[j + 1];
    }
  }

  lemma LookupWithout<V>(es: Entries<V>, key: string, k: string)
    requires Distinct(es) && k != key
    ensures Lookup(Without(es, key), k) == Lookup(es, k)
  {
    var i, rest := Place(es, key), Without(es, key);
    if i < |es| {
      WithoutDistinct(es, key);
      var p := Place(es, k);
      if p < |es| {
        var r := if p < i then p else p - 1;
        assert rest[r] == es[p];
        PlaceAt(rest, r);
      } else {
        forall q | 0 <= q < |rest| ensures rest[q].0 != k {
          assert rest[q] == es[if q < i then q else q + 1];
        }
      }
    }
  }

  /** Every node is indexed under its key, and every index entry is a node of the list. */
  ghost predicate Agree<V>(list: seq<Cell<V>>, index: map<string, Cell<V>>) {
    && (forall i | 0 <= i < |list| :: list[i].key in index && index[list[i].key] == list[i])
    && (forall k | k in index :: index[k].key == k && index[k] in list)
    && (forall i, j | 0 <= i < |list| && 0 <= j < |list| && list[i].key == list[j].key :: i == j)
  }

  function Erased<T>(s: seq<T>, i: nat): seq<T>
    requires i < |s|
  {
    s[..i] + s[i + 1..]
  }

  lemma EraseAgrees<V>(list: seq<Cell<V>>, index: map<string, Cell<V>>, i: nat)
    requires Agree(list, index) && i < |list|
    ensures Agree(Erased(list, i), index - {list[i].key})
    ensures View(Erased(list, i)) == Erased(View(list), i)
  {
    var rest := Erased(list, i);
    assert forall j | 0 <= j < |rest| :: rest[j] == list[if j < i then j else j + 1];
    forall k | k in index - {list[i].key} ensures index[k] in rest {
      var j :| 0 <= j < |list| && list[j] == index[k];
      assert rest[if j < i then j else j - 1] == index[k];
    }
  }

  lemma AppendAgrees<V>(list: seq<Cell<V>>, index: map<string, Cell<V>>, c: Cell<V>)
    requires Agree(list, index) && c.key !in index
    ensures Agree(list + [c], index[c.key := c])
    ensures View(list + [c]) == View(list) + [(c.key, c.value)]
  {
    var now := index[c.key := c];
    forall k | k in now ensures now[k] in list + [c] {
    }
  }

  class IndexQueue<V> {
    var list: seq<Cell<V>>
    var index: map<string, Cell<V>>

    ghost predicate Valid()
      reads this
    {
      Agree(list, index)
    }

    ghost function Contents(): (es: Entries<V>)
      reads this
    {
      View(list)
    }

    constructor ()
      ensures Valid() && Contents() == []
    {
      list := [];
      index := map[];
    }

    lemma Indexed()
      requires Valid()
      ensures Distinct(Contents())
      ensures forall k | k in index :: index[k].key == k && index[k] in list
      ensures forall k :: k in index <==> HasKey(Contents(), k)
      ensures forall k | k in index :: Lookup(Contents(), k) == Some(index[k].value)
    {
      var es := Contents();
      forall k | k in index ensures HasKey(es, k) && Lookup(es, k) == Some(index[k].value) {
        var i :| 0 <= i < |list| && list[i] == index[k];
        assert es[i].0 == k;
        assert es[Place(es, k)].0 == k;
      }
    }

    method PopFront() returns (v: Option<Cell<V>>)
      requires Valid()
      modifies this
      ensures Valid()
      ensures match v
              case None => old(Contents()) == [] && Contents() == []
              case Some(c) =>
                && old(Contents()) != [] && Contents() == old(Contents())[1..]
                && old(Contents())[0] == (c.key, c.value)
    {
      hide Agree;
      if |list| == 0 {
        return None;
      }
      var c := list[0];
      EraseAgrees(list, index, 0);
      assert Erased(list, 0) == list[1..] && Erased(Contents(), 0) == Contents()[1..];
      list := list[1..];
      index := index - {c.key};
      v := Some(c);
    }

    /** Refuses a key that is already there. */
    method PushBack(key: string, value: V) returns (c: Option<Cell<V>>)
      requires Valid()
      modifies this
      ensures Valid()
      ensures c.None? <==> HasKey(old(Contents()), key)
      ensures Contents() == if c.None? then old(Contents()) else old(Contents()) + [(key, value)]
      ensures c.Some? ==> c.value.key == key && c.value.value == value && c.value in list
    {
      hide Agree;
      Indexed();
      if key in index {
        return None;
      }
      var cell := new Cell(key, value);
      AppendAgrees(list, index, cell);
      list := list + [cell];
      index := index[key := cell];
      c := Some(cell);
    }

    method Find(key: string) returns (c: Option<Cell<V>>)
      requires Valid()
      ensures c.None? <==> !HasKey(Contents(), key)
      ensures c.Some? ==>
        && c.value in list && c.value.key == key && Lookup(Contents(), key) == Some(c.value.value)
    {
      Indexed();
      c := if key in index then Some(index[key]) else None;
    }

    /** The list position of an iterator. */
    ghost function Position(c: Cell<V>): (i: nat)
      reads this
      requires Valid() && c in list
      ensures i < |list| && list[i] == c && i == Place(Contents(), c.key)
    {
      var i :| 0 <= i < |list| && list[i] == c;
      assert Contents()[i].0 == c.key;
      i
    }

    /** `erase` of the list, then of the index. */
    method Remove(key: string) returns (v: Option<V>)
      requires Valid()
      modifies this
      ensures Valid()
      ensures v == Lookup(old(Contents()), key)
      ensures Contents() == Without(old(Contents()), key)
    {
      hide Agree;
      Indexed();
      if key !in index {
        return None;
      }
      var c := index[key];
      var i := IndexOf(c);
      EraseAgrees(list, index, i);
      list := Erased(list, i);
      index := index - {key};
      v := Some(c.value);
    }

    method IndexOf(c: Cell<V>) returns (i: nat)
      requires Valid() && c in list
      ensures i < |list| && list[i] == c && i == Place(Contents(), c.key)
      ensures c.key in index && index[c.key] == c
    {
      ghost var p := Position(c);
      i := 0;
      while list[i].key != c.key
        invariant i <= p
        decreases p - i
      {
        i := i + 1;
      }
    }

    /** `splice` of one node to the end of the list. */
    method MoveToBack(c: Cell<V>)
      requires Valid() && c in list
      modifies this`list
      ensures Valid()
      ensures Contents() == Without(old(Contents()), c.key) + [(c.key, c.value)]
    {
      hide Agree;
      var i := IndexOf(c);
      EraseAgrees(list, index, i);
      AppendAgrees(Erased(list, i), index - {c.key}, c);
      assert (index - {c.key})[c.key := c] == index;
      list := Erased(list, i) + [c];
    }
  }
}
