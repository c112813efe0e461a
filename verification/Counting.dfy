/** How many entries of a finite map satisfy a predicate, and how that number moves. */
module Counting {

  ghost function Where<T>(m: map<nat, T>, f: T -> bool): set<nat> {
    set p | p in m && f(m[p])
  }

  ghost function Count<T>(m: map<nat, T>, f: T -> bool): nat {
    |Where(m, f)|
  }

  lemma CountMove<T>(m: map<nat, T>, p: nat, x: T, f: T -> bool)
    requires p in m
    ensures Count(m[p := x], f) == Count(m, f) - (if f(m[p]) then 1 else 0) + (if f(x) then 1 else 0)
  {
    var before, after := Where(m, f), Where(m[p := x], f);
    var others := set q | q in m && q != p && f(m[q]);
    assert before == if f(m[p]) then others + {p} else others;
    assert after == if f(x) then others + {p} else others;
  }

  lemma CountPositive<T>(m: map<nat, T>, p: nat, f: T -> bool)
    requires p in m && f(m[p])
    ensures 0 < Count(m, f)
  {
    assert p in Where(m, f);
  }

  lemma CountTwo<T>(m: map<nat, T>, p: nat, q: nat, f: T -> bool)
    requires p in m && q in m && p != q && f(m[p]) && f(m[q])
    ensures 1 < Count(m, f)
  {
    var rest := Where(m, f) - {p};
    assert q in rest;
    assert Where(m, f) == rest + {p};
  }

  /** If any entries satisfy `f`, one of them can be named. */
  lemma CountWitness<T>(m: map<nat, T>, f: T -> bool) returns (p: nat)
    requires 0 < Count(m, f)
    ensures p in m && f(m[p])
  {
    p :| p in Where(m, f);
  }

  lemma CountNone<T>(m: map<nat, T>, f: T -> bool)
    requires forall p | p in m :: !f(m[p])
    ensures Count(m, f) == 0
  {
    assert Where(m, f) == {};
  }

  lemma CountSplit<T(!new)>(m: map<nat, T>, f: T -> bool, g: T -> bool, h: T -> bool)
    requires forall x :: h(x) <==> f(x) || g(x)
    requires forall x :: !(f(x) && g(x))
    ensures Count(m, h) == Count(m, f) + Count(m, g)
  {
    assert Where(m, h) == Where(m, f) + Where(m, g);
    assert Where(m, f) !! Where(m, g);
  }

  lemma SomeElement(keys: set<int>)
    ensures keys == {} || exists x :: x in keys
  {
    if forall x :: x !in keys {
      assert keys == {};
    }
  }

  /** A finite set of numbers has a least one. */
  lemma {:induction false} MinOf(keys: set<int>)
    requires |keys| > 0
    ensures exists key :: key in keys && forall k | k in keys :: key <= k
  {
    SomeElement(keys);
    var x :| x in keys;
    var rest := keys - {x};
    assert keys == rest + {x};
    if rest == {} {
      assert x in keys && forall k | k in keys :: x <= k;
    } else {
      MinOf(rest);
      var y :| y in rest && forall k | k in rest :: y <= k;
      var m := if x < y then x else y;
      assert m in keys && forall k | k in keys :: m <= k;
    }
  }
}
