/** Option and Result, and the few facts about sequences that several modules share. */
module Wrappers {

  datatype Option<+T> = None | Some(value: T)

  datatype Result<+T, +E> = Ok(value: T) | Err(error: E)

  /** No element occurs twice. */
  ghost predicate Distinct<T>(s: seq<T>) {
    forall i, j :: 0 <= i < j < |s| ==> s[i] != s[j]
  }

  function Flat<T>(ss: seq<seq<T>>): seq<T> {
    if ss == [] then [] else ss[0] + Flat(ss[1..])
  }

  lemma {:induction false} FlatConcat<T>(a: seq<seq<T>>, b: seq<seq<T>>)
    ensures Flat(a + b) == Flat(a) + Flat(b)
  {
    if a == [] {
      assert a + b == b;
    } else {
      assert (a + b)[0] == a[0] && (a + b)[1..] == a[1..] + b;
      FlatConcat(a[1..], b);
    }
  }

  lemma FlatMore<T>(pieces: seq<seq<T>>, p: seq<T>)
    ensures Flat(pieces + [p]) == Flat(pieces) + p
  {
    FlatConcat(pieces, [p]);
    assert Flat([p]) == p + Flat<T>([]);
  }

  /** The members of a set, ascending. */
  function SortedKeys(s: set<int>): (r: seq<int>)
    ensures forall i :: i in r <==> i in s
    ensures forall a, b :: 0 <= a < b < |r| ==> r[a] < r[b]
    decreases |s|
  {
    if s == {} then []
    else
      LeastExists(s);
      var least :| Least(s, least);
      [least] + SortedKeys(s - {least})
  }

  ghost predicate Ascending(keys: seq<int>) {
    forall a, b :: 0 <= a < b < |keys| ==> keys[a] < keys[b]
  }

  /** `list` is what `m` holds, each value under its key, `keys` being all of them, ascending. */
  ghost predicate ListedUnder<T>(m: map<int, T>, keys: seq<int>, list: seq<T>) {
    && Ascending(keys) && (forall i :: i in keys <==> i in m) && |list| == |keys|
    && forall n :: 0 <= n < |keys| ==> list[n] == m[keys[n]]
  }

  /** `list` is what `m` holds in the order of its keys: the `n`-th value is the one under the `n`-th smallest key. */
  ghost predicate InKeyOrder<T>(m: map<int, T>, list: seq<T>) {
    exists keys :: ListedUnder(m, keys, list)
  }

  lemma FirstIsIn<T>(s: seq<T>)
    ensures s == [] || exists x :: x in s
  {
    if s != [] { assert s[0] in s; }
  }

  lemma {:induction false} AscendingOnce(a: seq<int>, b: seq<int>)
    requires Ascending(a) && Ascending(b) && forall i :: i in a <==> i in b
    ensures a == b
  {
    if a == [] {
      FirstIsIn(b);
    } else {
      assert a[0] in b && b[0] in a;
      assert a == [a[0]] + a[1..] && b == [b[0]] + b[1..];
      forall i ensures i in a[1..] <==> i in b[1..] {
        assert i in a[1..] <==> i in a && i != a[0];
        assert i in b[1..] <==> i in b && i != b[0];
      }
      AscendingOnce(a[1..], b[1..]);
    }
  }

  lemma KeyOrderOnce<T>(m: map<int, T>, a: seq<T>, b: seq<T>)
    requires InKeyOrder(m, a) && InKeyOrder(m, b)
    ensures a == b
  {
    var x :| ListedUnder(m, x, a);
    var y :| ListedUnder(m, y, b);
    AscendingOnce(x, y);
  }

  lemma Inhabitant<T>(s: set<T>) returns (x: T)
    requires s != {}
    ensures x in s
  {
    x :| x in s;
  }

  predicate Least(s: set<int>, x: int) {
    x in s && forall i :: i in s ==> x <= i
  }

  lemma {:induction false} LeastExists(s: set<int>)
    requires s != {}
    ensures exists x :: Least(s, x)
    decreases |s|
  {
    var x := Inhabitant(s);
    if s == {x} {
      assert Least(s, x);
    } else {
      LeastExists(s - {x});
      var y :| Least(s - {x}, y);
      var least := if x < y then x else y;
      forall i | i in s ensures least <= i {
        if i != x { assert i in s - {x}; }
      }
      assert Least(s, least);
    }
  }
}
