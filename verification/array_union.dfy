/**
 * Ruby's `Array#|`, which `get_datapoints` uses to grow each category list:
 * the elements of both arrays, in order, each kept only where it first occurs.
 */
module ArrayUnion {
  predicate NoDups<T(==)>(s: seq<T>) {
    forall i, j | 0 <= i < j < |s| :: s[i] != s[j]
  }

  /** `s.uniq`: the first occurrence of every element, in order. */
  function Dedup<T(==)>(s: seq<T>): (r: seq<T>)
    ensures NoDups(r)
    ensures forall x | x in r :: x in s
    ensures forall x | x in s :: x in r
    ensures |r| <= |s|
    decreases |s|
  {
    if s == [] then []
    else
      var rest := Dedup(s[..|s| - 1]);
      var x := s[|s| - 1];
      assert forall y | y in s :: y in s[..|s| - 1] || y == x;
      if x in rest then rest else rest + [x]
  }

  /** `a | b`. */
  function Union<T(==)>(a: seq<T>, b: seq<T>): seq<T> {
    Dedup(a + b)
  }

  /** A list without repeats is its own `uniq`. */
  lemma {:induction false} DedupKeepsDistinct<T>(s: seq<T>)
    requires NoDups(s)
    ensures Dedup(s) == s
    decreases |s|
  {
    if s != [] {
      var p := s[..|s| - 1];
      assert NoDups(p);
      DedupKeepsDistinct(p);
      assert s[|s| - 1] !in p;
      assert p + [s[|s| - 1]] == s;
    }
  }

  /** Appending never reorders or drops what `uniq` already kept: `Dedup(a)` is a prefix of `Dedup(a + b)`. */
  lemma {:induction false} DedupPrefix<T>(a: seq<T>, b: seq<T>)
    ensures Dedup(a) <= Dedup(a + b)
    decreases |b|
  {
    if b == [] {
      assert a + b == a;
    } else {
      var b' := b[..|b| - 1];
      DedupPrefix(a, b');
      assert (a + b)[..|a + b| - 1] == a + b';
    }
  }

  /** Dropping repeats from a prefix gives a prefix of dropping repeats from the whole. */
  lemma DedupOfPrefix<T>(early: seq<T>, all: seq<T>)
    requires early <= all
    ensures Dedup(early) <= Dedup(all)
  {
    assert all == early + all[|early|..];
    DedupPrefix(early, all[|early|..]);
  }

  /** De-duplicating early changes nothing: `Dedup(Dedup(a) + b) == Dedup(a + b)`. */
  lemma {:induction false} DedupAbsorbsDedup<T>(a: seq<T>, b: seq<T>)
    ensures Dedup(Dedup(a) + b) == Dedup(a + b)
    decreases |b|
  {
    if b == [] {
      assert Dedup(a) + b == Dedup(a);
      assert a + b == a;
      DedupKeepsDistinct(Dedup(a));
    } else {
      var b' := b[..|b| - 1];
      DedupAbsorbsDedup(a, b');
      assert (Dedup(a) + b)[..|Dedup(a) + b| - 1] == Dedup(a) + b';
      assert (a + b)[..|a + b| - 1] == a + b';
    }
  }

  /**
   * `a |= b` on a list without repeats keeps `a` as it is at the front,
   * adds only elements not yet present, and changes nothing when every
   * element of `b` is already there.
   */
  lemma UnionExtends<T>(a: seq<T>, b: seq<T>)
    requires NoDups(a)
    ensures a <= Union(a, b)
    ensures NoDups(Union(a, b))
    ensures forall x | x in Union(a, b) :: x in a || x in b
    ensures forall x | x in a || x in b :: x in Union(a, b)
    ensures (forall x | x in b :: x in a) ==> Union(a, b) == a
  {
    DedupKeepsDistinct(a);
    DedupPrefix(a, b);
    if forall x | x in b :: x in a {
      assert |Union(a, b)| <= |a| by {
        var u := Union(a, b);
        var extra := u[|a|..];
        forall i | 0 <= i < |extra| ensures extra[i] in a {
          assert extra[i] == u[|a| + i] && u[|a| + i] in u;
        }
        if |extra| > 0 {
          var k :| 0 <= k < |a| && a[k] == extra[0];
        }
      }
    }
  }
}
