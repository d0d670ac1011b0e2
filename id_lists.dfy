/**
 * The list operations the store rebuilds its collections with, over any
 * record type that carries a numeric id: `filter(x => x.id !== id)` and
 * `find(x => x.id === id)`. The id accessor is a parameter.
 */
module IdLists {
  import opened Wrappers

  /** Some element of `xs` carries `id`. */
  predicate HasId<T>(xs: seq<T>, idOf: T -> int, id: int)
  {
    exists i :: 0 <= i < |xs| && idOf(xs[i]) == id
  }

  /** No two positions of `xs` carry the same id. */
  predicate UniqueIds<T>(xs: seq<T>, idOf: T -> int)
  {
    forall i, j :: 0 <= i < j < |xs| ==> idOf(xs[i]) != idOf(xs[j])
  }

  /** How many elements of `xs` carry `id`. */
  function CountId<T>(xs: seq<T>, idOf: T -> int, id: int): (n: nat)
    ensures n <= |xs|
    ensures n == 0 <==> !HasId(xs, idOf, id)
  {
    if xs == [] then 0
    else
      assert forall i :: 0 < i < |xs| ==> xs[1..][i - 1] == xs[i];
      (if idOf(xs[0]) == id then 1 else 0) + CountId(xs[1..], idOf, id)
  }

  /** `xs.filter(x => x.id !== id)` */
  function Without<T(!new)>(xs: seq<T>, idOf: T -> int, id: int): (r: seq<T>)
    ensures |r| == |xs| - CountId(xs, idOf, id)
    ensures forall i :: 0 <= i < |r| ==> r[i] in xs && idOf(r[i]) != id
  {
    if xs == [] then []
    else
      (if idOf(xs[0]) == id then [] else [xs[0]]) + Without(xs[1..], idOf, id)
  }

  /** The filter keeps every element without the id as often as it occurs, and drops every element with it. */
  lemma {:induction false} WithoutMultiset<T(!new)>(xs: seq<T>, idOf: T -> int, id: int)
    ensures forall x :: multiset(Without(xs, idOf, id))[x] == if idOf(x) == id then 0 else multiset(xs)[x]
    decreases |xs|
  {
    if xs != [] {
      assert xs == [xs[0]] + xs[1..];
      WithoutMultiset(xs[1..], idOf, id);
    }
  }

  /** `xs.find(x => x.id === id)`: the first element carrying `id`, if any. */
  function Find<T>(xs: seq<T>, idOf: T -> int, id: int): (r: Option<T>)
    ensures r.None? <==> !HasId(xs, idOf, id)
    ensures r.Some? ==> exists i :: 0 <= i < |xs| && xs[i] == r.value && idOf(xs[i]) == id &&
                                    forall j :: 0 <= j < i ==> idOf(xs[j]) != id
  {
    if xs == [] then None
    else if idOf(xs[0]) == id then Some(xs[0])
    else
      var r := Find(xs[1..], idOf, id);
      assert r.Some? ==> exists i :: 1 <= i < |xs| && xs[i] == r.value && idOf(xs[i]) == id &&
                                    forall j :: 0 <= j < i ==> idOf(xs[j]) != id by {
        if r.Some? {
          var i :| 0 <= i < |xs[1..]| && xs[1..][i] == r.value && idOf(xs[1..][i]) == id &&
                   forall j :: 0 <= j < i ==> idOf(xs[1..][j]) != id;
          assert xs[i + 1] == r.value;
          assert forall j :: 1 <= j < i + 1 ==> idOf(xs[j]) != id by {
            forall j | 1 <= j < i + 1 ensures idOf(xs[j]) != id {
              assert xs[j] == xs[1..][j - 1];
            }
          }
        }
      }
      assert !HasId(xs[1..], idOf, id) ==> !HasId(xs, idOf, id) by {
        if HasId(xs, idOf, id) {
          var i :| 0 <= i < |xs| && idOf(xs[i]) == id;
          assert xs[1..][i - 1] == xs[i];
        }
      }
      r
  }

  /** Filtering distributes over concatenation: the kept elements stay in their order. */
  lemma {:induction false} WithoutAppend<T(!new)>(a: seq<T>, b: seq<T>, idOf: T -> int, id: int)
    ensures Without(a + b, idOf, id) == Without(a, idOf, id) + Without(b, idOf, id)
    decreases |a|
  {
    if a == [] {
      assert a + b == b;
    } else {
      var head := if idOf(a[0]) == id then [] else [a[0]];
      assert (a + b)[1..] == a[1..] + b;
      assert (a + b)[0] == a[0];
      calc {
        Without(a + b, idOf, id);
        head + Without(a[1..] + b, idOf, id);
        { WithoutAppend(a[1..], b, idOf, id); }
        head + (Without(a[1..], idOf, id) + Without(b, idOf, id));
        (head + Without(a[1..], idOf, id)) + Without(b, idOf, id);
        Without(a, idOf, id) + Without(b, idOf, id);
      }
    }
  }

  /** Filtering out an id that no element carries returns the list unchanged. */
  lemma {:induction false} WithoutAbsent<T(!new)>(xs: seq<T>, idOf: T -> int, id: int)
    requires !HasId(xs, idOf, id)
    ensures Without(xs, idOf, id) == xs
    decreases |xs|
  {
    if xs != [] {
      assert idOf(xs[0]) != id;
      assert !HasId(xs[1..], idOf, id);
      WithoutAbsent(xs[1..], idOf, id);
    }
  }

  /** After filtering, no element carries the id. */
  lemma WithoutRemovesAll<T(!new)>(xs: seq<T>, idOf: T -> int, id: int)
    ensures !HasId(Without(xs, idOf, id), idOf, id)
  {
  }

  /** Filtering twice by the same id is filtering once. */
  lemma WithoutIdempotent<T(!new)>(xs: seq<T>, idOf: T -> int, id: int)
    ensures Without(Without(xs, idOf, id), idOf, id) == Without(xs, idOf, id)
  {
    WithoutRemovesAll(xs, idOf, id);
    WithoutAbsent(Without(xs, idOf, id), idOf, id);
  }

  /** Every element kept by the filter was in the list. */
  lemma WithoutSubset<T(!new)>(xs: seq<T>, idOf: T -> int, id: int, x: T)
    requires x in Without(xs, idOf, id)
    ensures x in xs && idOf(x) != id
  {
  }

  /** Dropping the head of a list keeps its ids unique. */
  lemma UniqueTail<T>(xs: seq<T>, idOf: T -> int)
    requires UniqueIds(xs, idOf) && xs != []
    ensures UniqueIds(xs[1..], idOf)
  {
  }

  /** Putting an element with a new id in front of a list with unique ids keeps them unique. */
  lemma UniqueCons<T>(h: T, w: seq<T>, idOf: T -> int)
    requires UniqueIds(w, idOf) && !HasId(w, idOf, idOf(h))
    ensures UniqueIds([h] + w, idOf)
  {
  }

  /** Filtering keeps ids unique. */
  lemma {:induction false} WithoutKeepsUnique<T(!new)>(xs: seq<T>, idOf: T -> int, id: int)
    requires UniqueIds(xs, idOf)
    ensures UniqueIds(Without(xs, idOf, id), idOf)
    decreases |xs|
  {
    if xs != [] {
      var t := xs[1..];
      UniqueTail(xs, idOf);
      WithoutKeepsUnique(t, idOf, id);
      var w := Without(t, idOf, id);
      if idOf(xs[0]) != id {
        forall k | 0 <= k < |w| ensures idOf(xs[0]) != idOf(w[k]) {
          WithoutSubset(t, idOf, id, w[k]);
          var m :| 0 <= m < |t| && t[m] == w[k];
          assert xs[m + 1] == t[m];
        }
        UniqueCons(xs[0], w, idOf);
      }
    }
  }

  /** With unique ids, the element `g` carrying an id is the only thing the filter by that id removes. */
  lemma {:induction false} WithoutUniqueRemovesOne<T(!new)>(xs: seq<T>, idOf: T -> int, g: T)
    requires UniqueIds(xs, idOf) && g in xs
    ensures multiset(xs) == multiset(Without(xs, idOf, idOf(g))) + multiset{g}
    ensures |Without(xs, idOf, idOf(g))| == |xs| - 1
    decreases |xs|
  {
    var t := xs[1..];
    assert xs == [xs[0]] + t;
    UniqueTail(xs, idOf);
    if idOf(xs[0]) == idOf(g) {
      assert !HasId(t, idOf, idOf(g)) by {
        forall i | 0 <= i < |t| ensures idOf(t[i]) != idOf(g) {
          assert xs[i + 1] == t[i];
        }
      }
      assert xs[0] == g by {
        var i :| 0 <= i < |xs| && xs[i] == g;
        assert i == 0;
      }
      WithoutAbsent(t, idOf, idOf(g));
    } else {
      assert g in t;
      WithoutUniqueRemovesOne(t, idOf, g);
    }
  }

  // ---------------------------------------------------------------- uniqueness by counting

  /** Counting over a concatenation adds the counts of the parts. */
  lemma {:induction false} CountIdAppend<T>(a: seq<T>, b: seq<T>, idOf: T -> int, id: int)
    ensures CountId(a + b, idOf, id) == CountId(a, idOf, id) + CountId(b, idOf, id)
    decreases |a|
  {
    if a == [] {
      assert a + b == b;
    } else {
      assert (a + b)[1..] == a[1..] + b;
      CountIdAppend(a[1..], b, idOf, id);
    }
  }

  /** In a list with unique ids every id occurs at most once. */
  lemma {:induction false} UniqueCountAtMostOne<T>(xs: seq<T>, idOf: T -> int, id: int)
    requires UniqueIds(xs, idOf)
    ensures CountId(xs, idOf, id) <= 1
    decreases |xs|
  {
    if xs != [] {
      var t := xs[1..];
      UniqueTail(xs, idOf);
      UniqueCountAtMostOne(t, idOf, id);
      if idOf(xs[0]) == id {
        assert !HasId(t, idOf, id) by {
          forall i | 0 <= i < |t| ensures idOf(t[i]) != id {
            assert t[i] == xs[i + 1];
          }
        }
      }
    }
  }

  /** A list in which every id occurs at most once has unique ids. */
  lemma {:induction false} CountAtMostOneUnique<T>(xs: seq<T>, idOf: T -> int)
    requires forall id :: CountId(xs, idOf, id) <= 1
    ensures UniqueIds(xs, idOf)
    decreases |xs|
  {
    if xs != [] {
      var t := xs[1..];
      forall id ensures CountId(t, idOf, id) <= 1 {
        assert CountId(xs, idOf, id) == (if idOf(xs[0]) == id then 1 else 0) + CountId(t, idOf, id);
      }
      CountAtMostOneUnique(t, idOf);
      assert CountId(xs, idOf, idOf(xs[0])) == 1 + CountId(t, idOf, idOf(xs[0]));
      assert xs == [xs[0]] + t;
      UniqueCons(xs[0], t, idOf);
    }
  }

  /** A list in which no id occurs more often than in a list with unique ids has unique ids itself. */
  lemma UniqueUnderFewerIds<T>(a: seq<T>, b: seq<T>, idOf: T -> int)
    requires UniqueIds(a, idOf)
    requires forall id :: CountId(b, idOf, id) <= CountId(a, idOf, id)
    ensures UniqueIds(b, idOf)
  {
    forall id ensures CountId(b, idOf, id) <= 1 {
      UniqueCountAtMostOne(a, idOf, id);
    }
    CountAtMostOneUnique(b, idOf);
  }

  /** The filter by `id` leaves no element with `id` and every other id as often as before. */
  lemma {:induction false} CountWithout<T(!new)>(xs: seq<T>, idOf: T -> int, id: int, other: int)
    ensures CountId(Without(xs, idOf, id), idOf, other) == if other == id then 0 else CountId(xs, idOf, other)
    decreases |xs|
  {
    if xs != [] {
      var head := if idOf(xs[0]) == id then [] else [xs[0]];
      CountWithout(xs[1..], idOf, id, other);
      CountIdAppend(head, Without(xs[1..], idOf, id), idOf, other);
    }
  }

  /** Two lists carrying the same ids position by position count every id alike. */
  lemma {:induction false} CountSameIds<T>(a: seq<T>, b: seq<T>, idOf: T -> int, id: int)
    requires |a| == |b| && forall i :: 0 <= i < |a| ==> idOf(a[i]) == idOf(b[i])
    ensures CountId(a, idOf, id) == CountId(b, idOf, id)
    decreases |a|
  {
    if a != [] {
      assert forall i :: 0 <= i < |a| - 1 ==> a[1..][i] == a[i + 1] && b[1..][i] == b[i + 1];
      CountSameIds(a[1..], b[1..], idOf, id);
    }
  }

  /** Taking out the element at `j` takes one copy of it out of the multiset. */
  lemma RemoveAtMultiset<T>(s: seq<T>, j: int)
    requires 0 <= j < |s|
    ensures multiset(s) == multiset(s[..j] + s[j + 1..]) + multiset{s[j]}
  {
    assert s == s[..j] + [s[j]] + s[j + 1..];
  }

  /** Multiset union cancels. */
  lemma MultisetCancel<T>(a: multiset<T>, b: multiset<T>, c: multiset<T>)
    requires a + c == b + c
    ensures a == b
  {
    forall x ensures a[x] == b[x] {
      assert (a + c)[x] == (b + c)[x];
    }
  }

  /** Taking the first element of `a` and an equal element of `b` out of two lists with the same multiset leaves the same multiset. */
  lemma RemoveMatching<T>(a: seq<T>, b: seq<T>, j: int)
    requires multiset(a) == multiset(b) && a != [] && 0 <= j < |b| && b[j] == a[0]
    ensures multiset(a[1..]) == multiset(b[..j] + b[j + 1..])
  {
    assert a == [a[0]] + a[1..];
    assert multiset(a) == multiset(a[1..]) + multiset{a[0]};
    RemoveAtMultiset(b, j);
    MultisetCancel(multiset(a[1..]), multiset(b[..j] + b[j + 1..]), multiset{a[0]});
  }

  /** An element of a list's multiset sits at some index of the list. */
  lemma IndexOf<T>(s: seq<T>, x: T) returns (j: int)
    requires x in multiset(s)
    ensures 0 <= j < |s| && s[j] == x
  {
    j :| 0 <= j < |s| && s[j] == x;
  }

  /** Taking out the element at `j` lowers the count of its id by one and leaves other counts alone. */
  lemma RemoveAtCount<T>(s: seq<T>, j: int, idOf: T -> int, id: int)
    requires 0 <= j < |s|
    ensures CountId(s, idOf, id) == CountId(s[..j] + s[j + 1..], idOf, id) + CountId([s[j]], idOf, id)
  {
    assert s == s[..j] + [s[j]] + s[j + 1..];
    CountIdAppend(s[..j] + [s[j]], s[j + 1..], idOf, id);
    CountIdAppend(s[..j], [s[j]], idOf, id);
    CountIdAppend(s[..j], s[j + 1..], idOf, id);
  }

  /** Two lists holding the same multiset count every id alike. */
  lemma {:induction false} CountPermutation<T>(a: seq<T>, b: seq<T>, idOf: T -> int, id: int)
    requires multiset(a) == multiset(b)
    ensures CountId(a, idOf, id) == CountId(b, idOf, id)
    decreases |a|
  {
    if a != [] {
      var j := IndexOf(b, a[0]);
      RemoveMatching(a, b, j);
      CountPermutation(a[1..], b[..j] + b[j + 1..], idOf, id);
      RemoveAtCount(a, 0, idOf, id);
      RemoveAtCount(b, j, idOf, id);
      assert a[..0] + a[1..] == a[1..];
    }
  }
}
