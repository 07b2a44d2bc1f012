/** The list operations the tracker applies to its lists: membership-guarded
    append (`includes` then `push`) and removal by `filter` on id lists (a
    step's assignees and linked files, the store's listing order), and `find`
    on record lists. */
module Seqs {

  import opened Records

  predicate NoDup(s: seq<Id>)
  {
    forall i, j :: 0 <= i < j < |s| ==> s[i] != s[j]
  }

  /** Every occurrence of `x` filtered out, the rest kept in order. */
  function Without(xs: seq<Id>, x: Id): (r: seq<Id>)
    ensures x !in r
    ensures forall y :: y in r <==> y in xs && y != x
    ensures multiset(r) == multiset(xs)[x := 0]
    ensures |r| <= |xs|
  {
    if xs == [] then []
    else
      assert xs == [xs[0]] + xs[1..];
      if xs[0] == x then Without(xs[1..], x) else [xs[0]] + Without(xs[1..], x)
  }

  /** Filtering distributes over concatenation, so the survivors keep
      their relative order. */
  lemma {:induction false} WithoutConcat(a: seq<Id>, b: seq<Id>, x: Id)
    ensures Without(a + b, x) == Without(a, x) + Without(b, x)
  {
    if a == [] {
      assert a + b == b;
    } else {
      assert (a + b)[1..] == a[1..] + b;
      assert (a + b)[0] == a[0];
      WithoutConcat(a[1..], b, x);
    }
  }

  /** Removing an id that is not there changes nothing. */
  lemma {:induction false} WithoutAbsent(xs: seq<Id>, x: Id)
    ensures x !in xs ==> Without(xs, x) == xs
  {
    if xs != [] && x !in xs {
      WithoutAbsent(xs[1..], x);
    }
  }

  lemma {:induction false} WithoutNoDup(xs: seq<Id>, x: Id)
    requires NoDup(xs)
    ensures NoDup(Without(xs, x))
  {
    if xs != [] {
      assert NoDup(xs[1..]);
      WithoutNoDup(xs[1..], x);
      var r := Without(xs[1..], x);
      if xs[0] != x {
        assert xs[0] !in r;
        assert Without(xs, x) == [xs[0]] + r;
      }
    }
  }

  /** The list with `x` appended, unless it already holds `x`. */
  function AddIfAbsent(xs: seq<Id>, x: Id): (r: seq<Id>)
    ensures x in r
    ensures forall y :: y in r <==> y in xs || y == x
    ensures |xs| <= |r| <= |xs| + 1 && r[..|xs|] == xs
    ensures x in xs <==> r == xs
    ensures NoDup(xs) ==> NoDup(r)
  {
    if x in xs then xs else xs + [x]
  }

  /** Adding twice is adding once. */
  lemma AddIfAbsentIdempotent(xs: seq<Id>, x: Id)
    ensures AddIfAbsent(AddIfAbsent(xs, x), x) == AddIfAbsent(xs, x)
  {
  }

  /** Adding two ids in either order yields the same set of ids. */
  lemma AddIfAbsentCommutes(xs: seq<Id>, x: Id, y: Id)
    ensures forall z :: z in AddIfAbsent(AddIfAbsent(xs, x), y) <==> z in AddIfAbsent(AddIfAbsent(xs, y), x)
  {
  }

  /** Removing then adding an id restores its membership and keeps every other id. */
  lemma RemoveThenAdd(xs: seq<Id>, x: Id)
    ensures forall z :: z in AddIfAbsent(Without(xs, x), x) <==> z in xs || z == x
    ensures AddIfAbsent(Without(xs, x), x) == Without(xs, x) + [x]
  {
  }

  /** The first element satisfying `keep`, if any. */
  function FindFirst<T>(xs: seq<T>, keep: T -> bool): (r: Option<T>)
    ensures r.None? <==> forall i :: 0 <= i < |xs| ==> !keep(xs[i])
    ensures r.Some? ==> exists i :: 0 <= i < |xs| && xs[i] == r.value && keep(xs[i]) &&
                                    forall j :: 0 <= j < i ==> !keep(xs[j])
  {
    if xs == [] then None
    else if keep(xs[0]) then Some(xs[0])
    else
      var r := FindFirst(xs[1..], keep);
      assert forall i :: 1 <= i < |xs| ==> xs[i] == xs[1..][i - 1];
      r
  }

  /** The elements satisfying `keep`, each as often as in `xs`, in their original order. */
  function Filter<T(!new)>(xs: seq<T>, keep: T -> bool): (r: seq<T>)
    ensures forall x :: x in r <==> x in xs && keep(x)
    ensures forall x :: multiset(r)[x] == if keep(x) then multiset(xs)[x] else 0
    ensures |r| <= |xs|
  {
    if xs == [] then []
    else
      assert xs == [xs[0]] + xs[1..];
      (if keep(xs[0]) then [xs[0]] else []) + Filter(xs[1..], keep)
  }

  /** Filtering distributes over concatenation, so the kept elements keep
      their relative order. */
  lemma {:induction false} FilterConcat<T(!new)>(a: seq<T>, b: seq<T>, keep: T -> bool)
    ensures Filter(a + b, keep) == Filter(a, keep) + Filter(b, keep)
  {
    if a == [] {
      assert a + b == b;
    } else {
      assert (a + b)[1..] == a[1..] + b;
      assert (a + b)[0] == a[0];
      FilterConcat(a[1..], b, keep);
    }
  }

  /** Every id of `ids` filtered out of `xs`, the rest kept in order. */
  function Minus(xs: seq<Id>, ids: set<Id>): (r: seq<Id>)
    ensures forall y :: y in r <==> y in xs && y !in ids
    ensures |r| <= |xs|
  {
    if xs == [] then []
    else (if xs[0] in ids then [] else [xs[0]]) + Minus(xs[1..], ids)
  }

  /** Removing the ids of a list distributes over concatenation, so the
      remaining ids keep their relative order. */
  lemma {:induction false} MinusConcat(a: seq<Id>, b: seq<Id>, ids: set<Id>)
    ensures Minus(a + b, ids) == Minus(a, ids) + Minus(b, ids)
  {
    if a == [] {
      assert a + b == b;
    } else {
      assert (a + b)[1..] == a[1..] + b;
      assert (a + b)[0] == a[0];
      MinusConcat(a[1..], b, ids);
    }
  }

  /** Removing one more id from what is left is removing both at once. */
  lemma {:induction false} WithoutMinus(xs: seq<Id>, ids: set<Id>, x: Id)
    ensures Without(Minus(xs, ids), x) == Minus(xs, ids + {x})
  {
    if xs != [] {
      WithoutMinus(xs[1..], ids, x);
      var head := if xs[0] in ids then [] else [xs[0]];
      WithoutConcat(head, Minus(xs[1..], ids), x);
      assert Without(head, x) == if xs[0] in ids + {x} then [] else [xs[0]] by {
        if head != [] {
          assert head[1..] == [];
        }
      }
    }
  }

  /** Removing no ids keeps the list. */
  lemma {:induction false} MinusNone(xs: seq<Id>)
    ensures Minus(xs, {}) == xs
  {
    if xs != [] {
      MinusNone(xs[1..]);
      assert xs == [xs[0]] + xs[1..];
    }
  }

  /** The position of the first `x` in `xs`, or `|xs|` when there is none. */
  function IndexOf(xs: seq<string>, x: string): (i: nat)
    ensures i <= |xs|
    ensures i < |xs| ==> xs[i] == x
    ensures forall j :: 0 <= j < i ==> xs[j] != x
  {
    if xs == [] then 0
    else if xs[0] == x then 0
    else 1 + IndexOf(xs[1..], x)
  }
}
