/**
 * Sequence operations shared by the five keyed collections of a resume
 * (experience, education, projects, achievements, certifications) and by
 * the skills list. Each collection entry carries a string identifier; the
 * generic operations receive the function that reads it as `key`.
 */
module Collections {

  /** Number of entries of `xs` whose identifier is `id`. */
  function Count<T>(xs: seq<T>, key: T -> string, id: string): (n: nat)
    ensures n <= |xs|
    ensures n == 0 <==> forall i :: 0 <= i < |xs| ==> key(xs[i]) != id
  {
    if xs == [] then 0
    else (if key(xs[0]) == id then 1 else 0) + Count(xs[1..], key, id)
  }

  lemma {:induction false} CountAppend<T>(xs: seq<T>, ys: seq<T>, key: T -> string, id: string)
    ensures Count(xs + ys, key, id) == Count(xs, key, id) + Count(ys, key, id)
  {
    if xs != [] {
      assert (xs + ys)[0] == xs[0];
      assert (xs + ys)[1..] == xs[1..] + ys;
      CountAppend(xs[1..], ys, key, id);
    } else {
      assert xs + ys == ys;
    }
  }

  /** `a` is obtained from `b` by deleting some of its elements: `a` occurs in `b` in order. */
  ghost predicate IsSubsequence<T>(a: seq<T>, b: seq<T>)
    decreases |b|
  {
    a == [] || (b != [] && ((a[0] == b[0] && IsSubsequence(a[1..], b[1..])) || IsSubsequence(a, b[1..])))
  }

  /**
   * `r` is `xs` after every entry whose identifier is `id` has been taken out:
   * the survivors appear in `xs` in the same order, none of them has identifier
   * `id`, and the length drops by the number of entries that have it. Together
   * the three leave exactly one possible `r`: a subsequence that avoids `id` and
   * is that long must keep every other entry.
   */
  ghost predicate FiltersOut<T>(r: seq<T>, xs: seq<T>, key: T -> string, id: string)
  {
    && |r| == |xs| - Count(xs, key, id)
    && (forall i :: 0 <= i < |r| ==> key(r[i]) != id)
    && IsSubsequence(r, xs)
  }

  /** The `.map` of an update by identifier: `f` is applied to every entry whose identifier is `id`. */
  function UpdateWhere<T>(xs: seq<T>, key: T -> string, id: string, f: T -> T): (r: seq<T>)
    ensures |r| == |xs|
    ensures forall i :: 0 <= i < |xs| ==> r[i] == if key(xs[i]) == id then f(xs[i]) else xs[i]
  {
    if xs == [] then []
    else [if key(xs[0]) == id then f(xs[0]) else xs[0]] + UpdateWhere(xs[1..], key, id, f)
  }

  /** The `.filter` of a removal by identifier: keeps the entries whose identifier differs from `id`. */
  function RemoveWhere<T>(xs: seq<T>, key: T -> string, id: string): (r: seq<T>)
    ensures FiltersOut(r, xs, key, id)
  {
    if xs == [] then []
    else
      var rest := RemoveWhere(xs[1..], key, id);
      assert xs == [xs[0]] + xs[1..];
      if key(xs[0]) == id then rest
      else
        assert ([xs[0]] + rest)[1..] == rest;
        [xs[0]] + rest
  }

  lemma {:induction false} RemoveAbsent<T>(xs: seq<T>, key: T -> string, id: string)
    requires Count(xs, key, id) == 0
    ensures RemoveWhere(xs, key, id) == xs
  {
    if xs != [] {
      RemoveAbsent(xs[1..], key, id);
      assert xs == [xs[0]] + xs[1..];
    }
  }

  lemma {:induction false} RemoveAppend<T>(xs: seq<T>, ys: seq<T>, key: T -> string, id: string)
    ensures RemoveWhere(xs + ys, key, id) == RemoveWhere(xs, key, id) + RemoveWhere(ys, key, id)
  {
    if xs != [] {
      assert (xs + ys)[1..] == xs[1..] + ys;
      assert (xs + ys)[0] == xs[0];
      RemoveAppend(xs[1..], ys, key, id);
    } else {
      assert xs + ys == ys;
    }
  }

  /** Appending an entry with a fresh identifier and then removing that identifier restores the collection. */
  lemma AddThenRemove<T>(xs: seq<T>, key: T -> string, x: T)
    requires Count(xs, key, key(x)) == 0
    ensures RemoveWhere(xs + [x], key, key(x)) == xs
  {
    RemoveAppend(xs, [x], key, key(x));
    RemoveAbsent(xs, key, key(x));
    assert RemoveWhere([x], key, key(x)) == [];
  }

  /** Appending an entry raises the number of entries with its identifier by exactly one. */
  lemma AddCountsOnce<T>(xs: seq<T>, key: T -> string, x: T)
    ensures Count(xs + [x], key, key(x)) == Count(xs, key, key(x)) + 1
  {
    CountAppend(xs, [x], key, key(x));
  }

  /** Removing the same identifier twice is the same as removing it once. */
  lemma RemoveIdempotent<T>(xs: seq<T>, key: T -> string, id: string)
    ensures RemoveWhere(RemoveWhere(xs, key, id), key, id) == RemoveWhere(xs, key, id)
  {
    RemoveAbsent(RemoveWhere(xs, key, id), key, id);
  }

  /** An update that keeps identifiers, followed by a removal of the same identifier, is that removal alone. */
  lemma {:induction false} UpdateThenRemove<T>(xs: seq<T>, key: T -> string, id: string, f: T -> T)
    requires forall x :: key(f(x)) == key(x)
    ensures RemoveWhere(UpdateWhere(xs, key, id, f), key, id) == RemoveWhere(xs, key, id)
  {
    if xs != [] {
      var u := UpdateWhere(xs, key, id, f);
      assert u[1..] == UpdateWhere(xs[1..], key, id, f);
      UpdateThenRemove(xs[1..], key, id, f);
    }
  }

  /** The `.filter((_, i) => i !== index)` of the skills list: drops the element at position `index`, if any. */
  function DropIndex<T>(s: seq<T>, index: int): (r: seq<T>)
    ensures r == if 0 <= index < |s| then s[..index] + s[index + 1..] else s
  {
    if s == [] then []
    else
      var rest := DropIndex(s[1..], index - 1);
      assert s == [s[0]] + s[1..];
      if index == 0 then rest
      else
        assert 0 < index < |s| ==> s[..index] == [s[0]] + s[1..][..index - 1];
        [s[0]] + rest
  }
}
