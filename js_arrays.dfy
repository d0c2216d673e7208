/** The JavaScript array operations the registries are built from: `indexOf`/`findIndex`,
    and `splice` with the standard's normalisation of its start and delete count
    (section 23.1.3.31 of ECMA-262). */
module JsArrays {
  import opened Wrappers

  /** No element occurs twice. */
  predicate Distinct<T(==)>(xs: seq<T>) {
    forall i, j :: 0 <= i < j < |xs| ==> xs[i] != xs[j]
  }

  /** `xs.indexOf(x)`: the first position of `x`, `-1` becoming None. */
  function IndexOf<T(==)>(xs: seq<T>, x: T): (r: Option<nat>)
    ensures r.Some? ==> r.value < |xs| && xs[r.value] == x && forall j :: 0 <= j < r.value ==> xs[j] != x
    ensures r.None? <==> x !in xs
    decreases |xs|
  {
    if |xs| == 0 then None
    else if xs[0] == x then Some(0)
    else
      var rest := IndexOf(xs[1..], x);
      assert x in xs[1..] ==> x in xs;
      assert x in xs && xs[0] != x ==> x in xs[1..];
      if rest.Some? then Some(rest.value + 1) else None
  }

  /** In a sequence without repeats, the position of an element is its index. */
  lemma IndexOfDistinct<T>(xs: seq<T>, k: nat)
    requires Distinct(xs) && k < |xs|
    ensures IndexOf(xs, xs[k]) == Some(k)
  {
  }

  /** `splice(start, deleteCount)`'s start: a negative one counts from the end, and both
      are clamped to the array. */
  function SpliceStart(len: nat, start: int): (r: nat)
    ensures r <= len
  {
    if start < 0 then (if len + start < 0 then 0 else len + start)
    else if start > len then len
    else start
  }

  /** `splice`'s delete count, clamped between 0 and what follows the start. */
  function SpliceCount(len: nat, start: nat, count: int): (r: nat)
    requires start <= len
    ensures start + r <= len
  {
    if count < 0 then 0 else if count > len - start then len - start else count
  }

  /** `xs.splice(start, deleteCount)`: the array left behind, and the elements it returns. */
  function Splice<T>(xs: seq<T>, start: int, count: int): (r: (seq<T>, seq<T>))
    ensures multiset(r.0) + multiset(r.1) == multiset(xs)
  {
    var s := SpliceStart(|xs|, start);
    var n := SpliceCount(|xs|, s, count);
    assert xs == xs[..s] + xs[s..s + n] + xs[s + n..];
    (xs[..s] + xs[s + n..], xs[s..s + n])
  }

  /** A delete count of zero or less removes nothing, wherever it starts. */
  lemma SpliceNothing<T>(xs: seq<T>, start: int, count: int)
    requires count <= 0
    ensures Splice(xs, start, count) == (xs, [])
  {
    var s := SpliceStart(|xs|, start);
    assert xs[..s] + xs[s..] == xs;
  }

  /** `splice(i, 1)` at a position of the array removes that element alone. */
  lemma SpliceAt<T>(xs: seq<T>, i: nat)
    requires i < |xs|
    ensures Splice(xs, i, 1) == (xs[..i] + xs[i + 1..], [xs[i]])
  {
    assert SpliceStart(|xs|, i) == i && SpliceCount(|xs|, i, 1) == 1;
    assert xs[i..i + 1] == [xs[i]];
  }

  /** `splice(-1, 1)` removes the last element. */
  lemma SpliceLast<T>(xs: seq<T>)
    requires |xs| >= 1
    ensures Splice(xs, -1, 1) == (xs[..|xs| - 1], [xs[|xs| - 1]])
  {
    var k := |xs| - 1;
    assert SpliceStart(|xs|, -1) == k && SpliceCount(|xs|, k, 1) == 1;
    assert xs[k..k + 1] == [xs[k]] && xs[k + 1..] == [];
    assert xs[..k] + xs[k + 1..] == xs[..k];
  }

  /** `splice(0, length)` empties the array. */
  lemma SpliceAll<T>(xs: seq<T>)
    ensures Splice(xs, 0, |xs|) == ([], xs)
  {
    assert SpliceStart(|xs|, 0) == 0 && SpliceCount(|xs|, 0, |xs|) == |xs|;
    assert xs[0..|xs|] == xs;
  }

  // ---------------------------------------------------------------- splicing while iterating

  /** What a `for...of` over an array ends with when, at each element of `hit` it meets, it
      splices that element out (`xs.splice(xs.indexOf(x), 1)`) and collects it: the array
      left and the elements removed, from position k on with `removed` collected so far.
      The iterator reads the live array by position, so it goes on at k + 1 whatever was
      spliced. */
  function SpliceWhileIterating<T(==)>(xs: seq<T>, k: nat, removed: seq<T>, hit: set<T>): (seq<T>, seq<T>)
    decreases |xs| + 1 - k
  {
    if k >= |xs| then (xs, removed)
    else if xs[k] in hit then
      var at := IndexOf(xs, xs[k]).value;
      var cut := Splice(xs, at, 1);
      assert SpliceStart(|xs|, at) == at && SpliceCount(|xs|, at, 1) == 1;
      SpliceWhileIterating(cut.0, k + 1, removed + cut.1, hit)
    else
      SpliceWhileIterating(xs, k + 1, removed, hit)
  }

  /** The part of the array such a loop at position k has passed, and the part still
      ahead; after a splice the position can be one past the end. */
  function Passed<T>(xs: seq<T>, k: nat): seq<T> {
    if k <= |xs| then xs[..k] else xs
  }

  function Ahead<T>(xs: seq<T>, k: nat): seq<T> {
    if k <= |xs| then xs[k..] else []
  }

  /** The same loop described by what it does to an array without repeats: removing an
      element moves the next one into its place, and that one is passed over unexamined. */
  function SkipRemoved<T(==)>(xs: seq<T>, hit: set<T>): (r: (seq<T>, seq<T>))
    decreases |xs|
  {
    if |xs| == 0 then ([], [])
    else if xs[0] in hit then
      if |xs| == 1 then ([], [xs[0]])
      else
        var rest := SkipRemoved(xs[2..], hit);
        ([xs[1]] + rest.0, [xs[0]] + rest.1)
    else
      var rest := SkipRemoved(xs[1..], hit);
      ([xs[0]] + rest.0, rest.1)
  }

  /** A step past an element that stays. */
  lemma SkipKeep<T>(xs: seq<T>, k: nat, hit: set<T>)
    requires k < |xs| && xs[k] !in hit
    ensures Passed(xs, k + 1) + SkipRemoved(Ahead(xs, k + 1), hit).0 == Passed(xs, k) + SkipRemoved(Ahead(xs, k), hit).0
    ensures SkipRemoved(Ahead(xs, k + 1), hit).1 == SkipRemoved(Ahead(xs, k), hit).1
  {
    var t := xs[k..];
    assert t[1..] == xs[k + 1..];
    assert xs[..k + 1] == xs[..k] + [xs[k]];
  }

  /** A step that splices out the current element: the one after it is passed over. */
  lemma SkipRemove<T>(xs: seq<T>, k: nat, hit: set<T>)
    requires k < |xs| && xs[k] in hit
    ensures var cut := xs[..k] + xs[k + 1..];
      Passed(cut, k + 1) + SkipRemoved(Ahead(cut, k + 1), hit).0 == Passed(xs, k) + SkipRemoved(Ahead(xs, k), hit).0 &&
      [xs[k]] + SkipRemoved(Ahead(cut, k + 1), hit).1 == SkipRemoved(Ahead(xs, k), hit).1
  {
    var cut := xs[..k] + xs[k + 1..];
    var t := xs[k..];
    assert forall j :: 0 <= j < |cut| ==> cut[j] == (if j < k then xs[j] else xs[j + 1]);
    if k + 1 == |xs| {
      assert cut == xs[..k];
    } else {
      assert t[2..] == xs[k + 2..] == cut[k + 1..];
      assert cut[..k + 1] == xs[..k] + [xs[k + 1]];
    }
  }

  /** Removing the element at position k keeps an array without repeats. */
  lemma DistinctCut<T>(xs: seq<T>, k: nat)
    requires Distinct(xs) && k < |xs|
    ensures Distinct(xs[..k] + xs[k + 1..])
    ensures forall x :: x in xs[..k] + xs[k + 1..] ==> x in xs
  {
    var cut := xs[..k] + xs[k + 1..];
    assert forall j :: 0 <= j < |cut| ==> cut[j] == (if j < k then xs[j] else xs[j + 1]);
  }

  /** On an array without repeats, the element spliced out is the current one. */
  lemma SpliceWhileIteratingAt<T>(xs: seq<T>, k: nat, removed: seq<T>, hit: set<T>)
    requires Distinct(xs) && k < |xs| && xs[k] in hit
    ensures SpliceWhileIterating(xs, k, removed, hit) ==
      SpliceWhileIterating(xs[..k] + xs[k + 1..], k + 1, removed + [xs[k]], hit)
  {
    IndexOfDistinct(xs, k);
    SpliceAt(xs, k);
  }

  /** On an array without repeats, the loop from position k ends as the elements passed
      followed by the skipping description of what is ahead. */
  lemma {:induction false} SpliceWhileIteratingSkips<T>(xs: seq<T>, k: nat, removed: seq<T>, hit: set<T>)
    requires Distinct(xs) && k <= |xs| + 1
    ensures SpliceWhileIterating(xs, k, removed, hit) ==
      (Passed(xs, k) + SkipRemoved(Ahead(xs, k), hit).0, removed + SkipRemoved(Ahead(xs, k), hit).1)
    decreases |xs| + 1 - k
  {
    if k >= |xs| {
      assert Ahead(xs, k) == [] && Passed(xs, k) == xs;
      assert SkipRemoved<T>([], hit) == ([], []);
      assert xs + [] == xs && removed + [] == removed;
    } else if xs[k] in hit {
      DistinctCut(xs, k);
      var cut := xs[..k] + xs[k + 1..];
      SpliceWhileIteratingAt(xs, k, removed, hit);
      SpliceWhileIteratingSkips(cut, k + 1, removed + [xs[k]], hit);
      SkipRemove(xs, k, hit);
      assert removed + [xs[k]] + SkipRemoved(Ahead(cut, k + 1), hit).1 == removed + SkipRemoved(Ahead(xs, k), hit).1;
    } else {
      SpliceWhileIteratingSkips(xs, k + 1, removed, hit);
      SkipKeep(xs, k, hit);
    }
  }

  /** So on an array without repeats the whole loop is the skipping description. */
  lemma SpliceWhileIteratingIsSkipRemoved<T>(xs: seq<T>, hit: set<T>)
    requires Distinct(xs)
    ensures SpliceWhileIterating(xs, 0, [], hit) == SkipRemoved(xs, hit)
  {
    SpliceWhileIteratingSkips(xs, 0, [], hit);
    assert Passed(xs, 0) == [] && Ahead(xs, 0) == xs;
    var r := SkipRemoved(xs, hit);
    assert [] + r.0 == r.0 && [] + r.1 == r.1;
  }

  /** An element of `hit` right after a removed one stays in the array. */
  lemma SkippedStays<T>(xs: seq<T>, hit: set<T>)
    requires |xs| >= 2 && xs[0] in hit && xs[1] in hit
    ensures xs[1] in SkipRemoved(xs, hit).0
  {
  }

  /** Something is removed exactly when some element is in `hit`. */
  lemma {:induction false} SkipRemovesSome<T>(xs: seq<T>, hit: set<T>)
    ensures SkipRemoved(xs, hit).1 == [] <==> forall j :: 0 <= j < |xs| ==> xs[j] !in hit
    decreases |xs|
  {
    if |xs| > 0 && xs[0] !in hit {
      SkipRemovesSome(xs[1..], hit);
      assert forall j :: 1 <= j < |xs| ==> xs[j] == xs[1..][j - 1];
    }
  }

  /** The array without the element at position k, and that element; or the array whole
      and nothing when there is no position. */
  function Excise<T>(xs: seq<T>, k: Option<nat>): (r: (seq<T>, seq<T>))
    requires k.Some? ==> k.value < |xs|
    ensures |r.0| + |r.1| == |xs|
    ensures k.Some? ==> r.1 == [xs[k.value]] && forall j :: 0 <= j < |r.0| ==> r.0[j] == xs[if j < k.value then j else j + 1]
    ensures k.None? ==> r == (xs, [])
  {
    if k.Some? then (xs[..k.value] + xs[k.value + 1..], [xs[k.value]]) else (xs, [])
  }

  /** With no element in `hit`, the loop keeps the array as it is. */
  lemma {:induction false} SkipRemovedNone<T>(xs: seq<T>, hit: set<T>)
    requires forall j :: 0 <= j < |xs| ==> xs[j] !in hit
    ensures SkipRemoved(xs, hit) == (xs, [])
    decreases |xs|
  {
    if |xs| > 0 {
      assert forall j :: 0 <= j < |xs| - 1 ==> xs[1..][j] == xs[j + 1];
      SkipRemovedNone(xs[1..], hit);
      assert [xs[0]] + xs[1..] == xs;
    }
  }

  /** With exactly one element in `hit`, the loop removes just that one: there is nothing
      after it to pass over. */
  lemma {:induction false} SkipRemovedOne<T>(xs: seq<T>, hit: set<T>, k: nat)
    requires k < |xs| && xs[k] in hit
    requires forall j :: 0 <= j < |xs| && j != k ==> xs[j] !in hit
    ensures SkipRemoved(xs, hit) == (xs[..k] + xs[k + 1..], [xs[k]])
    decreases |xs|
  {
    if k == 0 {
      if |xs| > 1 {
        assert forall j :: 0 <= j < |xs| - 2 ==> xs[2..][j] == xs[j + 2];
        SkipRemovedNone(xs[2..], hit);
        assert [xs[1]] + xs[2..] == xs[..0] + xs[1..];
        assert [xs[0]] + [] == [xs[k]];
      }
    } else {
      assert forall j :: 0 <= j < |xs| - 1 ==> xs[1..][j] == xs[j + 1];
      SkipRemovedOne(xs[1..], hit, k - 1);
      assert [xs[0]] + (xs[1..][..k - 1] + xs[1..][k..]) == xs[..k] + xs[k + 1..];
    }
  }
}
