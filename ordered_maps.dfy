/** An insertion-ordered map (JavaScript `Map`) as an association list with unique keys:
    `set` on a present key replaces the value in place, on a new key appends it;
    `delete` removes the entry; iteration follows insertion order. */
module OrderedMaps {
  import opened Wrappers

  function Keys<K, V>(m: seq<(K, V)>): (r: seq<K>)
    ensures |r| == |m| && forall i :: 0 <= i < |m| ==> r[i] == m[i].0
  {
    if m == [] then [] else [m[0].0] + Keys(m[1..])
  }

  ghost predicate UniqueKeys<K, V>(m: seq<(K, V)>) {
    forall i, j :: 0 <= i < j < |m| ==> m[i].0 != m[j].0
  }

  /** No key of a is a key of b. */
  ghost predicate Apart<K, V>(a: seq<(K, V)>, b: seq<(K, V)>) {
    forall i, j :: 0 <= i < |a| && 0 <= j < |b| ==> a[i].0 != b[j].0
  }

  lemma UniqueAppend<K, V>(a: seq<(K, V)>, b: seq<(K, V)>)
    requires UniqueKeys(a) && UniqueKeys(b) && Apart(a, b)
    ensures UniqueKeys(a + b)
  {
    forall i, j | 0 <= i < j < |a + b| ensures (a + b)[i].0 != (a + b)[j].0 {
      if j < |a| {
        assert (a + b)[i] == a[i] && (a + b)[j] == a[j];
      } else if i < |a| {
        assert (a + b)[i] == a[i] && (a + b)[j] == b[j - |a|];
      } else {
        assert (a + b)[i] == b[i - |a|] && (a + b)[j] == b[j - |a|];
      }
    }
  }

  lemma ApartAppend<K, V>(a: seq<(K, V)>, b: seq<(K, V)>, c: seq<(K, V)>)
    requires Apart(a, c) && Apart(b, c)
    ensures Apart(a + b, c)
  {
    forall i, j | 0 <= i < |a + b| && 0 <= j < |c| ensures (a + b)[i].0 != c[j].0 {
      if i < |a| { assert (a + b)[i] == a[i]; } else { assert (a + b)[i] == b[i - |a|]; }
    }
  }

  /** Position of the first entry with key k. */
  function IndexOf<K(==), V>(m: seq<(K, V)>, k: K): (r: Option<nat>)
    ensures r.Some? ==> r.value < |m| && m[r.value].0 == k
    ensures r.Some? ==> forall j :: 0 <= j < r.value ==> m[j].0 != k
    ensures r.None? <==> forall j :: 0 <= j < |m| ==> m[j].0 != k
  {
    if m == [] then None
    else if m[0].0 == k then Some(0)
    else match IndexOf(m[1..], k) {
      case None => None
      case Some(i) => Some(i + 1)
    }
  }

  function Get<K(==), V>(m: seq<(K, V)>, k: K): Option<V> {
    match IndexOf(m, k) {
      case None => None
      case Some(i) => Some(m[i].1)
    }
  }

  function Put<K(==), V>(m: seq<(K, V)>, k: K, v: V): seq<(K, V)> {
    match IndexOf(m, k) {
      case None => m + [(k, v)]
      case Some(i) => m[i := (k, v)]
    }
  }

  function Remove<K(==), V>(m: seq<(K, V)>, k: K): seq<(K, V)> {
    match IndexOf(m, k) {
      case None => m
      case Some(i) => m[..i] + m[i + 1..]
    }
  }

  /** `new Map(list)`: setting every pair of the list in order. */
  function FromList<K(==), V>(l: seq<(K, V)>): seq<(K, V)> {
    if l == [] then [] else Put(FromList(l[..|l| - 1]), l[|l| - 1].0, l[|l| - 1].1)
  }

  /** IndexOf finds the first entry with the key. */
  lemma IndexOfAt<K, V>(m: seq<(K, V)>, k: K, i: nat)
    requires i < |m| && m[i].0 == k && forall j :: 0 <= j < i ==> m[j].0 != k
    ensures IndexOf(m, k) == Some(i)
  {
  }

  /** `set` makes the key map to the new value, leaves every other key alone, keeps the
      keys unique, and keeps the position of a present key or appends a new one last. */
  lemma PutSpec<K, V>(m: seq<(K, V)>, k: K, v: V)
    requires UniqueKeys(m)
    ensures UniqueKeys(Put(m, k, v))
    ensures Get(Put(m, k, v), k) == Some(v)
    ensures forall j :: j != k ==> Get(Put(m, k, v), j) == Get(m, j)
    ensures Keys(Put(m, k, v)) == if IndexOf(m, k).Some? then Keys(m) else Keys(m) + [k]
  {
    PutUnique(m, k, v);
    PutOthers(m, k, v);
  }

  lemma PutUnique<K, V>(m: seq<(K, V)>, k: K, v: V)
    requires UniqueKeys(m)
    ensures UniqueKeys(Put(m, k, v)) && Get(Put(m, k, v), k) == Some(v)
  {
    var p := Put(m, k, v);
    match IndexOf(m, k)
    case None =>
      assert p == m + [(k, v)];
      IndexOfAt(p, k, |m|);
    case Some(i) =>
      assert p == m[i := (k, v)];
      IndexOfAt(p, k, i);
  }

  lemma PutOthers<K, V>(m: seq<(K, V)>, k: K, v: V)
    ensures forall j :: j != k ==> Get(Put(m, k, v), j) == Get(m, j)
  {
    var p := Put(m, k, v);
    assert |p| >= |m| && forall a :: 0 <= a < |p| && p[a].0 != k ==> a < |m| && p[a] == m[a];
    forall j | j != k
      ensures Get(p, j) == Get(m, j)
    {
      match IndexOf(m, j)
      case None =>
        assert IndexOf(p, j).None?;
      case Some(i) =>
        IndexOfAt(p, j, i);
    }
  }

  /** The entries whose key is not k, in their order. */
  function DropKey<K(==), V>(m: seq<(K, V)>, k: K): seq<(K, V)>
    decreases |m|
  {
    if m == [] then [] else (if m[0].0 == k then [] else [m[0]]) + DropKey(m[1..], k)
  }

  lemma {:induction false} DropKeyAbsent<K, V>(m: seq<(K, V)>, k: K)
    requires forall j :: 0 <= j < |m| ==> m[j].0 != k
    ensures DropKey(m, k) == m
    decreases |m|
  {
    if m != [] {
      DropKeyAbsent(m[1..], k);
      assert [m[0]] + m[1..] == m;
    }
  }

  /** `delete` removes exactly the key and leaves every other key's value alone; its
      order is `RemoveFilters`. */
  lemma RemoveSpec<K, V>(m: seq<(K, V)>, k: K)
    requires UniqueKeys(m)
    ensures UniqueKeys(Remove(m, k))
    ensures Get(Remove(m, k), k) == None
    ensures forall j :: j != k ==> Get(Remove(m, k), j) == Get(m, j)
  {
    match IndexOf(m, k)
    case None =>
    case Some(i) =>
      RemoveShift(m, k, i);
      var p := Remove(m, k);
      assert IndexOf(p, k).None?;
      forall j | j != k
        ensures Get(p, j) == Get(m, j)
      {
        RemoveOther(m, k, i, j);
      }
  }

  /** Filtering out a key held by one entry alone cuts out that entry. */
  lemma {:induction false} DropKeyCut<K, V>(m: seq<(K, V)>, k: K, i: nat)
    requires i < |m| && m[i].0 == k
    requires forall j :: 0 <= j < |m| && j != i ==> m[j].0 != k
    ensures DropKey(m, k) == m[..i] + m[i + 1..]
    decreases i
  {
    assert forall j :: 0 <= j < |m| - 1 ==> m[1..][j] == m[j + 1];
    if i == 0 {
      DropKeyAbsent(m[1..], k);
      assert m[..0] + m[1..] == [] + DropKey(m[1..], k);
    } else {
      DropKeyCut(m[1..], k, i - 1);
      assert [m[0]] + (m[1..][..i - 1] + m[1..][i..]) == m[..i] + m[i + 1..];
    }
  }

  /** Without repeated keys, `delete` keeps the other entries in their order: cutting out
      the key's one entry is filtering out its key. */
  lemma RemoveFilters<K, V>(m: seq<(K, V)>, k: K)
    requires UniqueKeys(m)
    ensures Remove(m, k) == DropKey(m, k)
  {
    match IndexOf(m, k)
    case None =>
      DropKeyAbsent(m, k);
    case Some(i) =>
      DropKeyCut(m, k, i);
  }

  /** Removing the pair at i shifts every later pair down by one. */
  lemma RemoveShift<K, V>(m: seq<(K, V)>, k: K, i: nat)
    requires IndexOf(m, k) == Some(i)
    ensures |Remove(m, k)| == |m| - 1
    ensures forall a :: 0 <= a < |Remove(m, k)| ==> Remove(m, k)[a] == (if a < i then m[a] else m[a + 1])
  {
  }

  lemma RemoveOther<K, V>(m: seq<(K, V)>, k: K, i: nat, j: K)
    requires UniqueKeys(m) && IndexOf(m, k) == Some(i) && j != k
    requires |Remove(m, k)| == |m| - 1
    requires forall a :: 0 <= a < |Remove(m, k)| ==> Remove(m, k)[a] == (if a < i then m[a] else m[a + 1])
    ensures Get(Remove(m, k), j) == Get(m, j)
  {
    var p := Remove(m, k);
    match IndexOf(m, j)
    case None =>
      assert IndexOf(p, j).None?;
    case Some(t) =>
      IndexOfAt(p, j, if t < i then t else t - 1);
  }

  /** The map built from a list has unique keys. */
  lemma {:induction false} FromListUniqueKeys<K, V>(l: seq<(K, V)>)
    ensures UniqueKeys(FromList(l))
  {
    if l != [] {
      FromListUniqueKeys(l[..|l| - 1]);
      PutSpec(FromList(l[..|l| - 1]), l[|l| - 1].0, l[|l| - 1].1);
    }
  }

  /** A key of the map built from a list maps to the LAST value the list gives it. */
  lemma {:induction false} FromListLastWins<K, V>(l: seq<(K, V)>, i: nat)
    requires i < |l| && forall j :: i < j < |l| ==> l[j].0 != l[i].0
    ensures Get(FromList(l), l[i].0) == Some(l[i].1)
  {
    var init := l[..|l| - 1];
    FromListUniqueKeys(init);
    PutSpec(FromList(init), l[|l| - 1].0, l[|l| - 1].1);
    if i < |l| - 1 {
      FromListLastWins(init, i);
    }
  }

  /** A list without repeated keys is already its own map. */
  lemma {:induction false} FromListUnique<K, V>(l: seq<(K, V)>)
    requires UniqueKeys(l)
    ensures FromList(l) == l
  {
    if l != [] {
      var init := l[..|l| - 1];
      FromListUnique(init);
      assert IndexOf(init, l[|l| - 1].0).None?;
      assert init + [l[|l| - 1]] == l;
    }
  }
}
