/** packages/protocol/lib/schema: the ordered field schema of a packet. Records are kept
    in insertion order, which is the order of the fields on the wire. */
module Schemas {
  import opened Wrappers
  import opened ByteOrder
  import OrderedMaps

  /** One schema record: a number of `width` bytes, a string region of `chars` bytes, or
      `count` array elements of `size` bytes each. */
  datatype Field =
    | NumberField(width: nat, order: Order)
    | StringField(chars: nat)
    | ArrayField(count: nat, size: nat, order: Order)

  /** The number widths `writeNumberToBuffer` has a case for; `readNumberFromBuffer`
      also reads width 8. */
  predicate WrittenWidth(w: nat) { w == 1 || w == 2 || w == 4 }

  /** The element sizes the array writer and reader have a case for. */
  predicate KnownSize(s: nat) { s == 1 || s == 2 || s == 4 }

  type ElemSize = s: nat | s == 1 || s == 2 || s == 4 witness 1

  /** The record's `length`: a width, or an element count for arrays. */
  function RecordLength(f: Field): nat {
    match f
    case NumberField(w, _) => w
    case StringField(w) => w
    case ArrayField(c, _, _) => c
  }

  /** The bytes the encoder's running offset advances past the field. */
  function Span(f: Field): nat {
    match f
    case NumberField(w, _) => w
    case StringField(w) => w
    case ArrayField(c, s, _) => c * s
  }

  /** `calcBytesInPacket`: the sum of every record's `length`. */
  function CalcBytes<K>(s: seq<(K, Field)>): nat {
    if s == [] then 0 else RecordLength(s[0].1) + CalcBytes(s[1..])
  }

  /** The bytes the fields actually occupy: the sum of their spans. */
  function PackedSize<K>(s: seq<(K, Field)>): nat {
    if s == [] then 0 else Span(s[0].1) + PackedSize(s[1..])
  }

  /** The two sums from field i on, one field at a time: the form Dafny evaluates on a
      schema written out as a literal. */
  function CalcFrom<K>(s: seq<(K, Field)>, i: nat): nat
    decreases |s| - i
  {
    if i >= |s| then 0 else RecordLength(s[i].1) + CalcFrom(s, i + 1)
  }

  function PackedFrom<K>(s: seq<(K, Field)>, i: nat): nat
    decreases |s| - i
  {
    if i >= |s| then 0 else Span(s[i].1) + PackedFrom(s, i + 1)
  }

  lemma {:induction false} SizesByIndex<K>(s: seq<(K, Field)>, i: nat)
    requires i <= |s|
    ensures CalcFrom(s, i) == CalcBytes(s[i..]) && PackedFrom(s, i) == PackedSize(s[i..])
    decreases |s| - i
  {
    if i < |s| {
      assert s[i..][0] == s[i] && s[i..][1..] == s[i + 1..];
      SizesByIndex(s, i + 1);
    }
  }

  /** The sums of a whole schema, evaluated field by field. */
  lemma Sizes<K>(s: seq<(K, Field)>, total: nat, span: nat)
    requires CalcFrom(s, 0) == total && PackedFrom(s, 0) == span
    ensures CalcBytes(s) == total && PackedSize(s) == span
  {
    SizesByIndex(s, 0);
    assert s[0..] == s;
  }

  lemma {:induction false} SizesAppend<K>(a: seq<(K, Field)>, b: seq<(K, Field)>)
    ensures CalcBytes(a + b) == CalcBytes(a) + CalcBytes(b)
    ensures PackedSize(a + b) == PackedSize(a) + PackedSize(b)
    decreases |a|
  {
    if a == [] {
      assert a + b == b;
    } else {
      assert (a + b)[0] == a[0] && (a + b)[1..] == a[1..] + b;
      SizesAppend(a[1..], b);
    }
  }

  /** No array has elements wider than one byte (or it is empty). */
  predicate ByteArrays<K>(s: seq<(K, Field)>) {
    forall i :: 0 <= i < |s| && s[i].1.ArrayField? ==> s[i].1.size == 1 || s[i].1.count == 0
  }

  /** Every array has elements of at least one byte. */
  predicate SizedArrays<K>(s: seq<(K, Field)>) {
    forall i :: 0 <= i < |s| && s[i].1.ArrayField? ==> s[i].1.size >= 1
  }

  /** `calcBytesInPacket` agrees with the encoder's offsets exactly when every non-empty
      array has one-byte elements. */
  lemma {:induction false} CalcBytesIsPackedSize<K>(s: seq<(K, Field)>)
    requires SizedArrays(s)
    ensures CalcBytes(s) <= PackedSize(s)
    ensures CalcBytes(s) == PackedSize(s) <==> ByteArrays(s)
  {
    if s != [] {
      assert SizedArrays(s[1..]) by {
        forall i | 0 <= i < |s| - 1 && s[1..][i].1.ArrayField? ensures s[1..][i].1.size >= 1 {
          assert s[1..][i] == s[i + 1];
        }
      }
      CalcBytesIsPackedSize(s[1..]);
      var f := s[0].1;
      if f.ArrayField? {
        assert Span(f) == f.count * f.size >= f.count == RecordLength(f);
      }
      if ByteArrays(s[1..]) && (f.ArrayField? ==> f.size == 1 || f.count == 0) {
        assert forall i :: 1 <= i < |s| ==> s[i] == s[1..][i - 1];
      }
      if !ByteArrays(s[1..]) {
        var i :| 0 <= i < |s[1..]| && s[1..][i].1.ArrayField? && !(s[1..][i].1.size == 1 || s[1..][i].1.count == 0);
        assert s[i + 1] == s[1..][i];
      }
    }
  }

  /** Byte offset of the start of the field with key k, or None when k is absent. */
  function OffsetOf<K(==)>(s: seq<(K, Field)>, k: K): (r: Option<nat>)
    ensures r.Some? <==> exists i :: 0 <= i < |s| && s[i].0 == k
  {
    if s == [] then None
    else if s[0].0 == k then Some(0)
    else match OffsetOf(s[1..], k) {
      case None => None
      case Some(o) => Some(Span(s[0].1) + o)
    }
  }

  /** The offset of a key is the packed size of the fields before its first occurrence. */
  lemma {:induction false} OffsetOfPrefix<K>(s: seq<(K, Field)>, i: nat)
    requires i < |s| && forall j :: 0 <= j < i ==> s[j].0 != s[i].0
    ensures OffsetOf(s, s[i].0) == Some(PackedSize(s[..i]))
  {
    if i > 0 {
      assert s[1..][i - 1] == s[i];
      OffsetOfPrefix(s[1..], i - 1);
      assert s[1..][..i - 1] == s[..i][1..];
    }
  }

  /** Fields without the key in front of it move its offset by their packed size. */
  lemma {:induction false} OffsetOfSkip<K>(a: seq<(K, Field)>, b: seq<(K, Field)>, k: K)
    requires forall j :: 0 <= j < |a| ==> a[j].0 != k
    ensures OffsetOf(a + b, k) == if OffsetOf(b, k).None? then None else Some(PackedSize(a) + OffsetOf(b, k).value)
  {
    if a != [] {
      assert (a + b)[0] == a[0] && (a + b)[1..] == a[1..] + b;
      assert forall j :: 0 <= j < |a[1..]| ==> a[1..][j] == a[j + 1];
      OffsetOfSkip(a[1..], b, k);
      assert PackedSize(a) == Span(a[0].1) + PackedSize(a[1..]);
    } else {
      assert a + b == b;
    }
  }

  /** Appending fields after a key does not move that key's offset. */
  lemma {:induction false} OffsetOfAppend<K>(s: seq<(K, Field)>, t: seq<(K, Field)>, k: K)
    requires OffsetOf(s, k).Some?
    ensures OffsetOf(s + t, k) == OffsetOf(s, k)
  {
    if s[0].0 != k {
      assert (s + t)[1..] == s[1..] + t;
      OffsetOfAppend(s[1..], t, k);
    }
  }

  /** The `Schema` class: a JavaScript Map from key to record. */
  class Schema<K(==)> {
    var entries: seq<(K, Field)>

    ghost predicate Valid()
      reads this
    {
      OrderedMaps.UniqueKeys(entries)
    }

    /** `new Map(structuredClone(schema))`: Dafny sequences are values, so the schema
        never shares state with its argument. */
    constructor (schema: seq<(K, Field)>)
      ensures Valid()
      ensures entries == OrderedMaps.FromList(schema)
    {
      OrderedMaps.FromListUniqueKeys(schema);
      entries := OrderedMaps.FromList(schema);
    }

    /** `setValue`: replace a present key's record in place, or append a new key last. */
    method SetValue(key: K, value: Field)
      requires Valid()
      modifies this
      ensures Valid()
      ensures entries == OrderedMaps.Put(old(entries), key, value)
      ensures GetValue(key) == Some(value)
      ensures forall k :: k != key ==> GetValue(k) == OrderedMaps.Get(old(entries), k)
    {
      OrderedMaps.PutSpec(entries, key, value);
      entries := OrderedMaps.Put(entries, key, value);
    }

    /** `getValue`: the record of the key, or None (`undefined`). */
    function GetValue(key: K): Option<Field>
      reads this
    {
      OrderedMaps.Get(entries, key)
    }

    function CalcBytesInPacket(): nat
      reads this
    {
      CalcBytes(entries)
    }

    function GetOffsetOf(key: K): Option<nat>
      reads this
    {
      OffsetOf(entries, key)
    }
  }
}
