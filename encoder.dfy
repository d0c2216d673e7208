/** packages/protocol/lib/encoder: the schema-driven binary codec. `Encoded` and `Decoded`
    are the reference definitions of `encode` and `decode`; the methods `Encode` and
    `Decode` at the end walk the schema with a running offset over a real buffer. */
module Encoder {
  import opened Wrappers
  import opened ByteOrder
  import opened Schemas
  import Helpers
  import OrderedMaps

  /** The JavaScript payload value kinds: number, bigint, string (as its bytes), number[]. */
  datatype Value = Num(n: int) | Big(b: int) | Str(s: seq<byte>) | Arr(a: seq<int>) | Undefined

  type Payload<K> = map<K, Value>

  /** `getOffsetOf`: the running offset after the field. */
  function GetOffsetOf(offset: nat, f: Field): (r: nat)
    ensures r == offset + Span(f)
  {
    if !f.ArrayField? then offset + RecordLength(f) else offset + f.count * f.size
  }

  // ---------------------------------------------------------------- writing

  /** Overwrite the bytes of buf starting at offset. */
  function Splice(buf: seq<byte>, offset: nat, bytes: seq<byte>): (r: seq<byte>)
    requires offset + |bytes| <= |buf|
    ensures |r| == |buf|
  {
    buf[..offset] + bytes + buf[offset + |bytes|..]
  }

  /** `writeNumberToBuffer`: widths 1, 2 and 4 go through writeUInt8/16/32, which throw a
      RangeError for a value outside the unsigned range or a field past the end; other
      widths, 8 among them, have no case, so nothing is written. */
  function WriteNumber(buf: seq<byte>, offset: nat, v: int, w: nat, o: Order): Result<seq<byte>> {
    if !WrittenWidth(w) then Ok(buf)
    else if !(0 <= v < Pow256(w)) then Err(RangeError)
    else if offset + w > |buf| then Err(RangeError)
    else Ok(Splice(buf, offset, ToBytes(v, w, o)))
  }

  function Take(s: seq<byte>, n: nat): (r: seq<byte>)
    ensures |r| == Helpers.Min(|s|, n)
  {
    s[..Helpers.Min(|s|, n)]
  }

  /** `writeStringToBuffer`: `buffer.write(s, offset, length)` throws when offset or
      length exceed the buffer, else writes as many bytes as fit in `length` and in the
      rest of the buffer. */
  function WriteString(buf: seq<byte>, offset: nat, s: seq<byte>, w: nat): Result<seq<byte>> {
    if offset > |buf| || w > |buf| then Err(RangeError)
    else Ok(Splice(buf, offset, Take(Take(s, w), |buf| - offset)))
  }

  /** The bytes of an array written through a typed array of `size`-byte elements:
      each element reduced modulo 256^size, laid out in the given order. */
  function ArrayBytes(a: seq<int>, size: nat, o: Order): (r: seq<byte>)
    ensures |r| == |a| * size
  {
    if a == [] then [] else ToBytes(a[0], size, o) + ArrayBytes(a[1..], size, o)
  }

  /** `writeArrayToBuffer`: `buffer.set` throws a RangeError when the bytes run past the
      end; an element size without a case writes nothing. */
  function WriteArray(buf: seq<byte>, offset: nat, a: seq<int>, size: nat, o: Order): Result<seq<byte>> {
    var bytes := ArrayBytes(a, size, o);
    if !KnownSize(size) then Ok(buf)
    else if offset + |bytes| > |buf| then Err(RangeError) else Ok(Splice(buf, offset, bytes))
  }

  predicate KindMatches(v: Value, f: Field) {
    match f
    case NumberField(_, _) => v.Num?
    case StringField(_) => v.Str?
    case ArrayField(_, _, _) => v.Arr?
  }

  /** One step of `encode`: a value of another kind than the field is skipped. */
  function WriteField(buf: seq<byte>, offset: nat, f: Field, v: Value): (r: Result<seq<byte>>)
    ensures r.Ok? ==> |r.value| == |buf|
    ensures r.Err? ==> r.error == RangeError
  {
    if !KindMatches(v, f) then Ok(buf)
    else match f
      case NumberField(w, o) => WriteNumber(buf, offset, v.n, w, o)
      case StringField(w) => WriteString(buf, offset, v.s, w)
      case ArrayField(_, s, o) => WriteArray(buf, offset, v.a, s, o)
  }

  function EncodeFrom<K>(buf: seq<byte>, offset: nat, p: Payload<K>, fields: seq<(K, Field)>): (r: Result<seq<byte>>)
    ensures r.Ok? ==> |r.value| == |buf|
    decreases |fields|
  {
    if fields == [] then Ok(buf)
    else
      var (k, f) := fields[0];
      if k !in p then Err(SchemaKeyMissing)
      else match WriteField(buf, offset, f, p[k]) {
        case Err(e) => Err(e)
        case Ok(b) => EncodeFrom(b, GetOffsetOf(offset, f), p, fields[1..])
      }
  }

  /** Encoding into a zero-filled buffer of the given size. */
  function EncodeInto<K>(size: nat, p: Payload<K>, fields: seq<(K, Field)>): Result<seq<byte>> {
    EncodeFrom(Zeros(size), 0, p, fields)
  }

  /** `encode` as written: the buffer is `calcBytesInPacket` bytes long. */
  function Encoded<K>(p: Payload<K>, fields: seq<(K, Field)>): Result<seq<byte>> {
    EncodeInto(CalcBytes(fields), p, fields)
  }

  /** `encode` with `calcBytesInPacket` corrected to the fields' packed size. */
  function EncodePacked<K>(p: Payload<K>, fields: seq<(K, Field)>): Result<seq<byte>> {
    EncodeInto(PackedSize(fields), p, fields)
  }

  // ---------------------------------------------------------------- reading

  /** The bytes before the first NUL, or all of them. */
  function UntilNul(s: seq<byte>): (r: seq<byte>)
    ensures |r| <= |s| && r == s[..|r|] && 0 !in r
    ensures |r| < |s| ==> s[|r|] == 0
  {
    if s == [] || s[0] == 0 then [] else [s[0]] + UntilNul(s[1..])
  }

  /** `subarray(lo, hi)`, which clamps both ends to the buffer. */
  function Clip(buf: seq<byte>, lo: nat, hi: nat): (r: seq<byte>)
    ensures |r| <= |buf|
  {
    var a := Helpers.Min(lo, |buf|);
    var b := Helpers.Min(hi, |buf|);
    if a <= b then buf[a..b] else []
  }

  function Ints(s: seq<byte>): (r: seq<int>)
    ensures |r| == |s| && forall i :: 0 <= i < |s| ==> r[i] == s[i] as int
  {
    seq(|s|, i requires 0 <= i < |s| => s[i] as int)
  }

  /** `count` little-endian elements of `size` bytes. */
  function ReadElements(s: seq<byte>, count: nat, size: nat): (r: seq<int>)
    requires |s| >= count * size
    ensures |r| == count
  {
    if count == 0 then []
    else
      assert |s| >= size by { assert count * size == size + (count - 1) * size; }
      [FromLittleEndian(s[..size]) as int] + ReadElements(s[size..], count - 1, size)
  }

  /** `swap16` / `swap32`: every group of `size` bytes reversed. */
  function SwapGroups(s: seq<byte>, size: nat): (r: seq<byte>)
    requires size > 0
    ensures |r| == |s|
    decreases |s|
  {
    if |s| < size then s else Reverse(s[..size]) + SwapGroups(s[size..], size)
  }

  /** The kind of value `decode` reads for a field: a bigint for 8-byte numbers, and
      `undefined` for a width or element size without a case. */
  predicate ReadKind(v: Value, f: Field) {
    match f
    case NumberField(w, _) => if w == 8 then v.Big? else if WrittenWidth(w) then v.Num? else v.Undefined?
    case StringField(_) => v.Str?
    case ArrayField(_, s, _) => if KnownSize(s) then v.Arr? else v.Undefined?
  }

  /** One step of `decode`: the value read, and the caller's buffer afterwards (a
      big-endian array of wide elements is byte-swapped in the caller's buffer, since
      `subarray` shares its memory). The typed-array view over the buffer's memory
      throws when the field is misaligned or runs past the end. */
  function ReadField(buf: seq<byte>, offset: nat, f: Field): (r: (Result<Value>, seq<byte>))
    ensures |r.1| == |buf|
    ensures r.0.Ok? ==> ReadKind(r.0.value, f)
  {
    match f
    case StringField(w) => (Ok(Str(UntilNul(Clip(buf, offset, offset + w)))), buf)
    case NumberField(w, o) =>
      if !WrittenWidth(w) && w != 8 then (Ok(Undefined), buf)
      else if offset + w > |buf| then (Err(RangeError), buf)
      else
        var x := FromBytes(buf[offset..offset + w], o);
        (Ok(if w == 8 then Big(x) else Num(x)), buf)
    case ArrayField(c, s, o) =>
      var lo := Helpers.Min(offset, |buf|);
      var hi := Helpers.Min(offset + c * s, |buf|);
      if !KnownSize(s) then (Ok(Undefined), buf)
      else if s == 1 then (Ok(Arr(Ints(buf[lo..hi]))), buf)
      else if o == BE && (hi - lo) % s != 0 then (Err(RangeError), buf)
      else
        var b := if o == BE then buf[..lo] + SwapGroups(buf[lo..hi], s) + buf[hi..] else buf;
        if lo % s != 0 || lo + c * s > |b| then (Err(RangeError), b)
        else (Ok(Arr(ReadElements(b[lo..lo + c * s], c, s))), b)
  }

  function DecodeFrom<K>(buf: seq<byte>, offset: nat, fields: seq<(K, Field)>, acc: Payload<K>): (r: (Result<Payload<K>>, seq<byte>))
    ensures |r.1| == |buf|
    decreases |fields|
  {
    if fields == [] then (Ok(acc), buf)
    else
      var (k, f) := fields[0];
      var (v, b) := ReadField(buf, offset, f);
      match v {
        case Err(e) => (Err(e), b)
        case Ok(x) => DecodeFrom(b, GetOffsetOf(offset, f), fields[1..], acc[k := x])
      }
  }

  /** Decoding a buffer that must be exactly `size` bytes long. */
  function DecodeSized<K>(size: nat, buf: seq<byte>, fields: seq<(K, Field)>): (r: (Result<Payload<K>>, seq<byte>))
    ensures |r.1| == |buf|
  {
    if size != |buf| then (Err(PacketSizeMismatch), buf) else DecodeFrom(buf, 0, fields, map[])
  }

  /** `decode` as written: the result and the caller's buffer afterwards. */
  function Decoded<K>(buf: seq<byte>, fields: seq<(K, Field)>): (r: (Result<Payload<K>>, seq<byte>))
    ensures |r.1| == |buf|
  {
    DecodeSized(CalcBytes(fields), buf, fields)
  }

  /** `decode` with the size check corrected to the fields' packed size. */
  function DecodePacked<K>(buf: seq<byte>, fields: seq<(K, Field)>): (r: (Result<Payload<K>>, seq<byte>))
    ensures |r.1| == |buf|
  {
    DecodeSized(PackedSize(fields), buf, fields)
  }

  // ---------------------------------------------------------------- round trip

  /** A value that `encode` writes without error into a field of its own width: it fits,
      or it is skipped (another kind, or a width or element size without a case). Longer
      strings are cut. */
  predicate Writable(v: Value, f: Field) {
    !KindMatches(v, f) ||
    match f
    case NumberField(w, _) => !WrittenWidth(w) || 0 <= v.n < Pow256(w)
    case StringField(_) => true
    case ArrayField(c, s, _) => !KnownSize(s) || |v.a| <= c
  }

  /** A value that comes back unchanged from `decode`. */
  predicate Recoverable(v: Value, f: Field) {
    KindMatches(v, f) && Writable(v, f) &&
    match f
    case NumberField(w, _) => WrittenWidth(w) && 0 <= v.n < Pow256(w)
    case StringField(c) => |v.s| <= c && 0 !in v.s
    case ArrayField(c, s, _) => KnownSize(s) && |v.a| == c && forall i :: 0 <= i < c ==> 0 <= v.a[i] < Pow256(s)
  }

  /** The bytes the field's region holds after `encode` into a zero-filled buffer. */
  function Image(v: Value, f: Field): (r: seq<byte>)
    requires Writable(v, f)
    ensures |r| == Span(f)
  {
    if !KindMatches(v, f) then Zeros(Span(f))
    else match f
      case NumberField(w, o) => if !WrittenWidth(w) then Zeros(w) else ToBytes(v.n, w, o)
      case StringField(c) => Take(v.s, c) + Zeros(c - |Take(v.s, c)|)
      case ArrayField(c, s, o) =>
        if !KnownSize(s) then Zeros(c * s)
        else
          assert (c - |v.a|) * s + |v.a| * s == c * s;
          ArrayBytes(v.a, s, o) + Zeros((c - |v.a|) * s)
  }

  /** The region after `decode` read it: wide big-endian arrays are left little-endian. */
  function ImageAfterRead(v: Value, f: Field): (r: seq<byte>)
    requires Writable(v, f)
    ensures |r| == Span(f)
  {
    if KindMatches(v, f) && f.ArrayField? && (f.size == 2 || f.size == 4) && f.order == BE && |v.a| == f.count
    then ArrayBytes(v.a, f.size, LE) else Image(v, f)
  }

  ghost predicate AllWritable<K>(p: Payload<K>, fields: seq<(K, Field)>) {
    forall i :: 0 <= i < |fields| ==> fields[i].0 in p && Writable(p[fields[i].0], fields[i].1)
  }

  ghost predicate AllRecoverable<K>(p: Payload<K>, fields: seq<(K, Field)>) {
    forall i :: 0 <= i < |fields| ==> fields[i].0 in p && Recoverable(p[fields[i].0], fields[i].1)
  }

  /** Every array of wide elements starts at a multiple of its element size, as the
      typed-array view used by `decode` demands. */
  predicate AlignedFrom<K>(fields: seq<(K, Field)>, offset: nat)
    decreases |fields|
  {
    fields == [] ||
    ((fields[0].1.ArrayField? && KnownSize(fields[0].1.size) ==> offset % fields[0].1.size == 0) &&
     AlignedFrom(fields[1..], GetOffsetOf(offset, fields[0].1)))
  }

  lemma AlignedFromStep<K>(fields: seq<(K, Field)>, i: nat, offset: nat)
    requires i < |fields|
    ensures AlignedFrom(fields[i..], offset)
        <==> (fields[i].1.ArrayField? && KnownSize(fields[i].1.size) ==> offset % fields[i].1.size == 0) &&
             AlignedFrom(fields[i + 1..], GetOffsetOf(offset, fields[i].1))
  {
    assert fields[i..][0] == fields[i] && fields[i..][1..] == fields[i + 1..];
  }

  /** AlignedFrom from field i on, one field at a time. */
  predicate AlignedAt<K>(fields: seq<(K, Field)>, i: nat, offset: nat)
    decreases |fields| - i
  {
    i >= |fields| ||
    ((fields[i].1.ArrayField? && KnownSize(fields[i].1.size) ==> offset % fields[i].1.size == 0) &&
     AlignedAt(fields, i + 1, GetOffsetOf(offset, fields[i].1)))
  }

  lemma {:induction false} AlignedByIndex<K>(fields: seq<(K, Field)>, i: nat, offset: nat)
    requires i <= |fields|
    ensures AlignedAt(fields, i, offset) == AlignedFrom(fields[i..], offset)
    decreases |fields| - i
  {
    if i < |fields| {
      AlignedFromStep(fields, i, offset);
      AlignedByIndex(fields, i + 1, GetOffsetOf(offset, fields[i].1));
    }
  }

  lemma Aligned<K>(fields: seq<(K, Field)>, offset: nat)
    requires AlignedAt(fields, 0, offset)
    ensures AlignedFrom(fields, offset)
  {
    AlignedByIndex(fields, 0, offset);
    assert fields[0..] == fields;
  }

  /** Alignment of a + b from offset: a from offset and b from mid, where a ends. */
  lemma {:induction false} AlignedFromAppend<K>(a: seq<(K, Field)>, b: seq<(K, Field)>, offset: nat, mid: nat)
    requires mid == offset + PackedSize(a)
    requires AlignedFrom(a, offset) && AlignedFrom(b, mid)
    ensures AlignedFrom(a + b, offset)
    decreases |a|
  {
    if a == [] {
      assert a + b == b;
    } else {
      assert (a + b)[0] == a[0] && (a + b)[1..] == a[1..] + b;
      AlignedFromAppend(a[1..], b, GetOffsetOf(offset, a[0].1), mid);
    }
  }

  /** The packet image: the regions of all fields, in schema order. */
  function Serialize<K>(p: Payload<K>, fields: seq<(K, Field)>, after: bool): (r: seq<byte>)
    requires AllWritable(p, fields)
    ensures |r| == PackedSize(fields)
  {
    if fields == [] then []
    else
      assert fields[0].0 in p && Writable(p[fields[0].0], fields[0].1);
      (if after then ImageAfterRead(p[fields[0].0], fields[0].1) else Image(p[fields[0].0], fields[0].1))
      + Serialize(p, fields[1..], after)
  }

  /** The payload `decode` builds: acc updated with every schema key's value. */
  function ProjectFrom<K>(acc: Payload<K>, p: Payload<K>, fields: seq<(K, Field)>): Payload<K>
    requires forall i :: 0 <= i < |fields| ==> fields[i].0 in p
    decreases |fields|
  {
    if fields == [] then acc else ProjectFrom(acc[fields[0].0 := p[fields[0].0]], p, fields[1..])
  }

  lemma AllRecoverableAppend<K>(p: Payload<K>, a: seq<(K, Field)>, b: seq<(K, Field)>)
    requires AllRecoverable(p, a) && AllRecoverable(p, b)
    ensures AllRecoverable(p, a + b)
  {
    forall i | 0 <= i < |a + b| ensures (a + b)[i].0 in p && Recoverable(p[(a + b)[i].0], (a + b)[i].1) {
      if i < |a| {
        assert (a + b)[i] == a[i];
      } else {
        assert (a + b)[i] == b[i - |a|];
      }
    }
  }

  lemma AllWritableTail<K>(p: Payload<K>, fields: seq<(K, Field)>)
    requires fields != [] && AllWritable(p, fields)
    ensures AllWritable(p, fields[1..])
  {
    forall i | 0 <= i < |fields| - 1 ensures fields[1..][i].0 in p && Writable(p[fields[1..][i].0], fields[1..][i].1) {
      assert fields[1..][i] == fields[i + 1];
    }
  }

  /** Fields write exactly when both parts of a split of them do. */
  lemma AllWritableAppend<K>(p: Payload<K>, a: seq<(K, Field)>, b: seq<(K, Field)>)
    ensures AllWritable(p, a + b) <==> AllWritable(p, a) && AllWritable(p, b)
  {
    if AllWritable(p, a + b) {
      forall i | 0 <= i < |a| ensures a[i].0 in p && Writable(p[a[i].0], a[i].1) {
        assert (a + b)[i] == a[i];
      }
      forall i | 0 <= i < |b| ensures b[i].0 in p && Writable(p[b[i].0], b[i].1) {
        assert (a + b)[|a| + i] == b[i];
      }
    }
    if AllWritable(p, a) && AllWritable(p, b) {
      forall i | 0 <= i < |a + b| ensures (a + b)[i].0 in p && Writable(p[(a + b)[i].0], (a + b)[i].1) {
        if i < |a| { assert (a + b)[i] == a[i]; } else { assert (a + b)[i] == b[i - |a|]; }
      }
    }
  }

  /** The image of a schema split in two is the two parts' images side by side. */
  lemma {:induction false} SerializeAppend<K>(p: Payload<K>, a: seq<(K, Field)>, b: seq<(K, Field)>, after: bool)
    requires AllWritable(p, a) && AllWritable(p, b)
    ensures AllWritable(p, a + b)
    ensures Serialize(p, a + b, after) == Serialize(p, a, after) + Serialize(p, b, after)
    decreases |a|
  {
    AllWritableAppend(p, a, b);
    if a == [] {
      assert a + b == b;
    } else {
      AllWritableTail(p, a);
      assert (a + b)[0] == a[0] && (a + b)[1..] == a[1..] + b;
      SerializeAppend(p, a[1..], b, after);
    }
  }

  /** In the image of `a`, one field, then `b`, the field's region starts at the packed
      size of `a`. */
  lemma SerializeAt<K>(p: Payload<K>, a: seq<(K, Field)>, k: K, f: Field, b: seq<(K, Field)>)
    requires AllWritable(p, a + [(k, f)] + b)
    ensures k in p && Writable(p[k], f)
    ensures var img := Serialize(p, a + [(k, f)] + b, false);
      |img| >= PackedSize(a) + Span(f) && img[PackedSize(a)..PackedSize(a) + Span(f)] == Image(p[k], f)
  {
    var rest := [(k, f)] + b;
    assert a + rest == a + [(k, f)] + b;
    AllWritableAppend(p, a, rest);
    AllWritableTail(p, rest);
    assert rest[0] == (k, f) && rest[1..] == b;
    SerializeAppend(p, a, rest, false);
    assert Serialize(p, rest, false) == Image(p[k], f) + Serialize(p, b, false);
  }

  lemma ZerosSplit(a: nat, b: nat)
    ensures Zeros(a + b) == Zeros(a) + Zeros(b)
  {
  }

  lemma SpliceZeros(pre: seq<byte>, n: nat, t: seq<byte>)
    requires |t| <= n
    ensures Splice(pre + Zeros(n), |pre|, t) == pre + t + Zeros(n - |t|)
  {
    var buf := pre + Zeros(n);
    assert buf[..|pre|] == pre;
    assert buf[|pre| + |t|..] == Zeros(n - |t|);
  }

  lemma WriteStringImage(pre: seq<byte>, n: nat, s: seq<byte>, c: nat)
    requires c <= n
    ensures WriteString(pre + Zeros(n), |pre|, s, c) == Ok(pre + (Take(s, c) + Zeros(c - |Take(s, c)|)) + Zeros(n - c))
  {
    var buf := pre + Zeros(n);
    var t := Take(s, c);
    assert Take(t, |buf| - |pre|) == t;
    SpliceZeros(pre, n, t);
    ZerosSplit(c - |t|, n - c);
    assert pre + t + Zeros(n - |t|) == pre + (t + Zeros(c - |t|)) + Zeros(n - c);
  }

  lemma WriteArrayImage(pre: seq<byte>, n: nat, a: seq<int>, c: nat, s: ElemSize, o: Order)
    requires |a| <= c && c * s <= n
    ensures WriteArray(pre + Zeros(n), |pre|, a, s, o) == Ok(pre + (ArrayBytes(a, s, o) + Zeros((c - |a|) * s)) + Zeros(n - c * s))
  {
    var t := ArrayBytes(a, s, o);
    var m := (c - |a|) * s;
    assert m + |t| == c * s;
    SpliceZeros(pre, n, t);
    ZerosSplit(m, n - c * s);
    assert pre + t + Zeros(n - |t|) == pre + (t + Zeros(m)) + Zeros(n - c * s);
  }

  /** One field written into zeros leaves exactly its image. */
  lemma WriteFieldImage(pre: seq<byte>, n: nat, f: Field, v: Value)
    requires Writable(v, f) && Span(f) <= n
    ensures WriteField(pre + Zeros(n), |pre|, f, v) == Ok(pre + Image(v, f) + Zeros(n - Span(f)))
  {
    if !KindMatches(v, f) || (f.NumberField? && !WrittenWidth(f.width)) || (f.ArrayField? && !KnownSize(f.size)) {
      ZerosSplit(Span(f), n - Span(f));
      assert pre + Zeros(n) == pre + Zeros(Span(f)) + Zeros(n - Span(f));
    } else {
      match f
      case NumberField(w, o) => SpliceZeros(pre, n, ToBytes(v.n, w, o));
      case StringField(c) => WriteStringImage(pre, n, v.s, c);
      case ArrayField(c, s, o) => WriteArrayImage(pre, n, v.a, c, s, o);
    }
  }

  /** One step of the walk: a field written without error hands the rest of the fields
      the new buffer and the next offset. */
  lemma EncodeUnfold<K>(buf: seq<byte>, offset: nat, p: Payload<K>, fields: seq<(K, Field)>, b: seq<byte>, next: nat)
    requires fields != [] && fields[0].0 in p && WriteField(buf, offset, fields[0].1, p[fields[0].0]) == Ok(b)
    requires next == offset + Span(fields[0].1)
    ensures EncodeFrom(buf, offset, p, fields) == EncodeFrom(b, next, p, fields[1..])
  {
  }

  lemma WriteHead(pre: seq<byte>, f: Field, v: Value, n: nat, pre': seq<byte>, m: nat)
    requires Writable(v, f) && pre' == pre + Image(v, f) && n == Span(f) + m
    ensures WriteField(pre + Zeros(n), |pre|, f, v) == Ok(pre' + Zeros(m))
  {
    WriteFieldImage(pre, n, f, v);
  }

  /** The first field of a zero-filled buffer is written as its image, so the walk goes on
      with the remaining fields behind that image. */
  lemma EncodeHead<K>(pre: seq<byte>, p: Payload<K>, fields: seq<(K, Field)>, n: nat, m: nat,
                      pre': seq<byte>, r: Result<seq<byte>>, r': Result<seq<byte>>)
    requires fields != [] && fields[0].0 in p && Writable(p[fields[0].0], fields[0].1)
    requires pre' == pre + Image(p[fields[0].0], fields[0].1) && n == Span(fields[0].1) + m
    requires EncodeFrom(pre' + Zeros(m), |pre'|, p, fields[1..]) == r && r == r'
    ensures EncodeFrom(pre + Zeros(n), |pre|, p, fields) == r'
  {
    WriteHead(pre, fields[0].1, p[fields[0].0], n, pre', m);
    EncodeUnfold(pre + Zeros(n), |pre|, p, fields, pre' + Zeros(m), |pre'|);
  }

  lemma {:induction false} EncodeFromImage<K>(pre: seq<byte>, p: Payload<K>, fields: seq<(K, Field)>, rest: nat)
    requires AllWritable(p, fields)
    ensures EncodeFrom(pre + Zeros(PackedSize(fields) + rest), |pre|, p, fields)
         == Ok(pre + Serialize(p, fields, false) + Zeros(rest))
    decreases |fields|
  {
    if fields == [] {
      assert pre + Serialize(p, fields, false) == pre;
    } else {
      AllWritableTail(p, fields);
      assert fields[0].0 in p && Writable(p[fields[0].0], fields[0].1);
      var img, st := Image(p[fields[0].0], fields[0].1), Serialize(p, fields[1..], false);
      var pre' := pre + img;
      EncodeFromImage(pre', p, fields[1..], rest);
      assert Serialize(p, fields, false) == img + st;
      Regroup(pre, img, st, Zeros(rest));
      EncodeHead(pre, p, fields, PackedSize(fields) + rest, PackedSize(fields[1..]) + rest, pre', Ok(pre' + st + Zeros(rest)), Ok(pre + Serialize(p, fields, false) + Zeros(rest)));
    }
  }

  lemma Regroup<T>(a: seq<T>, b: seq<T>, c: seq<T>, d: seq<T>)
    ensures a + b + c + d == a + (b + c) + d
  {
  }

  lemma {:induction false} UntilNulPadded(s: seq<byte>, m: nat)
    requires 0 !in s
    ensures UntilNul(s + Zeros(m)) == s
  {
    if s == [] {
      assert m > 0 ==> (s + Zeros(m))[0] == 0;
    } else {
      UntilNulPadded(s[1..], m);
      assert (s + Zeros(m))[1..] == s[1..] + Zeros(m);
    }
  }

  lemma {:induction false} IntsOfBytes(a: seq<int>, o: Order)
    requires forall i :: 0 <= i < |a| ==> 0 <= a[i] < 256
    ensures Ints(ArrayBytes(a, 1, o)) == a
  {
    if a != [] {
      IntsOfBytes(a[1..], o);
      assert ToBytes(a[0], 1, o) == [a[0] as byte];
      var b := ArrayBytes(a, 1, o);
      assert b == [a[0] as byte] + ArrayBytes(a[1..], 1, o);
      assert Ints(b) == [a[0]] + Ints(ArrayBytes(a[1..], 1, o));
    }
  }

  lemma {:induction false} ReadElementsOfBytes(a: seq<int>, s: nat)
    requires s > 0 && forall i :: 0 <= i < |a| ==> 0 <= a[i] < Pow256(s)
    ensures ReadElements(ArrayBytes(a, s, LE), |a|, s) == a
  {
    if a != [] {
      var b := ArrayBytes(a, s, LE);
      assert b[..s] == LittleEndian(a[0], s);
      assert b[s..] == ArrayBytes(a[1..], s, LE);
      LittleEndianRoundTrip(a[0], s);
      JsNumbers.DivModUnique(a[0], Pow256(s), 0, a[0]);
      ReadElementsOfBytes(a[1..], s);
    }
  }

  /** `swap16` / `swap32` turn big-endian element images into little-endian ones. */
  lemma {:induction false} SwapArrayBytes(a: seq<int>, s: nat)
    requires s > 0
    ensures SwapGroups(ArrayBytes(a, s, BE), s) == ArrayBytes(a, s, LE)
  {
    if a != [] {
      var b := ArrayBytes(a, s, BE);
      assert b[..s] == ToBytes(a[0], s, BE);
      assert b[s..] == ArrayBytes(a[1..], s, BE);
      BigEndianSwapped(a[0], s);
      SwapArrayBytes(a[1..], s);
    }
  }

  lemma MultipleMod(c: nat, s: nat)
    requires s > 0
    ensures (c * s) % s == 0
  {
    JsNumbers.DivModUnique(c * s, s, c, 0);
  }

  lemma ReadNumberImage(pre: seq<byte>, n: int, w: nat, o: Order, post: seq<byte>)
    requires WrittenWidth(w) && 0 <= n < Pow256(w)
    ensures ReadField(pre + ToBytes(n, w, o) + post, |pre|, NumberField(w, o)) == (Ok(Num(n)), pre + ToBytes(n, w, o) + post)
  {
    var buf := pre + ToBytes(n, w, o) + post;
    assert buf[|pre|..|pre| + w] == ToBytes(n, w, o);
    ByteOrder.RoundTrip(n, w, o);
  }

  lemma ReadStringImage(pre: seq<byte>, s: seq<byte>, c: nat, post: seq<byte>)
    requires |s| <= c && 0 !in s
    ensures ReadField(pre + (s + Zeros(c - |s|)) + post, |pre|, StringField(c)).0 == Ok(Str(s))
  {
    var buf := pre + (s + Zeros(c - |s|)) + post;
    assert Clip(buf, |pre|, |pre| + c) == s + Zeros(c - |s|);
    UntilNulPadded(s, c - |s|);
  }

  /** The buffer after `decode` has swapped a big-endian image of wide elements in place. */
  lemma SwappedImage(pre: seq<byte>, a: seq<int>, s: ElemSize, o: Order, post: seq<byte>)
    requires s > 1
    ensures var buf := pre + ArrayBytes(a, s, o) + post;
      var lo, hi := |pre|, |pre| + |a| * s;
      hi <= |buf| &&
      (if o == BE then buf[..lo] + SwapGroups(buf[lo..hi], s) + buf[hi..] else buf) == pre + ArrayBytes(a, s, LE) + post
  {
    var buf := pre + ArrayBytes(a, s, o) + post;
    var lo, hi := |pre|, |pre| + |a| * s;
    assert buf[lo..hi] == ArrayBytes(a, s, o);
    if o == BE {
      SwapArrayBytes(a, s);
      assert buf[..lo] == pre && buf[hi..] == post;
    }
  }

  /** Reading an aligned array of wide elements that lies inside the buffer. */
  lemma ReadWideUnfold(buf: seq<byte>, offset: nat, c: nat, s: ElemSize, o: Order, n: nat, b: seq<byte>)
    requires s > 1 && n == c * s && offset + n <= |buf| && offset % s == 0 && n % s == 0
    requires b == (if o == BE then buf[..offset] + SwapGroups(buf[offset..offset + n], s) + buf[offset + n..] else buf)
    ensures ReadField(buf, offset, ArrayField(c, s, o)) == (Ok(Arr(ReadElements(b[offset..offset + n], c, s))), b)
  {
  }

  lemma ReadWideArrayImage(pre: seq<byte>, a: seq<int>, s: ElemSize, o: Order, post: seq<byte>)
    requires s > 1 && |pre| % s == 0 && forall i :: 0 <= i < |a| ==> 0 <= a[i] < Pow256(s)
    ensures ReadField(pre + ArrayBytes(a, s, o) + post, |pre|, ArrayField(|a|, s, o))
         == (Ok(Arr(a)), pre + ArrayBytes(a, s, LE) + post)
  {
    var lo, n := |pre|, |a| * s;
    var le := pre + ArrayBytes(a, s, LE) + post;
    SwappedImage(pre, a, s, o, post);
    MultipleMod(|a|, s);
    assert le[lo..lo + n] == ArrayBytes(a, s, LE);
    ReadElementsOfBytes(a, s);
    ReadWideUnfold(pre + ArrayBytes(a, s, o) + post, lo, |a|, s, o, n, le);
  }



  lemma ReadByteArrayImage(pre: seq<byte>, a: seq<int>, o: Order, post: seq<byte>)
    requires forall i :: 0 <= i < |a| ==> 0 <= a[i] < Pow256(1)
    ensures ReadField(pre + ArrayBytes(a, 1, o) + post, |pre|, ArrayField(|a|, 1, o)).0 == Ok(Arr(a))
  {
    var buf := pre + ArrayBytes(a, 1, o) + post;
    assert buf[|pre|..|pre| + |a|] == ArrayBytes(a, 1, o);
    IntsOfBytes(a, o);
  }

  /** Reading a field back from its image returns the value. */
  lemma ReadFieldImage(pre: seq<byte>, v: Value, f: Field, post: seq<byte>)
    requires Recoverable(v, f)
    requires f.ArrayField? ==> |pre| % f.size == 0
    ensures ReadField(pre + Image(v, f) + post, |pre|, f) == (Ok(v), pre + ImageAfterRead(v, f) + post)
  {
    match f
    case NumberField(w, o) =>
      assert Image(v, f) == ImageAfterRead(v, f) == ToBytes(v.n, w, o);
      ReadNumberImage(pre, v.n, w, o, post);
    case StringField(c) =>
      assert Image(v, f) == ImageAfterRead(v, f) == v.s + Zeros(c - |v.s|);
      ReadStringImage(pre, v.s, c, post);
    case ArrayField(c, s, o) =>
      assert Image(v, f) == ArrayBytes(v.a, s, o);
      if s == 1 {
        assert ImageAfterRead(v, f) == Image(v, f);
        ReadByteArrayImage(pre, v.a, o, post);
      } else {
        assert ImageAfterRead(v, f) == ArrayBytes(v.a, s, LE);
        ReadWideArrayImage(pre, v.a, s, o, post);
      }
  }

  lemma AllRecoverableTail<K>(p: Payload<K>, fields: seq<(K, Field)>)
    requires fields != [] && AllRecoverable(p, fields)
    ensures AllRecoverable(p, fields[1..])
  {
    forall i | 0 <= i < |fields| - 1 ensures fields[1..][i].0 in p && Recoverable(p[fields[1..][i].0], fields[1..][i].1) {
      assert fields[1..][i] == fields[i + 1];
    }
  }

  lemma RecoverableWritable<K>(p: Payload<K>, fields: seq<(K, Field)>)
    requires AllRecoverable(p, fields)
    ensures AllWritable(p, fields)
  {
  }

  lemma DecodeFromStep<K>(buf: seq<byte>, offset: nat, fields: seq<(K, Field)>, acc: Payload<K>, v: Value, b: seq<byte>, next: nat)
    requires fields != [] && ReadField(buf, offset, fields[0].1) == (Ok(v), b)
    requires next == offset + Span(fields[0].1)
    ensures DecodeFrom(buf, offset, fields, acc) == DecodeFrom(b, next, fields[1..], acc[fields[0].0 := v])
  {
    assert GetOffsetOf(offset, fields[0].1) == next;
  }

  lemma ReadFirstField<K>(pre: seq<byte>, p: Payload<K>, fields: seq<(K, Field)>, post: seq<byte>)
    requires fields != [] && AllWritable(p, fields) && AllWritable(p, fields[1..])
    requires fields[0].0 in p && Recoverable(p[fields[0].0], fields[0].1)
    requires fields[0].1.ArrayField? ==> |pre| % fields[0].1.size == 0
    ensures ReadField(pre + Serialize(p, fields, false) + post, |pre|, fields[0].1)
         == (Ok(p[fields[0].0]), pre + ImageAfterRead(p[fields[0].0], fields[0].1) + Serialize(p, fields[1..], false) + post)
  {
    var v, f, ser := p[fields[0].0], fields[0].1, Serialize(p, fields[1..], false);
    assert pre + Serialize(p, fields, false) + post == pre + Image(v, f) + (ser + post);
    ReadFieldImage(pre, v, f, ser + post);
    assert pre + ImageAfterRead(v, f) + (ser + post) == pre + ImageAfterRead(v, f) + ser + post;
  }

  /** The first field of a serialized payload reads back as its value, so the walk goes on
      with the remaining fields behind its image as `decode` leaves it. */
  lemma DecodeHead<K>(pre: seq<byte>, p: Payload<K>, fields: seq<(K, Field)>, post: seq<byte>, acc: Payload<K>,
                      pre': seq<byte>, r: (Result<Payload<K>>, seq<byte>), r': (Result<Payload<K>>, seq<byte>))
    requires fields != [] && AllWritable(p, fields) && AllWritable(p, fields[1..])
    requires fields[0].0 in p && Recoverable(p[fields[0].0], fields[0].1)
    requires fields[0].1.ArrayField? ==> |pre| % fields[0].1.size == 0
    requires pre' == pre + ImageAfterRead(p[fields[0].0], fields[0].1)
    requires DecodeFrom(pre' + Serialize(p, fields[1..], false) + post, |pre'|, fields[1..], acc[fields[0].0 := p[fields[0].0]]) == r
    requires r == r'
    ensures DecodeFrom(pre + Serialize(p, fields, false) + post, |pre|, fields, acc) == r'
  {
    ReadFirstField(pre, p, fields, post);
    DecodeFromStep(pre + Serialize(p, fields, false) + post, |pre|, fields, acc, p[fields[0].0],
                   pre' + Serialize(p, fields[1..], false) + post, |pre'|);
  }

  lemma {:induction false} DecodeFromImage<K>(pre: seq<byte>, p: Payload<K>, fields: seq<(K, Field)>, post: seq<byte>, acc: Payload<K>)
    requires AllRecoverable(p, fields) && AlignedFrom(fields, |pre|)
    ensures AllWritable(p, fields)
    ensures DecodeFrom(pre + Serialize(p, fields, false) + post, |pre|, fields, acc)
         == (Ok(ProjectFrom(acc, p, fields)), pre + Serialize(p, fields, true) + post)
    decreases |fields|
  {
    RecoverableWritable(p, fields);
    if fields == [] {
      assert pre + Serialize(p, fields, false) + post == pre + post == pre + Serialize(p, fields, true) + post;
    } else {
      var k, f, tail := fields[0].0, fields[0].1, fields[1..];
      AllRecoverableTail(p, fields);
      RecoverableWritable(p, tail);
      assert k in p && Recoverable(p[k], f);
      var img' := ImageAfterRead(p[k], f);
      var ser' := Serialize(p, tail, true);
      var pre' := pre + img';
      var acc' := acc[k := p[k]];
      assert AlignedFrom(tail, |pre'|);
      DecodeFromImage(pre', p, tail, post, acc');
      assert ProjectFrom(acc, p, fields) == ProjectFrom(acc', p, tail);
      assert Serialize(p, fields, true) == img' + ser';
      Regroup(pre, img', ser', post);
      assert f.ArrayField? ==> |pre| % f.size == 0;
      DecodeHead(pre, p, fields, post, acc, pre', (Ok(ProjectFrom(acc', p, tail)), pre' + ser' + post),
                 (Ok(ProjectFrom(acc, p, fields)), pre + Serialize(p, fields, true) + post));
    }
  }


  /** Encoding into a buffer of the packed size and decoding it again returns every
      schema field's value; the caller's buffer is left with big-endian wide arrays
      swapped to little-endian order. */
  lemma RoundTripPacked<K>(p: Payload<K>, fields: seq<(K, Field)>)
    requires AllRecoverable(p, fields) && AlignedFrom(fields, 0)
    ensures AllWritable(p, fields)
    ensures EncodePacked(p, fields) == Ok(Serialize(p, fields, false))
    ensures DecodePacked(Serialize(p, fields, false), fields)
         == (Ok(ProjectFrom(map[], p, fields)), Serialize(p, fields, true))
  {
    RecoverableWritable(p, fields);
    EncodePackedImage(p, fields);
    DecodePackedImage(p, fields);
  }

  lemma EncodePackedImage<K>(p: Payload<K>, fields: seq<(K, Field)>)
    requires AllWritable(p, fields)
    ensures EncodePacked(p, fields) == Ok(Serialize(p, fields, false))
  {
    EncodeFromImage([], p, fields, 0);
    assert [] + Zeros(PackedSize(fields) + 0) == Zeros(PackedSize(fields));
    assert [] + Serialize(p, fields, false) + Zeros(0) == Serialize(p, fields, false);
  }

  lemma DecodePackedImage<K>(p: Payload<K>, fields: seq<(K, Field)>)
    requires AllRecoverable(p, fields) && AlignedFrom(fields, 0)
    ensures AllWritable(p, fields)
    ensures DecodePacked(Serialize(p, fields, false), fields)
         == (Ok(ProjectFrom(map[], p, fields)), Serialize(p, fields, true))
  {
    RecoverableWritable(p, fields);
    var before, after := Serialize(p, fields, false), Serialize(p, fields, true);
    DecodeFromImage([], p, fields, [], map[]);
    Bare(before);
    Bare(after);
    DecodeSizedFrom(before, fields, PackedSize(fields), (Ok(ProjectFrom(map[], p, fields)), after));
  }

  lemma Bare<T>(s: seq<T>)
    ensures [] + s + [] == s
  {
  }

  lemma DecodeSizedFrom<K>(buf: seq<byte>, fields: seq<(K, Field)>, size: nat, r: (Result<Payload<K>>, seq<byte>))
    requires size == |buf| && DecodeFrom(buf, 0, fields, map[]) == r
    ensures DecodeSized(size, buf, fields) == r
  {
  }

  /** Encoding a schema split in two: the second part continues at the offset and on
      the buffer the first part left. */
  lemma {:induction false} EncodeFromAppend<K>(buf: seq<byte>, offset: nat, p: Payload<K>, a: seq<(K, Field)>, b: seq<(K, Field)>)
    ensures EncodeFrom(buf, offset, p, a + b)
         == match EncodeFrom(buf, offset, p, a) {
              case Ok(mid) => EncodeFrom(mid, offset + PackedSize(a), p, b)
              case Err(e) => Err(e)
            }
    decreases |a|
  {
    if a == [] {
      assert a + b == b;
    } else {
      assert (a + b)[0] == a[0] && (a + b)[1..] == a[1..] + b;
      var k, f := a[0].0, a[0].1;
      if k in p && WriteField(buf, offset, f, p[k]).Ok? {
        EncodeFromAppend(WriteField(buf, offset, f, p[k]).value, GetOffsetOf(offset, f), p, a[1..], b);
      }
    }
  }

  /** With a buffer shorter than the fields' span, a field past the end makes `encode`
      throw: here every field of `a` is written and the first array of `b` overflows. */
  lemma ShortBufferFails<K>(p: Payload<K>, a: seq<(K, Field)>, b: seq<(K, Field)>, size: nat)
    requires AllWritable(p, a) && PackedSize(a) <= size
    requires b != [] && b[0].1.ArrayField? && KnownSize(b[0].1.size) && b[0].0 in p && p[b[0].0].Arr?
    requires PackedSize(a) + |p[b[0].0].a| * b[0].1.size > size
    ensures EncodeInto(size, p, a + b) == Err(RangeError)
  {
    EncodeFromImage([], p, a, size - PackedSize(a));
    assert [] + Zeros(PackedSize(a) + (size - PackedSize(a))) == Zeros(size);
    EncodeFromAppend(Zeros(size), 0, p, a, b);
  }

  ghost function KeysOf<K>(fields: seq<(K, Field)>): (r: set<K>)
    ensures forall i :: 0 <= i < |fields| ==> fields[i].0 in r
    ensures forall k :: k in r ==> exists i :: 0 <= i < |fields| && fields[i].0 == k
  {
    set i | 0 <= i < |fields| :: fields[i].0
  }

  lemma KeysOfAppend<K>(a: seq<(K, Field)>, b: seq<(K, Field)>)
    ensures KeysOf(a + b) == KeysOf(a) + KeysOf(b)
  {
    forall k | k in KeysOf(a + b) ensures k in KeysOf(a) + KeysOf(b) {
      var i :| 0 <= i < |a + b| && (a + b)[i].0 == k;
      if i < |a| { assert a[i] == (a + b)[i]; } else { assert b[i - |a|] == (a + b)[i]; }
    }
    forall k | k in KeysOf(a) + KeysOf(b) ensures k in KeysOf(a + b) {
      if k in KeysOf(a) {
        var i :| 0 <= i < |a| && a[i].0 == k;
        assert (a + b)[i] == a[i];
      } else {
        var i :| 0 <= i < |b| && b[i].0 == k;
        assert (a + b)[|a| + i] == b[i];
      }
    }
  }

  /** The decoded payload holds the accumulated keys and every schema key, with the
      payload's value for a schema key. */
  lemma {:induction false} ProjectSpec<K>(acc: Payload<K>, p: Payload<K>, fields: seq<(K, Field)>)
    requires forall i :: 0 <= i < |fields| ==> fields[i].0 in p
    ensures ProjectFrom(acc, p, fields).Keys == acc.Keys + KeysOf(fields)
    ensures forall k :: k in KeysOf(fields) ==> ProjectFrom(acc, p, fields)[k] == p[k]
    ensures forall k :: k in acc && k !in KeysOf(fields) ==> ProjectFrom(acc, p, fields)[k] == acc[k]
    decreases |fields|
  {
    if fields != [] {
      var k, tail := fields[0].0, fields[1..];
      assert forall i :: 0 <= i < |tail| ==> tail[i] == fields[i + 1];
      ProjectSpec(acc[k := p[k]], p, tail);
    }
  }

  /** A payload with exactly the schema's keys decodes to itself. */
  lemma ProjectAll<K>(p: Payload<K>, fields: seq<(K, Field)>)
    requires forall i :: 0 <= i < |fields| ==> fields[i].0 in p
    requires forall k :: k in p ==> k in KeysOf(fields)
    ensures ProjectFrom(map[], p, fields) == p
  {
    ProjectSpec(map[], p, fields);
  }

  /** The as-written `encode` and `decode` invert each other on every schema whose
      arrays all have one-byte elements, where `calcBytesInPacket` is the packed size. */
  lemma RoundTrip<K>(p: Payload<K>, fields: seq<(K, Field)>)
    requires AllRecoverable(p, fields) && AlignedFrom(fields, 0) && ByteArrays(fields)
    ensures Encoded(p, fields).Ok?
    ensures Decoded(Encoded(p, fields).value, fields).0 == Ok(ProjectFrom(map[], p, fields))
  {
    CalcBytesIsPackedSize(fields);
    RoundTripPacked(p, fields);
  }

  /** A payload key the schema needs but the payload lacks makes `encode` fail, once the
      fields before it were written. */
  lemma {:induction false} EncodeFromMissing<K>(pre: seq<byte>, p: Payload<K>, fields: seq<(K, Field)>, i: nat)
    requires i < |fields| && fields[i].0 !in p && AllWritable(p, fields[..i])
    ensures EncodeFrom(pre + Zeros(PackedSize(fields)), |pre|, p, fields) == Err(SchemaKeyMissing)
    decreases i
  {
    if i > 0 {
      var k, f, tail := fields[0].0, fields[0].1, fields[1..];
      assert fields[..i][0] == fields[0];
      assert k in p && Writable(p[k], f);
      WriteFieldImage(pre, PackedSize(fields), f, p[k]);
      var pre' := pre + Image(p[k], f);
      assert pre + Image(p[k], f) + Zeros(PackedSize(fields) - Span(f)) == pre' + Zeros(PackedSize(tail));
      var front := tail[..i - 1];
      assert AllWritable(p, front) by {
        forall j | 0 <= j < i - 1 ensures front[j].0 in p && Writable(p[front[j].0], front[j].1) {
          assert front[j] == fields[..i][j + 1];
        }
      }
      assert tail[i - 1] == fields[i];
      EncodeFromMissing(pre', p, tail, i - 1);
    }
  }

  lemma EncodeMissing<K>(p: Payload<K>, fields: seq<(K, Field)>, i: nat)
    requires i < |fields| && fields[i].0 !in p && AllWritable(p, fields[..i])
    ensures EncodeInto(PackedSize(fields), p, fields) == Err(SchemaKeyMissing)
  {
    EncodeFromMissing([], p, fields, i);
    assert [] + Zeros(PackedSize(fields)) == Zeros(PackedSize(fields));
  }

  lemma {:induction false} FromLittleEndianZeros(n: nat)
    ensures FromLittleEndian(Zeros(n)) == 0
  {
    if n > 0 {
      assert Zeros(n)[1..] == Zeros(n - 1);
      FromLittleEndianZeros(n - 1);
    }
  }

  /** An 8-byte number field is never written but is read back as a 64-bit bigint: any
      number encodes as zeros and decodes as Big(0). */
  lemma WideNumberReadsZero<K>(k: K, n: int, o: Order)
    ensures Encoded(map[k := Num(n)], [(k, NumberField(8, o))]) == Ok(Zeros(8))
    ensures Decoded(Zeros(8), [(k, NumberField(8, o))]).0 == Ok(map[k := Big(0)])
  {
    var fields := [(k, NumberField(8, o))];
    var p := map[k := Num(n)];
    assert fields[1..] == [];
    assert CalcBytes(fields) == 8;
    assert WriteField(Zeros(8), 0, NumberField(8, o), Num(n)) == Ok(Zeros(8));
    assert EncodeFrom(Zeros(8), 0, p, fields) == EncodeFrom(Zeros(8), 8, p, []);
    FromLittleEndianZeros(8);
    assert Reverse(Zeros(8)) == Zeros(8);
    assert Zeros(8)[0..8] == Zeros(8);
    assert ReadField(Zeros(8), 0, NumberField(8, o)) == (Ok(Big(0)), Zeros(8));
    assert DecodeFrom(Zeros(8), 0, fields, map[]) == DecodeFrom(Zeros(8), 8, [], map[k := Big(0)]);
  }

  // ---------------------------------------------------------------- schemas of byte fields

  /** Every array of the schema has one-byte elements. */
  predicate OneByteArrays<K>(fields: seq<(K, Field)>) {
    forall i :: 0 <= i < |fields| && fields[i].1.ArrayField? ==> fields[i].1.size == 1
  }

  lemma OneByteArraysAppend<K>(a: seq<(K, Field)>, b: seq<(K, Field)>)
    requires OneByteArrays(a) && OneByteArrays(b)
    ensures OneByteArrays(a + b)
  {
    forall i | 0 <= i < |a + b| && (a + b)[i].1.ArrayField? ensures (a + b)[i].1.size == 1 {
      if i < |a| { assert (a + b)[i] == a[i]; } else { assert (a + b)[i] == b[i - |a|]; }
    }
  }

  lemma {:induction false} OneByteAligned<K>(fields: seq<(K, Field)>, offset: nat)
    requires OneByteArrays(fields)
    ensures AlignedFrom(fields, offset) && ByteArrays(fields)
    decreases |fields|
  {
    if fields != [] {
      assert OneByteArrays(fields[1..]) by {
        forall i | 0 <= i < |fields| - 1 && fields[1..][i].1.ArrayField? ensures fields[1..][i].1.size == 1 {
          assert fields[1..][i] == fields[i + 1];
        }
      }
      OneByteAligned(fields[1..], GetOffsetOf(offset, fields[0].1));
    }
  }

  /** Without wide arrays, `decode` leaves the caller's buffer as `encode` wrote it. */
  lemma {:induction false} SerializeUnswapped<K>(p: Payload<K>, fields: seq<(K, Field)>)
    requires AllWritable(p, fields) && OneByteArrays(fields)
    ensures Serialize(p, fields, true) == Serialize(p, fields, false)
    decreases |fields|
  {
    if fields != [] {
      AllWritableTail(p, fields);
      assert OneByteArrays(fields[1..]) by {
        forall i | 0 <= i < |fields| - 1 && fields[1..][i].1.ArrayField? ensures fields[1..][i].1.size == 1 {
          assert fields[1..][i] == fields[i + 1];
        }
      }
      SerializeUnswapped(p, fields[1..]);
      assert ImageAfterRead(p[fields[0].0], fields[0].1) == Image(p[fields[0].0], fields[0].1);
    }
  }

  /** For a schema of byte fields, the as-written `encode` and `decode` are inverse: a
      payload holding only schema keys, each with a recoverable value, decodes to itself
      and the buffer is left as it was. */
  lemma RoundTripBytes<K>(p: Payload<K>, fields: seq<(K, Field)>)
    requires AllRecoverable(p, fields) && OneByteArrays(fields)
    requires forall k :: k in p ==> k in KeysOf(fields)
    ensures AllWritable(p, fields)
    ensures Encoded(p, fields) == Ok(Serialize(p, fields, false))
    ensures Decoded(Serialize(p, fields, false), fields) == (Ok(p), Serialize(p, fields, false))
  {
    OneByteAligned(fields, 0);
    CalcBytesIsPackedSize(fields);
    RoundTripPacked(p, fields);
    ProjectAll(p, fields);
    SerializeUnswapped(p, fields);
  }

  // ---------------------------------------------------------------- object literals

  /** The value an object literal's entries give key k: the last entry for k wins. */
  function Lookup<K(==)>(entries: seq<(K, Value)>, k: K): Value
    decreases |entries|
  {
    if entries == [] then Undefined
    else if entries[|entries| - 1].0 == k then entries[|entries| - 1].1
    else Lookup(entries[..|entries| - 1], k)
  }

  /** An object literal `{k1: v1, k2: v2, ...}` written as its entries in order. */
  function Object<K(==)>(entries: seq<(K, Value)>): (r: Payload<K>)
    ensures forall i :: 0 <= i < |entries| ==> entries[i].0 in r
    ensures forall k :: k in r ==> exists i :: 0 <= i < |entries| && entries[i].0 == k
  {
    map k | k in (set i | 0 <= i < |entries| :: entries[i].0) :: Lookup(entries, k)
  }

  lemma {:induction false} LookupAt<K>(entries: seq<(K, Value)>, i: nat)
    requires i < |entries| && forall j :: i < j < |entries| ==> entries[j].0 != entries[i].0
    ensures Lookup(entries, entries[i].0) == entries[i].1
    decreases |entries|
  {
    var n := |entries| - 1;
    if i < n {
      assert entries[..n][i] == entries[i];
      assert forall j :: i < j < n ==> entries[..n][j] == entries[j];
      LookupAt(entries[..n], i);
    }
  }

  /** The entries list the schema's fields in order, each with a value the field recovers. */
  ghost predicate Matches<K>(entries: seq<(K, Value)>, fields: seq<(K, Field)>) {
    |entries| == |fields| &&
    forall i :: 0 <= i < |fields| ==> entries[i].0 == fields[i].0 && Recoverable(entries[i].1, fields[i].1)
  }

  lemma MatchesAppend<K>(e1: seq<(K, Value)>, f1: seq<(K, Field)>, e2: seq<(K, Value)>, f2: seq<(K, Field)>)
    requires Matches(e1, f1) && Matches(e2, f2)
    ensures Matches(e1 + e2, f1 + f2)
  {
    forall i | 0 <= i < |f1 + f2|
      ensures (e1 + e2)[i].0 == (f1 + f2)[i].0 && Recoverable((e1 + e2)[i].1, (f1 + f2)[i].1)
    {
      if i < |f1| {
        assert (e1 + e2)[i] == e1[i] && (f1 + f2)[i] == f1[i];
      } else {
        assert (e1 + e2)[i] == e2[i - |f1|] && (f1 + f2)[i] == f2[i - |f1|];
      }
    }
  }

  /** An object literal that lists a schema's distinct fields, each recoverable, is a
      payload of exactly the schema keys that survives a round trip. */
  lemma ObjectMatches<K>(entries: seq<(K, Value)>, fields: seq<(K, Field)>)
    requires Matches(entries, fields) && OrderedMaps.UniqueKeys(fields)
    ensures AllRecoverable(Object(entries), fields)
    ensures forall k :: k in Object(entries) <==> k in KeysOf(fields)
  {
    var p := Object(entries);
    forall i | 0 <= i < |fields| ensures fields[i].0 in p && Recoverable(p[fields[i].0], fields[i].1) {
      LookupAt(entries, i);
    }
  }

  /** Overrides that name only schema keys, each with a value its field recovers. */
  ghost predicate Fits<K>(o: Payload<K>, fields: seq<(K, Field)>) {
    (forall k :: k in o ==> k in KeysOf(fields)) &&
    forall i :: 0 <= i < |fields| && fields[i].0 in o ==> Recoverable(o[fields[i].0], fields[i].1)
  }

  /** Spreading fitting overrides over a recoverable payload keeps it recoverable. */
  lemma MergeFits<K>(base: Payload<K>, o: Payload<K>, fields: seq<(K, Field)>)
    requires AllRecoverable(base, fields) && (forall k :: k in base ==> k in KeysOf(fields))
    requires Fits(o, fields)
    ensures AllRecoverable(base + o, fields) && forall k :: k in base + o ==> k in KeysOf(fields)
  {
  }

  /** Bytes before the running offset are never written again. */
  lemma {:induction false} EncodeKeepsPrefix<K>(buf: seq<byte>, offset: nat, p: Payload<K>, fields: seq<(K, Field)>)
    requires EncodeFrom(buf, offset, p, fields).Ok?
    ensures forall j :: 0 <= j < offset && j < |buf| ==> EncodeFrom(buf, offset, p, fields).value[j] == buf[j]
    decreases |fields|
  {
    if fields != [] {
      var k, f := fields[0].0, fields[0].1;
      var b := WriteField(buf, offset, f, p[k]).value;
      assert forall j :: 0 <= j < offset && j < |buf| ==> b[j] == buf[j];
      EncodeKeepsPrefix(b, GetOffsetOf(offset, f), p, fields[1..]);
    }
  }

  /** Every key `decode` returns comes from the accumulator or the schema, and each
      schema key holds a value of its field's kind. */
  lemma {:induction false} DecodeFromKinds<K>(buf: seq<byte>, offset: nat, fields: seq<(K, Field)>, acc: Payload<K>)
    requires OrderedMaps.UniqueKeys(fields)
    requires DecodeFrom(buf, offset, fields, acc).0.Ok?
    ensures var d := DecodeFrom(buf, offset, fields, acc).0.value;
      d.Keys == acc.Keys + KeysOf(fields) &&
      (forall i :: 0 <= i < |fields| ==> ReadKind(d[fields[i].0], fields[i].1)) &&
      (forall k :: k in acc && k !in KeysOf(fields) ==> d[k] == acc[k])
    decreases |fields|
  {
    if fields != [] {
      var k, f, tail := fields[0].0, fields[0].1, fields[1..];
      var (v, b) := ReadField(buf, offset, f);
      assert OrderedMaps.UniqueKeys(tail) by {
        forall i, j | 0 <= i < j < |tail| ensures tail[i].0 != tail[j].0 {
          assert tail[i] == fields[i + 1] && tail[j] == fields[j + 1];
        }
      }
      DecodeFromKinds(b, GetOffsetOf(offset, f), tail, acc[k := v.value]);
      assert forall j :: 0 <= j < |tail| ==> tail[j].0 != k by {
        forall j | 0 <= j < |tail| ensures tail[j].0 != k {
          assert tail[j] == fields[j + 1];
        }
      }
      var d := DecodeFrom(buf, offset, fields, acc).0.value;
      forall i | 0 <= i < |fields| ensures ReadKind(d[fields[i].0], fields[i].1) {
        if i > 0 {
          assert fields[i] == tail[i - 1];
        }
      }
    }
  }

  // ---------------------------------------------------------------- the buffer walk

  /** Copy bytes into the buffer at offset (`buffer.set`, `buffer.write`, `writeUIntN`). */
  method CopyInto(buf: array<byte>, offset: nat, bytes: seq<byte>)
    requires offset + |bytes| <= buf.Length
    modifies buf
    ensures buf[..] == Splice(old(buf[..]), offset, bytes)
  {
    var j := 0;
    while j < |bytes|
      invariant 0 <= j <= |bytes|
      invariant forall t :: 0 <= t < buf.Length ==> buf[t] == (if offset <= t < offset + j then bytes[t - offset] else old(buf[t]))
    {
      buf[offset + j] := bytes[j];
      j := j + 1;
    }
    assert forall t :: 0 <= t < buf.Length ==> buf[..][t] == Splice(old(buf[..]), offset, bytes)[t];
  }

  /** Write one field's value, as `writeStringToBuffer`, `writeArrayToBuffer` and
      `writeNumberToBuffer` do; false for the RangeError those throw before writing. */
  method WriteFieldInto(buf: array<byte>, offset: nat, f: Field, v: Value) returns (ok: bool)
    modifies buf
    ensures ok == WriteField(old(buf[..]), offset, f, v).Ok?
    ensures buf[..] == if ok then WriteField(old(buf[..]), offset, f, v).value else old(buf[..])
  {
    if !KindMatches(v, f) { return true; }
    var bytes: seq<byte>;
    match f {
      case NumberField(w, o) =>
        if !WrittenWidth(w) { return true; }
        if !(0 <= v.n < Pow256(w)) || offset + w > buf.Length { return false; }
        bytes := ToBytes(v.n, w, o);
      case StringField(w) =>
        if offset > buf.Length || w > buf.Length { return false; }
        bytes := Take(Take(v.s, w), buf.Length - offset);
      case ArrayField(_, s, o) =>
        if !KnownSize(s) { return true; }
        bytes := ArrayBytes(v.a, s, o);
        if offset + |bytes| > buf.Length { return false; }
    }
    CopyInto(buf, offset, bytes);
    return true;
  }

  /** `encode`: a zero-filled packet of `calcBytesInPacket` bytes, every schema record's
      value written at the running offset; a schema key missing from the payload is an
      error. */
  method Encode<K(==)>(payload: Payload<K>, schema: Schema<K>) returns (r: Result<seq<byte>>)
    ensures r == Encoded(payload, schema.entries)
  {
    var fields := schema.entries;
    var packet := new byte[CalcBytes(fields)](_ => 0);
    assert packet[..] == Zeros(CalcBytes(fields));
    var offset := 0;
    var i := 0;
    while i < |fields|
      invariant 0 <= i <= |fields|
      invariant EncodeFrom(packet[..], offset, payload, fields[i..]) == Encoded(payload, fields)
    {
      var key, field := fields[i].0, fields[i].1;
      assert fields[i..][0] == fields[i] && fields[i..][1..] == fields[i + 1..];
      if key !in payload {
        return Err(SchemaKeyMissing);
      }
      var ok := WriteFieldInto(packet, offset, field, payload[key]);
      if !ok {
        return Err(RangeError);
      }
      offset := GetOffsetOf(offset, field);
      i := i + 1;
    }
    return Ok(packet[..]);
  }

  lemma {:induction false} SwapGroupsAppend(a: seq<byte>, b: seq<byte>, s: nat)
    requires s > 0 && |a| % s == 0 && |b| == s
    ensures SwapGroups(a + b, s) == SwapGroups(a, s) + Reverse(b)
    decreases |a|
  {
    if a == [] {
      assert (a + b)[..s] == b && (a + b)[s..] == [];
    } else {
      assert |a| >= s;
      assert (a + b)[..s] == a[..s] && (a + b)[s..] == a[s..] + b;
      JsNumbers.DivModUnique(|a| - s, s, |a| / s - 1, 0);
      SwapGroupsAppend(a[s..], b, s);
    }
  }

  /** The bytes b with the group of s bytes at j reversed. */
  ghost function ReversedAt(b: seq<byte>, j: nat, s: nat): (r: seq<byte>)
    requires j + s <= |b|
    ensures |r| == |b|
  {
    b[..j] + Reverse(b[j..j + s]) + b[j + s..]
  }

  /** Reverse the group of s bytes at j in place. */
  method ReverseGroup(buf: array<byte>, j: nat, s: ElemSize)
    requires s > 1 && j + s <= buf.Length
    modifies buf
    ensures buf[..] == ReversedAt(old(buf[..]), j, s)
  {
    ghost var b := buf[..];
    if s == 2 {
      buf[j], buf[j + 1] := buf[j + 1], buf[j];
      assert buf[..] == b[j := b[j + 1]][j + 1 := b[j]];
      ReverseTwo(b, j);
    } else {
      buf[j], buf[j + 1], buf[j + 2], buf[j + 3] := buf[j + 3], buf[j + 2], buf[j + 1], buf[j];
      assert buf[..] == b[j := b[j + 3]][j + 1 := b[j + 2]][j + 2 := b[j + 1]][j + 3 := b[j]];
      ReverseFour(b, j);
    }
  }

  lemma ReverseTwo(b: seq<byte>, j: nat)
    requires j + 2 <= |b|
    ensures ReversedAt(b, j, 2) == b[j := b[j + 1]][j + 1 := b[j]]
  {
    ReverseIndex(b[j..j + 2]);
    assert forall t :: 0 <= t < |b| ==> ReversedAt(b, j, 2)[t] == b[j := b[j + 1]][j + 1 := b[j]][t];
  }

  lemma ReverseFour(b: seq<byte>, j: nat)
    requires j + 4 <= |b|
    ensures ReversedAt(b, j, 4) == b[j := b[j + 3]][j + 1 := b[j + 2]][j + 2 := b[j + 1]][j + 3 := b[j]]
  {
    ReverseIndex(b[j..j + 4]);
    assert forall t :: 0 <= t < |b| ==> ReversedAt(b, j, 4)[t] == b[j := b[j + 3]][j + 1 := b[j + 2]][j + 2 := b[j + 1]][j + 3 := b[j]][t];
  }

  lemma GroupStep(lo: nat, hi: nat, j: nat, s: nat)
    requires s > 0 && lo <= j < hi && (hi - lo) % s == 0 && (j - lo) % s == 0
    ensures j + s <= hi && (j + s - lo) % s == 0
  {
    var a, b := (hi - lo) / s, (j - lo) / s;
    JsNumbers.DivModUnique(hi - lo, s, a, 0);
    JsNumbers.DivModUnique(j - lo, s, b, 0);
    assert hi - j == s * (a - b);
    if a - b != 0 {
      JsNumbers.MulAbs(s, a - b);
    }
    JsNumbers.DivModUnique(j + s - lo, s, b + 1, 0);
  }

  lemma BackStep(lo: nat, j: nat, s: nat)
    requires s > 0 && lo + s <= j && (j - lo) % s == 0
    ensures (j - s - lo) % s == 0
  {
    var g := (j - lo) / s;
    JsNumbers.DivModUnique(j - lo, s, g, 0);
    JsNumbers.DivModUnique(j - s - lo, s, g - 1, 0);
  }

  lemma Pieces3<T>(x: seq<T>, g: seq<T>, t: seq<T>, w: seq<T>)
    requires w == x + g + t
    ensures w[..|x|] == x && w[|x|..|x| + |g|] == g && w[|x| + |g|..] == t
  {
  }

  lemma SwapStep(orig: seq<byte>, lo: nat, j: nat, s: nat, next: nat, before: seq<byte>, after: seq<byte>)
    requires s > 0 && lo <= j && next == j + s && next <= |orig| && (j - lo) % s == 0
    requires before == orig[..lo] + SwapGroups(orig[lo..j], s) + orig[j..]
    requires after == ReversedAt(before, j, s)
    ensures after == orig[..lo] + SwapGroups(orig[lo..next], s) + orig[next..]
  {
    var P, D, G, T := orig[..lo], SwapGroups(orig[lo..j], s), orig[j..next], orig[next..];
    assert orig[j..] == G + T;
    Regroup(P, D, G, T);
    assert |P + D| == j && |G| == s;
    Pieces3(P + D, G, T, before);
    SwapGroupsAppend(orig[lo..j], G, s);
    assert orig[lo..j] + G == orig[lo..next];
    Regroup(P, D, Reverse(G), T);
  }

  /** The buffer after the groups of s bytes from lo up to j have been reversed one by
      one, front to back, as the swap loop does. */
  ghost function SwappedTo(orig: seq<byte>, lo: nat, j: nat, s: nat): (r: seq<byte>)
    requires s > 0 && lo <= j <= |orig|
    ensures |r| == |orig|
    decreases j
  {
    if j < lo + s then orig
    else
      ReversedAt(SwappedTo(orig, lo, j - s, s), j - s, s)
  }

  lemma SwappedToUnfold(orig: seq<byte>, lo: nat, j: nat, s: nat, i: nat)
    requires s > 0 && lo + s <= j <= |orig| && i == j - s
    ensures SwappedTo(orig, lo, j, s) == ReversedAt(SwappedTo(orig, lo, i, s), i, s)
  {
  }

  /** Reversing the groups one by one is SwapGroups on the region. */
  lemma {:induction false} SwappedToGroups(orig: seq<byte>, lo: nat, j: nat, s: nat)
    requires s > 0 && lo <= j <= |orig| && (j - lo) % s == 0
    ensures SwappedTo(orig, lo, j, s) == orig[..lo] + SwapGroups(orig[lo..j], s) + orig[j..]
    decreases j
  {
    if j == lo {
      assert orig[lo..j] == [];
    } else {
      GroupStep(lo, j, lo, s);
      BackStep(lo, j, s);
      var i := j - s;
      SwappedToGroups(orig, lo, i, s);
      SwappedToUnfold(orig, lo, j, s, i);
      SwapStep(orig, lo, i, s, j, SwappedTo(orig, lo, i, s), SwappedTo(orig, lo, j, s));
    }
  }

  /** `swap16` / `swap32` on the region lo..hi of the buffer. */
  method SwapInPlace(buf: array<byte>, lo: nat, hi: nat, s: ElemSize)
    requires s > 1 && lo <= hi <= buf.Length && (hi - lo) % s == 0
    modifies buf
    ensures buf[..] == old(buf[..])[..lo] + SwapGroups(old(buf[..])[lo..hi], s) + old(buf[..])[hi..]
  {
    ghost var orig := buf[..];
    var j := lo;
    while j < hi
      invariant lo <= j <= hi && (j - lo) % s == 0
      invariant buf[..] == SwappedTo(orig, lo, j, s)
    {
      SwapNextGroup(buf, orig, lo, hi, j, s);
      j := j + s;
    }
    assert j == hi;
    SwappedToGroups(orig, lo, j, s);
  }

  /** One turn of the swap loop: the next group of s bytes at j is reversed. */
  method SwapNextGroup(buf: array<byte>, ghost orig: seq<byte>, lo: nat, hi: nat, j: nat, s: ElemSize)
    requires s > 1 && lo <= j < hi <= buf.Length == |orig| && (hi - lo) % s == 0 && (j - lo) % s == 0
    requires buf[..] == SwappedTo(orig, lo, j, s)
    modifies buf
    ensures j + s <= hi && (j + s - lo) % s == 0
    ensures buf[..] == SwappedTo(orig, lo, j + s, s)
  {
    GroupStep(lo, hi, j, s);
    ReverseGroup(buf, j, s);
  }

  /** One field read as `readStringFromBuffer`, `readNumberFromBuffer` and
      `readArrayFromBuffer` do, including their swap of the caller's bytes. */
  method ReadFieldFrom(buf: array<byte>, offset: nat, f: Field) returns (r: Result<Value>)
    modifies buf
    ensures (r, buf[..]) == ReadField(old(buf[..]), offset, f)
  {
    var n := buf.Length;
    match f {
      case StringField(w) =>
        r := Ok(Str(UntilNul(Clip(buf[..], offset, offset + w))));
      case NumberField(w, o) =>
        if !WrittenWidth(w) && w != 8 {
          r := Ok(Undefined);
        } else if offset + w > n {
          r := Err(RangeError);
        } else {
          var x := FromBytes(buf[offset..offset + w], o);
          r := Ok(if w == 8 then Big(x) else Num(x));
        }
      case ArrayField(c, s, o) =>
        if !KnownSize(s) {
          r := Ok(Undefined);
        } else {
          r := ReadArrayFrom(buf, offset, c, s, o);
        }
    }
  }

  /** `readArrayFromBuffer`: a view of the array's region, swapped in place first when
      the elements are wide and big-endian. */
  method ReadArrayFrom(buf: array<byte>, offset: nat, c: nat, s: ElemSize, o: Order) returns (r: Result<Value>)
    modifies buf
    ensures (r, buf[..]) == ReadField(old(buf[..]), offset, ArrayField(c, s, o))
  {
    var n := buf.Length;
    var lo := Helpers.Min(offset, n);
    var hi := Helpers.Min(offset + c * s, n);
    if s == 1 {
      r := Ok(Arr(Ints(buf[lo..hi])));
    } else if o == BE && (hi - lo) % s != 0 {
      r := Err(RangeError);
    } else {
      if o == BE {
        SwapInPlace(buf, lo, hi, s);
      }
      if lo % s != 0 || lo + c * s > n {
        r := Err(RangeError);
      } else {
        r := Ok(Arr(ReadElements(buf[lo..lo + c * s], c, s)));
      }
    }
  }

  /** A fresh buffer holding the given bytes, as a datagram arrives. */
  method BufferFrom(bytes: seq<byte>) returns (buffer: array<byte>)
    ensures fresh(buffer) && buffer[..] == bytes
  {
    buffer := new byte[|bytes|](i requires 0 <= i < |bytes| => bytes[i]);
    assert buffer[..] == bytes;
  }

  /** `decode`: the buffer must be `calcBytesInPacket` bytes long; every schema record is
      read at the running offset. The buffer is the caller's and may be changed. */
  method Decode<K(==)>(buffer: array<byte>, schema: Schema<K>) returns (r: Result<Payload<K>>)
    modifies buffer
    ensures (r, buffer[..]) == Decoded(old(buffer[..]), schema.entries)
  {
    var fields := schema.entries;
    if CalcBytes(fields) != buffer.Length {
      return Err(PacketSizeMismatch);
    }
    var payload: Payload<K> := map[];
    var offset := 0;
    var i := 0;
    while i < |fields|
      invariant 0 <= i <= |fields|
      invariant DecodeFrom(buffer[..], offset, fields[i..], payload) == Decoded(old(buffer[..]), fields)
    {
      var key, field := fields[i].0, fields[i].1;
      assert fields[i..][0] == fields[i] && fields[i..][1..] == fields[i + 1..];
      var v := ReadFieldFrom(buffer, offset, field);
      if v.Err? {
        return Err(v.error);
      }
      payload := payload[key := v.value];
      offset := GetOffsetOf(offset, field);
      i := i + 1;
    }
    return Ok(payload);
  }
}
