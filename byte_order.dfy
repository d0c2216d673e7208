/** Bytes and the little/big-endian layout of unsigned integers. */
module ByteOrder {
  import JsNumbers

  newtype byte = x: int | 0 <= x < 256

  datatype Order = LE | BE

  function Pow256(n: nat): (r: nat)
    ensures r >= 1
  {
    if n == 0 then 1 else 256 * Pow256(n - 1)
  }

  function Zeros(n: nat): (r: seq<byte>)
    ensures |r| == n && forall i :: 0 <= i < n ==> r[i] == 0
  {
    seq(n, _ => 0)
  }

  function Reverse<T>(s: seq<T>): (r: seq<T>)
    ensures |r| == |s|
  {
    if s == [] then [] else Reverse(s[1..]) + [s[0]]
  }

  /** Element i of the reversal is element |s| - 1 - i of s. */
  lemma {:induction false} ReverseIndex<T>(s: seq<T>)
    ensures forall i :: 0 <= i < |s| ==> Reverse(s)[i] == s[|s| - 1 - i]
  {
    if s != [] {
      ReverseIndex(s[1..]);
      assert Reverse(s) == Reverse(s[1..]) + [s[0]];
    }
  }

  /** The low n bytes of v, least significant first. A value outside 0..256^n-1 is
      reduced modulo 256^n, as typed-array stores and Node's byte writes do. */
  function LittleEndian(v: int, n: nat): (r: seq<byte>)
    ensures |r| == n
    decreases n
  {
    if n == 0 then [] else [(v % 256) as byte] + LittleEndian(v / 256, n - 1)
  }

  function FromLittleEndian(s: seq<byte>): nat {
    if s == [] then 0 else s[0] as nat + 256 * FromLittleEndian(s[1..])
  }

  /** The n-byte image of v in the given byte order. */
  function ToBytes(v: int, n: nat, o: Order): (r: seq<byte>)
    ensures |r| == n
  {
    if o == LE then LittleEndian(v, n) else Reverse(LittleEndian(v, n))
  }

  /** The unsigned value of a byte sequence read in the given order. */
  function FromBytes(s: seq<byte>, o: Order): nat {
    if o == LE then FromLittleEndian(s) else FromLittleEndian(Reverse(s))
  }

  /** A two-byte value: `readUInt16LE` and `readUInt16BE`. */
  lemma TwoBytes(s: seq<byte>)
    requires |s| == 2
    ensures FromBytes(s, LE) == s[0] as int + 256 * s[1] as int
    ensures FromBytes(s, BE) == 256 * s[0] as int + s[1] as int
  {
    assert FromLittleEndian(s[1..][1..]) == 0 by { assert s[1..][1..] == []; }
    assert FromLittleEndian(s) == s[0] as int + 256 * (s[1] as int + 256 * 0);
    var r := Reverse(s);
    ReverseIndex(s);
    assert r == [s[1], s[0]];
    assert FromLittleEndian(r[1..][1..]) == 0 by { assert r[1..][1..] == []; }
    assert FromLittleEndian(r) == s[1] as int + 256 * (s[0] as int + 256 * 0);
  }

  lemma ReverseReverse<T>(s: seq<T>)
    ensures Reverse(Reverse(s)) == s
  {
    ReverseIndex(s);
    ReverseIndex(Reverse(s));
  }

  lemma {:induction false} FromLittleEndianBound(s: seq<byte>)
    ensures FromLittleEndian(s) < Pow256(|s|)
  {
    if s != [] {
      FromLittleEndianBound(s[1..]);
    }
  }

  /** The low n bytes of v % 256^n split into the lowest byte and the rest. */
  lemma ModPow256Split(v: int, n: nat)
    requires n >= 1
    ensures v % Pow256(n) == v % 256 + 256 * ((v / 256) % Pow256(n - 1))
  {
    var h := Pow256(n - 1);
    var q, s := v / 256, (v / 256) % h;
    var t := q / h;
    assert q == h * t + s;
    assert v == 256 * q + v % 256;
    assert v == (256 * h) * t + (v % 256 + 256 * s);
    JsNumbers.DivModUnique(v, Pow256(n), t, v % 256 + 256 * s);
  }

  /** Reading back the n-byte little-endian image of v yields v modulo 256^n. */
  lemma {:induction false} LittleEndianRoundTrip(v: int, n: nat)
    ensures FromLittleEndian(LittleEndian(v, n)) == v % Pow256(n)
    decreases n
  {
    if n > 0 {
      var s := LittleEndian(v, n);
      assert s[1..] == LittleEndian(v / 256, n - 1);
      LittleEndianRoundTrip(v / 256, n - 1);
      ModPow256Split(v, n);
    }
  }

  /** Writing then reading a value that fits returns the value, in either byte order. */
  lemma RoundTrip(v: int, n: nat, o: Order)
    requires 0 <= v < Pow256(n)
    ensures FromBytes(ToBytes(v, n, o), o) == v
  {
    LittleEndianRoundTrip(v, n);
    JsNumbers.DivModUnique(v, Pow256(n), 0, v);
    if o == BE {
      ReverseReverse(LittleEndian(v, n));
    }
  }

  /** The image of v depends only on v modulo 256^n. */
  lemma ToBytesModulo(v: int, n: nat, o: Order)
    ensures ToBytes(v, n, o) == ToBytes(v % Pow256(n), n, o)
  {
    LittleEndianModulo(v, n);
  }

  lemma {:induction false} LittleEndianModulo(v: int, n: nat)
    ensures LittleEndian(v, n) == LittleEndian(v % Pow256(n), n)
    decreases n
  {
    if n > 0 {
      var w := v % Pow256(n);
      ModPow256Split(v, n);
      assert w % 256 == v % 256 && w / 256 == (v / 256) % Pow256(n - 1) by {
        JsNumbers.DivModUnique(w, 256, (v / 256) % Pow256(n - 1), v % 256);
      }
      LittleEndianModulo(v / 256, n - 1);
    }
  }

  /** Big-endian is little-endian reversed: the reversed BE image is the LE image. */
  lemma BigEndianSwapped(v: int, n: nat)
    ensures Reverse(ToBytes(v, n, BE)) == ToBytes(v, n, LE)
  {
    ReverseReverse(LittleEndian(v, n));
  }
}
