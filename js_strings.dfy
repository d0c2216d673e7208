/** The JavaScript string conversions the library applies to addresses: `split` and `join`
    on a one-character separator, the decimal text of an integer, `parseInt` and `Number`.
    A result of NaN is `None`. */
module JsStrings {
  import opened Wrappers

  // ---------------------------------------------------------------- split and join

  /** `s.split(sep)`: the pieces between separators. An empty string is one empty piece. */
  function Split(s: string, sep: char): (r: seq<string>)
    ensures |r| >= 1
    decreases |s|
  {
    if |s| == 0 then [""]
    else
      var rest := Split(s[1..], sep);
      if s[0] == sep then [""] + rest else [[s[0]] + rest[0]] + rest[1..]
  }

  /** `parts.join(sep)`. */
  function Join(parts: seq<string>, sep: char): string
    decreases |parts|
  {
    if |parts| == 0 then ""
    else if |parts| == 1 then parts[0]
    else parts[0] + [sep] + Join(parts[1..], sep)
  }

  /** No piece of a split holds the separator. */
  lemma {:induction false} SplitPieces(s: string, sep: char)
    ensures forall i :: 0 <= i < |Split(s, sep)| ==> sep !in Split(s, sep)[i]
    decreases |s|
  {
    if |s| > 0 {
      SplitPieces(s[1..], sep);
    }
  }

  /** A piece followed by the separator splits off as the first piece. */
  lemma {:induction false} SplitFront(a: string, b: string, sep: char)
    requires sep !in a
    ensures Split(a + [sep] + b, sep) == [a] + Split(b, sep)
    decreases |a|
  {
    var s := a + [sep] + b;
    if |a| == 0 {
      assert s[0] == sep && s[1..] == b;
    } else {
      assert s[0] == a[0] && s[1..] == a[1..] + [sep] + b;
      SplitFront(a[1..], b, sep);
      assert [a[0]] + a[1..] == a;
    }
  }

  /** A string without the separator is a single piece. */
  lemma {:induction false} SplitWhole(a: string, sep: char)
    requires sep !in a
    ensures Split(a, sep) == [a]
    decreases |a|
  {
    if |a| > 0 {
      SplitWhole(a[1..], sep);
      assert [a[0]] + a[1..] == a;
    }
  }

  /** Splitting what `join` built gives back the parts, when no part holds the separator. */
  lemma {:induction false} SplitJoin(parts: seq<string>, sep: char)
    requires |parts| >= 1 && forall i :: 0 <= i < |parts| ==> sep !in parts[i]
    ensures Split(Join(parts, sep), sep) == parts
    decreases |parts|
  {
    if |parts| == 1 {
      SplitWhole(parts[0], sep);
    } else {
      SplitJoin(parts[1..], sep);
      SplitFront(parts[0], Join(parts[1..], sep), sep);
      assert [parts[0]] + parts[1..] == parts;
    }
  }

  /** Joining the pieces of a split gives back the string. */
  lemma {:induction false} JoinSplit(s: string, sep: char)
    ensures Join(Split(s, sep), sep) == s
    decreases |s|
  {
    if |s| > 0 {
      var rest := Split(s[1..], sep);
      JoinSplit(s[1..], sep);
      if s[0] == sep {
        assert Split(s, sep) == [""] + rest;
        assert ([""] + rest)[1..] == rest;
      } else {
        var parts := [[s[0]] + rest[0]] + rest[1..];
        assert Split(s, sep) == parts;
        if |rest| == 1 {
          assert s == [s[0]] + s[1..];
        } else {
          assert parts[1..] == rest[1..];
          assert Join(rest, sep) == rest[0] + [sep] + Join(rest[1..], sep);
          assert s == [s[0]] + s[1..];
        }
      }
    }
  }

  // ---------------------------------------------------------------- decimal text

  predicate IsDigit(c: char) {
    '0' <= c <= '9'
  }

  function DigitChar(d: nat): (c: char)
    requires d < 10
    ensures IsDigit(c)
  {
    (48 + d) as char
  }

  /** The decimal digits of a natural number, most significant first. */
  function Digits(n: nat): (r: string)
    ensures |r| >= 1 && forall i :: 0 <= i < |r| ==> IsDigit(r[i])
    decreases n
  {
    if n < 10 then [DigitChar(n)] else Digits(n / 10) + [DigitChar(n % 10)]
  }

  /** `String(n)` for an integer: its digits, after a minus sign when negative. */
  function IntToString(n: int): (r: string)
    ensures forall i :: 0 <= i < |r| ==> IsDigit(r[i]) || r[i] == '-'
  {
    if n < 0 then "-" + Digits(-n) else Digits(n)
  }

  /** `numbers.join(sep)`. */
  function JoinNumbers(ns: seq<int>, sep: char): string {
    Join(seq(|ns|, i requires 0 <= i < |ns| => IntToString(ns[i])), sep)
  }

  /** The numbers' texts are the pieces of their join, for a separator that is neither a
      digit nor a minus sign. */
  lemma SplitJoinNumbers(ns: seq<int>, sep: char)
    requires |ns| >= 1 && !IsDigit(sep) && sep != '-'
    ensures Split(JoinNumbers(ns, sep), sep) == seq(|ns|, i requires 0 <= i < |ns| => IntToString(ns[i]))
  {
    var parts := seq(|ns|, i requires 0 <= i < |ns| => IntToString(ns[i]));
    forall i | 0 <= i < |parts|
      ensures sep !in parts[i]
    {
      assert forall j :: 0 <= j < |parts[i]| ==> IsDigit(parts[i][j]) || parts[i][j] == '-';
    }
    SplitJoin(parts, sep);
  }

  // ---------------------------------------------------------------- parseInt and Number

  /** The value of a character as a digit of the given radix, if it is one. */
  function DigitValue(c: char, radix: nat): (r: Option<nat>)
    ensures r.Some? ==> r.value < radix
  {
    var v: int :=
      if '0' <= c <= '9' then c as int - '0' as int
      else if 'a' <= c <= 'z' then c as int - 'a' as int + 10
      else if 'A' <= c <= 'Z' then c as int - 'A' as int + 10
      else radix;
    if v < radix then Some(v as nat) else None
  }

  predicate IsDigitOf(c: char, radix: nat) {
    DigitValue(c, radix).Some?
  }

  /** The longest prefix of s made of digits of the radix. */
  function DigitRun(s: string, radix: nat): (r: string)
    ensures |r| <= |s| && r == s[..|r|]
    ensures forall i :: 0 <= i < |r| ==> IsDigitOf(r[i], radix)
    decreases |s|
  {
    if |s| == 0 || !IsDigitOf(s[0], radix) then "" else [s[0]] + DigitRun(s[1..], radix)
  }

  lemma MulNat(a: nat, b: nat)
    ensures a * b >= 0
  {
  }

  /** The number a run of digits denotes. */
  function RunValue(run: string, radix: nat): nat
    requires forall i :: 0 <= i < |run| ==> IsDigitOf(run[i], radix)
    decreases |run|
  {
    if |run| == 0 then 0
    else
      assert IsDigitOf(run[|run| - 1], radix);
      var high := RunValue(run[..|run| - 1], radix);
      MulNat(high, radix);
      high * radix + DigitValue(run[|run| - 1], radix).value
  }

  /** The white space and line terminators `parseInt` and `Number` skip. */
  predicate IsSpace(c: char) {
    c == ' ' || c == '\t' || c == '\n' || c == '\r' || c == '\U{000B}' || c == '\U{000C}' ||
    c == '\U{00A0}' || c == '\U{FEFF}' || c == '\U{2028}' || c == '\U{2029}'
  }

  function TrimStart(s: string): (r: string)
    ensures |r| <= |s| && (|r| > 0 ==> !IsSpace(r[0]))
    decreases |s|
  {
    if |s| > 0 && IsSpace(s[0]) then TrimStart(s[1..]) else s
  }

  function TrimEnd(s: string): (r: string)
    ensures |r| <= |s| && (|r| > 0 ==> !IsSpace(r[|r| - 1]))
    decreases |s|
  {
    if |s| > 0 && IsSpace(s[|s| - 1]) then TrimEnd(s[..|s| - 1]) else s
  }

  predicate HexPrefix(s: string) {
    |s| >= 2 && s[0] == '0' && (s[1] == 'x' || s[1] == 'X')
  }

  /** `parseInt(s, radix)`, radix 0 standing for an absent radix: leading white space and a
      sign are skipped; with radix 16, or none, a "0x" prefix is skipped and means 16; the
      longest run of digits that follows is read, and without one the result is NaN. */
  function ParseInt(s: string, radix: nat): (r: Option<int>)
    requires radix == 0 || 2 <= radix <= 36
  {
    var t := TrimStart(s);
    var negative := |t| > 0 && t[0] == '-';
    var (body, base) := Radix(Unsigned(t), radix);
    var run := DigitRun(body, base);
    if |run| == 0 then None
    else
      var v: int := RunValue(run, base);
      Some(if negative then -v else v)
  }

  /** A string without its leading sign, if it has one. */
  function Unsigned(t: string): (u: string) {
    if |t| > 0 && (t[0] == '-' || t[0] == '+') then t[1..] else t
  }

  /** The digits `parseInt` reads and their radix: a "0x" prefix is skipped, and means 16,
      when the radix is 16 or absent; an absent radix is otherwise 10. */
  function Radix(u: string, radix: nat): (r: (string, nat))
    requires radix == 0 || 2 <= radix <= 36
    ensures 2 <= r.1 <= 36
  {
    if (radix == 0 || radix == 16) && HexPrefix(u) then (u[2..], 16)
    else (u, if radix == 0 then 10 else radix)
  }

  /** `Number(s)` for the forms an address octet takes: white space around is ignored, an
      empty string is 0, and a sign and decimal digits, or "0x" and hex digits, are read.
      Other numeric forms (a fraction, an exponent, "Infinity", "0b"/"0o") are not modelled
      and read as NaN here, as does any string that is not a number. */
  function NumberOf(s: string): (r: Option<int>) {
    var t := TrimEnd(TrimStart(s));
    if |t| == 0 then Some(0)
    else if HexPrefix(t) && |t| > 2 && forall i :: 2 <= i < |t| ==> IsDigitOf(t[i], 16) then
      Some(RunValue(t[2..], 16))
    else
      var negative := t[0] == '-';
      var u := if t[0] == '-' || t[0] == '+' then t[1..] else t;
      if |u| > 0 && forall i :: 0 <= i < |u| ==> IsDigitOf(u[i], 10) then
        var v: int := RunValue(u, 10);
        Some(if negative then -v else v)
      else None
  }

  // ---------------------------------------------------------------- round trips

  lemma {:induction false} DigitRunAll(s: string, radix: nat)
    requires forall i :: 0 <= i < |s| ==> IsDigitOf(s[i], radix)
    ensures DigitRun(s, radix) == s
    decreases |s|
  {
    if |s| > 0 {
      DigitRunAll(s[1..], radix);
    }
  }

  lemma DecimalDigits(s: string)
    requires forall i :: 0 <= i < |s| ==> IsDigit(s[i])
    ensures forall i :: 0 <= i < |s| ==> IsDigitOf(s[i], 10)
  {
  }

  /** The digits of n denote n. */
  lemma {:induction false} DigitsValue(n: nat)
    ensures forall i :: 0 <= i < |Digits(n)| ==> IsDigitOf(Digits(n)[i], 10)
    ensures RunValue(Digits(n), 10) == n
    decreases n
  {
    DecimalDigits(Digits(n));
    if n >= 10 {
      DigitsValue(n / 10);
      var d := Digits(n);
      assert d[..|d| - 1] == Digits(n / 10);
    }
  }

  /** A run of decimal digits has no hex prefix. */
  lemma DecimalRadix(d: string, radix: nat)
    requires |d| >= 1 && forall i :: 0 <= i < |d| ==> IsDigitOf(d[i], 10)
    requires radix == 0 || radix == 10
    ensures Radix(d, radix) == (d, 10)
  {
    assert |d| < 2 || IsDigitOf(d[1], 10);
  }

  /** A run of decimal digits has no sign and no leading space. */
  lemma DecimalPlain(d: string)
    requires |d| >= 1 && forall i :: 0 <= i < |d| ==> IsDigitOf(d[i], 10)
    ensures TrimStart(d) == d && Unsigned(d) == d
  {
    assert !IsSpace(d[0]);
  }

  /** `parseInt` reads a run of decimal digits. */
  lemma ParseIntDecimal(d: string, radix: nat)
    requires |d| >= 1 && forall i :: 0 <= i < |d| ==> IsDigitOf(d[i], 10)
    requires radix == 0 || radix == 10
    ensures ParseInt(d, radix) == Some(RunValue(d, 10))
  {
    DecimalPlain(d);
    DecimalRadix(d, radix);
    DigitRunAll(d, 10);
    ParseIntRead(d, radix, d, 10);
  }

  /** `parseInt` reads a minus sign followed by a run of decimal digits. */
  lemma ParseIntNegative(s: string, d: string, radix: nat)
    requires |s| >= 2 && s[0] == '-' && s[1..] == d
    requires forall i :: 0 <= i < |d| ==> IsDigitOf(d[i], 10)
    requires radix == 0 || radix == 10
    ensures ParseInt(s, radix) == Some(-(RunValue(d, 10) as int))
  {
    DecimalRadix(d, radix);
    DigitRunAll(d, 10);
    assert TrimStart(s) == s by {
      assert !IsSpace(s[0]);
    }
    ParseIntRead(s, radix, d, 10);
  }

  /** What `parseInt` returns once the digits it reads are known. */
  lemma ParseIntRead(s: string, radix: nat, body: string, base: nat)
    requires radix == 0 || 2 <= radix <= 36
    requires Radix(Unsigned(TrimStart(s)), radix) == (body, base)
    requires DigitRun(body, base) == body && |body| >= 1
    ensures var t := TrimStart(s); var v: int := RunValue(body, base);
      ParseInt(s, radix) == Some(if |t| > 0 && t[0] == '-' then -v else v)
  {
  }

  /** `parseInt` reads back the decimal text of any integer. */
  lemma ParseIntOfString(n: int)
    ensures ParseInt(IntToString(n), 10) == Some(n)
    ensures ParseInt(IntToString(n), 0) == Some(n)
  {
    var m := if n < 0 then -n else n;
    DigitsValue(m);
    if n < 0 {
      var s := IntToString(n);
      assert s[1..] == Digits(m);
      ParseIntNegative(s, Digits(m), 10);
      ParseIntNegative(s, Digits(m), 0);
    } else {
      ParseIntDecimal(Digits(m), 10);
      ParseIntDecimal(Digits(m), 0);
    }
  }

  /** A decimal digit is neither white space nor a sign. */
  lemma DecimalDigitChar(c: char)
    requires IsDigitOf(c, 10)
    ensures '0' <= c <= '9'
  {
  }

  /** A run of decimal digits, with or without a minus sign before it, has no white space
      to trim and no hexadecimal prefix. */
  lemma DecimalTrimmed(s: string, d: string)
    requires |d| >= 1 && '0' <= d[0] <= '9' && '0' <= d[|d| - 1] <= '9'
    requires |d| >= 2 ==> '0' <= d[1] <= '9'
    requires s == d || (|s| >= 2 && s[0] == '-' && s[1..] == d)
    ensures TrimEnd(TrimStart(s)) == s && !HexPrefix(s)
  {
    assert s[|s| - 1] == d[|d| - 1];
    assert s[0] == '-' || s[0] == d[0];
    NothingToTrim(s);
  }

  lemma NothingToTrim(s: string)
    requires |s| > 0 && !IsSpace(s[0]) && !IsSpace(s[|s| - 1])
    ensures TrimEnd(TrimStart(s)) == s
  {
  }

  /** `Number` reads a run of decimal digits, with or without a minus sign before it. */
  lemma NumberOfDecimal(s: string, d: string)
    requires |d| >= 1 && forall i :: 0 <= i < |d| ==> IsDigitOf(d[i], 10)
    requires s == d || (|s| >= 2 && s[0] == '-' && s[1..] == d)
    ensures NumberOf(s) == Some(if s == d then RunValue(d, 10) else -(RunValue(d, 10) as int))
  {
    DecimalDigitChar(d[0]);
    DecimalDigitChar(d[|d| - 1]);
    if |d| >= 2 {
      DecimalDigitChar(d[1]);
    }
    DecimalTrimmed(s, d);
    if s == d {
      NumberOfUnsigned(d);
    } else {
      NumberOfNegative(s, d);
    }
  }

  lemma NumberOfUnsigned(d: string)
    requires |d| >= 1 && forall i :: 0 <= i < |d| ==> IsDigitOf(d[i], 10)
    requires '0' <= d[0] <= '9' && TrimEnd(TrimStart(d)) == d && !HexPrefix(d)
    ensures NumberOf(d) == Some(RunValue(d, 10))
  {
  }

  lemma NumberOfNegative(s: string, d: string)
    requires |d| >= 1 && forall i :: 0 <= i < |d| ==> IsDigitOf(d[i], 10)
    requires |s| >= 2 && s[0] == '-' && s[1..] == d
    requires TrimEnd(TrimStart(s)) == s && !HexPrefix(s)
    ensures NumberOf(s) == Some(-(RunValue(d, 10) as int))
  {
  }

  /** `Number` reads back the decimal text of any integer. */
  lemma NumberOfString(n: int)
    ensures NumberOf(IntToString(n)) == Some(n)
  {
    var m := if n < 0 then -n else n;
    DigitsValue(m);
    var s := IntToString(n);
    if n < 0 {
      assert s[1..] == Digits(m);
    }
    NumberOfDecimal(s, Digits(m));
  }

  // ---------------------------------------------------------------- hexadecimal octets

  function HexDigit(d: nat): (c: char)
    requires d < 16
  {
    if d < 10 then (48 + d) as char else (87 + d) as char
  }

  /** A byte as two lower-case hex digits, as an interface's MAC address writes it. */
  function HexOctet(b: nat): (r: string)
    requires b < 256
    ensures |r| == 2
  {
    [HexDigit(b / 16), HexDigit(b % 16)]
  }

  /** `parseInt(_, 16)` reads back a hex octet. */
  lemma ParseHexOctet(b: nat)
    requires b < 256
    ensures ParseInt(HexOctet(b), 16) == Some(b)
  {
    var s := HexOctet(b);
    assert DigitValue(s[0], 16) == Some(b / 16);
    assert DigitValue(s[1], 16) == Some(b % 16);
    assert TrimStart(s) == s by {
      assert !IsSpace(s[0]);
    }
    assert !HexPrefix(s);
    DigitRunAll(s, 16);
    assert RunValue(s, 16) == b by {
      assert s[..1] == [s[0]] && s[..1][..0] == "";
      assert RunValue(s[..1], 16) == b / 16;
    }
  }

  function HexJoin(bytes: seq<nat>, sep: char): string
    requires forall i :: 0 <= i < |bytes| ==> bytes[i] < 256
  {
    Join(seq(|bytes|, i requires 0 <= i < |bytes| => HexOctet(bytes[i])), sep)
  }

  /** Splitting a colon-separated MAC text and reading each piece as hex gives the bytes. */
  lemma ParseMac(bytes: seq<nat>)
    requires |bytes| >= 1 && forall i :: 0 <= i < |bytes| ==> bytes[i] < 256
    ensures var parts := Split(HexJoin(bytes, ':'), ':');
      |parts| == |bytes| && forall i :: 0 <= i < |bytes| ==> ParseInt(parts[i], 16) == Some(bytes[i])
  {
    var parts := seq(|bytes|, i requires 0 <= i < |bytes| => HexOctet(bytes[i]));
    forall i | 0 <= i < |parts|
      ensures ':' !in parts[i] && ParseInt(parts[i], 16) == Some(bytes[i])
    {
      ParseHexOctet(bytes[i]);
      assert parts[i] == [HexDigit(bytes[i] / 16), HexDigit(bytes[i] % 16)];
    }
    SplitJoin(parts, ':');
  }
}
