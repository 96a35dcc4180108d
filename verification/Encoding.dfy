/** Byte-level encodings used by keys and codecs: big-endian integers, bytewise order, hexadecimal, UTF-8. */
module Encoding {
  import opened Prelude

  // ---------- Big-endian integers ----------

  function Pow256(width: nat): nat {
    if width == 0 then 1 else 256 * Pow256(width - 1)
  }

  function BigEndian(n: nat, width: nat): (b: bytes)
    ensures |b| == width
  {
    if width == 0 then [] else BigEndian(n / 256, width - 1) + [(n % 256) as byte]
  }

  function FromBigEndian(b: bytes): nat {
    if b == [] then 0
    else 256 * FromBigEndian(b[..|b| - 1]) + b[|b| - 1] as int
  }

  function BigEndian64(n: U64): (b: bytes)
    ensures |b| == 8
  {
    BigEndian(n, 8)
  }

  lemma {:induction false} DecodeEncoded(n: nat, width: nat)
    requires n < Pow256(width)
    ensures FromBigEndian(BigEndian(n, width)) == n
  {
    if width != 0 {
      DecodeEncoded(n / 256, width - 1);
      assert BigEndian(n, width)[..width - 1] == BigEndian(n / 256, width - 1);
    }
  }

  lemma {:induction false} EncodeDecoded(b: bytes)
    ensures FromBigEndian(b) < Pow256(|b|)
    ensures BigEndian(FromBigEndian(b), |b|) == b
  {
    if b != [] {
      EncodeDecoded(b[..|b| - 1]);
      assert b == b[..|b| - 1] + [b[|b| - 1]];
    }
  }

  lemma BigEndian64RoundTrip(n: U64)
    ensures FromBigEndian(BigEndian64(n)) == n
  {
    assert Pow256(8) == U64_LIMIT;
    DecodeEncoded(n, 8);
  }

  // ---------- Bytewise order: the order of bbolt cursors ----------

  predicate LexLess(a: bytes, b: bytes) {
    b != [] && (a == [] || a[0] < b[0] || (a[0] == b[0] && LexLess(a[1..], b[1..])))
  }

  lemma {:induction false} LexTransitive(a: bytes, b: bytes, c: bytes)
    requires LexLess(a, b) && LexLess(b, c)
    ensures LexLess(a, c)
  {
    if a != [] && a[0] == b[0] && b[0] == c[0] {
      LexTransitive(a[1..], b[1..], c[1..]);
    }
  }

  lemma {:induction false} LexTrichotomy(a: bytes, b: bytes)
    ensures a == b || LexLess(a, b) || LexLess(b, a)
    ensures !(LexLess(a, b) && LexLess(b, a))
    ensures a == b ==> !LexLess(a, b)
  {
    if a != [] && b != [] {
      LexTrichotomy(a[1..], b[1..]);
      assert a == [a[0]] + a[1..] && b == [b[0]] + b[1..];
    }
  }

  lemma {:induction false} LexAppend(a: bytes, x: byte, b: bytes, y: byte)
    requires |a| == |b|
    ensures LexLess(a + [x], b + [y]) <==> LexLess(a, b) || (a == b && x < y)
  {
    if a != [] {
      LexAppend(a[1..], x, b[1..], y);
      assert (a + [x])[1..] == a[1..] + [x] && (b + [y])[1..] == b[1..] + [y];
      assert a == [a[0]] + a[1..] && b == [b[0]] + b[1..];
    }
  }

  /** Fixed-width big-endian keys sort exactly like the numbers they encode. */
  lemma {:induction false} BigEndianOrder(m: nat, n: nat, width: nat)
    requires m < Pow256(width) && n < Pow256(width)
    ensures LexLess(BigEndian(m, width), BigEndian(n, width)) <==> m < n
    ensures BigEndian(m, width) == BigEndian(n, width) <==> m == n
  {
    if width != 0 {
      BigEndianOrder(m / 256, n / 256, width - 1);
      LexAppend(BigEndian(m / 256, width - 1), (m % 256) as byte, BigEndian(n / 256, width - 1), (n % 256) as byte);
      DecodeEncoded(m, width);
      DecodeEncoded(n, width);
    }
  }

  lemma SequenceKeyOrder(m: U64, n: U64)
    ensures LexLess(BigEndian64(m), BigEndian64(n)) <==> m < n
    ensures BigEndian64(m) == BigEndian64(n) <==> m == n
  {
    assert Pow256(8) == U64_LIMIT;
    BigEndianOrder(m, n, 8);
  }

  // ---------- Ordered cursors ----------

  predicate IsLeast(k: bytes, s: set<bytes>) {
    k in s && forall x :: x in s && x != k ==> LexLess(k, x)
  }

  lemma LeastExists(s: set<bytes>)
    requires s != {}
    ensures exists k :: IsLeast(k, s)
  {
    var x :| x in s;
    if s == {x} {
      assert IsLeast(x, s);
    } else {
      LeastExists(s - {x});
      var k :| IsLeast(k, s - {x});
      LexTrichotomy(k, x);
      if LexLess(k, x) {
        assert IsLeast(k, s);
      } else {
        forall y | y in s && y != x ensures LexLess(x, y) {
          if y != k { LexTransitive(x, k, y); }
        }
        assert IsLeast(x, s);
      }
    }
  }

  lemma LeastUnique()
    ensures forall s, j, k :: IsLeast(j, s) && IsLeast(k, s) ==> j == k
  {
    forall s, j, k | IsLeast(j, s) && IsLeast(k, s) ensures j == k {
      LexTrichotomy(j, k);
    }
  }

  function Least(s: set<bytes>): bytes
    requires s != {}
  {
    LeastExists(s);
    LeastUnique();
    var k :| IsLeast(k, s);
    k
  }

  predicate Sorted(ks: seq<bytes>) {
    forall i, j :: 0 <= i < j < |ks| ==> LexLess(ks[i], ks[j])
  }

  /** The keys of a bucket in the order its cursor visits them. */
  function CursorKeys(s: set<bytes>): (ks: seq<bytes>)
    ensures Sorted(ks)
    ensures forall k :: k in ks <==> k in s
  {
    if s == {} then []
    else
      var k := Least(s);
      [k] + CursorKeys(s - {k})
  }

  lemma {:induction false} CursorKeysCount(s: set<bytes>)
    ensures |CursorKeys(s)| == |s|
  {
    if s != {} { CursorKeysCount(s - {Least(s)}); }
  }

  /** Any sorted listing of a bucket's keys is the order its cursor visits them in. */
  lemma {:induction false} CursorKeysUnique(s: set<bytes>, ks: seq<bytes>)
    requires Sorted(ks)
    requires forall k :: k in ks <==> k in s
    ensures CursorKeys(s) == ks
    decreases |ks|
  {
    if ks == [] {
      assert forall x :: x in s ==> x in ks;
    } else {
      assert ks[0] in ks;
      assert IsLeast(ks[0], s) by {
        forall x | x in s && x != ks[0] ensures LexLess(ks[0], x) {
          assert x in ks;
        }
      }
      LeastUnique();
      assert Least(s) == ks[0];
      var rest := ks[1..];
      forall k ensures k in rest <==> k in s - {ks[0]} {
        if k in rest {
          var i :| 0 <= i < |rest| && rest[i] == k;
          LexTrichotomy(ks[0], ks[i + 1]);
        }
        if k in s - {ks[0]} { assert k in ks; }
      }
      CursorKeysUnique(s - {ks[0]}, rest);
    }
  }

  // ---------- Hexadecimal ----------

  function HexDigit(n: nat): byte
    requires n < 16
  {
    if n < 10 then (48 + n) as byte else (87 + n) as byte
  }

  predicate IsHexDigit(b: byte) {
    48 <= b <= 57 || 65 <= b <= 70 || 97 <= b <= 102
  }

  function HexEncode(b: bytes): (r: bytes)
    ensures |r| == 2 * |b|
    ensures forall i :: 0 <= i < |r| ==> IsHexDigit(r[i])
  {
    if b == [] then []
    else [HexDigit(b[0] as int / 16), HexDigit(b[0] as int % 16)] + HexEncode(b[1..])
  }

  const HEX_DIGITS: bytes := Ascii("0123456789abcdef")

  lemma HexDigitIs(n: nat)
    requires n < 16
    ensures |HEX_DIGITS| == 16 && HexDigit(n) == HEX_DIGITS[n]
  {
  }

  /** Each byte gives its high digit, then its low one, in lower case. */
  lemma {:induction false} HexDigitsAt(b: bytes, i: nat)
    requires i < |b|
    ensures |HEX_DIGITS| == 16
    ensures HexEncode(b)[2 * i] == HEX_DIGITS[b[i] as int / 16]
    ensures HexEncode(b)[2 * i + 1] == HEX_DIGITS[b[i] as int % 16]
  {
    hide HexDigit, HEX_DIGITS;
    HexDigitIs(b[i] as int / 16);
    HexDigitIs(b[i] as int % 16);
    if i > 0 {
      HexDigitsAt(b[1..], i - 1);
      assert HexEncode(b)[2..] == HexEncode(b[1..]);
      assert HexEncode(b)[2 * i] == HexEncode(b[1..])[2 * (i - 1)];
      assert HexEncode(b)[2 * i + 1] == HexEncode(b[1..])[2 * (i - 1) + 1];
    }
  }

  lemma {:induction false} HexInjective(a: bytes, b: bytes)
    requires HexEncode(a) == HexEncode(b)
    ensures a == b
  {
    if a == [] || b == [] {
      assert |HexEncode(a)| == |HexEncode(b)|;
    } else {
      var ha, hb := HexEncode(a), HexEncode(b);
      assert ha[0] == hb[0] && ha[1] == hb[1];
      assert HexEncode(a[1..]) == ha[2..] && HexEncode(b[1..]) == hb[2..];
      HexInjective(a[1..], b[1..]);
      assert a == [a[0]] + a[1..] && b == [b[0]] + b[1..];
    }
  }

  // ---------- UTF-8 (RFC 3629) and text fields ----------

  predicate Continues(b: bytes, from: nat, upTo: nat) {
    upTo <= |b| && forall i :: from <= i < upTo ==> 0x80 <= b[i] <= 0xBF
  }

  /** Length of the well-formed UTF-8 sequence at the front of b, or 0. */
  function RuneLength(b: bytes): (n: nat)
    requires b != []
    ensures n <= |b|
  {
    var c := b[0];
    if c < 0x80 then 1
    else if 0xC2 <= c <= 0xDF && Continues(b, 1, 2) then 2
    else if 0xE0 <= c <= 0xEF && Continues(b, 1, 3)
            && (c == 0xE0 ==> 0xA0 <= b[1]) && (c == 0xED ==> b[1] <= 0x9F) then 3
    else if 0xF0 <= c <= 0xF4 && Continues(b, 1, 4)
            && (c == 0xF0 ==> 0x90 <= b[1]) && (c == 0xF4 ==> b[1] <= 0x8F) then 4
    else 0
  }

  predicate ValidUtf8(b: bytes) {
    b == [] || (RuneLength(b) > 0 && ValidUtf8(b[RuneLength(b)..]))
  }

  /** The text check shared by the store and the agent: 1 to 256 bytes of UTF-8 without NUL. */
  predicate ValidText(value: bytes) {
    0 < |value| <= 256 && ValidUtf8(value) && 0 !in value
  }

  lemma {:induction false} AsciiIsUtf8(b: bytes)
    requires forall i :: 0 <= i < |b| ==> b[i] < 0x80
    ensures ValidUtf8(b)
  {
    if b != [] { AsciiIsUtf8(b[1..]); }
  }

  /** Hexadecimal text of at most 128 bytes is an acceptable key. */
  lemma HexIsValidText(b: bytes)
    requires 0 < |b| <= 128
    ensures ValidText(HexEncode(b))
  {
    AsciiIsUtf8(HexEncode(b));
  }
}
