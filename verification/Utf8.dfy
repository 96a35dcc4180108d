/** What the text check accepts: the byte strings that encode Unicode scalar values (RFC 3629, section 3). */
module Utf8 {
  import opened Prelude
  import opened Encoding

  type Scalar = c: int | 0 <= c < 0xD800 || 0xE000 <= c < 0x11_0000

  function Tail(n: nat): byte {
    (0x80 + n % 64) as byte
  }

  function EncodeScalar(c: Scalar): (b: bytes)
    ensures 1 <= |b| <= 4
  {
    if c < 0x80 then [c as byte]
    else if c < 0x800 then [(0xC0 + c / 64) as byte, Tail(c)]
    else if c < 0x1_0000 then [(0xE0 + c / 64 / 64) as byte, Tail(c / 64), Tail(c)]
    else [(0xF0 + c / 64 / 64 / 64) as byte, Tail(c / 64 / 64), Tail(c / 64), Tail(c)]
  }

  function EncodeText(cs: seq<Scalar>): bytes {
    if cs == [] then [] else EncodeScalar(cs[0]) + EncodeText(cs[1..])
  }

  lemma EncodedIsRune(c: Scalar, rest: bytes)
    ensures RuneLength(EncodeScalar(c) + rest) == |EncodeScalar(c)|
  {
  }

  /** One more continuation byte. */
  function Join(high: nat, b: byte): (c: nat)
    requires 0x80 <= b <= 0xBF
    ensures c / 64 == high && Tail(c) == b && 64 * high <= c < 64 * high + 64
  {
    64 * high + (b as int - 0x80)
  }

  /** The scalar value a well-formed sequence stands for. */
  function DecodeRune(b: bytes): (c: nat)
    requires b != [] && RuneLength(b) > 0
  {
    match RuneLength(b)
    case 1 => b[0] as int
    case 2 => Join(b[0] as int - 0xC0, b[1])
    case 3 => Join(Join(b[0] as int - 0xE0, b[1]), b[2])
    case _ => Join(Join(Join(b[0] as int - 0xF0, b[1]), b[2]), b[3])
  }

  lemma RuneIsEncoded(b: bytes)
    requires b != [] && RuneLength(b) > 0
    ensures var c := DecodeRune(b); (c < 0xD800 || 0xE000 <= c < 0x11_0000) && EncodeScalar(c) == b[..RuneLength(b)]
  {
    hide Tail;
  }

  lemma {:induction false} EncodedIsValid(cs: seq<Scalar>)
    ensures ValidUtf8(EncodeText(cs))
  {
    hide EncodeScalar, RuneLength;
    if cs != [] {
      var head, rest := EncodeScalar(cs[0]), EncodeText(cs[1..]);
      EncodedIsValid(cs[1..]);
      EncodedIsRune(cs[0], rest);
      assert (head + rest)[|head|..] == rest;
    }
  }

  lemma {:induction false} ValidIsEncoded(b: bytes) returns (cs: seq<Scalar>)
    requires ValidUtf8(b)
    ensures EncodeText(cs) == b
  {
    hide EncodeScalar, RuneLength, DecodeRune;
    if b == [] {
      cs := [];
    } else {
      var n := RuneLength(b);
      RuneIsEncoded(b);
      var rest := ValidIsEncoded(b[n..]);
      cs := [DecodeRune(b)] + rest;
      assert cs[1..] == rest && b == b[..n] + b[n..];
    }
  }

  /** Acceptable texts are 1 to 256 bytes that encode scalar values other than zero. */
  lemma TextExact(b: bytes)
    ensures ValidUtf8(b) <==> exists cs: seq<Scalar> :: EncodeText(cs) == b
    ensures ValidText(b) <==> 1 <= |b| <= 256 && exists cs: seq<Scalar> :: EncodeText(cs) == b && 0 !in cs
  {
    hide EncodeScalar, RuneLength, ValidUtf8, EncodeText;
    if ValidUtf8(b) {
      var cs := ValidIsEncoded(b);
      ZeroIsNul(cs);
    }
    forall cs: seq<Scalar> | EncodeText(cs) == b ensures ValidUtf8(b) && (0 in b <==> 0 in cs) {
      EncodedIsValid(cs);
      ZeroIsNul(cs);
    }
  }

  lemma {:induction false} ZeroIsNul(cs: seq<Scalar>)
    ensures 0 in EncodeText(cs) <==> 0 in cs
  {
    if cs != [] {
      ZeroIsNul(cs[1..]);
      ScalarZero(cs[0]);
      assert cs == [cs[0]] + cs[1..];
    }
  }

  lemma ScalarZero(c: Scalar)
    ensures 0 in EncodeScalar(c) <==> c == 0
  {
  }
}
