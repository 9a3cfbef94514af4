/**
 * Standard Base64 (RFC 4648 section 4) over byte sequences: the job Node's
 * `Buffer.toString('base64')` and `Buffer.from(s, 'base64')` do for the codec.
 * The decoder here is strict: it accepts exactly the padded standard form and
 * fails otherwise.
 */
module Base64 {
  import opened Wrappers

  type Byte = b: int | 0 <= b < 256

  /** The 64-character alphabet of RFC 4648 section 4, table 1. */
  predicate IsAlphabetChar(c: char) {
    ('A' <= c <= 'Z') || ('a' <= c <= 'z') || ('0' <= c <= '9') || c == '+' || c == '/'
  }

  function SextetChar(v: int): (c: char)
    requires 0 <= v < 64
    ensures IsAlphabetChar(c)
  {
    if v < 26 then ('A' as int + v) as char
    else if v < 52 then ('a' as int + (v - 26)) as char
    else if v < 62 then ('0' as int + (v - 52)) as char
    else if v == 62 then '+'
    else '/'
  }

  function CharSextet(c: char): (r: Option<int>)
    ensures r.Some? <==> IsAlphabetChar(c)
    ensures r.Some? ==> 0 <= r.value < 64
  {
    if 'A' <= c <= 'Z' then Some(c as int - 'A' as int)
    else if 'a' <= c <= 'z' then Some(c as int - 'a' as int + 26)
    else if '0' <= c <= '9' then Some(c as int - '0' as int + 52)
    else if c == '+' then Some(62)
    else if c == '/' then Some(63)
    else None
  }

  lemma SextetRoundTrip(v: int)
    requires 0 <= v < 64
    ensures CharSextet(SextetChar(v)) == Some(v)
  {
  }

  /** The number of `=` characters RFC 4648 section 4 appends for n input bytes. */
  function PadLength(n: nat): (p: nat)
    ensures p < 3
    ensures (n + p) % 3 == 0
  {
    if n % 3 == 0 then 0 else 3 - n % 3
  }

  function Repeat(c: char, n: nat): (r: string)
    ensures |r| == n
    ensures forall i :: 0 <= i < n ==> r[i] == c
  {
    if n == 0 then [] else [c] + Repeat(c, n - 1)
  }

  /** Three bytes as four alphabet characters. */
  function EncodeQuantum(b0: Byte, b1: Byte, b2: Byte): (r: string)
    ensures |r| == 4
    ensures forall i :: 0 <= i < 4 ==> IsAlphabetChar(r[i])
  {
    [SextetChar(b0 / 4), SextetChar((b0 % 4) * 16 + b1 / 16),
     SextetChar((b1 % 16) * 4 + b2 / 64), SextetChar(b2 % 64)]
  }

  /** The encoded characters without the trailing padding. */
  function EncodeBody(bs: seq<Byte>): (r: string)
    ensures |r| == 4 * (|bs| / 3) + (if |bs| % 3 == 0 then 0 else |bs| % 3 + 1)
    ensures forall i :: 0 <= i < |r| ==> IsAlphabetChar(r[i])
    decreases |bs|
  {
    if |bs| == 0 then []
    else if |bs| == 1 then [SextetChar(bs[0] / 4), SextetChar((bs[0] % 4) * 16)]
    else if |bs| == 2 then
      [SextetChar(bs[0] / 4), SextetChar((bs[0] % 4) * 16 + bs[1] / 16), SextetChar((bs[1] % 16) * 4)]
    else EncodeQuantum(bs[0], bs[1], bs[2]) + EncodeBody(bs[3..])
  }

  /** Standard padded Base64 of a byte sequence. */
  function Encode(bs: seq<Byte>): (r: string)
    ensures |r| % 4 == 0
    ensures forall i :: 0 <= i < |r| ==> IsAlphabetChar(r[i]) || r[i] == '='
  {
    EncodeBody(bs) + Repeat('=', PadLength(|bs|))
  }

  /** Four alphabet characters as three bytes; None if any is outside the alphabet. */
  function DecodeQuantum(c0: char, c1: char, c2: char, c3: char): (r: Option<seq<Byte>>)
    ensures r.Some? ==> |r.value| == 3
    ensures r.Some? <==> IsAlphabetChar(c0) && IsAlphabetChar(c1) && IsAlphabetChar(c2) && IsAlphabetChar(c3)
  {
    match (CharSextet(c0), CharSextet(c1), CharSextet(c2), CharSextet(c3))
    case (Some(s0), Some(s1), Some(s2), Some(s3)) =>
      Some([s0 * 4 + s1 / 16, (s1 % 16) * 16 + s2 / 4, (s2 % 4) * 64 + s3])
    case _ => None
  }

  /** The final quantum of an encoding: two, one or no `=` at its end. */
  function DecodeFinal(c0: char, c1: char, c2: char, c3: char): (r: Option<seq<Byte>>)
    ensures r.Some? ==> 1 <= |r.value| <= 3
  {
    if c2 == '=' && c3 == '=' then
      match (CharSextet(c0), CharSextet(c1))
      case (Some(s0), Some(s1)) => Some([s0 * 4 + s1 / 16])
      case _ => None
    else if c3 == '=' then
      match (CharSextet(c0), CharSextet(c1), CharSextet(c2))
      case (Some(s0), Some(s1), Some(s2)) => Some([s0 * 4 + s1 / 16, (s1 % 16) * 16 + s2 / 4])
      case _ => None
    else DecodeQuantum(c0, c1, c2, c3)
  }

  /** Strict decoding of padded standard Base64; None on any malformed input. */
  function Decode(s: string): (r: Option<seq<Byte>>)
    ensures r.Some? ==> |s| % 4 == 0
    decreases |s|
  {
    if |s| == 0 then Some([])
    else if |s| < 4 then None
    else if |s| == 4 then DecodeFinal(s[0], s[1], s[2], s[3])
    else
      match DecodeQuantum(s[0], s[1], s[2], s[3])
      case None => None
      case Some(q) =>
        match Decode(s[4..])
        case None => None
        case Some(rest) => Some(q + rest)
  }

  /** The bit arithmetic behind the first two output bytes of a quantum. */
  lemma HighBits(b0: Byte, b1: Byte)
    ensures var s1 := (b0 % 4) * 16 + b1 / 16; 0 <= s1 < 64 && (b0 / 4) * 4 + s1 / 16 == b0 && s1 % 16 == b1 / 16
  {
    var s1 := (b0 % 4) * 16 + b1 / 16;
    assert 0 <= b1 / 16 < 16;
    assert s1 / 16 == b0 % 4;
    assert s1 % 16 == b1 / 16;
  }

  lemma LowBits(b1: Byte, b2: Byte)
    ensures var s2 := (b1 % 16) * 4 + b2 / 64; 0 <= s2 < 64 && (b1 / 16) * 16 + s2 / 4 == b1 && (s2 % 4) * 64 + b2 % 64 == b2
  {
    var s2 := (b1 % 16) * 4 + b2 / 64;
    assert 0 <= b2 / 64 < 4;
    assert s2 / 4 == b1 % 16;
    assert s2 % 4 == b2 / 64;
  }

  lemma QuantumRoundTrip(b0: Byte, b1: Byte, b2: Byte)
    ensures var e := EncodeQuantum(b0, b1, b2); DecodeQuantum(e[0], e[1], e[2], e[3]) == Some([b0, b1, b2])
  {
    var s0, s1, s2, s3 := b0 / 4, (b0 % 4) * 16 + b1 / 16, (b1 % 16) * 4 + b2 / 64, b2 % 64;
    HighBits(b0, b1);
    LowBits(b1, b2);
    SextetRoundTrip(s0);
    SextetRoundTrip(s1);
    SextetRoundTrip(s2);
    SextetRoundTrip(s3);
    var e := EncodeQuantum(b0, b1, b2);
    assert e == [SextetChar(s0), SextetChar(s1), SextetChar(s2), SextetChar(s3)];
    assert [s0 * 4 + s1 / 16, (s1 % 16) * 16 + s2 / 4, (s2 % 4) * 64 + s3] == [b0, b1, b2];
  }

  lemma OneByteRoundTrip(bs: seq<Byte>)
    requires |bs| == 1
    ensures Decode(Encode(bs)) == Some(bs)
  {
    var s0, s1 := bs[0] / 4, (bs[0] % 4) * 16;
    SextetRoundTrip(s0);
    SextetRoundTrip(s1);
    HighBits(bs[0], 0);
    var e := Encode(bs);
    assert e == [SextetChar(s0), SextetChar(s1), '=', '='];
    assert Decode(e) == DecodeFinal(e[0], e[1], e[2], e[3]);
    assert [s0 * 4 + s1 / 16] == bs;
  }

  lemma TwoByteRoundTrip(bs: seq<Byte>)
    requires |bs| == 2
    ensures Decode(Encode(bs)) == Some(bs)
  {
    var s0, s1, s2 := bs[0] / 4, (bs[0] % 4) * 16 + bs[1] / 16, (bs[1] % 16) * 4;
    SextetRoundTrip(s0);
    SextetRoundTrip(s1);
    SextetRoundTrip(s2);
    HighBits(bs[0], bs[1]);
    LowBits(bs[1], 0);
    var e := Encode(bs);
    assert e == [SextetChar(s0), SextetChar(s1), SextetChar(s2), '='];
    assert Decode(e) == DecodeFinal(e[0], e[1], e[2], e[3]);
    assert [s0 * 4 + s1 / 16, (s1 % 16) * 16 + s2 / 4] == bs;
  }

  /** Encoding three or more bytes is the first quantum followed by the encoding of the rest. */
  lemma EncodeCons(bs: seq<Byte>)
    requires |bs| >= 3
    ensures Encode(bs) == EncodeQuantum(bs[0], bs[1], bs[2]) + Encode(bs[3..])
  {
    assert PadLength(|bs|) == PadLength(|bs| - 3);
  }

  /** A full quantum in front of a non-empty well-formed encoding decodes to the concatenation. */
  lemma DecodeCons(q: string, t: string, g: seq<Byte>, r: seq<Byte>)
    requires |q| == 4 && |t| > 0
    requires DecodeQuantum(q[0], q[1], q[2], q[3]) == Some(g)
    requires Decode(t) == Some(r)
    ensures Decode(q + t) == Some(g + r)
  {
    var s := q + t;
    assert s[..4] == q && s[4..] == t;
    assert |s| > 4;
  }

  /** A last quantum without padding decodes to its three bytes. */
  lemma DecodeLastQuantum(b0: Byte, b1: Byte, b2: Byte)
    ensures Decode(EncodeQuantum(b0, b1, b2)) == Some([b0, b1, b2])
  {
    var q := EncodeQuantum(b0, b1, b2);
    QuantumRoundTrip(b0, b1, b2);
    assert IsAlphabetChar(q[2]) && IsAlphabetChar(q[3]);
    assert Decode(q) == DecodeFinal(q[0], q[1], q[2], q[3]);
  }

  /** Decoding undoes encoding, for every byte sequence. */
  lemma {:induction false} RoundTrip(bs: seq<Byte>)
    ensures Decode(Encode(bs)) == Some(bs)
    decreases |bs|
  {
    if |bs| == 0 {
    } else if |bs| == 1 {
      OneByteRoundTrip(bs);
    } else if |bs| == 2 {
      TwoByteRoundTrip(bs);
    } else {
      var rest := bs[3..];
      EncodeCons(bs);
      assert bs == [bs[0], bs[1], bs[2]] + rest;
      if |rest| == 0 {
        assert Encode(rest) == [];
        assert Encode(bs) == EncodeQuantum(bs[0], bs[1], bs[2]);
        assert bs == [bs[0], bs[1], bs[2]];
        DecodeLastQuantum(bs[0], bs[1], bs[2]);
      } else {
        QuantumRoundTrip(bs[0], bs[1], bs[2]);
        RoundTrip(rest);
        DecodeCons(EncodeQuantum(bs[0], bs[1], bs[2]), Encode(rest), [bs[0], bs[1], bs[2]], rest);
      }
    }
  }
}
