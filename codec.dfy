/**
 * The URL token codec of src/components/Builder.tsx:22-43 (and the identical
 * copy in src/components/Builder2.tsx:21-42): the document's JSON text, as
 * UTF-8 bytes, in standard Base64, remapped to the URL- and filename-safe
 * alphabet of RFC 4648 section 5 with the padding dropped (RFC 4648 section 3.2).
 */
module Codec {
  import opened Wrappers
  import opened Document
  import Base64

  /**
   * The conversions the codec takes from the JavaScript runtime:
   * `JSON.stringify`, `JSON.parse` (None when it throws or yields null),
   * `Buffer.from(text)` (UTF-8 encoding) and `buffer.toString()` (UTF-8 decoding).
   */
  datatype Foreign = Foreign(
    stringify: EmbedData -> string,
    parse: string -> Option<EmbedData>,
    utf8Encode: string -> seq<Base64.Byte>,
    utf8Decode: seq<Base64.Byte> -> string)

  /** The runtime conversions give document d back after its trip through JSON text and UTF-8. */
  predicate RoundTripsAt(f: Foreign, d: EmbedData) {
    && f.parse(f.stringify(d)) == Some(d)
    && f.utf8Decode(f.utf8Encode(f.stringify(d))) == f.stringify(d)
  }

  /** The alphabet of RFC 4648 section 5, table 2. */
  predicate IsUrlSafeChar(c: char) {
    ('A' <= c <= 'Z') || ('a' <= c <= 'z') || ('0' <= c <= '9') || c == '-' || c == '_'
  }

  /** `s.replace(/a/g, b)` for a single character a. */
  function ReplaceChar(s: string, a: char, b: char): (r: string)
    ensures |r| == |s|
  {
    seq(|s|, i requires 0 <= i < |s| => if s[i] == a then b else s[i])
  }

  /** `s.replace(/=+$/, '')`: the longest prefix of s that does not end in `=`. */
  function StripTrailingPadding(s: string): (r: string)
    ensures r <= s
    ensures r == [] || r[|r| - 1] != '='
    ensures forall i :: |r| <= i < |s| ==> s[i] == '='
    decreases |s|
  {
    if s != [] && s[|s| - 1] == '=' then StripTrailingPadding(s[..|s| - 1]) else s
  }

  /** The standard-to-URL-safe step of `encodeEmbedData`. */
  function ToUrlSafe(standard: string): string {
    StripTrailingPadding(ReplaceChar(ReplaceChar(standard, '+', '-'), '/', '_'))
  }

  /** `base64 + '='.repeat(4 - pad)` when `pad = base64.length % 4` is not 0. */
  function Repad(token: string): (r: string)
    ensures |r| % 4 == 0 && |token| <= |r| < |token| + 4
    ensures r[..|token|] == token
    ensures forall i :: |token| <= i < |r| ==> r[i] == '='
  {
    var pad := |token| % 4;
    if pad != 0 then token + Base64.Repeat('=', 4 - pad) else token
  }

  /** The padding and alphabet restoration step of `decodeEmbedData`. */
  function FromUrlSafe(token: string): string {
    ReplaceChar(ReplaceChar(Repad(token), '-', '+'), '_', '/')
  }

  /** The UTF-8 bytes of the document's JSON text. */
  function Serialize(f: Foreign, d: EmbedData): seq<Base64.Byte> {
    f.utf8Encode(f.stringify(d))
  }

  /** `encodeEmbedData`: a token made only of URL-safe characters, never of length 1 mod 4. */
  function EncodeEmbedData(f: Foreign, d: EmbedData): (token: string)
    ensures forall i :: 0 <= i < |token| ==> IsUrlSafeChar(token[i])
    ensures |token| % 4 != 1
  {
    var bs := Serialize(f, d);
    UrlSafeShape(bs);
    ToUrlSafe(Base64.Encode(bs))
  }

  /** `decodeEmbedData`: None stands for the `null` every failure yields. */
  function DecodeEmbedData(f: Foreign, token: string): (r: Option<EmbedData>)
    ensures Base64.Decode(FromUrlSafe(token)).None? ==> r.None?
  {
    match Base64.Decode(FromUrlSafe(token))
    case None => None
    case Some(bytes) => f.parse(f.utf8Decode(bytes))
  }

  /** The alphabet remap, applied to the whole standard encoding, in one step. */
  function Remap(s: string): string {
    ReplaceChar(ReplaceChar(s, '+', '-'), '/', '_')
  }

  lemma RemapChars(s: string)
    ensures |Remap(s)| == |s|
    ensures forall i :: 0 <= i < |s| ==> Remap(s)[i] == (if s[i] == '+' then '-' else if s[i] == '/' then '_' else s[i])
  {
  }

  /** Stripping a run of `=` appended to a string that does not end in `=` gives that string back. */
  lemma {:induction false} StripPadded(x: string, n: nat)
    requires x == [] || x[|x| - 1] != '='
    ensures StripTrailingPadding(x + Base64.Repeat('=', n)) == x
    decreases n
  {
    if n == 0 {
      assert x + Base64.Repeat('=', 0) == x;
    } else {
      var s := x + Base64.Repeat('=', n);
      assert s[..|s| - 1] == x + Base64.Repeat('=', n - 1);
      StripPadded(x, n - 1);
    }
  }

  /** Remapping commutes with appending padding, which it leaves alone. */
  lemma RemapPadded(x: string, n: nat)
    ensures Remap(x + Base64.Repeat('=', n)) == Remap(x) + Base64.Repeat('=', n)
  {
    var pads := Base64.Repeat('=', n);
    RemapChars(x + pads);
    RemapChars(x);
    assert forall i :: 0 <= i < |x + pads| ==> Remap(x + pads)[i] == (Remap(x) + pads)[i];
  }

  /** An unpadded standard body remaps onto URL-safe characters only. */
  lemma RemapBody(body: string)
    requires forall i :: 0 <= i < |body| ==> Base64.IsAlphabetChar(body[i])
    ensures forall i :: 0 <= i < |Remap(body)| ==> IsUrlSafeChar(Remap(body)[i])
    ensures |Remap(body)| == |body|
  {
    RemapChars(body);
  }

  /** The unpadded length and the padding complete each other to a multiple of four. */
  lemma BodyLength(bs: seq<Base64.Byte>)
    ensures var b, p := |Base64.EncodeBody(bs)|, Base64.PadLength(|bs|);
      b % 4 != 1 && (b + p) % 4 == 0 && (b % 4 == 0 <==> p == 0)
  {
    var n := |bs|;
    BodyArith(n / 3, n % 3, |Base64.EncodeBody(bs)|, Base64.PadLength(n));
  }

  /** The length arithmetic of BodyLength, for k full groups and m leftover bytes. */
  lemma BodyArith(k: nat, m: nat, b: nat, p: nat)
    requires m < 3
    requires b == 4 * k + (if m == 0 then 0 else m + 1)
    requires p == if m == 0 then 0 else 3 - m
    ensures b % 4 != 1 && (b + p) % 4 == 0 && (b % 4 == 0 <==> p == 0)
  {
    var c := if m == 0 then 0 else m + 1;
    ModFour(k, c);
    if m > 0 {
      ModFour(k + 1, 0);
      assert b + p == 4 * (k + 1);
    }
  }

  lemma ModFour(k: nat, c: nat)
    requires c < 4
    ensures (4 * k + c) % 4 == c
  {
  }

  /** The token is exactly the unpadded body of the standard encoding, remapped. */
  lemma UrlSafeShape(bs: seq<Base64.Byte>)
    ensures ToUrlSafe(Base64.Encode(bs)) == Remap(Base64.EncodeBody(bs))
    ensures forall i :: 0 <= i < |Remap(Base64.EncodeBody(bs))| ==> IsUrlSafeChar(Remap(Base64.EncodeBody(bs))[i])
    ensures |Remap(Base64.EncodeBody(bs))| % 4 != 1
  {
    var body := Base64.EncodeBody(bs);
    var p := Base64.PadLength(|bs|);
    RemapPadded(body, p);
    RemapBody(body);
    BodyLength(bs);
    var t := Remap(body);
    assert t == [] || IsUrlSafeChar(t[|t| - 1]);
    StripPadded(t, p);
  }

  /** Undoing the remap on a remapped body, padded again. */
  lemma UnmapPadded(body: string, n: nat)
    requires forall i :: 0 <= i < |body| ==> Base64.IsAlphabetChar(body[i])
    ensures ReplaceChar(ReplaceChar(Remap(body) + Base64.Repeat('=', n), '-', '+'), '_', '/') == body + Base64.Repeat('=', n)
  {
    var pads := Base64.Repeat('=', n);
    RemapChars(body);
    var r := ReplaceChar(ReplaceChar(Remap(body) + pads, '-', '+'), '_', '/');
    forall i | 0 <= i < |r|
      ensures r[i] == (body + pads)[i]
    {
      if i < |body| {
        assert Base64.IsAlphabetChar(body[i]);
      }
    }
  }

  /** Restoring padding and alphabet undoes the URL-safe step on every standard encoding. */
  lemma UrlSafeRoundTrip(bs: seq<Base64.Byte>)
    ensures FromUrlSafe(ToUrlSafe(Base64.Encode(bs))) == Base64.Encode(bs)
  {
    var body := Base64.EncodeBody(bs);
    var p := Base64.PadLength(|bs|);
    UrlSafeShape(bs);
    RemapBody(body);
    BodyLength(bs);
    var t := Remap(body);
    RepadPadded(t, p);
    assert FromUrlSafe(t) == ReplaceChar(ReplaceChar(t + Base64.Repeat('=', p), '-', '+'), '_', '/');
    UnmapPadded(body, p);
  }

  /** Re-padding a body that p padding characters complete to a multiple of four. */
  lemma RepadPadded(t: string, p: nat)
    requires p < 3 && (|t| + p) % 4 == 0 && (|t| % 4 == 0 <==> p == 0)
    ensures Repad(t) == t + Base64.Repeat('=', p)
  {
    var m := |t| % 4;
    var q := |t| / 4;
    assert |t| == 4 * q + m;
    if m != 0 {
      assert 4 * q + m + p == 4 * (q + 1);
      assert 4 - m == p;
    }
  }

  /** `decodeEmbedData(encodeEmbedData(d))` is d whenever JSON and UTF-8 give d back. */
  lemma RoundTrip(f: Foreign, d: EmbedData)
    requires RoundTripsAt(f, d)
    ensures DecodeEmbedData(f, EncodeEmbedData(f, d)) == Some(d)
  {
    var bs := Serialize(f, d);
    UrlSafeRoundTrip(bs);
    Base64.RoundTrip(bs);
  }

  /** The token holds none of the three characters the URL-safe step removes. */
  lemma TokenHasNoReservedChars(f: Foreign, d: EmbedData)
    ensures var t := EncodeEmbedData(f, d); forall i :: 0 <= i < |t| ==> t[i] != '+' && t[i] != '/' && t[i] != '='
  {
  }
}
