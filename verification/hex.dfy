/**
 Lowercase hexadecimal encoding, as Go's `encoding/hex` writes it, including how a
 `hex.Encoder` splits one `Write` into writes on the underlying stream.
 */
module Hex {
  import opened Wrappers
  import opened ByteStrings

  /** The digit for a nibble: '0'..'9' then 'a'..'f'. */
  function Digit(k: nat): (c: Byte)
    requires k < 16
  {
    if k < 10 then ('0' as int + k) as char else ('a' as int + k - 10) as char
  }

  predicate IsLowerHex(s: Bytes)
  {
    forall i | 0 <= i < |s| :: '0' <= s[i] <= '9' || 'a' <= s[i] <= 'f'
  }

  /** `hex.Encode`: two lowercase digits per byte, high nibble first. */
  function Encode(b: Bytes): (r: Bytes)
    ensures |r| == 2 * |b|
    ensures IsLowerHex(r)
  {
    if |b| == 0 then []
    else [Digit(b[0] as int / 16), Digit(b[0] as int % 16)] + Encode(b[1..])
  }

  /** Byte `i` of the input becomes digits `2i` (its high nibble) and `2i + 1` (its low nibble) of the encoding. */
  lemma {:induction false} EncodeDigits(b: Bytes)
    ensures forall i | 0 <= i < |b| ::
              Encode(b)[2 * i] == Digit(b[i] as int / 16) && Encode(b)[2 * i + 1] == Digit(b[i] as int % 16)
  {
    if |b| > 0 {
      var t := Encode(b[1..]);
      EncodeDigits(b[1..]);
      EncodeCons(b);
      forall i | 0 <= i < |b|
        ensures Encode(b)[2 * i] == Digit(b[i] as int / 16) && Encode(b)[2 * i + 1] == Digit(b[i] as int % 16)
      {
        if i > 0 {
          assert b[i] == b[1..][i - 1];
          assert Encode(b)[2 * i] == t[2 * (i - 1)];
          assert Encode(b)[2 * i + 1] == t[2 * (i - 1) + 1];
        }
      }
    }
  }

  /** The value of one lowercase hex digit. */
  function Nibble(c: Byte): Option<nat>
  {
    if '0' <= c <= '9' then Some(c as int - '0' as int)
    else if 'a' <= c <= 'f' then Some(c as int - 'a' as int + 10)
    else None
  }

  /** The digit-by-digit description of `Encode` determines it: any text with those digits is the encoding. */
  lemma {:induction false} EncodeByDigits(b: Bytes, h: Bytes)
    requires |h| == 2 * |b|
    requires forall i | 0 <= i < |b| ::
               h[2 * i] == Digit(b[i] as int / 16) && h[2 * i + 1] == Digit(b[i] as int % 16)
    ensures Encode(b) == h
  {
    if |b| > 0 {
      var t := h[2..];
      forall i | 0 <= i < |b| - 1
        ensures t[2 * i] == Digit(b[1..][i] as int / 16) && t[2 * i + 1] == Digit(b[1..][i] as int % 16)
      {
        assert t[2 * i] == h[2 * (i + 1)];
        assert t[2 * i + 1] == h[2 * (i + 1) + 1];
      }
      EncodeByDigits(b[1..], t);
      assert h == [h[0], h[1]] + t;
    }
  }

  /** The byte whose high and low nibbles are given. */
  function FromNibbles(hi: nat, lo: nat): (c: Byte)
    requires hi < 16 && lo < 16
    ensures c as int == hi * 16 + lo
  {
    (hi * 16 + lo) as char
  }

  /** The inverse of `Encode`: pairs of lowercase digits back to bytes. */
  function Decode(h: Bytes): Option<Bytes>
  {
    if |h| == 0 then Some([])
    else if |h| == 1 then None
    else match (Nibble(h[0]), Nibble(h[1]), Decode(h[2..]))
      case (Some(hi), Some(lo), Some(rest)) =>
        if hi < 16 && lo < 16 then Some([FromNibbles(hi, lo)] + rest) else None
      case _ => None
  }

  /** Hex encoding is lossless: decoding the text recovers exactly the bytes. */
  lemma {:induction false} DecodeEncode(b: Bytes)
    ensures Decode(Encode(b)) == Some(b)
  {
    if |b| > 0 {
      DecodeEncode(b[1..]);
      DecodeEncodeStep(b[0], b[1..]);
      assert b == [b[0]] + b[1..];
    }
  }

  /** The inductive step: a decodable encoding of the tail extends by the first byte's two digits. */
  lemma DecodeEncodeStep(c: Byte, tail: Bytes)
    requires Decode(Encode(tail)) == Some(tail)
    ensures Decode(Encode([c] + tail)) == Some([c] + tail)
  {
    var hi, lo := c as int / 16, c as int % 16;
    var h := Encode([c] + tail);
    EncodeCons([c] + tail);
    assert ([c] + tail)[1..] == tail;
    assert h[2..] == Encode(tail);
    NibbleOfDigit(hi);
    NibbleOfDigit(lo);
    DecodePair(h, hi, lo, tail);
    Recombine(c);
  }

  lemma EncodeCons(b: Bytes)
    requires |b| > 0
    ensures Encode(b) == [Digit(b[0] as int / 16), Digit(b[0] as int % 16)] + Encode(b[1..])
  {
  }

  lemma NibbleOfDigit(k: nat)
    requires k < 16
    ensures Nibble(Digit(k)) == Some(k)
  {
  }

  /** One step of `Decode`: two digits in front of a decodable rest. */
  lemma DecodePair(h: Bytes, hi: nat, lo: nat, rest: Bytes)
    requires |h| >= 2 && hi < 16 && lo < 16
    requires Nibble(h[0]) == Some(hi) && Nibble(h[1]) == Some(lo) && Decode(h[2..]) == Some(rest)
    ensures Decode(h) == Some([FromNibbles(hi, lo)] + rest)
  {
  }

  lemma Recombine(c: Byte)
    ensures FromNibbles(c as int / 16, c as int % 16) == c
  {
  }

  /** Encoding distributes over concatenation, so encoding in pieces gives the same text. */
  lemma {:induction false} EncodeAppend(a: Bytes, b: Bytes)
    ensures Encode(a + b) == Encode(a) + Encode(b)
  {
    if |a| > 0 {
      assert (a + b)[1..] == a[1..] + b;
      EncodeAppend(a[1..], b);
    } else {
      assert a + b == b;
    }
  }

  /** The size of a `hex.Encoder`'s output buffer; it encodes half as many input bytes per write. */
  const EncoderBufferSize: nat := 1024
  const EncoderChunk: nat := 512

  /**
   The writes a `hex.Encoder` makes on its underlying writer for one `Write(p)`, when every one
   of them succeeds: the hex of successive 512-byte pieces of `p`, and no write at all for empty `p`.
   */
  function EncoderWrites(p: Bytes): (w: seq<Bytes>)
    ensures Concat(w) == Encode(p)
    ensures |p| > 0 ==> |w| == 1 + (|p| - 1) / EncoderChunk
    ensures forall i | 0 <= i < |w| :: 0 < |w[i]| <= EncoderBufferSize
    decreases |p|
  {
    if |p| == 0 then []
    else if |p| <= EncoderChunk then [Encode(p)]
    else
      var rest := EncoderWrites(p[EncoderChunk..]);
      var w := [Encode(p[..EncoderChunk])] + rest;
      assert w[1..] == rest;
      EncodeAppend(p[..EncoderChunk], p[EncoderChunk..]);
      assert p == p[..EncoderChunk] + p[EncoderChunk..];
      w
  }
}
