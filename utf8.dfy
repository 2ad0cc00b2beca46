/** The `.decode('utf8')` applied to every line read from the serial port
    (bojata.py:75): Python's strict UTF-8 codec, which either yields the text
    or raises UnicodeDecodeError.  The encoder is not part of the source; it
    is the reference against which the decoder is proved. */
module Utf8 {
  import opened Wrappers

  newtype byte = x: int | 0 <= x < 256

  /** A continuation byte, 10xxxxxx. */
  predicate IsContinuation(b: byte) {
    0x80 <= b < 0xC0
  }

  /** Bytes that can never occur in well-formed UTF-8: C0, C1 (overlong
      two-byte leads) and F5..FF (leads beyond U+10FFFF). */
  predicate NeverValid(b: byte) {
    b == 0xC0 || b == 0xC1 || 0xF5 <= b
  }

  /** Decodes the code point at the head of `bs`; on success also says how
      many bytes it took.  Overlong forms, surrogates, code points above
      U+10FFFF, stray continuation bytes and truncated sequences are errors,
      exactly the cases the strict codec rejects. */
  function DecodeFirst(bs: seq<byte>): (r: Option<(char, nat)>)
    requires |bs| > 0
    ensures r.Some? ==> 1 <= r.value.1 <= 4 && r.value.1 <= |bs|
    ensures r.Some? ==> forall k :: 1 <= k < r.value.1 ==> IsContinuation(bs[k])
    ensures NeverValid(bs[0]) || IsContinuation(bs[0]) ==> r.None?
  {
    var b0 := bs[0] as int;
    if b0 < 0x80 then
      Some((b0 as char, 1))
    else if 0xC2 <= b0 <= 0xDF then
      if |bs| >= 2 && IsContinuation(bs[1]) then
        var cp := (b0 - 0xC0) * 64 + (bs[1] as int - 0x80);
        Some((cp as char, 2))
      else None
    else if 0xE0 <= b0 <= 0xEF then
      if |bs| >= 3 && IsContinuation(bs[1]) && IsContinuation(bs[2]) then
        var cp := (b0 - 0xE0) * 4096 + (bs[1] as int - 0x80) * 64 + (bs[2] as int - 0x80);
        if cp < 0x800 || 0xD800 <= cp < 0xE000 then None else Some((cp as char, 3))
      else None
    else if 0xF0 <= b0 <= 0xF4 then
      if |bs| >= 4 && IsContinuation(bs[1]) && IsContinuation(bs[2]) && IsContinuation(bs[3]) then
        var cp := (b0 - 0xF0) * 262144 + (bs[1] as int - 0x80) * 4096
                  + (bs[2] as int - 0x80) * 64 + (bs[3] as int - 0x80);
        if cp < 0x10000 || 0x110000 <= cp then None else Some((cp as char, 4))
      else None
    else
      None
  }

  /** `bytes.decode('utf8')`: None stands for UnicodeDecodeError. */
  function Decode(bs: seq<byte>): Option<string>
    decreases |bs|
  {
    if bs == [] then Some([])
    else
      var head :- DecodeFirst(bs);
      var tail :- Decode(bs[head.1..]);
      Some([head.0] + tail)
  }

  /** The UTF-8 encoding of one character (reference for the decoder). */
  function EncodeChar(c: char): (r: seq<byte>)
    ensures 1 <= |r| <= 4
  {
    var cp := c as int;
    if cp < 0x80 then
      [cp as byte]
    else if cp < 0x800 then
      [(0xC0 + cp / 64) as byte, (0x80 + cp % 64) as byte]
    else if cp < 0x10000 then
      [(0xE0 + cp / 4096) as byte, (0x80 + cp / 64 % 64) as byte, (0x80 + cp % 64) as byte]
    else
      [(0xF0 + cp / 262144) as byte, (0x80 + cp / 4096 % 64) as byte,
       (0x80 + cp / 64 % 64) as byte, (0x80 + cp % 64) as byte]
  }

  function Encode(s: string): seq<byte>
  {
    if s == [] then [] else EncodeChar(s[0]) + Encode(s[1..])
  }

  /** The characters whose code points are the given (ASCII) bytes. */
  function AsciiText(bs: seq<byte>): (s: string)
    requires forall k :: 0 <= k < |bs| ==> bs[k] < 0x80
    ensures |s| == |bs| && forall k :: 0 <= k < |bs| ==> s[k] as int == bs[k] as int
  {
    seq(|bs|, k requires 0 <= k < |bs| => bs[k] as char)
  }

  /** Decoding one encoded character gives it back and consumes exactly its bytes. */
  lemma DecodeFirstEncodeChar(c: char, rest: seq<byte>)
    ensures DecodeFirst(EncodeChar(c) + rest) == Some((c, |EncodeChar(c)|))
  {
    var cp := c as int;
    if cp < 0x80 {
    } else if cp < 0x800 {
      DecodeTwo(c, rest);
    } else if cp < 0x10000 {
      DecodeThree(c, rest);
    } else {
      DecodeFour(c, rest);
    }
  }

  lemma DecodeTwo(c: char, rest: seq<byte>)
    requires 0x80 <= c as int < 0x800
    ensures DecodeFirst(EncodeChar(c) + rest) == Some((c, 2))
  {
    var cp := c as int;
    var b0, b1 := 0xC0 + cp / 64, 0x80 + cp % 64;
    var bs := EncodeChar(c) + rest;
    assert bs[0] as int == b0 && bs[1] as int == b1;
    assert (b0 - 0xC0) * 64 + (b1 - 0x80) == cp;
  }

  lemma DecodeThree(c: char, rest: seq<byte>)
    requires 0x800 <= c as int < 0x10000
    ensures DecodeFirst(EncodeChar(c) + rest) == Some((c, 3))
  {
    var cp := c as int;
    var b0, b1, b2 := 0xE0 + cp / 4096, 0x80 + cp / 64 % 64, 0x80 + cp % 64;
    var bs := EncodeChar(c) + rest;
    assert bs[0] as int == b0 && bs[1] as int == b1 && bs[2] as int == b2;
    assert cp / 64 == (cp / 4096) * 64 + cp / 64 % 64;
    assert cp == (cp / 64) * 64 + cp % 64;
    assert (b0 - 0xE0) * 4096 + (b1 - 0x80) * 64 + (b2 - 0x80) == cp;
  }

  lemma DecodeFour(c: char, rest: seq<byte>)
    requires 0x10000 <= c as int
    ensures DecodeFirst(EncodeChar(c) + rest) == Some((c, 4))
  {
    var cp := c as int;
    var b0, b1, b2, b3 := 0xF0 + cp / 262144, 0x80 + cp / 4096 % 64, 0x80 + cp / 64 % 64, 0x80 + cp % 64;
    var bs := EncodeChar(c) + rest;
    assert bs[0] as int == b0 && bs[1] as int == b1 && bs[2] as int == b2 && bs[3] as int == b3;
    assert cp / 4096 == (cp / 262144) * 64 + cp / 4096 % 64;
    assert cp / 64 == (cp / 4096) * 64 + cp / 64 % 64;
    assert cp == (cp / 64) * 64 + cp % 64;
    assert (b0 - 0xF0) * 262144 + (b1 - 0x80) * 4096 + (b2 - 0x80) * 64 + (b3 - 0x80) == cp;
  }

  /** Round trip: every text read back from its UTF-8 encoding decodes to itself. */
  lemma {:induction false} DecodeEncode(s: string)
    ensures Decode(Encode(s)) == Some(s)
  {
    if s != [] {
      var e, bs := EncodeChar(s[0]), Encode(s);
      assert bs == e + Encode(s[1..]);
      DecodeFirstEncodeChar(s[0], Encode(s[1..]));
      assert bs[|e|..] == Encode(s[1..]);
      DecodeEncode(s[1..]);
      assert Decode(bs) == Some([s[0]] + s[1..]);
      assert [s[0]] + s[1..] == s;
    }
  }

  /** The bytes one decoded code point took are exactly its encoding. */
  lemma DecodeFirstSound(bs: seq<byte>)
    requires |bs| > 0 && DecodeFirst(bs).Some?
    ensures EncodeChar(DecodeFirst(bs).value.0) == bs[..DecodeFirst(bs).value.1]
  {
    var b0 := bs[0];
    if b0 < 0x80 {
      assert bs[..1] == [b0];
    } else if b0 <= 0xDF {
      EncodeTwo(b0, bs[1]);
      assert bs[..2] == [b0, bs[1]];
    } else if b0 <= 0xEF {
      EncodeThree(b0, bs[1], bs[2]);
      assert bs[..3] == [b0, bs[1], bs[2]];
    } else {
      EncodeFour(b0, bs[1], bs[2], bs[3]);
      assert bs[..4] == [b0, bs[1], bs[2], bs[3]];
    }
  }

  lemma EncodeTwo(b0: byte, b1: byte)
    requires 0xC2 <= b0 <= 0xDF && IsContinuation(b1)
    ensures var cp := (b0 as int - 0xC0) * 64 + (b1 as int - 0x80);
            0x80 <= cp < 0x800 && EncodeChar(cp as char) == [b0, b1]
  {
    var q, x1 := b0 as int - 0xC0, b1 as int - 0x80;
    var cp := q * 64 + x1;
    assert cp / 64 == q && cp % 64 == x1;
  }

  lemma EncodeThree(b0: byte, b1: byte, b2: byte)
    requires 0xE0 <= b0 <= 0xEF && IsContinuation(b1) && IsContinuation(b2)
    requires var cp := (b0 as int - 0xE0) * 4096 + (b1 as int - 0x80) * 64 + (b2 as int - 0x80);
             !(cp < 0x800 || 0xD800 <= cp < 0xE000)
    ensures var cp := (b0 as int - 0xE0) * 4096 + (b1 as int - 0x80) * 64 + (b2 as int - 0x80);
            0x800 <= cp < 0x10000 && EncodeChar(cp as char) == [b0, b1, b2]
  {
    var q, x1, x2 := b0 as int - 0xE0, b1 as int - 0x80, b2 as int - 0x80;
    var hi := q * 64 + x1;
    var cp := hi * 64 + x2;
    assert cp / 64 == hi && cp % 64 == x2;
    assert hi / 64 == q && hi % 64 == x1;
    assert cp / 4096 == hi / 64;
  }

  lemma EncodeFour(b0: byte, b1: byte, b2: byte, b3: byte)
    requires 0xF0 <= b0 <= 0xF4 && IsContinuation(b1) && IsContinuation(b2) && IsContinuation(b3)
    requires var cp := (b0 as int - 0xF0) * 262144 + (b1 as int - 0x80) * 4096
                       + (b2 as int - 0x80) * 64 + (b3 as int - 0x80);
             0x10000 <= cp < 0x110000
    ensures var cp := (b0 as int - 0xF0) * 262144 + (b1 as int - 0x80) * 4096
                      + (b2 as int - 0x80) * 64 + (b3 as int - 0x80);
            EncodeChar(cp as char) == [b0, b1, b2, b3]
  {
    var q, x1, x2, x3 := b0 as int - 0xF0, b1 as int - 0x80, b2 as int - 0x80, b3 as int - 0x80;
    var top := q * 64 + x1;
    var hi := top * 64 + x2;
    var cp := hi * 64 + x3;
    assert cp / 64 == hi && cp % 64 == x3;
    assert hi / 64 == top && hi % 64 == x2;
    assert top / 64 == q && top % 64 == x1;
    assert cp / 4096 == hi / 64;
    assert cp / 262144 == top / 64;
  }

  /** The other round trip: a line the decoder accepts is the UTF-8
      encoding of the text it yields, so overlong forms, surrogates and
      truncated sequences, which no encoding contains, are all rejected. */
  lemma {:induction false} EncodeDecode(bs: seq<byte>)
    requires Decode(bs).Some?
    ensures Encode(Decode(bs).value) == bs
  {
    if bs != [] {
      var c, n := DecodeCons(bs);
      EncodeDecode(bs[n..]);
      EncodeCons(c, Decode(bs[n..]).value);
      assert bs[..n] + bs[n..] == bs;
    }
  }

  /** A non-empty accepted line is one encoded character followed by an
      accepted rest. */
  lemma DecodeCons(bs: seq<byte>) returns (c: char, n: nat)
    requires bs != [] && Decode(bs).Some?
    ensures 0 < n <= |bs| && EncodeChar(c) == bs[..n] && Decode(bs[n..]).Some?
    ensures Decode(bs).value == [c] + Decode(bs[n..]).value
  {
    c, n := DecodeFirst(bs).value.0, DecodeFirst(bs).value.1;
    DecodeFirstSound(bs);
  }

  lemma EncodeCons(c: char, tail: string)
    ensures Encode([c] + tail) == EncodeChar(c) + Encode(tail)
  {
    var s := [c] + tail;
    assert s[0] == c && s[1..] == tail;
  }

  /** The decoder accepts exactly the UTF-8 encodings of texts. */
  lemma DecodeIffEncoding(bs: seq<byte>)
    ensures Decode(bs).Some? <==> exists s :: Encode(s) == bs
  {
    if Decode(bs).Some? {
      EncodeDecode(bs);
    }
    if exists s :: Encode(s) == bs {
      var s :| Encode(s) == bs;
      DecodeEncode(s);
    }
  }

  /** Lines the strict codec rejects although every byte is a possible one:
      an overlong encoding of U+0000, an encoded surrogate, and a
      three-byte sequence cut off after two bytes. */
  lemma MalformedRejected()
    ensures Decode([0xE0, 0x80, 0x80]).None?
    ensures Decode([0xED, 0xA0, 0x80]).None?
    ensures Decode([0x31, 0xE2, 0x82]).None?
  {
    var line: seq<byte> := [0x31, 0xE2, 0x82];
    var cut: seq<byte> := [0xE2, 0x82];
    assert DecodeFirst(cut).None?;
    assert line[1..] == cut;
  }

  /** An ASCII-only line decodes to the characters with the same codes, so the
      decode step never fails on what the sensor sends. */
  lemma {:induction false} DecodeAscii(bs: seq<byte>)
    requires forall k :: 0 <= k < |bs| ==> bs[k] < 0x80
    ensures Decode(bs) == Some(AsciiText(bs))
  {
    if bs != [] {
      DecodeAscii(bs[1..]);
      assert AsciiText(bs) == [bs[0] as char] + AsciiText(bs[1..]);
    }
  }

  /** A byte that no well-formed UTF-8 contains, anywhere in the line, makes the
      decode raise (so a garbled byte such as FF makes the tick escape). */
  lemma {:induction false} NeverValidRejected(bs: seq<byte>, i: nat)
    requires i < |bs| && NeverValid(bs[i])
    ensures Decode(bs).None?
  {
    match DecodeFirst(bs)
    case None =>
    case Some(head) =>
      var n := head.1;
      if i < n {
        assert false;
      } else {
        assert bs[n..][i - n] == bs[i];
        NeverValidRejected(bs[n..], i - n);
      }
  }
}
