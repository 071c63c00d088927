/** `String::as_bytes`: the UTF-8 encoding of a string of Unicode scalar
    values, with the decoder that inverts it. */
module Utf8 {
  import opened Wrappers

  type Byte = b: int | 0 <= b < 0x100

  predicate IsContinuation(b: Byte) { 0x80 <= b < 0xC0 }

  /** The one to four bytes UTF-8 uses for `ch`. */
  function EncodeChar(ch: char): (bs: seq<Byte>)
    ensures 1 <= |bs| <= 4
    ensures |bs| == 1 <==> ch as int < 0x80
  {
    var cp := ch as int;
    if cp < 0x80 then [cp]
    else if cp < 0x800 then [0xC0 + cp / 0x40, 0x80 + cp % 0x40]
    else if cp < 0x1_0000 then [0xE0 + cp / 0x1000, 0x80 + (cp / 0x40) % 0x40, 0x80 + cp % 0x40]
    else [0xF0 + cp / 0x4_0000, 0x80 + (cp / 0x1000) % 0x40, 0x80 + (cp / 0x40) % 0x40, 0x80 + cp % 0x40]
  }

  /** `s.as_bytes()`. */
  function Encode(s: string): (bs: seq<Byte>)
    ensures |bs| >= |s|
  {
    if s == [] then [] else EncodeChar(s[0]) + Encode(s[1..])
  }

  /** The scalar value at the front of `bs` and the number of bytes it takes,
      if `bs` starts with a well-formed UTF-8 sequence. */
  function DecodeChar(bs: seq<Byte>): (r: Option<(char, nat)>)
    requires |bs| > 0
    ensures r.Some? ==> 1 <= r.value.1 <= |bs|
  {
    var b0: int := bs[0];
    if b0 < 0x80 then Some((b0 as char, 1))
    else if 0xC0 <= b0 < 0xE0 && |bs| >= 2 && IsContinuation(bs[1]) then
      var v := (b0 - 0xC0) * 0x40 + Low6(bs[1]);
      if v >= 0x80 then Some((v as char, 2)) else None
    else if 0xE0 <= b0 < 0xF0 && |bs| >= 3 && IsContinuation(bs[1]) && IsContinuation(bs[2]) then
      var v := (b0 - 0xE0) * 0x1000 + Low6(bs[1]) * 0x40 + Low6(bs[2]);
      if v >= 0x800 && !(0xD800 <= v < 0xE000) then Some((v as char, 3)) else None
    else if 0xF0 <= b0 < 0xF8 && |bs| >= 4 && IsContinuation(bs[1]) && IsContinuation(bs[2]) && IsContinuation(bs[3]) then
      var v := (b0 - 0xF0) * 0x4_0000 + Low6(bs[1]) * 0x1000 + Low6(bs[2]) * 0x40 + Low6(bs[3]);
      if 0x1_0000 <= v < 0x11_0000 then Some((v as char, 4)) else None
    else None
  }

  /** The six payload bits of a continuation byte. */
  function Low6(b: Byte): int
    requires IsContinuation(b)
  {
    b as int - 0x80
  }

  /** `String::from_utf8`: the string `bs` encodes, if it is well-formed. */
  function Decode(bs: seq<Byte>): Option<string>
    decreases |bs|
  {
    if bs == [] then Some([])
    else match DecodeChar(bs)
      case None => None
      case Some((ch, n)) =>
        match Decode(bs[n..])
        case None => None
        case Some(rest) => Some([ch] + rest)
  }

  /** The bytes of one character decode back to it, whatever follows them. */
  lemma DecodeEncodeChar(ch: char, rest: seq<Byte>)
    ensures DecodeChar(EncodeChar(ch) + rest) == Some((ch, |EncodeChar(ch)|))
  {
    var cp := ch as int;
    if cp < 0x80 {
    } else if cp < 0x800 {
      DecodeTwo(ch, rest);
    } else if cp < 0x1_0000 {
      DecodeThree(ch, rest);
    } else {
      DecodeFour(ch, rest);
    }
  }

  lemma DecodeTwo(ch: char, rest: seq<Byte>)
    requires 0x80 <= ch as int < 0x800
    ensures DecodeChar(EncodeChar(ch) + rest) == Some((ch, 2))
  {
    var cp := ch as int;
    var bs := EncodeChar(ch) + rest;
    assert bs[0] == 0xC0 + cp / 0x40 && bs[1] == 0x80 + cp % 0x40;
    assert (cp / 0x40) * 0x40 + cp % 0x40 == cp;
  }

  lemma DecodeThree(ch: char, rest: seq<Byte>)
    requires 0x800 <= ch as int < 0x1_0000
    ensures DecodeChar(EncodeChar(ch) + rest) == Some((ch, 3))
  {
    var cp := ch as int;
    var bs := EncodeChar(ch) + rest;
    var hi, mid, lo := cp / 0x1000, (cp / 0x40) % 0x40, cp % 0x40;
    assert bs[0] == 0xE0 + hi && bs[1] == 0x80 + mid && bs[2] == 0x80 + lo;
    assert (cp / 0x40) == hi * 0x40 + mid;
    assert cp == (cp / 0x40) * 0x40 + lo;
    assert hi * 0x1000 + mid * 0x40 + lo == cp;
  }

  lemma DecodeFour(ch: char, rest: seq<Byte>)
    requires 0x1_0000 <= ch as int
    ensures DecodeChar(EncodeChar(ch) + rest) == Some((ch, 4))
  {
    var cp := ch as int;
    var bs := EncodeChar(ch) + rest;
    var top, hi, mid, lo := cp / 0x4_0000, (cp / 0x1000) % 0x40, (cp / 0x40) % 0x40, cp % 0x40;
    assert bs[0] == 0xF0 + top && bs[1] == 0x80 + hi && bs[2] == 0x80 + mid && bs[3] == 0x80 + lo;
    assert (cp / 0x1000) == top * 0x40 + hi;
    assert (cp / 0x40) == (cp / 0x1000) * 0x40 + mid;
    assert cp == (cp / 0x40) * 0x40 + lo;
    assert top * 0x4_0000 + hi * 0x1000 + mid * 0x40 + lo == cp;
  }

  /** The output bytes of a string decode back to that string. */
  lemma {:induction false} DecodeEncode(s: string)
    ensures Decode(Encode(s)) == Some(s)
    decreases |s|
  {
    if s != [] {
      var head := EncodeChar(s[0]);
      DecodeEncodeChar(s[0], Encode(s[1..]));
      assert (head + Encode(s[1..]))[|head|..] == Encode(s[1..]);
      DecodeEncode(s[1..]);
      assert [s[0]] + s[1..] == s;
    }
  }

  /** Encoding distributes over concatenation. */
  lemma {:induction false} EncodeAppend(a: string, b: string)
    ensures Encode(a + b) == Encode(a) + Encode(b)
    decreases |a|
  {
    if a == [] {
      assert a + b == b;
    } else {
      var t := a + b;
      assert t[0] == a[0] && t[1..] == a[1..] + b;
      EncodeAppend(a[1..], b);
      calc {
        Encode(t);
        EncodeChar(a[0]) + Encode(a[1..] + b);
        EncodeChar(a[0]) + (Encode(a[1..]) + Encode(b));
        (EncodeChar(a[0]) + Encode(a[1..])) + Encode(b);
        Encode(a) + Encode(b);
      }
    }
  }

  /** An ASCII string is its own byte sequence. */
  lemma {:induction false} EncodeAscii(s: string)
    requires forall ch <- s :: ch as int < 0x80
    ensures |Encode(s)| == |s|
    ensures forall k :: 0 <= k < |s| ==> Encode(s)[k] == s[k] as int
    decreases |s|
  {
    if s != [] {
      assert s[0] in s;
      assert forall ch <- s[1..] :: ch in s;
      EncodeAscii(s[1..]);
    }
  }
}
