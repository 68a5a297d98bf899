/** Java's signed byte and String.getBytes(StandardCharsets.UTF_8). */
module Utf8 {

  /** A Java byte: a signed 8-bit integer. */
  newtype int8 = x: int | -128 <= x < 128

  /** `0xff & b`: the byte read as an unsigned value. */
  function Unsigned(b: int8): (u: int)
    ensures 0 <= u < 256
    ensures u % 256 == (b as int) % 256
  {
    if b < 0 then b as int + 256 else b as int
  }

  /** The Java byte whose unsigned reading is u. */
  function Signed(u: int): (b: int8)
    requires 0 <= u < 256
    ensures Unsigned(b) == u
  {
    if u >= 128 then (u - 256) as int8 else u as int8
  }

  lemma SignedUnsigned(b: int8)
    ensures Signed(Unsigned(b)) == b
  {
  }

  /** The UTF-8 encoding of one Unicode scalar value, as unsigned byte values. */
  function EncodeCodePoint(c: char): (r: seq<int>)
    ensures 1 <= |r| <= 4
    ensures forall i :: 0 <= i < |r| ==> 0 <= r[i] < 256
  {
    var n := c as int;
    if n < 0x80 then [n]
    else if n < 0x800 then [0xC0 + n / 64, 0x80 + n % 64]
    else if n < 0x10000 then [0xE0 + n / 4096, 0x80 + (n / 64) % 64, 0x80 + n % 64]
    else [0xF0 + n / 262144, 0x80 + (n / 4096) % 64, 0x80 + (n / 64) % 64, 0x80 + n % 64]
  }

  function ToSigned(us: seq<int>): (r: seq<int8>)
    requires forall i :: 0 <= i < |us| ==> 0 <= us[i] < 256
    ensures |r| == |us|
    ensures forall i :: 0 <= i < |us| ==> Unsigned(r[i]) == us[i]
  {
    if us == [] then [] else [Signed(us[0])] + ToSigned(us[1..])
  }

  /** String.getBytes(UTF_8) for a string of Unicode scalar values. */
  function Encode(s: string): seq<int8> {
    if s == [] then [] else ToSigned(EncodeCodePoint(s[0])) + Encode(s[1..])
  }

  /** How many bytes a sequence starting with this (unsigned) lead byte spans. */
  function SequenceLength(lead: int): nat {
    if lead < 0x80 then 1
    else if lead < 0xE0 then 2
    else if lead < 0xF0 then 3
    else 4
  }

  function Cont(b: int8): int {
    Unsigned(b) - 0x80
  }

  /** The code point at the head of a well-formed byte sequence. */
  function DecodeHead(bs: seq<int8>): int
    requires |bs| > 0 && |bs| >= SequenceLength(Unsigned(bs[0]))
  {
    var lead := Unsigned(bs[0]);
    var len := SequenceLength(lead);
    if len == 1 then lead
    else if len == 2 then (lead - 0xC0) * 64 + Cont(bs[1])
    else if len == 3 then (lead - 0xE0) * 4096 + Cont(bs[1]) * 64 + Cont(bs[2])
    else (lead - 0xF0) * 262144 + Cont(bs[1]) * 4096 + Cont(bs[2]) * 64 + Cont(bs[3])
  }

  /** Reads code points back from bytes; stops at a truncated sequence. */
  function Decode(bs: seq<int8>): seq<int>
    decreases |bs|
  {
    if bs == [] then []
    else if |bs| < SequenceLength(Unsigned(bs[0])) then []
    else [DecodeHead(bs)] + Decode(bs[SequenceLength(Unsigned(bs[0]))..])
  }

  function CodePoints(s: string): (r: seq<int>)
    ensures |r| == |s|
    ensures forall i :: 0 <= i < |s| ==> r[i] == s[i] as int
  {
    if s == [] then [] else [s[0] as int] + CodePoints(s[1..])
  }

  lemma EncodeCodePointDecodes(c: char, rest: seq<int8>)
    ensures var e := ToSigned(EncodeCodePoint(c)) + rest;
            && SequenceLength(Unsigned(e[0])) == |EncodeCodePoint(c)|
            && DecodeHead(e) == c as int
  {
    var n := c as int;
    var u := EncodeCodePoint(c);
    var e := ToSigned(u) + rest;
    assert forall i :: 0 <= i < |u| ==> Unsigned(e[i]) == u[i];
    if n < 0x80 {
    } else if n < 0x800 {
      TwoByteDecodes(n, e);
    } else if n < 0x10000 {
      ThreeByteDecodes(n, e);
    } else {
      FourByteDecodes(n, e);
    }
  }

  lemma TwoByteDecodes(n: int, e: seq<int8>)
    requires 0x80 <= n < 0x800 && |e| >= 2
    requires Unsigned(e[0]) == 0xC0 + n / 64 && Unsigned(e[1]) == 0x80 + n % 64
    ensures SequenceLength(Unsigned(e[0])) == 2 && DecodeHead(e) == n
  {
    assert 2 <= n / 64 < 32;
  }

  lemma ThreeByteDecodes(n: int, e: seq<int8>)
    requires 0x800 <= n < 0x10000 && |e| >= 3
    requires Unsigned(e[0]) == 0xE0 + n / 4096
    requires Unsigned(e[1]) == 0x80 + (n / 64) % 64 && Unsigned(e[2]) == 0x80 + n % 64
    ensures SequenceLength(Unsigned(e[0])) == 3 && DecodeHead(e) == n
  {
    assert 0 <= n / 4096 < 16;
    assert n / 64 == (n / 4096) * 64 + (n / 64) % 64;
    assert n == (n / 4096) * 4096 + ((n / 64) % 64) * 64 + n % 64;
  }

  lemma FourByteDecodes(n: int, e: seq<int8>)
    requires 0x10000 <= n <= 0x10FFFF && |e| >= 4
    requires Unsigned(e[0]) == 0xF0 + n / 262144
    requires Unsigned(e[1]) == 0x80 + (n / 4096) % 64
    requires Unsigned(e[2]) == 0x80 + (n / 64) % 64 && Unsigned(e[3]) == 0x80 + n % 64
    ensures SequenceLength(Unsigned(e[0])) == 4 && DecodeHead(e) == n
  {
    assert 0 <= n / 262144 < 5;
    assert n / 4096 == (n / 262144) * 64 + (n / 4096) % 64;
    assert n / 64 == (n / 4096) * 64 + (n / 64) % 64;
    assert n == (n / 262144) * 262144 + ((n / 4096) % 64) * 4096 + ((n / 64) % 64) * 64 + n % 64;
  }

  /** Decoding the UTF-8 encoding gives back the string's code points. */
  lemma {:induction false} DecodeEncode(s: string)
    ensures Decode(Encode(s)) == CodePoints(s)
  {
    if s != [] {
      var head := ToSigned(EncodeCodePoint(s[0]));
      var e := Encode(s);
      assert e == head + Encode(s[1..]);
      EncodeCodePointDecodes(s[0], Encode(s[1..]));
      assert e[|head|..] == Encode(s[1..]);
      DecodeEncode(s[1..]);
    }
  }

  /** Distinct strings have distinct UTF-8 encodings. */
  lemma EncodeInjective(s: string, t: string)
    requires Encode(s) == Encode(t)
    ensures s == t
  {
    DecodeEncode(s);
    DecodeEncode(t);
    assert CodePoints(s) == CodePoints(t);
    assert |s| == |t|;
    forall i | 0 <= i < |s| ensures s[i] == t[i] {
      assert CodePoints(s)[i] == CodePoints(t)[i];
    }
  }
}
