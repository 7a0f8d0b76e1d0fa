/** UTF-8 (RFC 3629): the encoding and the strict decoding of texts. */
module Utf8 {
  import opened Text

  type Byte = b: int | 0 <= b < 256

  predicate IsScalar(n: int) { 0 <= n < 0xD800 || 0xE000 <= n < 0x110000 }

  function EncodeChar(c: char): (r: seq<Byte>)
    ensures 1 <= |r| <= 4
  {
    var n := c as int;
    if n < 0x80 then [n]
    else if n < 0x800 then [0xC0 + n / 64, 0x80 + n % 64]
    else if n < 0x10000 then [0xE0 + n / 4096, 0x80 + n / 64 % 64, 0x80 + n % 64]
    else [0xF0 + n / 262144, 0x80 + n / 4096 % 64, 0x80 + n / 64 % 64, 0x80 + n % 64]
  }

  function Encode(s: string): seq<Byte> {
    if s == "" then [] else EncodeChar(s[0]) + Encode(s[1..])
  }

  predicate Continues(b: seq<Byte>, k: nat) {
    |b| > k && forall i | 1 <= i <= k :: 0x80 <= b[i] < 0xC0
  }

  /** The code point at the front of `b` and its width; -1 where no well-formed sequence starts. */
  function Front(b: seq<Byte>): (r: (int, nat))
    requires b != []
    ensures r.0 == -1 || (1 <= r.1 <= |b| && IsScalar(r.0))
  {
    if b[0] < 0x80 then (b[0], 1)
    else if 0xC2 <= b[0] < 0xE0 && Continues(b, 1) then
      ((b[0] as int - 0xC0) * 64 + (b[1] as int - 0x80), 2)
    else if 0xE0 <= b[0] < 0xF0 && Continues(b, 2) then
      var n := (b[0] as int - 0xE0) * 4096 + (b[1] as int - 0x80) * 64 + (b[2] as int - 0x80);
      if 0x800 <= n && IsScalar(n) then (n, 3) else (-1, 0)
    else if 0xF0 <= b[0] < 0xF5 && Continues(b, 3) then
      var n := (b[0] as int - 0xF0) * 262144 + (b[1] as int - 0x80) * 4096
               + (b[2] as int - 0x80) * 64 + (b[3] as int - 0x80);
      if 0x10000 <= n && IsScalar(n) then (n, 4) else (-1, 0)
    else (-1, 0)
  }

  function Decode(b: seq<Byte>): Option<string>
    decreases |b|
  {
    if b == [] then Some("")
    else
      var (n, w) := Front(b);
      if n == -1 then None
      else
        match Decode(b[w..])
        case None => None
        case Some(rest) => Some([n as char] + rest)
  }

  lemma FrontOfTwo(n: int, b: seq<Byte>)
    requires 0x80 <= n < 0x800 && |b| >= 2 && b[..2] == [0xC0 + n / 64, 0x80 + n % 64]
    ensures Front(b) == (n, 2)
  {
    assert b[0] == b[..2][0] && b[1] == b[..2][1];
  }

  lemma FrontOfThree(n: int, b: seq<Byte>)
    requires 0x800 <= n < 0x10000 && IsScalar(n)
    requires |b| >= 3 && b[..3] == [0xE0 + n / 4096, 0x80 + n / 64 % 64, 0x80 + n % 64]
    ensures Front(b) == (n, 3)
  {
    assert forall i | 0 <= i < 3 :: b[i] == b[..3][i];
    assert n / 64 / 64 == n / 4096;
  }

  lemma FrontOfFour(n: int, b: seq<Byte>)
    requires 0x10000 <= n < 0x110000
    requires |b| >= 4
    requires b[..4] == [0xF0 + n / 262144, 0x80 + n / 4096 % 64, 0x80 + n / 64 % 64, 0x80 + n % 64]
    ensures Front(b) == (n, 4)
  {
    assert forall i | 0 <= i < 4 :: b[i] == b[..4][i];
    assert n / 64 / 64 == n / 4096 && n / 4096 / 64 == n / 262144;
  }

  lemma FrontOfEncoded(c: char, rest: seq<Byte>)
    ensures Front(EncodeChar(c) + rest) == (c as int, |EncodeChar(c)|)
  {
    var n := c as int;
    var b := EncodeChar(c) + rest;
    assert b[..|EncodeChar(c)|] == EncodeChar(c);
    if 0x80 <= n < 0x800 {
      FrontOfTwo(n, b);
    } else if 0x800 <= n < 0x10000 {
      FrontOfThree(n, b);
    } else if 0x10000 <= n {
      FrontOfFour(n, b);
    }
  }

  lemma {:induction false} DecodeEncode(s: string)
    ensures Decode(Encode(s)) == Some(s)
  {
    if s != "" {
      var head, tail := EncodeChar(s[0]), Encode(s[1..]);
      FrontOfEncoded(s[0], tail);
      assert (head + tail)[|head|..] == tail;
      DecodeEncode(s[1..]);
      assert [s[0]] + s[1..] == s;
    }
  }
}
