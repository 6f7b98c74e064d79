/** UTF-8 well-formedness (section 4 of RFC 3629), as `str::from_utf8` decides it. */
module Utf8 {
  import opened Base

  predicate Tail(b: byte) { 0x80 <= b <= 0xBF }

  /** Length of the well-formed character at the front of `s`, or 0. */
  function CharLength(s: bytes): (n: nat)
    requires s != []
    ensures n <= |s| && (s[0] < 0x80 ==> n == 1)
  {
    var a := s[0];
    if a < 0x80 then 1
    else if |s| >= 2 && 0xC2 <= a <= 0xDF && Tail(s[1]) then 2
    else if |s| >= 3 && 0xE0 <= a <= 0xEF && Tail(s[1]) && Tail(s[2])
         && (a == 0xE0 ==> s[1] >= 0xA0) && (a == 0xED ==> s[1] <= 0x9F) then 3
    else if |s| >= 4 && 0xF0 <= a <= 0xF4 && Tail(s[1]) && Tail(s[2]) && Tail(s[3])
         && (a == 0xF0 ==> s[1] >= 0x90) && (a == 0xF4 ==> s[1] <= 0x8F) then 4
    else 0
  }

  predicate Valid(s: bytes) {
    s == [] || (CharLength(s) > 0 && Valid(s[CharLength(s)..]))
  }

  /** The contents of a Rust `String`. */
  type Text = s: bytes | Valid(s) witness []

  lemma {:induction false} AsciiIsValid(s: bytes)
    requires forall i :: 0 <= i < |s| ==> s[i] < 0x80
    ensures Valid(s)
  {
    if s != [] {
      AsciiIsValid(s[1..]);
    }
  }

  // ---------------------------------------------------------------- the characters behind the bytes

  /** Unicode scalar values: everything up to 10FFFF but the surrogates. */
  type scalar = c: int | 0 <= c < 0xD800 || 0xE000 <= c <= 0x10FFFF

  /** The encoding table of section 3 of RFC 3629. */
  function EncodeChar(c: scalar): bytes {
    if c < 0x80 then [c]
    else if c < 0x800 then [0xC0 + c / 64, 0x80 + c % 64]
    else if c < 0x1_0000 then [0xE0 + c / 64 / 64, 0x80 + c / 64 % 64, 0x80 + c % 64]
    else [0xF0 + c / 64 / 64 / 64, 0x80 + c / 64 / 64 % 64, 0x80 + c / 64 % 64, 0x80 + c % 64]
  }

  function EncodeText(cs: seq<scalar>): bytes {
    if cs == [] then [] else EncodeChar(cs[0]) + EncodeText(cs[1..])
  }

  /** An encoded character is recognised with its length, whatever follows. */
  lemma CharIsRead(c: scalar, rest: bytes)
    ensures CharLength(EncodeChar(c) + rest) == |EncodeChar(c)|
  {
    var s := EncodeChar(c) + rest;
    assert forall i :: 0 <= i < |EncodeChar(c)| ==> s[i] == EncodeChar(c)[i];
  }

  /** What is recognised as a character is the encoding of one. */
  lemma CharIsEncoded(s: bytes) returns (c: scalar)
    requires s != [] && CharLength(s) > 0
    ensures s[..CharLength(s)] == EncodeChar(c)
  {
    var n := CharLength(s);
    if n == 1 {
      c := s[0];
    } else if n == 2 {
      c := Joined(s[0] - 0xC0, s[1]);
    } else if n == 3 {
      c := Joined(Joined(s[0] - 0xE0, s[1]), s[2]);
    } else {
      c := Joined(Joined(Joined(s[0] - 0xF0, s[1]), s[2]), s[3]);
    }
  }

  /** Six more bits. */
  function Joined(high: int, tail: byte): (c: int)
    requires high >= 0 && Tail(tail)
    ensures c / 64 == high && 0x80 + c % 64 == tail
  {
    64 * high + (tail - 0x80)
  }

  lemma {:induction false} EncodedIsValid(cs: seq<scalar>)
    ensures Valid(EncodeText(cs))
    decreases |cs|
  {
    if cs != [] {
      var rest := EncodeText(cs[1..]);
      CharIsRead(cs[0], rest);
      EncodedIsValid(cs[1..]);
      assert (EncodeChar(cs[0]) + rest)[|EncodeChar(cs[0])|..] == rest;
    }
  }

  lemma {:induction false} ValidIsEncoded(s: bytes) returns (cs: seq<scalar>)
    requires Valid(s)
    ensures EncodeText(cs) == s
    decreases |s|
  {
    if s == [] {
      cs := [];
    } else {
      var c := CharIsEncoded(s);
      var rest := ValidIsEncoded(s[CharLength(s)..]);
      cs := [c] + rest;
      assert s == s[..CharLength(s)] + s[CharLength(s)..];
    }
  }

  /** Exactly the encodings of sequences of scalar values are accepted. */
  lemma {:induction false} ValidExactly(s: bytes)
    ensures Valid(s) <==> exists cs :: EncodeText(cs) == s
  {
    if Valid(s) {
      var cs := ValidIsEncoded(s);
    }
    if cs :| EncodeText(cs) == s {
      EncodedIsValid(cs);
    }
  }
}
