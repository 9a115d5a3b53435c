/** Byte streams and the UTF-8 encoding that the printers write. */
module Bytes {

  type byte = b: int | 0 <= b < 256

  const LF: byte := 10
  const CR: byte := 13

  /** The bytes of one scalar value. */
  function EncodeChar(c: char): (bytes: seq<byte>)
    ensures bytes != []
    ensures c as int < 0x80 ==> bytes == [c as int]
    ensures c as int >= 0x80 ==> forall i :: 0 <= i < |bytes| ==> bytes[i] >= 0x80
  {
    var v := c as int;
    if v < 0x80 then [v]
    else if v < 0x800 then [0xC0 + v / 0x40, 0x80 + v % 0x40]
    else if v < 0x1_0000 then [0xE0 + v / 0x1000, 0x80 + v / 0x40 % 0x40, 0x80 + v % 0x40]
    else [0xF0 + v / 0x4_0000, 0x80 + v / 0x1000 % 0x40, 0x80 + v / 0x40 % 0x40, 0x80 + v % 0x40]
  }

  /** `str::as_bytes`. */
  function Encode(s: string): seq<byte> {
    if s == "" then [] else EncodeChar(s[0]) + Encode(s[1..])
  }

  lemma {:induction false} EncodeConcat(a: string, b: string)
    ensures Encode(a + b) == Encode(a) + Encode(b)
  {
    if a == "" {
      assert a + b == b;
    } else {
      assert (a + b)[1..] == a[1..] + b;
      EncodeConcat(a[1..], b);
    }
  }

  /** A byte below 0x80 appears in the encoding only where its character does. */
  lemma {:induction false} AsciiOnlyFromItself(s: string, x: char)
    requires x as int < 0x80 && x !in s
    ensures forall i :: 0 <= i < |Encode(s)| ==> Encode(s)[i] != x as int
  {
    if s != "" {
      AsciiOnlyFromItself(s[1..], x);
      var c := s[0];
      assert c != x;
      var head := EncodeChar(c);
      assert forall i :: 0 <= i < |head| ==> head[i] != x as int;
    }
  }

  lemma EncodeOne(c: char)
    requires c as int < 0x80
    ensures Encode([c]) == [c as int]
  {
    assert [c][1..] == "";
  }

  function Flatten<T>(chunks: seq<seq<T>>): seq<T> {
    if chunks == [] then [] else chunks[0] + Flatten(chunks[1..])
  }
}
