/** Rust `String` offsets: text is a sequence of characters, offsets count UTF-8 bytes, and an
    offset may be used for slicing only when it lies on a character boundary. */
module Utf8Text {
  import opened Bytes

  /** `char::len_utf8`. */
  function Width(c: char): (w: nat)
    ensures 1 <= w <= 4
  {
    if c < 0x80 as char then 1 else if c < 0x800 as char then 2 else if c < 0x1_0000 as char then 3 else 4
  }

  function ByteLen(t: string): (n: nat)
    ensures |t| <= n <= 4 * |t|
  {
    if t == [] then 0 else Width(t[0]) + ByteLen(t[1..])
  }

  /** The length in bytes is that of the encoding. */
  lemma {:induction false} EncodedLength(t: string)
    ensures |Encode(t)| == ByteLen(t)
  {
    if t != "" {
      EncodedLength(t[1..]);
    }
  }

  /** The byte offset of character `k`. */
  function Offset(t: string, k: nat): nat
    requires k <= |t|
  {
    ByteLen(t[..k])
  }

  /** `str::is_char_boundary`. */
  predicate IsBoundary(t: string, b: int) {
    b == 0 || (t != [] && Width(t[0]) <= b && IsBoundary(t[1..], b - Width(t[0])))
  }

  /** The character index a boundary stands for. */
  function CharIndex(t: string, b: int): (k: nat)
    requires IsBoundary(t, b)
    ensures k <= |t|
  {
    if b == 0 then 0 else 1 + CharIndex(t[1..], b - Width(t[0]))
  }

  lemma {:induction false} OffsetCharIndex(t: string, b: int)
    requires IsBoundary(t, b)
    ensures Offset(t, CharIndex(t, b)) == b
  {
    if b != 0 {
      var k := CharIndex(t, b);
      OffsetCharIndex(t[1..], b - Width(t[0]));
      assert t[..k][1..] == t[1..][..k - 1];
    }
  }

  lemma {:induction false} ByteLenConcat(a: string, b: string)
    ensures ByteLen(a + b) == ByteLen(a) + ByteLen(b)
  {
    if a == [] {
      assert a + b == b;
    } else {
      assert (a + b)[1..] == a[1..] + b;
      ByteLenConcat(a[1..], b);
    }
  }

  /** Offsets and character indices are inverse to each other: the boundaries of a text are
      exactly the offsets of its characters. */
  lemma {:induction false} CharIndexOffset(t: string, k: nat)
    requires k <= |t|
    ensures IsBoundary(t, Offset(t, k)) && CharIndex(t, Offset(t, k)) == k
  {
    if k > 0 {
      assert t[..k][1..] == t[1..][..k - 1];
      CharIndexOffset(t[1..], k - 1);
    }
  }

  lemma OffsetSplit(t: string, j: nat, k: nat)
    requires j <= k <= |t|
    ensures Offset(t, k) == Offset(t, j) + ByteLen(t[j..k])
  {
    assert t[..k] == t[..j] + t[j..k];
    ByteLenConcat(t[..j], t[j..k]);
  }

  /** Boundaries are ordered as the characters are, strictly. */
  lemma OffsetMonotone(t: string, j: nat, k: nat)
    requires j <= |t| && k <= |t|
    ensures j < k <==> Offset(t, j) < Offset(t, k)
    ensures j == k <==> Offset(t, j) == Offset(t, k)
  {
    if j <= k {
      OffsetSplit(t, j, k);
    } else {
      OffsetSplit(t, k, j);
    }
  }

  lemma BoundariesOrdered(t: string, a: int, b: int)
    requires IsBoundary(t, a) && IsBoundary(t, b)
    ensures a < b <==> CharIndex(t, a) < CharIndex(t, b)
    ensures a == b <==> CharIndex(t, a) == CharIndex(t, b)
  {
    OffsetCharIndex(t, a);
    OffsetCharIndex(t, b);
    OffsetMonotone(t, CharIndex(t, a), CharIndex(t, b));
  }

  lemma OffsetEnd(t: string)
    ensures Offset(t, |t|) == ByteLen(t)
    ensures IsBoundary(t, ByteLen(t)) && CharIndex(t, ByteLen(t)) == |t|
  {
    assert t[..|t|] == t;
    CharIndexOffset(t, |t|);
  }

  /** `&text[..b]`. */
  function SliceTo(t: string, b: int): string
    requires IsBoundary(t, b)
  {
    t[..CharIndex(t, b)]
  }

  /** `&text[b..]`. */
  function SliceFrom(t: string, b: int): string
    requires IsBoundary(t, b)
  {
    t[CharIndex(t, b)..]
  }

  /** `&text[a..b]`. */
  function Slice(t: string, a: int, b: int): string
    requires IsBoundary(t, a) && IsBoundary(t, b) && a <= b
  {
    BoundariesOrdered(t, a, b);
    t[CharIndex(t, a)..CharIndex(t, b)]
  }

  /** `String::insert_str`. */
  function InsertStr(t: string, b: int, s: string): string
    requires IsBoundary(t, b)
  {
    SliceTo(t, b) + s + SliceFrom(t, b)
  }

  /** What `String::drain(a..b)` leaves behind. */
  function Drained(t: string, a: int, b: int): string
    requires IsBoundary(t, a) && IsBoundary(t, b) && a <= b
  {
    SliceTo(t, a) + SliceFrom(t, b)
  }

  /** `b` is the offset of character `k`. */
  predicate At(t: string, b: int, k: int) {
    IsBoundary(t, b) && CharIndex(t, b) == k
  }

  lemma IsAt(t: string, b: int)
    requires IsBoundary(t, b)
    ensures At(t, b, CharIndex(t, b))
  {
  }

  lemma OffsetAt(t: string, k: nat)
    requires k <= |t|
    ensures At(t, Offset(t, k), k)
  {
    CharIndexOffset(t, k);
  }

  lemma AtEnd(t: string)
    ensures At(t, ByteLen(t), |t|)
  {
    OffsetEnd(t);
  }

  /** Boundaries are ordered, and compared with the end, as their characters are. */
  lemma AtOrdered(t: string, a: int, j: int, b: int, k: int)
    requires At(t, a, j) && At(t, b, k)
    ensures 0 <= j <= |t| && 0 <= a
    ensures (a < b <==> j < k) && (a == b <==> j == k)
  {
    BoundariesOrdered(t, a, b);
    OffsetCharIndex(t, a);
  }

  /** Moving over the characters between two boundaries. */
  lemma AtPlus(t: string, b: int, j: nat, k: nat)
    requires At(t, b, j) && j <= k <= |t|
    ensures At(t, b + ByteLen(t[j..k]), k)
  {
    OffsetCharIndex(t, b);
    OffsetSplit(t, j, k);
    OffsetAt(t, k);
  }

  /** Positions before an edit point keep their offsets. */
  lemma AtKept(t: string, u: string, b: int, k: nat)
    requires At(t, b, k) && k <= |t| && k <= |u| && t[..k] == u[..k]
    ensures At(u, b, k)
  {
    OffsetCharIndex(t, b);
    OffsetAt(u, k);
  }
}
