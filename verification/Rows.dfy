/** A buffer seen as the rows between its newlines. */
module Rows {

  predicate Flat(row: string) {
    FlatBetween(row, 0, |row|)
  }

  /** No newline among the characters `s..e`. */
  predicate FlatBetween(t: string, s: nat, e: nat)
    requires e <= |t|
  {
    forall i :: s <= i < e ==> t[i] != '\n'
  }

  /** `text.split('\n')`: never empty, and the last row is empty when the text ends with a newline. */
  function Split(t: string): (rows: seq<string>)
    ensures rows != []
  {
    if t == [] then [""]
    else
      var rest := Split(t[1..]);
      if t[0] == '\n' then [""] + rest else [[t[0]] + rest[0]] + rest[1..]
  }

  function Join(rows: seq<string>): string
    requires rows != []
  {
    if |rows| == 1 then rows[0] else rows[0] + "\n" + Join(rows[1..])
  }

  function CountNewlines(t: string): nat {
    if t == [] then 0 else (if t[0] == '\n' then 1 else 0) + CountNewlines(t[1..])
  }

  /** The character index at which row `r` starts. */
  function RowOffset(rows: seq<string>, r: nat): nat
    requires r <= |rows|
  {
    if r == 0 then 0 else |rows[0]| + 1 + RowOffset(rows[1..], r - 1)
  }

  /** First character of the row holding position `k`. */
  function RowStart(t: string, k: nat): (s: nat)
    requires k <= |t|
    ensures s <= k && FlatBetween(t, s, k) && (s == 0 || t[s - 1] == '\n')
  {
    if k == 0 || t[k - 1] == '\n' then k else RowStart(t, k - 1)
  }

  /** End of the row holding position `k`, before its newline. */
  function RowEnd(t: string, k: nat): (e: nat)
    requires k <= |t|
    ensures k <= e <= |t| && FlatBetween(t, k, e) && (e == |t| || t[e] == '\n')
    decreases |t| - k
  {
    if k == |t| || t[k] == '\n' then k else RowEnd(t, k + 1)
  }

  function RowIndex(t: string, k: nat): nat
    requires k <= |t|
  {
    CountNewlines(t[..k])
  }

  function Column(t: string, k: nat): nat
    requires k <= |t|
  {
    k - RowStart(t, k)
  }

  /** The row holding position `k`. */
  function Row(t: string, k: nat): (row: string)
    requires k <= |t|
    ensures Flat(row)
  {
    t[RowStart(t, k)..RowEnd(t, k)]
  }

  lemma FlatCons(c: char, row: string)
    requires c != '\n' && Flat(row)
    ensures Flat([c] + row)
  {
    assert forall i :: 0 < i <= |row| ==> ([c] + row)[i] == row[i - 1];
  }

  lemma SplitRoundTrip(t: string)
    ensures Join(Split(t)) == t
    ensures |Split(t)| == CountNewlines(t) + 1
  {
    JoinSplit(t);
    SplitCount(t);
  }

  lemma {:induction false} JoinSplit(t: string)
    ensures Join(Split(t)) == t
  {
    if t != [] {
      JoinSplit(t[1..]);
      var rest := Split(t[1..]);
      JoinFirst(rest, t[0]);
      assert t == [t[0]] + t[1..];
    }
  }

  lemma JoinNext(row: string, rows: seq<string>)
    requires rows != []
    ensures Join([row] + rows) == row + ("\n" + Join(rows))
  {
    assert ([row] + rows)[0] == row && ([row] + rows)[1..] == rows;
    Regroup(row, "\n", Join(rows));
  }

  lemma Regroup<T>(a: seq<T>, b: seq<T>, c: seq<T>)
    ensures a + b + c == a + (b + c)
  {
  }

  /** Putting a character, or a newline, in front of joined rows. */
  lemma JoinFirst(rows: seq<string>, c: char)
    requires rows != []
    ensures Join([[c] + rows[0]] + rows[1..]) == [c] + Join(rows)
    ensures Join([""] + rows) == "\n" + Join(rows)
  {
    hide Join;
    JoinNext("", rows);
    assert "" + ("\n" + Join(rows)) == "\n" + Join(rows);
    var row, rest := rows[0], rows[1..];
    assert rows == [row] + rest;
    if rest == [] {
      JoinOne([row]);
      JoinOne([[c] + row]);
      assert [[c] + row] + rest == [[c] + row];
      assert rows == [row];
    } else {
      JoinNext(row, rest);
      JoinNext([c] + row, rest);
      Regroup([c], row, "\n" + Join(rest));
    }
  }

  lemma {:induction false} SplitCount(t: string)
    ensures |Split(t)| == CountNewlines(t) + 1
  {
    if t != [] {
      SplitCount(t[1..]);
    }
  }

  lemma {:induction false} SplitRowsFlat(t: string)
    ensures forall r :: 0 <= r < |Split(t)| ==> Flat(Split(t)[r])
  {
    hide Flat;
    if t == [] {
      assert Flat("") by { EmptyFlat(); }
    } else {
      SplitRowsFlat(t[1..]);
      if t[0] == '\n' {
        EmptyFlat();
      } else {
        FlatCons(t[0], Split(t[1..])[0]);
      }
    }
  }

  lemma EmptyFlat()
    ensures Flat("")
  {
  }

  lemma {:induction false} SplitFlat(t: string)
    requires Flat(t)
    ensures Split(t) == [t]
  {
    if t != [] {
      SplitFlat(t[1..]);
      assert t == [t[0]] + t[1..];
    }
  }

  lemma {:induction false} SplitConcat(a: string, b: string)
    ensures Split(a + "\n" + b) == Split(a) + Split(b)
  {
    hide Split;
    var whole := a + "\n" + b;
    if a == "" {
      assert whole[1..] == b;
      SplitFirst(whole);
      SplitNothing();
    } else {
      assert whole[1..] == a[1..] + "\n" + b;
      SplitConcat(a[1..], b);
      SplitFirst(whole);
      SplitFirst(a);
      OntoFirst(a[0], Split(a[1..]), Split(b));
    }
  }

  lemma SplitNothing()
    ensures Split("") == [""]
  {
  }

  lemma SplitFirst(t: string)
    requires t != ""
    ensures Split(t[1..]) != []
    ensures Split(t) == if t[0] == '\n' then [""] + Split(t[1..])
                        else [[t[0]] + Split(t[1..])[0]] + Split(t[1..])[1..]
  {
  }

  lemma OntoFirst(c: char, rows: seq<string>, more: seq<string>)
    requires rows != []
    ensures [[c] + (rows + more)[0]] + (rows + more)[1..] == ([[c] + rows[0]] + rows[1..]) + more
    ensures [""] + (rows + more) == ([""] + rows) + more
  {
  }

  /** Splitting inverts joining on newline-free rows, so texts and row lists are in bijection. */
  lemma {:induction false} JoinRoundTrip(rows: seq<string>)
    requires rows != [] && forall r :: 0 <= r < |rows| ==> Flat(rows[r])
    ensures Split(Join(rows)) == rows
  {
    if |rows| == 1 {
      SplitFlat(rows[0]);
    } else {
      JoinRoundTrip(rows[1..]);
      SplitFlat(rows[0]);
      SplitConcat(rows[0], Join(rows[1..]));
    }
  }

  lemma {:induction false} CountConcat(a: string, b: string)
    ensures CountNewlines(a + b) == CountNewlines(a) + CountNewlines(b)
  {
    if a == [] {
      assert a + b == b;
    } else {
      assert (a + b)[1..] == a[1..] + b;
      CountConcat(a[1..], b);
    }
  }

  lemma {:induction false} CountFlat(t: string)
    ensures CountNewlines(t) == 0 <==> Flat(t)
  {
    if t != [] {
      CountFlat(t[1..]);
      assert t == [t[0]] + t[1..];
    }
  }

  /** The text before the row of `k`, without the newline that ends it, as rows. */
  function RowsBefore(t: string, k: nat): seq<string>
    requires k <= |t|
  {
    if RowStart(t, k) == 0 then [] else Split(t[..RowStart(t, k) - 1])
  }

  /** The text after the row of `k` as rows. */
  function RowsAfter(t: string, k: nat): seq<string>
    requires k <= |t|
  {
    if RowEnd(t, k) == |t| then [] else Split(t[RowEnd(t, k) + 1..])
  }

  /** A newline cuts the row list in two. */
  lemma SplitAtNewline(t: string, i: nat)
    requires i < |t| && t[i] == '\n'
    ensures Split(t) == Split(t[..i]) + Split(t[i + 1..])
    ensures |Split(t[..i])| == CountNewlines(t[..i]) + 1
  {
    assert t == t[..i] + "\n" + t[i + 1..];
    SplitConcat(t[..i], t[i + 1..]);
    SplitRoundTrip(t[..i]);
  }

  lemma SplitTail(t: string, k: nat)
    requires k <= |t|
    ensures Split(t[RowStart(t, k)..]) == [Row(t, k)] + RowsAfter(t, k)
  {
    var s, e := RowStart(t, k), RowEnd(t, k);
    SplitFlat(Row(t, k));
    if e == |t| {
      assert t[s..] == Row(t, k);
    } else {
      assert t[s..] == Row(t, k) + "\n" + t[e + 1..];
      SplitConcat(Row(t, k), t[e + 1..]);
    }
  }

  /** Position `k` cuts the rows of `t` into those before its row, its row, and those after. */
  lemma SplitAt(t: string, k: nat)
    requires k <= |t|
    ensures Split(t) == RowsBefore(t, k) + [Row(t, k)] + RowsAfter(t, k)
    ensures |RowsBefore(t, k)| == RowIndex(t, k)
  {
    hide Split, CountNewlines;
    var s := RowStart(t, k);
    SplitTail(t, k);
    RowIndexAtStart(t, k);
    if s == 0 {
      assert t[s..] == t;
    } else {
      SplitAtNewline(t, s - 1);
    }
    assert Split(t) == RowsBefore(t, k) + ([Row(t, k)] + RowsAfter(t, k));
  }

  lemma RowIndexAtStart(t: string, k: nat)
    requires k <= |t|
    ensures RowIndex(t, k) == RowIndex(t, RowStart(t, k))
    ensures RowIndex(t, k) == if RowStart(t, k) == 0 then 0 else CountNewlines(t[..RowStart(t, k) - 1]) + 1
  {
    var s := RowStart(t, k);
    assert t[..k] == t[..s] + t[s..k];
    CountConcat(t[..s], t[s..k]);
    CountFlat(t[s..k]);
    if s > 0 {
      assert t[..s] == t[..s - 1] + "\n";
      CountConcat(t[..s - 1], "\n");
    }
  }

  lemma {:induction false} RowOffsetConcat(a: seq<string>, b: seq<string>)
    requires a != []
    ensures RowOffset(a + b, |a|) == |Join(a)| + 1
  {
    if |a| == 1 {
      assert (a + b)[0] == a[0];
    } else {
      assert (a + b)[1..] == a[1..] + b;
      RowOffsetConcat(a[1..], b);
    }
  }

  /** The row of a position starts where the row list says it does. */
  lemma RowStartIsRowOffset(t: string, k: nat)
    requires k <= |t|
    ensures RowIndex(t, k) < |Split(t)|
    ensures RowStart(t, k) == RowOffset(Split(t), RowIndex(t, k))
  {
    hide Split, Join, RowOffset, CountNewlines, RowEnd;
    SplitAt(t, k);
    var s := RowStart(t, k);
    if s > 0 {
      SplitRoundTrip(t[..s - 1]);
      RowOffsetConcat(RowsBefore(t, k), [Row(t, k)] + RowsAfter(t, k));
      assert Split(t) == RowsBefore(t, k) + ([Row(t, k)] + RowsAfter(t, k));
    } else {
      RowOffsetZero(Split(t));
    }
  }

  /** Two descriptions of a position's row that agree on the surrounding newlines are the same. */
  lemma RowBoundsUnique(t: string, s: nat, k: nat, e: nat)
    requires s <= k <= e <= |t| && FlatBetween(t, s, e)
    requires s == 0 || t[s - 1] == '\n'
    requires e == |t| || t[e] == '\n'
    ensures RowStart(t, k) == s && RowEnd(t, k) == e
  {
  }

  lemma RowOffsetZero(rows: seq<string>)
    ensures RowOffset(rows, 0) == 0
  {
  }

  lemma RowStartOfPrefix(t: string, k: nat)
    requires k <= |t|
    ensures RowStart(t[..k], k) == RowStart(t, k)
  {
    RowBoundsUnique(t[..k], RowStart(t, k), k, k);
  }

  lemma RowEndOfSuffix(t: string, k: nat)
    requires k <= |t|
    ensures RowEnd(t[k..], 0) == RowEnd(t, k) - k
  {
    RowBoundsUnique(t[k..], 0, 0, RowEnd(t, k) - k);
  }

  /** Where row `r` sits inside the joined text: its start, its end, and the newlines around it. */
  lemma {:induction false} RowOffsetWithin(rows: seq<string>, r: nat)
    requires r < |rows|
    ensures RowOffset(rows, r) + |rows[r]| <= |Join(rows)|
    ensures forall i :: 0 <= i < |rows[r]| ==> Join(rows)[RowOffset(rows, r) + i] == rows[r][i]
    ensures RowOffset(rows, r) == 0 || Join(rows)[RowOffset(rows, r) - 1] == '\n'
    ensures var e := RowOffset(rows, r) + |rows[r]|;
            if r + 1 == |rows| then e == |Join(rows)| else e < |Join(rows)| && Join(rows)[e] == '\n'
  {
    hide Join;
    if |rows| == 1 {
      JoinOne(rows);
    } else {
      JoinHead(rows);
      if r > 0 {
        RowOffsetWithin(rows[1..], r - 1);
        var o := RowOffset(rows[1..], r - 1);
        assert RowOffset(rows, r) == |rows[0]| + 1 + o;
        forall i | 0 <= i < |rows[r]| ensures Join(rows)[RowOffset(rows, r) + i] == rows[r][i] {
          assert Join(rows)[|rows[0]| + 1 + (o + i)] == Join(rows[1..])[o + i];
        }
      }
    }
  }

  lemma JoinOne(rows: seq<string>)
    requires |rows| == 1
    ensures Join(rows) == rows[0]
  {
  }

  lemma JoinHead(rows: seq<string>)
    requires |rows| > 1
    ensures |Join(rows)| == |rows[0]| + 1 + |Join(rows[1..])|
    ensures forall i :: 0 <= i < |rows[0]| ==> Join(rows)[i] == rows[0][i]
    ensures Join(rows)[|rows[0]|] == '\n'
    ensures forall i :: 0 <= i < |Join(rows[1..])| ==> Join(rows)[|rows[0]| + 1 + i] == Join(rows[1..])[i]
  {
  }

  lemma {:induction false} NextRowOffset(rows: seq<string>, r: nat)
    requires r < |rows|
    ensures RowOffset(rows, r + 1) == RowOffset(rows, r) + |rows[r]| + 1
  {
    if r > 0 {
      NextRowOffset(rows[1..], r - 1);
    }
  }

  /** Row `r` of the row list is that stretch of the text, ended by a newline unless it is the last. */
  lemma RowSlice(t: string, r: nat)
    requires r < |Split(t)|
    ensures var s := RowOffset(Split(t), r);
            var e := s + |Split(t)[r]|;
            && e <= |t| && t[s..e] == Split(t)[r]
            && (e < |t| <==> r + 1 < |Split(t)|)
            && (e < |t| ==> t[e] == '\n')
  {
    hide Split, Join, RowOffset, CountNewlines;
    SplitRoundTrip(t);
    RowOffsetWithin(Split(t), r);
  }

  /** Column `c` of row `r` is a position whose row and column are `r` and `c`: positions of a text
      and (row, column) pairs are in bijection. */
  lemma PositionRoundTrip(t: string, r: nat, c: nat)
    requires r < |Split(t)| && c <= |Split(t)[r]|
    ensures var k := RowOffset(Split(t), r) + c;
            k <= |t| && RowIndex(t, k) == r && Column(t, k) == c && Row(t, k) == Split(t)[r]
  {
    hide Split, Join, RowOffset, CountNewlines, RowStart, RowEnd;
    var rows := Split(t);
    SplitRoundTrip(t);
    SplitRowsFlat(t);
    RowOffsetWithin(rows, r);
    var s := RowOffset(rows, r);
    forall i | s <= i < s + |rows[r]| ensures t[i] != '\n' {
      assert t[s + (i - s)] == rows[r][i - s];
    }
    RowBoundsUnique(t, s, s + c, s + |rows[r]|);
    assert Row(t, s + c) == rows[r];
    RowStartIsRowOffset(t, s + c);
    RowIndexInjective(rows, r, RowIndex(t, s + c));
  }

  lemma {:induction false} RowIndexInjective(rows: seq<string>, q: nat, r: nat)
    requires q < |rows| && r < |rows| && RowOffset(rows, q) == RowOffset(rows, r)
    ensures q == r
  {
    if q > 0 && r > 0 {
      RowIndexInjective(rows[1..], q - 1, r - 1);
    }
  }
}
