/** The two-row Levenshtein computation behind slash-command suggestions, its recursive meaning, the
    metric laws, and the shortest edit path it measures. */
module Levenshtein {
  import opened Numbers

  function Cost(x: char, y: char): nat {
    if x != y then 1 else 0
  }

  /** Edit distance on characters, from the right ends. */
  function Distance(a: string, b: string): nat {
    if a == "" then |b|
    else if b == "" then |a|
    else
      var a', b' := a[..|a| - 1], b[..|b| - 1];
      Min(Min(Distance(a', b) + 1, Distance(a, b') + 1), Distance(a', b') + Cost(a[|a| - 1], b[|b| - 1]))
  }

  /** Distance of the first `i` characters of `a` from the first `j` of `b`: one cell of the table. */
  function Cell(a: string, b: string, i: nat, j: nat): nat
    requires i <= |a| && j <= |b|
  {
    Distance(a[..i], b[..j])
  }

  lemma CellEdges(a: string, b: string, i: nat, j: nat)
    requires i <= |a| && j <= |b|
    ensures Cell(a, b, 0, j) == j && Cell(a, b, i, 0) == i
  {
  }

  lemma CellStep(a: string, b: string, i: nat, j: nat)
    requires i < |a| && j < |b|
    ensures Cell(a, b, i + 1, j + 1) ==
              Min(Min(Cell(a, b, i, j + 1) + 1, Cell(a, b, i + 1, j) + 1), Cell(a, b, i, j) + Cost(a[i], b[j]))
  {
    assert a[..i + 1][..i] == a[..i];
    assert b[..j + 1][..j] == b[..j];
  }

  /** `levenshtein_distance`: two rows of the table, exchanged after each character of `left`. */
  method LevenshteinDistance(left: string, right: string) returns (distance: nat)
    ensures distance == Distance(left, right)
  {
    if left == right {
      SelfDistance(left);
      return 0;
    }
    if left == "" {
      return |right|;
    }
    if right == "" {
      return |left|;
    }
    var n := |right|;
    var previous := new nat[n + 1](j => j);
    var current := new nat[n + 1](_ => 0);
    forall j | 0 <= j <= n ensures previous[j] == Cell(left, right, 0, j) {
      CellEdges(left, right, 0, j);
    }
    for i := 0 to |left|
      invariant previous != current && previous.Length == current.Length == n + 1
      invariant fresh(previous) && fresh(current)
      invariant forall j :: 0 <= j <= n ==> previous[j] == Cell(left, right, i, j)
    {
      current[0] := i + 1;
      CellEdges(left, right, i + 1, 0);
      for j := 0 to n
        invariant forall k :: 0 <= k <= n ==> previous[k] == Cell(left, right, i, k)
        invariant forall k :: 0 <= k <= j ==> current[k] == Cell(left, right, i + 1, k)
      {
        var cost := if left[i] != right[j] then 1 else 0;
        CellStep(left, right, i, j);
        current[j + 1] := Min(Min(previous[j + 1] + 1, current[j] + 1), previous[j] + cost);
      }
      previous, current := current, previous;
    }
    assert left[..|left|] == left && right[..n] == right;
    return previous[n];
  }

  // ----- The metric laws

  lemma {:induction false} SelfDistance(a: string)
    ensures Distance(a, a) == 0
  {
    if a != "" { SelfDistance(a[..|a| - 1]); }
  }

  lemma {:induction false} DistanceBounds(a: string, b: string)
    ensures |a| <= |b| + Distance(a, b) && |b| <= |a| + Distance(a, b)
    ensures Distance(a, b) <= |a| || Distance(a, b) <= |b|
    decreases |a| + |b|
  {
    if a != "" && b != "" {
      var a', b' := a[..|a| - 1], b[..|b| - 1];
      DistanceBounds(a', b);
      DistanceBounds(a, b');
      DistanceBounds(a', b');
    }
  }

  /** Only equal strings are at distance zero. */
  lemma {:induction false} ZeroDistanceMeansEqual(a: string, b: string)
    ensures Distance(a, b) == 0 <==> a == b
    decreases |a|
  {
    if a == b {
      SelfDistance(a);
    } else if a != "" && b != "" {
      var a', b' := a[..|a| - 1], b[..|b| - 1];
      ZeroDistanceMeansEqual(a', b');
      assert a == a' + [a[|a| - 1]] && b == b' + [b[|b| - 1]];
    }
  }

  lemma {:induction false} Symmetric(a: string, b: string)
    ensures Distance(a, b) == Distance(b, a)
    decreases |a| + |b|
  {
    if a != "" && b != "" {
      var a', b' := a[..|a| - 1], b[..|b| - 1];
      Symmetric(a', b);
      Symmetric(a, b');
      Symmetric(a', b');
    }
  }

  lemma {:induction false} Triangle(a: string, b: string, c: string)
    ensures Distance(a, c) <= Distance(a, b) + Distance(b, c)
    decreases |a| + |b| + |c|
  {
    DistanceBounds(a, b);
    DistanceBounds(b, c);
    DistanceBounds(a, c);
    if a != "" && b != "" && c != "" {
      var a', b', c' := a[..|a| - 1], b[..|b| - 1], c[..|c| - 1];
      Triangle(a', b, c);
      Triangle(a, b, c');
      Triangle(a, b', c);
      Triangle(a, b', c');
      Triangle(a', b', c);
      Triangle(a', b', c');
    }
  }

  // ----- The distance is the length of a shortest edit path

  /** `b` is `a` with one character inserted, deleted or replaced at position `i`. */
  predicate OneEditAt(a: string, b: string, i: nat) {
    || (i < |b| && a == b[..i] + b[i + 1..])
    || (i < |a| && b == a[..i] + a[i + 1..])
    || (i < |a| == |b| && a[..i] == b[..i] && a[i + 1..] == b[i + 1..])
  }

  ghost predicate OneEdit(a: string, b: string) {
    exists i: nat :: OneEditAt(a, b, i)
  }

  ghost predicate IsPath(path: seq<string>, a: string, b: string) {
    && path != [] && path[0] == a && path[|path| - 1] == b
    && forall k :: 0 <= k < |path| - 1 ==> OneEdit(path[k], path[k + 1])
  }

  lemma DistanceStep(a: string, x: char, b: string, y: char)
    ensures Distance(a + [x], b + [y]) ==
              Min(Min(Distance(a, b + [y]) + 1, Distance(a + [x], b) + 1), Distance(a, b) + Cost(x, y))
  {
    Appended(a, x);
    Appended(b, y);
    hide Distance, Min, Cost;
    DistanceOfLongs(a + [x], b + [y], a, b, x, y);
  }

  lemma Appended(a: string, x: char)
    ensures a + [x] != "" && |a + [x]| - 1 == |a| && (a + [x])[..|a|] == a && (a + [x])[|a|] == x
  {
  }

  lemma DistanceOfLongs(a: string, b: string, a': string, b': string, x: char, y: char)
    requires a != "" && a[..|a| - 1] == a' && a[|a| - 1] == x
    requires b != "" && b[..|b| - 1] == b' && b[|b| - 1] == y
    ensures Distance(a, b) == Min(Min(Distance(a', b) + 1, Distance(a, b') + 1), Distance(a', b') + Cost(x, y))
  {
    hide Min, Cost;
  }

  lemma OneMore(a: string, b: string, x: char)
    ensures Distance(a, b + [x]) <= Distance(a, b) + 1
    ensures Distance(b + [x], a) <= Distance(b, a) + 1
  {
    assert (b + [x])[..|b|] == b;
  }

  lemma {:induction false} CommonPrefix(p: string, x: string, y: string)
    ensures Distance(p + x, p + y) <= Distance(x, y)
    decreases |x| + |y|
  {
    SelfDistance(p);
    DistanceFromEmpty(x);
    DistanceFromEmpty(y);
    hide Distance;
    assert x == "" ==> p + x == p;
    assert y == "" ==> p + y == p;
    if x != "" && y != "" {
      var x', y', c, d := x[..|x| - 1], y[..|y| - 1], x[|x| - 1], y[|y| - 1];
      assert x == x' + [c] && y == y' + [d] && p + x == (p + x') + [c] && p + y == (p + y') + [d];
      CommonPrefix(p, x', y);
      CommonPrefix(p, x, y');
      CommonPrefix(p, x', y');
      DistanceStep(x', c, y', d);
      DistanceStep(p + x', c, p + y', d);
    } else if y != "" {
      var y' := y[..|y| - 1];
      assert p + y == (p + y') + [y[|y| - 1]];
      CommonPrefix(p, x, y');
      DistanceFromEmpty(y');
      OneMore(p, p + y', y[|y| - 1]);
    } else if x != "" {
      var x' := x[..|x| - 1];
      assert p + x == (p + x') + [x[|x| - 1]];
      CommonPrefix(p, x', y);
      DistanceFromEmpty(x');
      OneMore(p, p + x', x[|x| - 1]);
    }
  }

  lemma DistanceFromEmpty(a: string)
    ensures Distance("", a) == |a| == Distance(a, "")
  {
  }

  lemma {:induction false} CommonSuffix(x: string, y: string, q: string)
    ensures Distance(x + q, y + q) <= Distance(x, y)
    decreases |q|
  {
    if q == "" {
      assert x + q == x && y + q == y;
    } else {
      var q' := q[..|q| - 1];
      CommonSuffix(x, y, q');
      assert (x + q)[..|x + q| - 1] == x + q' && (y + q)[..|y + q| - 1] == y + q';
    }
  }

  lemma Infix(p: string, x: string, y: string, q: string)
    ensures Distance(p + x + q, p + y + q) <= Distance(x, y)
  {
    CommonSuffix(p + x, p + y, q);
    CommonPrefix(p, x, y);
  }

  lemma OneEditCostsOne(a: string, b: string)
    requires OneEdit(a, b)
    ensures Distance(a, b) <= 1
  {
    hide Distance;
    var i: nat :| OneEditAt(a, b, i);
    ShortDistances(if i < |a| then [a[i]] else "", if i < |b| then [b[i]] else "");
    if i < |b| && a == b[..i] + b[i + 1..] {
      Infix(b[..i], "", [b[i]], b[i + 1..]);
      assert a == b[..i] + "" + b[i + 1..] && b == b[..i] + [b[i]] + b[i + 1..];
    } else if i < |a| && b == a[..i] + a[i + 1..] {
      Infix(a[..i], [a[i]], "", a[i + 1..]);
      assert b == a[..i] + "" + a[i + 1..] && a == a[..i] + [a[i]] + a[i + 1..];
    } else {
      Infix(a[..i], [a[i]], [b[i]], a[i + 1..]);
      assert a == a[..i] + [a[i]] + a[i + 1..] && b == b[..i] + [b[i]] + b[i + 1..];
    }
  }

  lemma ShortDistances(x: string, y: string)
    requires |x| <= 1 && |y| <= 1
    ensures Distance(x, y) <= 1 && Distance("", y) <= 1 && Distance(x, "") <= 1
  {
  }

  /** No path of edits is shorter than the distance. */
  lemma {:induction false} PathsAreNoShorter(path: seq<string>, a: string, b: string)
    requires IsPath(path, a, b)
    ensures Distance(a, b) <= |path| - 1
    decreases |path|
  {
    hide Distance;
    if |path| == 1 {
      SelfDistance(a);
    } else {
      assert OneEdit(path[0], path[1]);
      OneEditCostsOne(a, path[1]);
      PathsAreNoShorter(path[1..], path[1], b);
      Triangle(a, path[1], b);
    }
  }

  lemma PathThenEdit(path: seq<string>, a: string, b: string, c: string)
    requires IsPath(path, a, b) && OneEdit(b, c)
    ensures IsPath(path + [c], a, c)
  {
    var whole := path + [c];
    forall k | 0 <= k < |whole| - 1 ensures OneEdit(whole[k], whole[k + 1]) {
      if k == |path| - 1 {
        assert whole[k] == b && whole[k + 1] == c;
      } else {
        assert whole[k] == path[k] && whole[k + 1] == path[k + 1];
      }
    }
  }

  lemma EditThenPath(a: string, b: string, path: seq<string>, c: string)
    requires OneEdit(a, b) && IsPath(path, b, c)
    ensures IsPath([a] + path, a, c)
  {
    var whole := [a] + path;
    forall k | 0 <= k < |whole| - 1 ensures OneEdit(whole[k], whole[k + 1]) {
      if k > 0 {
        assert whole[k] == path[k - 1] && whole[k + 1] == path[k];
      }
    }
  }

  /** A path stays a path when every string on it gets the same last character. */
  lemma AppendedPath(path: seq<string>, a: string, b: string, x: char) returns (longer: seq<string>)
    requires IsPath(path, a, b)
    ensures |longer| == |path| && IsPath(longer, a + [x], b + [x])
  {
    longer := seq(|path|, k requires 0 <= k < |path| => path[k] + [x]);
    forall k | 0 <= k < |longer| - 1 ensures OneEdit(longer[k], longer[k + 1]) {
      assert OneEdit(path[k], path[k + 1]);
      var i: nat :| OneEditAt(path[k], path[k + 1], i);
      AppendedEdit(path[k], path[k + 1], i, x);
    }
  }

  lemma AppendedEdit(a: string, b: string, i: nat, x: char)
    requires OneEditAt(a, b, i)
    ensures OneEditAt(a + [x], b + [x], i)
  {
    if i < |b| && a == b[..i] + b[i + 1..] {
      assert (b + [x])[..i] + (b + [x])[i + 1..] == b[..i] + b[i + 1..] + [x];
    } else if i < |a| && b == a[..i] + a[i + 1..] {
      assert (a + [x])[..i] + (a + [x])[i + 1..] == a[..i] + a[i + 1..] + [x];
    } else {
      assert (a + [x])[..i] == (b + [x])[..i];
      assert (a + [x])[i + 1..] == a[i + 1..] + [x] && (b + [x])[i + 1..] == b[i + 1..] + [x];
    }
  }

  lemma DropLast(a: string)
    requires a != ""
    ensures OneEdit(a, a[..|a| - 1]) && OneEdit(a[..|a| - 1], a)
  {
    var i := |a| - 1;
    assert a[..i] == a[..i] + a[i + 1..];
    assert OneEditAt(a, a[..i], i) && OneEditAt(a[..i], a, i);
  }

  lemma ReplaceLast(a: string, x: char, y: char)
    ensures OneEdit(a + [x], a + [y])
  {
    var u, v := a + [x], a + [y];
    assert u[..|a|] == v[..|a|] && u[|a| + 1..] == v[|a| + 1..];
    assert OneEditAt(u, v, |a|);
  }

  lemma {:induction false} ShortestPath(a: string, b: string) returns (path: seq<string>)
    ensures IsPath(path, a, b) && |path| == Distance(a, b) + 1
    decreases |a| + |b|
  {
    if a == "" && b == "" {
      path := [""];
    } else if b == "" || (a != "" && Distance(a, b) == Distance(a[..|a| - 1], b) + 1) {
      var a' := a[..|a| - 1];
      path := ShortestPath(a', b);
      DropLast(a);
      EditThenPath(a, a', path, b);
      path := [a] + path;
    } else if a == "" || Distance(a, b) == Distance(a, b[..|b| - 1]) + 1 {
      var b' := b[..|b| - 1];
      path := ShortestPath(a, b');
      DropLast(b);
      PathThenEdit(path, a, b', b);
      path := path + [b];
    } else {
      var a', b', x, y := a[..|a| - 1], b[..|b| - 1], a[|a| - 1], b[|b| - 1];
      assert a == a' + [x] && b == b' + [y];
      assert Distance(a, b) == Distance(a', b') + Cost(x, y);
      path := ShortestPath(a', b');
      path := AppendedPath(path, a', b', x);
      if x != y {
        ReplaceLast(b', x, y);
        PathThenEdit(path, a, b' + [x], b);
        path := path + [b];
      }
    }
  }

  /** The distance is exactly the least number of single-character edits that turn `a` into `b`. */
  lemma DistanceIsShortestEditPath(a: string, b: string)
    ensures exists path :: IsPath(path, a, b) && |path| == Distance(a, b) + 1
    ensures forall path :: IsPath(path, a, b) ==> |path| >= Distance(a, b) + 1
  {
    hide Distance;
    var shortest := ShortestPath(a, b);
    forall path | IsPath(path, a, b) ensures |path| >= Distance(a, b) + 1 {
      PathsAreNoShorter(path, a, b);
    }
  }
}
