/** First occurrences of a pattern, as `str::find` and `windows(n).position(..)` compute them. */
module Search {
  import opened Options

  predicate OccursAt<T(==)>(s: seq<T>, pat: seq<T>, i: nat) {
    i + |pat| <= |s| && s[i..i + |pat|] == pat
  }

  predicate Contains<T(==)>(s: seq<T>, pat: seq<T>) {
    Find(s, pat).Some?
  }

  function Find<T(==)>(s: seq<T>, pat: seq<T>): (r: Option<nat>)
    ensures r.Some? ==> OccursAt(s, pat, r.value) && forall j :: 0 <= j < r.value ==> !OccursAt(s, pat, j)
    ensures r.None? ==> forall j: nat :: !OccursAt(s, pat, j)
  {
    FindFrom(s, pat, 0)
  }

  function FindFrom<T(==)>(s: seq<T>, pat: seq<T>, from: nat): (r: Option<nat>)
    ensures r.Some? ==> from <= r.value && OccursAt(s, pat, r.value)
                        && forall j :: from <= j < r.value ==> !OccursAt(s, pat, j)
    ensures r.None? ==> forall j :: from <= j ==> !OccursAt(s, pat, j)
    decreases |s| - from
  {
    if OccursAt(s, pat, from) then Some(from)
    else if from >= |s| then None
    else FindFrom(s, pat, from + 1)
  }

  /** `Find` is determined by being the first occurrence. */
  lemma FindIs<T>(s: seq<T>, pat: seq<T>, i: nat)
    requires OccursAt(s, pat, i) && forall j :: 0 <= j < i ==> !OccursAt(s, pat, j)
    ensures Find(s, pat) == Some(i)
  {
    var r := Find(s, pat);
    assert r.Some?;
  }

  /** An occurrence inside `a` is one of `a + b` at the same place. */
  lemma OccursInPrefix<T>(a: seq<T>, b: seq<T>, pat: seq<T>, i: nat)
    requires i + |pat| <= |a|
    ensures OccursAt(a + b, pat, i) <==> OccursAt(a, pat, i)
  {
    assert (a + b)[i..i + |pat|] == a[i..i + |pat|];
  }

  lemma OccursInSuffix<T>(s: seq<T>, k: nat, pat: seq<T>, i: nat)
    requires k <= |s|
    ensures OccursAt(s[k..], pat, i) <==> OccursAt(s, pat, k + i)
  {
    if k + i + |pat| <= |s| {
      assert s[k..][i..i + |pat|] == s[k + i..k + i + |pat|];
    }
  }

  /** The first occurrence in `a` stays the first when text is appended. */
  lemma FindStable<T>(a: seq<T>, b: seq<T>, pat: seq<T>)
    requires Find(a, pat).Some?
    ensures Find(a + b, pat) == Find(a, pat)
  {
    var i := Find(a, pat).value;
    OccursInPrefix(a, b, pat, i);
    forall j | 0 <= j < i ensures !OccursAt(a + b, pat, j) {
      OccursInPrefix(a, b, pat, j);
    }
    FindIs(a + b, pat, i);
  }
}
