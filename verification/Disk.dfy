/** A disk as the directories and files on it, changed by steps that may fail half way. */
module Disk {
  import opened Options

  type Path = seq<string>

  datatype Node = Dir | File(content: string)

  /** Every node by its path; also a tree on its own, by paths relative to its top. */
  type Image = map<Path, Node>

  /** `q` is `p` or lies below it. */
  predicate Under(p: Path, q: Path) {
    p <= q
  }

  /** Neither path lies below the other. */
  predicate Apart(p: Path, q: Path) {
    !Under(p, q) && !Under(q, p)
  }

  function Parent(p: Path): Path
    requires p != []
  {
    p[..|p| - 1]
  }

  /** The tree at `p`, empty when nothing is there. */
  function TreeAt(d: Image, p: Path): Image {
    var below := set q | q in d && Under(p, q) :: q[|p|..];
    map r | r in below && p + r in d :: d[p + r]
  }

  /** `Some` tree when something is at `p`. */
  function Found(d: Image, p: Path): Option<Image> {
    if p in d then Some(TreeAt(d, p)) else None
  }

  function Without(d: Image, p: Path): Image {
    map q | q in d && !Under(p, q) :: d[q]
  }

  /** Both disks have the same at `p`. */
  ghost predicate SameAt(d: Image, e: Image, p: Path) {
    (p in d <==> p in e) && TreeAt(d, p) == TreeAt(e, p)
  }

  /** Putting a tree at `p`, in place of what is there. */
  function Placed(d: Image, p: Path, tree: Image): Image {
    var added := set r | r in tree :: p + r;
    map q | q in d.Keys + added && (if Under(p, q) then q[|p|..] in tree else q in d)
      :: if Under(p, q) then tree[q[|p|..]] else d[q]
  }

  function Moved(d: Image, from: Path, to: Path): Image {
    Placed(Without(d, from), to, TreeAt(d, from))
  }

  /** A directory without content. */
  const EMPTY_DIR: Image := map[[] := Dir]

  /** Whether the system lets `from` be renamed to `to`. */
  predicate CanRename(d: Image, from: Path, to: Path) {
    && from in d && to != [] && Parent(to) in d && d[Parent(to)] == Dir
    && Apart(from, to)
    && (to !in d || TreeAt(d, to) == EMPTY_DIR)
  }

  /** No file stands where `p` or a directory above it should be. */
  predicate DirsPossible(d: Image, p: Path) {
    forall k :: 0 <= k <= |p| && p[..k] in d ==> d[p[..k]] == Dir
  }

  /** Creating the directories above and at `p`, those no longer than `upTo`. */
  function WithDirs(d: Image, p: Path, upTo: nat): Image {
    var wanted := set k | 0 <= k <= |p| && k <= upTo :: p[..k];
    map q | q in d.Keys + wanted :: if q in d then d[q] else Dir
  }

  // ----- Steps that may fail

  /** What goes wrong in a step: nothing, or the step stops half way, a removal having left the nodes
      `kept`, a creation of directories having made those no longer than `made`, the writing of a file having
      come as far as `written` says. */
  datatype Fault = Fine | Fails(kept: set<Path>, made: nat, written: Written)

  datatype Written = Untouched | Emptied | CutOff

  function CreateDirAllStep(d: Image, p: Path, fault: Fault): (bool, Image) {
    if !DirsPossible(d, p) then (false, d)
    else if fault.Fails? then (false, WithDirs(d, p, fault.made))
    else (true, WithDirs(d, p, |p|))
  }

  function RenameStep(d: Image, from: Path, to: Path, fault: Fault): (bool, Image) {
    if fault.Fails? || !CanRename(d, from, to) then (false, d) else (true, Moved(d, from, to))
  }

  function RemoveStep(d: Image, p: Path, fault: Fault): (bool, Image) {
    if p !in d || d[p] != Dir then (false, d)
    else if fault.Fails? then (false, map q | q in d && (Under(p, q) ==> q in fault.kept) :: d[q])
    else (true, Without(d, p))
  }

  /** Copying a directory; one that stops half way has written part of the tree. */
  function CopyStep(d: Image, from: Path, to: Path, fault: Fault): (bool, Image) {
    var tree := TreeAt(d, from);
    if from !in d || d[from] != Dir || !DirsPossible(d, to) then (false, d)
    else
      var merged := WithDirs(d, to, |to|);
      var whole := Overlaid(merged, to, tree);
      if fault.Fails? then
        (false, Overlaid(WithDirs(d, to, fault.made), to, map r | r in tree && r in fault.kept :: tree[r]))
      else (true, whole)
  }

  /** Adding the nodes of a tree at `p` to those already there. */
  function Overlaid(d: Image, p: Path, tree: Image): Image {
    var added := set r | r in tree :: p + r;
    assert forall r | r in tree :: (p + r)[|p|..] == r;
    map q | q in d.Keys + added :: if q in added then tree[q[|p|..]] else d[q]
  }

  class Device {
    var nodes: Image
    /** The faults of the coming steps, in order; none once the list is used up. */
    var faults: seq<Fault>

    constructor (nodes: Image, faults: seq<Fault>)
      ensures this.nodes == nodes && this.faults == faults
    {
      this.nodes, this.faults := nodes, faults;
    }

    method NextFault() returns (fault: Fault)
      modifies this`faults
      ensures fault == Head(old(faults)) && faults == Tail(old(faults))
    {
      fault := Head(faults);
      faults := Tail(faults);
    }

    method CreateDirAll(p: Path) returns (ok: bool)
      modifies this
      ensures (ok, nodes) == CreateDirAllStep(old(nodes), p, Head(old(faults))) && faults == Tail(old(faults))
    {
      var fault := NextFault();
      var (done, after) := CreateDirAllStep(nodes, p, fault);
      ok, nodes := done, after;
    }

    method Rename(from: Path, to: Path) returns (ok: bool)
      modifies this
      ensures (ok, nodes) == RenameStep(old(nodes), from, to, Head(old(faults))) && faults == Tail(old(faults))
    {
      var fault := NextFault();
      var (done, after) := RenameStep(nodes, from, to, fault);
      ok, nodes := done, after;
    }

    method RemoveDirAll(p: Path) returns (ok: bool)
      modifies this
      ensures (ok, nodes) == RemoveStep(old(nodes), p, Head(old(faults))) && faults == Tail(old(faults))
    {
      var fault := NextFault();
      var (done, after) := RemoveStep(nodes, p, fault);
      ok, nodes := done, after;
    }

    method CopyDirAll(from: Path, to: Path) returns (ok: bool)
      modifies this
      ensures (ok, nodes) == CopyStep(old(nodes), from, to, Head(old(faults))) && faults == Tail(old(faults))
    {
      var fault := NextFault();
      var (done, after) := CopyStep(nodes, from, to, fault);
      ok, nodes := done, after;
    }
  }

  function Head(faults: seq<Fault>): Fault {
    if faults == [] then Fine else faults[0]
  }

  function Tail(faults: seq<Fault>): seq<Fault> {
    if faults == [] then [] else faults[1..]
  }

  // ----- What the steps do elsewhere

  lemma TreeAtIs(d: Image, p: Path, r: Path)
    ensures r in TreeAt(d, p) <==> p + r in d
    ensures p + r in d ==> TreeAt(d, p)[r] == d[p + r]
  {
    assert (p + r)[|p|..] == r;
    if p + r in d {
      assert Under(p, p + r);
    }
  }

  /** A placed tree is there, and paths apart from it are untouched. */
  lemma PlacedTree(d: Image, p: Path, tree: Image)
    ensures TreeAt(Placed(d, p, tree), p) == tree
    ensures p in Placed(d, p, tree) <==> [] in tree
  {
    var e := Placed(d, p, tree);
    forall r: Path ensures p + r in e <==> r in tree
                   ensures r in tree ==> e[p + r] == tree[r] {
      assert (p + r)[|p|..] == r;
      if r in tree {
        assert p + r in set x | x in tree :: p + x;
      }
    }
    assert TreeAt(e, p).Keys == tree.Keys by {
      forall r: Path ensures r in TreeAt(e, p) <==> r in tree {
        TreeAtIs(e, p, r);
      }
    }
    forall r | r in tree ensures TreeAt(e, p)[r] == tree[r] {
      TreeAtIs(e, p, r);
    }
    assert p + [] == p;
  }

  /** Two disks that agree at and below a path have the same tree there. */
  lemma SameTree(d: Image, e: Image, p: Path)
    requires forall q :: Under(p, q) ==> (q in d <==> q in e)
    requires forall q :: Under(p, q) && q in d ==> d[q] == e[q]
    ensures SameAt(d, e, p) && Found(d, p) == Found(e, p)
  {
    forall r: Path ensures r in TreeAt(d, p) <==> r in TreeAt(e, p)
                   ensures r in TreeAt(d, p) ==> TreeAt(d, p)[r] == TreeAt(e, p)[r] {
      TreeAtIs(d, p, r);
      TreeAtIs(e, p, r);
      assert Under(p, p + r);
    }
  }

  /** Two paths with a common path below them lie one below the other. */
  lemma Comparable(p: Path, q: Path, x: Path)
    requires Under(p, x) && Under(q, x)
    ensures Under(p, q) || Under(q, p)
  {
    if |p| <= |q| {
      assert q[..|p|] == x[..|q|][..|p|] == x[..|p|];
    } else {
      assert p[..|q|] == x[..|p|][..|q|] == x[..|q|];
    }
  }

  lemma BelowApart(p: Path, q: Path, x: Path)
    requires Apart(p, q) && Under(q, x)
    ensures !Under(p, x)
  {
    if Under(p, x) {
      Comparable(p, q, x);
    }
  }

  lemma PlacedElsewhere(d: Image, p: Path, tree: Image, q: Path)
    requires Apart(p, q)
    ensures TreeAt(Placed(d, p, tree), q) == TreeAt(d, q) && Found(Placed(d, p, tree), q) == Found(d, q)
  {
    forall x | Under(q, x) ensures !Under(p, x) {
      BelowApart(p, q, x);
    }
    PlacedOutside(d, p, tree);
    SameTree(Placed(d, p, tree), d, q);
  }

  lemma PlacedOutside(d: Image, p: Path, tree: Image)
    ensures forall x :: !Under(p, x) ==> (x in Placed(d, p, tree) <==> x in d)
    ensures forall x :: !Under(p, x) && x in d ==> Placed(d, p, tree)[x] == d[x]
  {
    forall x | !Under(p, x) ensures x in Placed(d, p, tree) <==> x in d {
      forall r | r in tree ensures p + r != x {
        assert Under(p, p + r);
      }
    }
  }

  lemma WithoutElsewhere(d: Image, p: Path, q: Path)
    requires Apart(p, q)
    ensures TreeAt(Without(d, p), q) == TreeAt(d, q) && Found(Without(d, p), q) == Found(d, q)
  {
    forall x | Under(q, x) ensures !Under(p, x) {
      BelowApart(p, q, x);
    }
    SameTree(Without(d, p), d, q);
  }

  /** A moved tree is whole at its new place and gone from the old one. */
  lemma MovedTree(d: Image, from: Path, to: Path)
    requires from in d && Apart(from, to)
    ensures Found(Moved(d, from, to), to) == Found(d, from)
    ensures Found(Moved(d, from, to), from) == None
  {
    PlacedTree(Without(d, from), to, TreeAt(d, from));
    TreeAtIs(d, from, []);
    assert from + [] == from;
    PlacedElsewhere(Without(d, from), to, TreeAt(d, from), from);
  }

  lemma MovedElsewhere(d: Image, from: Path, to: Path, q: Path)
    requires Apart(from, q) && Apart(to, q)
    ensures Found(Moved(d, from, to), q) == Found(d, q)
  {
    PlacedElsewhere(Without(d, from), to, TreeAt(d, from), q);
    WithoutElsewhere(d, from, q);
  }

  lemma UnderTrans(p: Path, q: Path, r: Path)
    requires Under(p, q) && Under(q, r)
    ensures Under(p, r)
  {
  }

  lemma RemoveKeeps(d: Image, p: Path, fault: Fault, q: Path)
    requires Apart(p, q)
    ensures SameAt(d, RemoveStep(d, p, fault).1, q) && Found(RemoveStep(d, p, fault).1, q) == Found(d, q)
  {
    var e := RemoveStep(d, p, fault).1;
    forall x | Under(q, x) ensures !Under(p, x) {
      BelowApart(p, q, x);
    }
    SameTree(d, e, q);
  }

  lemma FoundIs(d: Image, p: Path)
    ensures p in d <==> Found(d, p).Some?
    ensures p in d ==> [] in Found(d, p).value && Found(d, p).value[[]] == d[p]
  {
    TreeAtIs(d, p, []);
    assert p + [] == p;
  }

  lemma SameNode(d: Image, e: Image, p: Path)
    requires Found(d, p) == Found(e, p)
    ensures p in d <==> p in e
    ensures p in d ==> d[p] == e[p]
  {
    FoundIs(d, p);
    FoundIs(e, p);
  }

  // ----- Disks without orphans

  /** Everything lies in directories that exist. */
  ghost predicate Closed(d: Image) {
    forall q, k: nat :: q in d && k <= |q| ==> q[..k] in d
  }

  /** Nothing lies below a path that is absent. */
  lemma NothingBelow(d: Image, p: Path, q: Path)
    requires Closed(d) && p !in d && Under(p, q)
    ensures q !in d
  {
    assert q[..|p|] == p;
  }

  lemma WithoutClosed(d: Image, p: Path)
    requires Closed(d)
    ensures Closed(Without(d, p))
  {
    forall q, k: nat | q in Without(d, p) && k <= |q| ensures q[..k] in Without(d, p) {
      PrefixOutside(p, q, k);
    }
  }

  lemma PrefixOutside(p: Path, q: Path, k: nat)
    requires k <= |q| && !Under(p, q)
    ensures !Under(p, q[..k])
  {
  }

  lemma PrefixOfPrefix(q: Path, j: nat, k: nat)
    requires j <= k <= |q|
    ensures q[..k][..j] == q[..j]
  {
  }

  lemma WithDirsClosed(d: Image, p: Path, upTo: nat)
    requires Closed(d)
    ensures Closed(WithDirs(d, p, upTo))
  {
    var e := WithDirs(d, p, upTo);
    forall q, k: nat | q in e && k <= |q| ensures q[..k] in e {
      if q !in d {
        var n :| 0 <= n <= |p| && n <= upTo && q == p[..n];
        PrefixOfPrefix(p, k, n);
        assert q[..k] == p[..k];
      }
    }
  }

  lemma TreeAtClosed(d: Image, p: Path)
    requires Closed(d)
    ensures Closed(TreeAt(d, p))
  {
    forall r, k: nat | r in TreeAt(d, p) && k <= |r| ensures r[..k] in TreeAt(d, p) {
      TreeAtIs(d, p, r);
      TreeAtIs(d, p, r[..k]);
      assert (p + r)[..|p| + k] == p + r[..k];
    }
  }

  lemma OverlaidIs(d: Image, p: Path, tree: Image, q: Path)
    ensures Under(p, q) ==> (q in Overlaid(d, p, tree) <==> q in d || q[|p|..] in tree)
    ensures Under(p, q) && q[|p|..] in tree ==> Overlaid(d, p, tree)[q] == tree[q[|p|..]]
    ensures !Under(p, q) ==> (q in Overlaid(d, p, tree) <==> q in d)
    ensures q in d && !(Under(p, q) && q[|p|..] in tree) ==>
              q in Overlaid(d, p, tree) && Overlaid(d, p, tree)[q] == d[q]
  {
    var added := set r | r in tree :: p + r;
    forall r | r in tree ensures Under(p, p + r) && (p + r)[|p|..] == r {
    }
    if Under(p, q) {
      assert q == p + q[|p|..];
      assert q in added <==> q[|p|..] in tree;
    }
  }

  lemma OverlaidClosed(d: Image, p: Path, tree: Image)
    requires Closed(d) && p in d && Closed(tree)
    ensures Closed(Overlaid(d, p, tree))
  {
    hide Overlaid;
    var e := Overlaid(d, p, tree);
    forall q, k: nat | q in e && k <= |q| ensures q[..k] in e {
      OverlaidIs(d, p, tree, q);
      OverlaidIs(d, p, tree, q[..k]);
      if q !in d {
        if |p| <= k {
          assert q[..k][|p|..] == q[|p|..][..k - |p|];
        } else {
          assert q[..k] == p[..k];
        }
      }
    }
  }

  /** A copy to a place where nothing was is the tree copied. */
  lemma CopyWorks(d: Image, from: Path, to: Path, fault: Fault)
    requires Closed(d) && to !in d && CopyStep(d, from, to, fault).0
    ensures to in CopyStep(d, from, to, fault).1 && TreeAt(CopyStep(d, from, to, fault).1, to) == TreeAt(d, from)
  {
    hide Overlaid, TreeAt, WithDirs, Closed;
    var e := CopyStep(d, from, to, fault).1;
    var tree, base := TreeAt(d, from), WithDirs(d, to, |to|);
    TreeAtIs(d, from, []);
    assert from + [] == from && to + [] == to;
    forall r: Path ensures r in TreeAt(e, to) <==> r in tree
                   ensures r in tree ==> TreeAt(e, to)[r] == tree[r]
                   ensures to + r in e <==> r in tree {
      TreeAtIs(e, to, r);
      assert (to + r)[|to|..] == r && Under(to, to + r);
      OverlaidIs(base, to, tree, to + r);
      NothingBelow(d, to, to + r);
      OnlyItself(d, to, to + r);
    }
  }

  lemma OnlyItself(d: Image, p: Path, q: Path)
    requires Under(p, q) && q !in d
    ensures q in WithDirs(d, p, |p|) <==> q == p
  {
    assert p[..|p|] == p;
  }

  lemma CopyClosed(d: Image, from: Path, to: Path, fault: Fault)
    requires Closed(d)
    ensures CopyStep(d, from, to, fault).0 ==> Closed(CopyStep(d, from, to, fault).1)
  {
    hide Overlaid, TreeAt, Closed;
    WithDirsClosed(d, to, |to|);
    TreeAtClosed(d, from);
    assert to in WithDirs(d, to, |to|) by {
      assert to[..|to|] == to;
    }
    OverlaidClosed(WithDirs(d, to, |to|), to, TreeAt(d, from));
  }

  /** Whether it succeeds or not, a copy leaves alone what is apart from its target. */
  lemma CopyKeeps(d: Image, from: Path, to: Path, fault: Fault, q: Path)
    requires Apart(to, q)
    ensures SameAt(d, CopyStep(d, from, to, fault).1, q)
  {
    hide Overlaid;
    forall upTo: nat, tree: Image
      ensures SameAt(d, Overlaid(WithDirs(d, to, upTo), to, tree), q)
    {
      OverlaidKeeps(d, to, upTo, tree, q);
    }
  }

  lemma OverlaidKeeps(d: Image, to: Path, upTo: nat, tree: Image, q: Path)
    requires Apart(to, q)
    ensures SameAt(d, Overlaid(WithDirs(d, to, upTo), to, tree), q)
  {
    hide Overlaid, Found;
    var base := WithDirs(d, to, upTo);
    forall x | Under(q, x) ensures !Under(to, x) && x !in (set k | 0 <= k <= |to| && k <= upTo :: to[..k]) {
      BelowApart(to, q, x);
      forall k | 0 <= k <= |to| ensures to[..k] != x {
        NotAbove(q, to, k);
      }
      OverlaidIs(base, to, tree, x);
    }
    forall x | Under(q, x) ensures x in Overlaid(base, to, tree) <==> x in d
                           ensures x in d ==> Overlaid(base, to, tree)[x] == d[x] {
      OverlaidIs(base, to, tree, x);
    }
    SameTree(d, Overlaid(base, to, tree), q);
  }

  lemma NotAbove(p: Path, q: Path, k: nat)
    requires k <= |q| && !Under(p, q)
    ensures !Under(p, q[..k])
  {
  }
}
