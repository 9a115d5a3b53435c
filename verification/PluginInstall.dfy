/** Committing a prepared plugin tree to its install path, with the old install kept aside until the new
    one is in place. */
module PluginInstall {
  import opened Disk
  import opened Options

  /** How a commit ends: done, or the error returned. */
  datatype Outcome = Done | ParentFailed | StageFailed | ReplaceFailed | RestoreFailed

  function BackupPath(tempRoot: Path, stamp: string): Path {
    tempRoot + ["backup-" + stamp]
  }

  /** A commit of which every step is carried out when no fault occurs. */
  predicate CanCommit(d: Image, prepared: Path, install: Path, backup: Path)
    requires install != []
  {
    && DirsPossible(d, Parent(install))
    && (install in d ==> CanRename(WithDirs(d, Parent(install), |Parent(install)|), install, backup))
    && prepared in d
  }

  /** Trees apart from the three paths of a commit are the same on both disks. */
  ghost predicate OthersKept(d: Image, e: Image, prepared: Path, install: Path, backup: Path) {
    forall p | Apart(p, prepared) && Apart(p, install) && Apart(p, backup) :: Found(e, p) == Found(d, p)
  }

  // ----- The steps of a commit, seen at the paths that matter

  lemma ParentsStep(d: Image, prepared: Path, install: Path, backup: Path, fault: Fault)
    requires Apart(prepared, install)
    ensures install != []
    ensures var e := CreateDirAllStep(d, Parent(install), fault).1;
            && OthersKept(d, e, prepared, install, backup)
            && Found(e, install) == Found(d, install) && Found(e, prepared) == Found(d, prepared)
            && (install in e <==> install in d)
            && (CreateDirAllStep(d, Parent(install), fault).0 ==>
                  Parent(install) in e && e[Parent(install)] == Dir && e == WithDirs(d, Parent(install), |install| - 1)
                  && DirsPossible(d, Parent(install)))
            && (fault == Fine && DirsPossible(d, Parent(install)) ==> CreateDirAllStep(d, Parent(install), fault).0)
  {
    FoundIs(d, install);
    FoundIs(CreateDirAllStep(d, Parent(install), fault).1, install);
    var up := Parent(install);
    assert up[..|up|] == up;
    forall upTo: nat, p | p == install || Apart(p, install)
      ensures Found(WithDirs(d, Parent(install), upTo), p) == Found(d, p)
    {
      WithDirsElsewhere(d, install, upTo, p);
    }
  }

  lemma WithDirsElsewhere(d: Image, install: Path, upTo: nat, p: Path)
    requires install != [] && (p == install || Apart(p, install))
    ensures Found(WithDirs(d, Parent(install), upTo), p) == Found(d, p)
  {
    var up := Parent(install);
    forall k | 0 <= k <= |up| ensures !Under(p, up[..k]) {
      AbovePrefix(p, install, k);
      assert up[..k] == install[..k];
    }
    SameTree(WithDirs(d, up, upTo), d, p);
  }

  lemma AbovePrefix(p: Path, q: Path, k: nat)
    requires k <= |q|
    ensures Under(p, q[..k]) ==> Under(p, q) && |p| <= k
  {
  }

  /** A rename among the three paths. */
  lemma RenameKeepsOthers(before: Image, d: Image, from: Path, to: Path, fault: Fault,
                          prepared: Path, install: Path, backup: Path)
    requires from in [prepared, install, backup] && to in [prepared, install, backup]
    requires OthersKept(before, d, prepared, install, backup)
    ensures OthersKept(before, RenameStep(d, from, to, fault).1, prepared, install, backup)
  {
    hide Found, Moved, CanRename, Apart;
    forall p | Apart(p, prepared) && Apart(p, install) && Apart(p, backup)
      ensures Found(RenameStep(d, from, to, fault).1, p) == Found(d, p)
    {
      ApartSwap(p, from);
      ApartSwap(p, to);
      MovedElsewhere(d, from, to, p);
    }
  }

  lemma ApartSwap(p: Path, q: Path)
    ensures Apart(p, q) == Apart(q, p)
  {
  }

  lemma RemoveKeepsOthers(before: Image, d: Image, p: Path, fault: Fault, prepared: Path, install: Path, backup: Path)
    requires p in [prepared, install, backup]
    requires OthersKept(before, d, prepared, install, backup)
    ensures OthersKept(before, RemoveStep(d, p, fault).1, prepared, install, backup)
  {
    hide Found, RemoveStep, Apart;
    forall q | Apart(q, prepared) && Apart(q, install) && Apart(q, backup)
      ensures Found(RemoveStep(d, p, fault).1, q) == Found(d, q)
    {
      ApartSwap(q, p);
      RemoveKeeps(d, p, fault, q);
    }
  }

  lemma RenameKeeps(d: Image, from: Path, to: Path, fault: Fault, q: Path)
    requires Apart(from, q) && Apart(to, q)
    ensures Found(RenameStep(d, from, to, fault).1, q) == Found(d, q)
  {
    hide Found, Moved, CanRename, Apart;
    MovedElsewhere(d, from, to, q);
  }

  /** A rename that does not happen changes nothing; without a fault it is one the system refuses. */
  lemma RenameStepFails(d: Image, from: Path, to: Path, fault: Fault)
    requires !RenameStep(d, from, to, fault).0
    ensures RenameStep(d, from, to, fault).1 == d && (fault == Fine ==> !CanRename(d, from, to))
  {
  }

  lemma RenameStepWorks(d: Image, from: Path, to: Path, fault: Fault)
    requires RenameStep(d, from, to, fault).0
    ensures var e := RenameStep(d, from, to, fault).1;
            && fault == Fine && CanRename(d, from, to) && from in d && Found(d, from).Some?
            && Found(e, to) == Found(d, from) && Found(e, from) == None && from !in e && to in e && e[to] == d[from]
            && Apart(from, to)
            && (from != [] && Parent(from) in d ==> Parent(from) in e && e[Parent(from)] == d[Parent(from)])
  {
    hide Placed, Without, TreeAt;
    MovedTree(d, from, to);
    FoundIs(d, from);
    FoundIs(d, to);
    FoundIs(Moved(d, from, to), to);
    FoundIs(Moved(d, from, to), from);
    if from != [] && Parent(from) in d {
      ParentKept(d, from, to);
    }
  }

  lemma ParentKept(d: Image, from: Path, to: Path)
    requires Apart(from, to) && from != [] && Parent(from) in d
    ensures Parent(from) in Moved(d, from, to) && Moved(d, from, to)[Parent(from)] == d[Parent(from)]
  {
    hide Placed, TreeAt;
    var up := Parent(from);
    if Under(to, up) {
      UnderTrans(to, up, from);
    }
    PlacedOutside(Without(d, from), to, TreeAt(d, from));
  }

  lemma ReplaceReady(before: Image, aside: Image, prepared: Path, install: Path)
    requires Apart(prepared, install) && Found(aside, prepared) == Found(before, prepared)
    requires install != [] && install !in aside && Parent(install) in aside && aside[Parent(install)] == Dir
    ensures prepared in before ==> CanRename(aside, prepared, install)
  {
    SameNode(aside, before, prepared);
  }

  lemma BackupRemoved(d: Image, backup: Path, fault: Fault)
    ensures fault == Fine && backup in d && d[backup] == Dir ==> backup !in RemoveStep(d, backup, fault).1
  {
  }

  /** Whatever steps fail: on success the prepared tree is the install; on failure the old install is
      untouched or back in place, and only when bringing it back fails too it lies whole at the backup
      path. Trees apart from the three paths never change. */
  method CommitPreparedInstall(disk: Device, prepared: Path, install: Path, tempRoot: Path, stamp: string)
    returns (outcome: Outcome)
    requires Apart(prepared, install) && Apart(prepared, BackupPath(tempRoot, stamp))
    requires install != BackupPath(tempRoot, stamp)
    modifies disk
    ensures outcome.Done? ==>
              && Found(old(disk.nodes), prepared).Some?
              && Found(disk.nodes, install) == Found(old(disk.nodes), prepared)
              && Found(disk.nodes, prepared) == None
    ensures outcome.ParentFailed? || outcome.StageFailed? || outcome.ReplaceFailed? ==>
              Found(disk.nodes, install) == Found(old(disk.nodes), install)
    ensures outcome.ParentFailed? || outcome.StageFailed? ==>
              Found(disk.nodes, prepared) == Found(old(disk.nodes), prepared)
    ensures outcome.RestoreFailed? ==>
              && Found(old(disk.nodes), install).Some? && Found(disk.nodes, install) == None
              && Found(disk.nodes, BackupPath(tempRoot, stamp)) == Found(old(disk.nodes), install)
    ensures OthersKept(old(disk.nodes), disk.nodes, prepared, install, BackupPath(tempRoot, stamp))
    ensures old(disk.faults) == [] ==>
              (outcome.Done? <==> CanCommit(old(disk.nodes), prepared, install, BackupPath(tempRoot, stamp)))
    ensures old(disk.faults) == [] && outcome.Done? && install in old(disk.nodes) && old(disk.nodes)[install] == Dir ==>
              BackupPath(tempRoot, stamp) !in disk.nodes
  {
    hide Found, OthersKept, CanRename, DirsPossible, RenameStep, RemoveStep, CreateDirAllStep, Apart;
    var backup := BackupPath(tempRoot, stamp);
    ghost var before := disk.nodes;
    ParentsStep(before, prepared, install, backup, Head(disk.faults));
    var made := disk.CreateDirAll(Parent(install));
    if !made {
      return ParentFailed;
    }
    ghost var ready := disk.nodes;

    var staged := install in disk.nodes;
    if staged {
      RenameKeepsOthers(before, ready, install, backup, Head(disk.faults), prepared, install, backup);
      ApartSwap(prepared, install);
      ApartSwap(prepared, backup);
      RenameKeeps(ready, install, backup, Head(disk.faults), prepared);
      ghost var fault := Head(disk.faults);
      var ok := disk.Rename(install, backup);
      if !ok {
        RenameStepFails(ready, install, backup, fault);
        return StageFailed;
      }
      RenameStepWorks(ready, install, backup, fault);
    }
    ghost var aside := disk.nodes;

    RenameKeepsOthers(before, aside, prepared, install, Head(disk.faults), prepared, install, backup);
    ghost var fault := Head(disk.faults);
    var replaced := disk.Rename(prepared, install);
    if !replaced {
      RenameStepFails(aside, prepared, install, fault);
      ReplaceReady(before, aside, prepared, install);
      RemoveKeepsOthers(before, aside, prepared, Head(disk.faults), prepared, install, backup);
      RemoveKeeps(aside, prepared, Head(disk.faults), install);
      RemoveKeeps(aside, prepared, Head(disk.faults), backup);
      var _ := disk.RemoveDirAll(prepared);
      if staged {
        ghost var cleared, last := disk.nodes, Head(disk.faults);
        RenameKeepsOthers(before, cleared, backup, install, last, prepared, install, backup);
        var restored := disk.Rename(backup, install);
        if !restored {
          RenameStepFails(cleared, backup, install, last);
          return RestoreFailed;
        }
        RenameStepWorks(cleared, backup, install, last);
      }
      return ReplaceFailed;
    }
    RenameStepWorks(aside, prepared, install, fault);
    SameNode(before, aside, prepared);

    if staged {
      ghost var placed, last := disk.nodes, Head(disk.faults);
      ApartSwap(install, backup);
      RenameKeeps(aside, prepared, install, fault, backup);
      SameNode(before, ready, install);
      SameNode(aside, placed, backup);
      BackupRemoved(placed, backup, last);
      RemoveKeepsOthers(before, placed, backup, last, prepared, install, backup);
      RemoveKeeps(placed, backup, last, install);
      RemoveKeeps(placed, backup, last, prepared);
      var _ := disk.RemoveDirAll(backup);
    }
    return Done;
  }
}
