/** Keeping the bundled plugins installed: the registry and the install root are brought in line with the
    plugins found under the bundled root. Reading a manifest is a function of the plugin's tree. */
module PluginSync {
  import opened Disk
  import opened Options

  datatype Kind = Builtin | Bundled | External

  datatype Manifest = Manifest(name: string, version: string, description: string)

  datatype Record = Record(kind: Kind, id: string, name: string, version: string, description: string,
                           installPath: Path, source: Path, installedAt: nat, updatedAt: nat)

  type Registry = map<string, Record>

  type Loader = Image -> Option<Manifest>

  function PluginId(name: string, marketplace: string): string {
    name + "@" + marketplace
  }

  function BundledId(manifest: Manifest): string {
    PluginId(manifest.name, "bundled")
  }

  function SanitizeChar(c: char): char {
    if c == '/' || c == '\\' || c == '@' || c == ':' then '-' else c
  }

  function Sanitize(id: string): string {
    seq(|id|, i requires 0 <= i < |id| => SanitizeChar(id[i]))
  }

  function InstallPath(root: Path, id: string): Path {
    root + [Sanitize(id)]
  }

  /** Two ids share an install path exactly when they agree up to the separators. */
  lemma SanitizeCollidesExactly(a: string, b: string)
    ensures Sanitize(a) == Sanitize(b) <==>
            |a| == |b| && forall i :: 0 <= i < |a| ==> a[i] == b[i] || (a[i] in "/\\@:-" && b[i] in "/\\@:-")
  {
    if |a| == |b| {
      forall i | 0 <= i < |a| ensures Sanitize(a)[i] == SanitizeChar(a[i]) && Sanitize(b)[i] == SanitizeChar(b[i]) {
      }
    }
  }

  /** Two different plugins can be given the same directory. */
  lemma NamesCollide()
    ensures PluginId("a/b", "bundled") != PluginId("a-b", "bundled")
    ensures Sanitize(PluginId("a/b", "bundled")) == Sanitize(PluginId("a-b", "bundled"))
  {
    var x, y := PluginId("a/b", "bundled"), PluginId("a-b", "bundled");
    assert x[1] != y[1];
    SanitizeCollidesExactly(x, y);
  }

  /** A bundled plugin is installed under its name, with its separators made plain, and "-bundled". */
  lemma InstalledUnderName(root: Path, manifest: Manifest)
    ensures InstallPath(root, BundledId(manifest)) == root + [Sanitize(manifest.name) + "-bundled"]
    ensures Sanitize(manifest.name) == manifest.name <==>
              forall i | 0 <= i < |manifest.name| :: manifest.name[i] !in ['/', '\\', '@', ':']
  {
    var id := BundledId(manifest);
    assert id == manifest.name + "@bundled";
    assert Sanitize("@bundled") == "-bundled";
    assert Sanitize(id) == Sanitize(manifest.name) + Sanitize("@bundled");
    var name := manifest.name;
    forall i | 0 <= i < |name| ensures Sanitize(name)[i] == name[i] <==> name[i] !in ['/', '\\', '@', ':'] {
    }
  }

  // ----- Being in sync

  /** `load_plugin_from_directory`. */
  function ManifestAt(d: Image, load: Loader, path: Path): Option<Manifest> {
    load(TreeAt(d, path))
  }

  ghost predicate Installed(d: Image, load: Loader, path: Path) {
    path in d && load(TreeAt(d, path)).Some?
  }

  predicate Fits(record: Record, manifest: Manifest, path: Path) {
    && record.kind == Bundled && record.name == manifest.name && record.version == manifest.version
    && record.description == manifest.description && record.installPath == path
  }

  /** A bundled plugin is recorded as its manifest says and its installed copy loads. */
  ghost predicate Ready(d: Image, registry: Registry, load: Loader, root: Path, manifest: Manifest) {
    var id := BundledId(manifest);
    id in registry && Fits(registry[id], manifest, InstallPath(root, id)) && Installed(d, load, InstallPath(root, id))
  }

  /** A record fits one manifest at most, so a plugin whose name, version or description changes is out of
      order until it is renewed. */
  lemma FitsOnlyOne(record: Record, manifest: Manifest, path: Path, other: Manifest, elsewhere: Path)
    requires Fits(record, manifest, path)
    ensures Fits(record, other, elsewhere) <==> other == manifest && elsewhere == path
  {
    assert manifest == Manifest(record.name, record.version, record.description);
  }

  /** The same for what is ready: another manifest of the same plugin is not. */
  lemma ChangedIsNotReady(d: Image, registry: Registry, load: Loader, root: Path, manifest: Manifest, other: Manifest)
    requires Ready(d, registry, load, root, manifest) && BundledId(other) == BundledId(manifest)
    ensures Ready(d, registry, load, root, other) <==> other == manifest
  {
    var id := BundledId(manifest);
    FitsOnlyOne(registry[id], manifest, InstallPath(root, id), other, InstallPath(root, id));
    hide Fits, Installed, InstallPath;
  }

  ghost predicate Active(d: Image, load: Loader, sources: seq<Path>, id: string) {
    exists s <- sources :: ManifestAt(d, load, s).Some? && id == BundledId(ManifestAt(d, load, s).value)
  }

  /** Every bundled plugin is ready and no other record claims to be bundled. */
  ghost predicate InSync(d: Image, registry: Registry, load: Loader, root: Path, sources: seq<Path>) {
    && (forall s <- sources ::
          ManifestAt(d, load, s).Some? && Ready(d, registry, load, root, ManifestAt(d, load, s).value))
    && (forall id <- registry :: registry[id].kind == Bundled ==> Active(d, load, sources, id))
  }

  /** Every record has the place that installing gives it. */
  ghost predicate Ordinary(registry: Registry, root: Path) {
    forall id <- registry :: registry[id].installPath == InstallPath(root, id)
  }

  /** No two bundled plugins have the same name. */
  ghost predicate DistinctIds(d: Image, load: Loader, sources: seq<Path>) {
    forall i, j ::
      0 <= i < j < |sources| && ManifestAt(d, load, sources[i]).Some? && ManifestAt(d, load, sources[j]).Some? ==>
      ManifestAt(d, load, sources[i]).value.name != ManifestAt(d, load, sources[j]).value.name
  }

  /** The records after a sync: those of the plugins found are bundled, and among the others those that were
      bundled are gone and the rest are as they were. */
  ghost predicate RecordsSynced(was: Registry, registry: Registry, d: Image, load: Loader, sources: seq<Path>) {
    forall id ::
      if Active(d, load, sources, id) then id in registry && registry[id].kind == Bundled
      else (id in registry <==> id in was && was[id].kind != Bundled) && (id in registry ==> registry[id] == was[id])
  }

  /** No bundled record left over from an earlier release has the install path of an active plugin. */
  ghost predicate NoStaleCollision(d: Image, registry: Registry, load: Loader, sources: seq<Path>) {
    forall stale <- registry, id ::
      (registry[stale].kind == Bundled && !Active(d, load, sources, stale) && Active(d, load, sources, id)
       ==> Sanitize(stale) != Sanitize(id))
  }

  /** Nothing changes apart from `root`. */
  ghost predicate OutsideKept(d: Image, e: Image, root: Path) {
    forall p | Apart(root, p) :: SameAt(d, e, p)
  }

  lemma OutsideKeptTrans(d: Image, e: Image, f: Image, root: Path)
    requires OutsideKept(d, e, root) && OutsideKept(e, f, root)
    ensures OutsideKept(d, f, root)
  {
  }

  lemma OutsideKeptRefl(d: Image, root: Path)
    ensures OutsideKept(d, d, root)
  {
  }

  lemma OutsideWider(d: Image, e: Image, root: Path, path: Path)
    requires Under(root, path) && OutsideKept(d, e, path)
    ensures OutsideKept(d, e, root)
  {
    hide SameAt;
    forall p | Apart(root, p) ensures Apart(path, p) {
      if Under(path, p) {
        UnderTrans(root, path, p);
      }
      if Under(p, path) {
        Comparable(p, root, path);
      }
    }
  }

  lemma RemoveKeepsOutside(d: Image, path: Path, fault: Fault)
    ensures OutsideKept(d, RemoveStep(d, path, fault).1, path)
  {
    hide SameAt;
    forall p | Apart(path, p) ensures SameAt(d, RemoveStep(d, path, fault).1, p) {
      RemoveKeeps(d, path, fault, p);
    }
  }

  lemma RemoveCloses(d: Image, path: Path, fault: Fault)
    requires Closed(d)
    ensures RemoveStep(d, path, fault).0 ==>
              Closed(RemoveStep(d, path, fault).1) && path !in RemoveStep(d, path, fault).1
  {
    hide Closed;
    WithoutClosed(d, path);
  }

  lemma OutsideIs(d: Image, e: Image, path: Path)
    requires forall p | Apart(path, p) :: SameAt(d, e, p)
    ensures OutsideKept(d, e, path)
  {
  }

  lemma ApartBelow(root: Path, p: Path, below: Path)
    requires Apart(root, p) && Under(root, below)
    ensures Apart(p, below)
  {
    if Under(below, p) {
      UnderTrans(root, below, p);
    }
    if Under(p, below) {
      Comparable(p, root, below);
    }
  }

  lemma SameTrees(d: Image, e: Image, p: Path)
    requires SameAt(d, e, p)
    ensures (p in d <==> p in e) && TreeAt(d, p) == TreeAt(e, p)
  {
  }

  lemma ApartFrom(d: Image, e: Image, path: Path, p: Path)
    requires OutsideKept(d, e, path) && Apart(p, path)
    ensures SameAt(d, e, p)
  {
  }

  // ----- What one plugin's renewal means for the others

  /** The plugins found at `found` are ready on disk `d`; their manifests are read from `before`. */
  ghost predicate AllReady(d: Image, before: Image, registry: Registry, load: Loader, root: Path, found: seq<Path>) {
    forall s <- found :: ManifestAt(before, load, s).Some?
      && Ready(d, registry, load, root, ManifestAt(before, load, s).value)
  }

  lemma IdsByName(a: Manifest, b: Manifest)
    ensures BundledId(a) == BundledId(b) <==> a.name == b.name
  {
    if BundledId(a) == BundledId(b) {
      var x, y := BundledId(a), BundledId(b);
      assert x[..|x| - 8] == a.name && y[..|y| - 8] == b.name;
    }
  }

  lemma InstallPathsApart(root: Path, a: string, b: string)
    ensures Sanitize(a) == Sanitize(b) ==> InstallPath(root, a) == InstallPath(root, b)
    ensures Sanitize(a) != Sanitize(b) ==> Apart(InstallPath(root, a), InstallPath(root, b))
  {
    var p, q := InstallPath(root, a), InstallPath(root, b);
    assert p[|root|] == Sanitize(a) && q[|root|] == Sanitize(b);
  }

  lemma InstalledSame(d: Image, e: Image, load: Loader, path: Path, p: Path)
    requires OutsideKept(d, e, path) && Apart(path, p)
    ensures Installed(d, load, p) == Installed(e, load, p)
  {
    assert SameAt(d, e, p);
  }

  /** Renewing one plugin leaves the others ready, even one that shares its install path. */
  lemma ReadyKept(d: Image, e: Image, was: Registry, registry: Registry, load: Loader, root: Path,
                  renewed: Manifest, other: Manifest)
    requires Ready(d, was, load, root, other) && Ready(e, registry, load, root, renewed)
    requires BundledId(renewed) != BundledId(other)
    requires registry == was[BundledId(renewed) := registry[BundledId(renewed)]]
    requires OutsideKept(d, e, InstallPath(root, BundledId(renewed)))
    ensures Ready(e, registry, load, root, other)
  {
    hide Installed, OutsideKept, Fits, InstallPath, BundledId;
    InstallPathsApart(root, BundledId(renewed), BundledId(other));
    if Sanitize(BundledId(renewed)) != Sanitize(BundledId(other)) {
      InstalledSame(d, e, load, InstallPath(root, BundledId(renewed)), InstallPath(root, BundledId(other)));
    }
  }

  lemma AllReadyStep(d: Image, e: Image, before: Image, was: Registry, registry: Registry, load: Loader, root: Path,
                     sources: seq<Path>, k: nat)
    requires k < |sources| && DistinctIds(before, load, sources) && ManifestAt(before, load, sources[k]).Some?
    requires AllReady(d, before, was, load, root, sources[..k])
    requires var m := ManifestAt(before, load, sources[k]).value;
             Ready(e, registry, load, root, m) && registry == was[BundledId(m) := registry[BundledId(m)]]
             && OutsideKept(d, e, InstallPath(root, BundledId(m)))
    ensures AllReady(e, before, registry, load, root, sources[..k + 1])
  {
    hide Ready, OutsideKept, ManifestAt, BundledId, InstallPath;
    var m := ManifestAt(before, load, sources[k]).value;
    forall s | s in sources[..k + 1]
      ensures ManifestAt(before, load, s).Some?
              && Ready(e, registry, load, root, ManifestAt(before, load, s).value)
    {
      var j :| 0 <= j < k + 1 && sources[j] == s;
      if j < k {
        assert s in sources[..k];
        var other := ManifestAt(before, load, s).value;
        assert ManifestAt(before, load, sources[j]).value.name != ManifestAt(before, load, sources[k]).value.name;
        IdsByName(m, other);
        ReadyKept(d, e, was, registry, load, root, m, other);
      }
    }
  }

  lemma ActiveStep(before: Image, load: Loader, sources: seq<Path>, k: nat, id: string)
    requires k < |sources| && ManifestAt(before, load, sources[k]).Some?
    ensures Active(before, load, sources[..k + 1], id) <==>
            Active(before, load, sources[..k], id) || id == BundledId(ManifestAt(before, load, sources[k]).value)
  {
    hide ManifestAt, BundledId;
    assert sources[..k + 1] == sources[..k] + [sources[k]];
  }

  lemma ActiveGrows(before: Image, load: Loader, sources: seq<Path>, k: nat, active: set<string>, id: string)
    requires k < |sources| && ManifestAt(before, load, sources[k]).Some?
    requires id == BundledId(ManifestAt(before, load, sources[k]).value)
    requires forall x :: x in active <==> Active(before, load, sources[..k], x)
    ensures forall x :: x in active + {id} <==> Active(before, load, sources[..k + 1], x)
    ensures forall s <- sources[..k + 1] :: s in sources[..k] || s == sources[k]
  {
    hide Active, ManifestAt, BundledId;
    assert sources[..k + 1] == sources[..k] + [sources[k]];
    forall x: string ensures x in active + {id} <==> Active(before, load, sources[..k + 1], x) {
      ActiveStep(before, load, sources, k, x);
    }
  }

  // ----- What removing leftovers means for the active plugins

  /** The copies of the plugins found at `found` are there, save those sharing a path with a removed id. */
  ghost predicate CopiesUnless(d: Image, before: Image, load: Loader, root: Path, found: seq<Path>, gone: set<string>) {
    forall s <- found :: ManifestAt(before, load, s).Some? &&
      var id := BundledId(ManifestAt(before, load, s).value);
      Installed(d, load, InstallPath(root, id)) == Spared(id, gone)
  }

  ghost predicate Spared(id: string, gone: set<string>) {
    forall g <- gone :: Sanitize(g) != Sanitize(id)
  }

  lemma CopiesReady(d: Image, before: Image, registry: Registry, load: Loader, root: Path, sources: seq<Path>)
    requires AllReady(d, before, registry, load, root, sources)
    ensures CopiesUnless(d, before, load, root, sources, {})
  {
  }

  lemma CopiesStep(d: Image, e: Image, before: Image, load: Loader, root: Path, found: seq<Path>,
                   gone: set<string>, id: string)
    requires CopiesUnless(d, before, load, root, found, gone)
    requires OutsideKept(d, e, InstallPath(root, id)) && InstallPath(root, id) !in e
    ensures CopiesUnless(e, before, load, root, found, gone + {id})
  {
    hide ManifestAt, BundledId, OutsideKept, Sanitize, InstallPath;
    forall s <- found
      ensures ManifestAt(before, load, s).Some? &&
              var x := BundledId(ManifestAt(before, load, s).value);
              Installed(e, load, InstallPath(root, x)) == Spared(x, gone + {id})
    {
      var x := BundledId(ManifestAt(before, load, s).value);
      InstallPathsApart(root, id, x);
      if Sanitize(id) == Sanitize(x) {
        assert id in gone + {id};
      } else {
        InstalledSame(d, e, load, InstallPath(root, id), InstallPath(root, x));
      }
    }
  }

  /** The bundled records that belong to no plugin found. */
  ghost predicate StaleAre(stale: set<string>, before: Image, registry: Registry, load: Loader, sources: seq<Path>) {
    forall id :: id in stale <==> id in registry && registry[id].kind == Bundled && !Active(before, load, sources, id)
  }

  lemma SyncedExactly(before: Image, d: Image, old_: Registry, registry: Registry, load: Loader, root: Path,
                      sources: seq<Path>, stale: set<string>)
    requires forall s <- sources ::
               ManifestAt(before, load, s).Some? && ManifestAt(d, load, s) == ManifestAt(before, load, s)
    requires forall s <- sources :: RecordFits(registry, root, ManifestAt(before, load, s).value)
    requires forall id <- registry :: registry[id].kind == Bundled ==> Active(before, load, sources, id)
    requires CopiesUnless(d, before, load, root, sources, stale) && StaleAre(stale, before, old_, load, sources)
    ensures InSync(d, registry, load, root, sources) <==> NoStaleCollision(before, old_, load, sources)
  {
    hide ManifestAt, BundledId, Sanitize, InstallPath, Installed, Fits;
    SameActive(before, d, load, sources);
    if NoStaleCollision(before, old_, load, sources) {
      forall s <- sources ensures Ready(d, registry, load, root, ManifestAt(d, load, s).value) {
        var id := BundledId(ManifestAt(before, load, s).value);
        assert Active(before, load, sources, id);
        assert Spared(id, stale);
      }
    }
    if InSync(d, registry, load, root, sources) {
      forall g <- old_, id |
        old_[g].kind == Bundled && !Active(before, load, sources, g) && Active(before, load, sources, id)
        ensures Sanitize(g) != Sanitize(id)
      {
        assert g in stale;
        var s :| s in sources && id == BundledId(ManifestAt(before, load, s).value);
        assert Ready(d, registry, load, root, ManifestAt(d, load, s).value);
        assert Spared(id, stale);
      }
    }
  }

  ghost predicate RecordFits(registry: Registry, root: Path, manifest: Manifest) {
    var id := BundledId(manifest);
    id in registry && Fits(registry[id], manifest, InstallPath(root, id))
  }

  lemma SameActive(before: Image, d: Image, load: Loader, sources: seq<Path>)
    requires forall s <- sources :: ManifestAt(d, load, s) == ManifestAt(before, load, s)
    ensures forall id :: Active(d, load, sources, id) <==> Active(before, load, sources, id)
  {
    hide ManifestAt, BundledId;
  }

  // ----- The sync

  /** The registry file: what it was last given, or only the start of that, which no longer reads. */
  datatype RegistryFile = Whole(registry: Registry) | CutShort

  class PluginManager {
    const disk: Device
    const installRoot: Path
    var stored: RegistryFile

    constructor (disk: Device, installRoot: Path, stored: RegistryFile)
      ensures this.disk == disk && this.installRoot == installRoot && this.stored == stored
    {
      this.disk, this.installRoot, this.stored := disk, installRoot, stored;
    }

    /** Writing the registry file; a failing write leaves it as it was, empty, or cut short. */
    method StoreRegistry(registry: Registry) returns (ok: bool)
      modifies this, disk`faults
      ensures ok ==> stored == Whole(registry)
      ensures !ok ==> stored in [old(stored), Whole(map[]), CutShort]
    {
      var fault := disk.NextFault();
      ok := fault == Fine;
      if ok {
        stored := Whole(registry);
      } else if fault.written == Emptied {
        stored := Whole(map[]);
      } else if fault.written == CutOff {
        stored := CutShort;
      }
    }

    /** One bundled plugin: its copy and record are renewed unless both are in order. */
    method SyncOne(source: Path, registry: Registry, load: Loader, now: nat)
      returns (ok: bool, active: string, updated: Registry, changed: bool)
      requires Closed(disk.nodes)
      modifies disk
      ensures OutsideKept(old(disk.nodes), disk.nodes, installRoot)
      ensures ok ==> Closed(disk.nodes)
      ensures ok ==> ManifestAt(old(disk.nodes), load, source).Some?
      ensures ok ==> active == BundledId(ManifestAt(old(disk.nodes), load, source).value)
      ensures ok ==> changed == !Ready(old(disk.nodes), registry, load, installRoot,
                                       ManifestAt(old(disk.nodes), load, source).value)
      ensures ok && !changed ==> updated == registry && disk.nodes == old(disk.nodes)
      ensures ok && changed ==> active in updated && updated == registry[active := updated[active]]
                                && Fits(updated[active], ManifestAt(old(disk.nodes), load, source).value,
                                        InstallPath(installRoot, active))
                                && (active in registry ==> updated[active].installedAt == registry[active].installedAt)
                                && updated[active].source == source && updated[active].id == active
                                && updated[active].updatedAt == now
                                && (active !in registry ==> updated[active].installedAt == now)
      ensures ok ==> active in updated && updated[active].kind == Bundled
                     && updated == registry[active := updated[active]]
      ensures ok && Apart(installRoot, source) ==>
                Ready(disk.nodes, updated, load, installRoot, ManifestAt(old(disk.nodes), load, source).value)
      ensures ok && changed && Apart(installRoot, source) ==>
                InstallPath(installRoot, active) in disk.nodes
                && TreeAt(disk.nodes, InstallPath(installRoot, active)) == TreeAt(old(disk.nodes), source)
      ensures ok ==> OutsideKept(old(disk.nodes), disk.nodes, InstallPath(installRoot, active))
      ensures ManifestAt(old(disk.nodes), load, source).Some?
              && Ready(old(disk.nodes), registry, load, installRoot, ManifestAt(old(disk.nodes), load, source).value)
              ==> ok && disk.faults == old(disk.faults)
    {
      hide SameAt, Closed, OutsideKept, CopyStep, RemoveStep, TreeAt, Apart;
      updated, changed, active := registry, false, "";
      ghost var before := disk.nodes;
      OutsideKeptRefl(before, installRoot);
      var loaded := ManifestAt(disk.nodes, load, source);
      if loaded.None? {
        return false, active, updated, changed;
      }
      var manifest := loaded.value;
      active := BundledId(manifest);
      var path := InstallPath(installRoot, active);
      var copyValid := path in disk.nodes && load(TreeAt(disk.nodes, path)).Some?;
      var needsSync := active !in registry || (
        var record := registry[active];
        || record.kind != Bundled || record.version != manifest.version || record.name != manifest.name
        || record.description != manifest.description || record.installPath != path
        || record.installPath !in disk.nodes || !copyValid);
      if !needsSync {
        OutsideKeptRefl(before, path);
        return true, active, updated, changed;
      }
      assert Under(installRoot, path);
      OutsideKeptRefl(before, path);
      if path in disk.nodes {
        RemoveKeepsOutside(before, path, Head(disk.faults));
        RemoveCloses(before, path, Head(disk.faults));
        OutsideWider(before, RemoveStep(before, path, Head(disk.faults)).1, installRoot, path);
        var removed := disk.RemoveDirAll(path);
        if !removed {
          return false, active, updated, changed;
        }
      }
      ghost var cleared := disk.nodes;
      ghost var copying := CopyStep(cleared, source, path, Head(disk.faults));
      ghost var after := copying.1;
      forall p | Apart(path, p) ensures SameAt(cleared, after, p) {
        CopyKeeps(cleared, source, path, Head(disk.faults), p);
      }
      OutsideIs(cleared, after, path);
      if copying.0 {
        CopyClosed(cleared, source, path, Head(disk.faults));
        CopyWorks(cleared, source, path, Head(disk.faults));
      }
      OutsideKeptTrans(before, cleared, after, path);
      OutsideWider(before, after, installRoot, path);
      if Apart(installRoot, source) {
        ApartBelow(installRoot, source, path);
        ApartFrom(before, cleared, path, source);
        SameTrees(before, cleared, source);
      }
      var copied := disk.CopyDirAll(source, path);
      if !copied {
        return false, active, updated, changed;
      }
      var installedAt := if active in registry then registry[active].installedAt else now;
      updated := registry[active := Record(Bundled, active, manifest.name, manifest.version, manifest.description,
                                           path, source, installedAt, now)];
      return true, active, updated, true;
    }

    /** Every bundled plugin in turn. */
    method SyncActive(sources: seq<Path>, registry: Registry, load: Loader, clock: nat -> nat)
      returns (ok: bool, updated: Registry, active: set<string>, changed: bool)
      requires Closed(disk.nodes) && forall s <- sources :: Apart(installRoot, s)
      modifies disk
      ensures OutsideKept(old(disk.nodes), disk.nodes, installRoot)
      ensures ok ==> Closed(disk.nodes)
      ensures ok ==> forall id :: id in active <==> Active(old(disk.nodes), load, sources, id)
      ensures ok ==> forall s <- sources :: ManifestAt(old(disk.nodes), load, s).Some?
      ensures ok ==> forall id <- active :: id in updated && updated[id].kind == Bundled
      ensures ok ==> forall id | id !in active :: (id in updated <==> id in registry)
                                                  && (id in registry ==> updated[id] == registry[id])
      ensures ok && !changed ==> updated == registry && disk.nodes == old(disk.nodes)
      ensures ok && Ordinary(registry, installRoot) ==> Ordinary(updated, installRoot)
      ensures ok && DistinctIds(old(disk.nodes), load, sources) ==>
                AllReady(disk.nodes, old(disk.nodes), updated, load, installRoot, sources)
      ensures AllReady(old(disk.nodes), old(disk.nodes), registry, load, installRoot, sources) ==>
                ok && !changed && disk.faults == old(disk.faults)
    {
      hide Closed, OutsideKept, Active, Ready, AllReady, ManifestAt, Fits, InstallPath, BundledId, DistinctIds,
           Ordinary;
      ghost var before := disk.nodes;
      OutsideKeptRefl(before, installRoot);
      updated, active, changed := registry, {}, false;
      NoneActive(before, load, sources[..0]);
      NoneReady(before, updated, load, installRoot, sources[..0]);
      for k := 0 to |sources|
        invariant OutsideKept(before, disk.nodes, installRoot) && Closed(disk.nodes)
        invariant forall id :: id in active <==> Active(before, load, sources[..k], id)
        invariant forall s <- sources[..k] :: ManifestAt(before, load, s).Some?
        invariant forall id <- active :: id in updated && updated[id].kind == Bundled
        invariant forall id | id !in active :: (id in updated <==> id in registry)
                                               && (id in registry ==> updated[id] == registry[id])
        invariant !changed ==> updated == registry && disk.nodes == before
        invariant Ordinary(registry, installRoot) ==> Ordinary(updated, installRoot)
        invariant DistinctIds(before, load, sources) ==>
                    AllReady(disk.nodes, before, updated, load, installRoot, sources[..k])
        invariant AllReady(before, before, registry, load, installRoot, sources) ==>
                    !changed && disk.faults == old(disk.faults)
      {
        ghost var d, was := disk.nodes, updated;
        SourceKept(before, d, load, installRoot, sources[k]);
        ReadyFrom(before, registry, load, installRoot, sources, k);
        var done, id, next, renewed := SyncOne(sources[k], updated, load, clock(k));
        if !done {
          OutsideKeptTrans(before, d, disk.nodes, installRoot);
          return false, updated, active, changed;
        }
        OutsideKeptTrans(before, d, disk.nodes, installRoot);
        ActiveGrows(before, load, sources, k, active, id);
        if DistinctIds(before, load, sources) {
          AllReadyStep(d, disk.nodes, before, was, next, load, installRoot, sources, k);
        }
        OrdinaryKept(was, next, installRoot, id, ManifestAt(d, load, sources[k]).value, renewed);
        updated, active, changed := next, active + {id}, changed || renewed;
      }
      ok := true;
      assert sources[..|sources|] == sources;
    }

    /** Bundled records without a plugin are dropped, with their directories if those are managed. */
    method RemoveStale(registry: Registry, stale: set<string>,
                       ghost before: Image, ghost load: Loader, ghost sources: seq<Path>)
      returns (ok: bool, updated: Registry)
      requires Closed(disk.nodes) && stale <= registry.Keys
      modifies disk
      ensures OutsideKept(old(disk.nodes), disk.nodes, installRoot)
      ensures ok ==> updated == registry - stale && Closed(disk.nodes)
      ensures ok && (forall id <- stale :: registry[id].installPath == InstallPath(installRoot, id))
              && CopiesUnless(old(disk.nodes), before, load, installRoot, sources, {}) ==>
                CopiesUnless(disk.nodes, before, load, installRoot, sources, stale)
      ensures stale == {} ==> ok && disk.nodes == old(disk.nodes) && disk.faults == old(disk.faults)
    {
      hide Closed, OutsideKept, CopiesUnless, InstallPath, RemoveStep, Under;
      ghost var start := disk.nodes;
      ghost var ordinary := (forall id <- stale :: registry[id].installPath == InstallPath(installRoot, id))
        && CopiesUnless(start, before, load, installRoot, sources, {});
      OutsideKeptRefl(start, installRoot);
      updated := registry;
      var rest := stale;
      assert stale - rest == {};
      while rest != {}
        invariant rest <= stale && updated == registry - (stale - rest)
        invariant Closed(disk.nodes) && OutsideKept(start, disk.nodes, installRoot)
        invariant ordinary ==> CopiesUnless(disk.nodes, before, load, installRoot, sources, stale - rest)
        invariant stale == {} ==> disk.nodes == start && disk.faults == old(disk.faults)
        decreases |rest|
      {
        var id :| id in rest;
        assert id in updated;
        var path := updated[id].installPath;
        ghost var d := disk.nodes;
        OutsideKeptRefl(d, path);
        updated := updated - {id};
        if Under(installRoot, path) && path in disk.nodes {
          RemoveKeepsOutside(d, path, Head(disk.faults));
          RemoveCloses(d, path, Head(disk.faults));
          OutsideWider(d, RemoveStep(d, path, Head(disk.faults)).1, installRoot, path);
          OutsideKeptTrans(start, d, RemoveStep(d, path, Head(disk.faults)).1, installRoot);
          var removed := disk.RemoveDirAll(path);
          if !removed {
            return false, updated;
          }
        }
        if ordinary {
          UnderRoot(installRoot, id);
          CopiesStep(d, disk.nodes, before, load, installRoot, sources, stale - rest, id);
          assert stale - (rest - {id}) == stale - rest + {id};
        }
        rest := rest - {id};
      }
      assert stale - {} == stale;
      ok := true;
    }

    /** A sync up to the writing of the registry, on a registry that was read. */
    method SyncRegistry(loaded: Registry, sources: seq<Path>, load: Loader, clock: nat -> nat)
      returns (ok: bool, kept: Registry, changed: bool)
      requires Closed(disk.nodes) && forall s <- sources :: Apart(installRoot, s)
      modifies disk
      ensures OutsideKept(old(disk.nodes), disk.nodes, installRoot) && (ok ==> Closed(disk.nodes))
      ensures ok ==> RecordsSynced(loaded, kept, old(disk.nodes), load, sources) && (!changed ==> kept == loaded)
      ensures ok && Ordinary(loaded, installRoot) && DistinctIds(old(disk.nodes), load, sources) ==>
                (InSync(disk.nodes, kept, load, installRoot, sources) <==>
                 NoStaleCollision(old(disk.nodes), loaded, load, sources))
      ensures ok && Ordinary(loaded, installRoot) ==> Ordinary(kept, installRoot)
      ensures ok && DistinctIds(old(disk.nodes), load, sources) ==> DistinctIds(disk.nodes, load, sources)
      ensures ok ==> NoStaleCollision(disk.nodes, kept, load, sources)
      ensures InSync(old(disk.nodes), loaded, load, installRoot, sources) ==>
                ok && !changed && disk.nodes == old(disk.nodes) && disk.faults == old(disk.faults)
    {
      hide Closed, OutsideKept, Active, Ready, ManifestAt, InstallPath, CopiesUnless, NoStaleCollision, InSync;
      hide BundledId, Fits, RecordFits, DistinctIds, AllReady, Ordinary, RecordsSynced, StaleAre;
      ghost var before := disk.nodes;
      if InSync(before, loaded, load, installRoot, sources) {
        InSyncReady(before, loaded, load, installRoot, sources);
      }
      var done, registry, active, renewed := SyncActive(sources, loaded, load, clock);
      kept, changed := registry, renewed;
      if !done {
        return false, kept, changed;
      }
      ghost var middle := disk.nodes;
      var stale := set id | id in registry && registry[id].kind == Bundled && id !in active;
      if Ordinary(loaded, installRoot) && DistinctIds(before, load, sources) {
        CopiesReady(middle, before, registry, load, installRoot, sources);
        StaleOrdinary(loaded, registry, installRoot, stale);
      }
      ok, kept := RemoveStale(registry, stale, before, load, sources);
      changed := changed || stale != {};
      OutsideKeptTrans(before, middle, disk.nodes, installRoot);
      if !ok {
        return;
      }
      RecordsFollow(loaded, registry, kept, before, load, sources, active, stale);
      if DistinctIds(before, load, sources) && Ordinary(loaded, installRoot) {
        SyncCompletes(before, middle, disk.nodes, loaded, registry, kept, load, installRoot, sources, stale);
      }
      assert stale == {} ==> kept == registry;
      FewerOrdinary(registry, kept, installRoot, stale);
      SourcesKept(before, disk.nodes, load, installRoot, sources);
      NoLeftovers(before, disk.nodes, loaded, kept, load, sources);
    }

    /** After a successful sync the bundled records are exactly the plugins found, records of any other
        kind are as they were, and the sync is complete, so that another one would find nothing to do,
        exactly when no leftover record shared its path with a plugin found. No leftover remains, so a
        further sync that succeeds is complete in any case. */
    method SyncBundledPlugins(sources: seq<Path>, load: Loader, clock: nat -> nat) returns (ok: bool)
      requires Closed(disk.nodes) && forall s <- sources :: Apart(installRoot, s)
      modifies this, disk
      ensures OutsideKept(old(disk.nodes), disk.nodes, installRoot) && (ok ==> Closed(disk.nodes))
      ensures old(stored) == CutShort ==> !ok
      ensures ok ==> stored.Whole? && old(stored).Whole?
                     && RecordsSynced(old(stored).registry, stored.registry, old(disk.nodes), load, sources)
      ensures !ok ==> stored in [old(stored), Whole(map[]), CutShort]
      ensures ok && Ordinary(old(stored).registry, installRoot) && DistinctIds(old(disk.nodes), load, sources) ==>
                (InSync(disk.nodes, stored.registry, load, installRoot, sources) <==>
                 NoStaleCollision(old(disk.nodes), old(stored).registry, load, sources))
      ensures ok && Ordinary(old(stored).registry, installRoot) ==> Ordinary(stored.registry, installRoot)
      ensures ok && DistinctIds(old(disk.nodes), load, sources) ==> DistinctIds(disk.nodes, load, sources)
      ensures ok ==> NoStaleCollision(disk.nodes, stored.registry, load, sources)
      ensures old(stored).Whole? && InSync(old(disk.nodes), old(stored).registry, load, installRoot, sources) ==>
                ok && disk.nodes == old(disk.nodes) && stored == old(stored) && disk.faults == old(disk.faults)
    {
      hide OutsideKept, RecordsSynced, Ordinary, DistinctIds, InSync, NoStaleCollision, Closed;
      if stored == CutShort {
        OutsideKeptRefl(disk.nodes, installRoot);
        return false;
      }
      var done, registry, changed := SyncRegistry(stored.registry, sources, load, clock);
      if !done {
        return false;
      }
      if changed {
        ok := StoreRegistry(registry);
      } else {
        ok := true;
      }
    }
  }

  lemma OrdinaryKept(was: Registry, registry: Registry, root: Path, id: string, manifest: Manifest, renewed: bool)
    requires !renewed ==> registry == was
    requires renewed ==> id in registry && registry == was[id := registry[id]]
                         && Fits(registry[id], manifest, InstallPath(root, id))
    ensures Ordinary(was, root) ==> Ordinary(registry, root)
  {
    hide InstallPath;
  }

  lemma FewerOrdinary(registry: Registry, kept: Registry, root: Path, stale: set<string>)
    requires kept == registry - stale
    ensures Ordinary(registry, root) ==> Ordinary(kept, root)
  {
    hide InstallPath;
  }

  lemma SourcesKept(before: Image, d: Image, load: Loader, root: Path, sources: seq<Path>)
    requires OutsideKept(before, d, root) && forall s <- sources :: Apart(root, s)
    ensures forall s <- sources :: ManifestAt(d, load, s) == ManifestAt(before, load, s)
    ensures DistinctIds(before, load, sources) ==> DistinctIds(d, load, sources)
  {
    hide OutsideKept, ManifestAt, Apart;
    forall s <- sources ensures ManifestAt(d, load, s) == ManifestAt(before, load, s) {
      SourceKept(before, d, load, root, s);
    }
    assert forall i | 0 <= i < |sources| :: ManifestAt(d, load, sources[i]) == ManifestAt(before, load, sources[i]);
  }

  /** The bundled records that a sync keeps are those of plugins found, so none is left over. */
  lemma NoLeftovers(before: Image, d: Image, was: Registry, kept: Registry, load: Loader, sources: seq<Path>)
    requires RecordsSynced(was, kept, before, load, sources)
    requires forall s <- sources :: ManifestAt(d, load, s) == ManifestAt(before, load, s)
    ensures NoStaleCollision(d, kept, load, sources)
  {
    SameActive(before, d, load, sources);
    hide Active, ManifestAt, Sanitize;
  }

  // ----- A leftover that collides

  /** A record of a bundled plugin that is no longer found. */
  function Leftover(root: Path): Registry {
    var id := PluginId("a/b", "bundled");
    map[id := Record(Bundled, id, "a/b", "1", "", InstallPath(root, id), ["old"], 0, 0)]
  }

  /** The bundled plugin `a-b`, with its name in its manifest. */
  function BundledDisk(): Image {
    map[[] := Dir, ["bundled"] := Dir, ["bundled", "plugin.json"] := File("a-b")]
  }

  function NameLoader(): Loader {
    (tree: Image) =>
      if ["plugin.json"] in tree && tree[["plugin.json"]].File? then
        Some(Manifest(tree[["plugin.json"]].content, "1", ""))
      else None
  }

  /** The plugin `a-b` is found while the record of `a/b` is left over: all that a complete sync asks for holds,
      save that the two ids do not collide. */
  lemma LeftoverCollides()
    ensures var d, load, root, sources := BundledDisk(), NameLoader(), ["plugins"], [["bundled"]];
            && Closed(d) && (forall s <- sources :: Apart(root, s))
            && Ordinary(Leftover(root), root) && DistinctIds(d, load, sources)
            && !NoStaleCollision(d, Leftover(root), load, sources)
  {
    BundledManifest();
    BundledClosed();
    hide Sanitize, InstallPath, BundledDisk, NameLoader, Closed, ManifestAt;
    var d, load, root, found := BundledDisk(), NameLoader(), ["plugins"], ["bundled"];
    var stale, id := PluginId("a/b", "bundled"), PluginId("a-b", "bundled");
    NamesCollide();
    assert root[0] != found[0];
    assert Apart(root, found);
    assert found in [found] && Active(d, load, [found], id);
    assert !Active(d, load, [found], stale);
    assert stale in Leftover(root);
  }

  lemma BundledManifest()
    ensures ManifestAt(BundledDisk(), NameLoader(), ["bundled"]) == Some(Manifest("a-b", "1", ""))
  {
    var d, p, r: Path := BundledDisk(), ["bundled"], ["plugin.json"];
    var q := ["bundled", "plugin.json"];
    assert p + r == q && q in d && Under(p, q) && q[|p|..] == r;
    assert r in TreeAt(d, p) && TreeAt(d, p)[r] == File("a-b");
  }

  lemma BundledClosed()
    ensures Closed(BundledDisk())
  {
    var d := BundledDisk();
    forall q, k: nat | q in d && k <= |q| ensures q[..k] in d {
      if k == 0 { assert q[..k] == []; } else if k == |q| { assert q[..k] == q; } else { assert q[..k] == ["bundled"]; }
    }
  }

  lemma StaleOrdinary(was: Registry, registry: Registry, root: Path, stale: set<string>)
    requires Ordinary(was, root) && forall id <- stale :: id in registry && id in was && registry[id] == was[id]
    ensures forall id <- stale :: registry[id].installPath == InstallPath(root, id)
  {
  }

  lemma FoundIsActive(before: Image, load: Loader, sources: seq<Path>, s: Path)
    requires s in sources && ManifestAt(before, load, s).Some?
    ensures Active(before, load, sources, BundledId(ManifestAt(before, load, s).value))
  {
  }

  lemma ReadyFits(d: Image, before: Image, registry: Registry, kept: Registry, load: Loader, root: Path,
                  sources: seq<Path>, s: Path, stale: set<string>)
    requires s in sources && AllReady(d, before, registry, load, root, sources) && kept == registry - stale
    requires BundledId(ManifestAt(before, load, s).value) !in stale
    ensures RecordFits(kept, root, ManifestAt(before, load, s).value)
  {
    assert Ready(d, registry, load, root, ManifestAt(before, load, s).value);
  }

  /** The registry that remains, from what the two halves of a sync did to it. */
  lemma RecordsFollow(was: Registry, registry: Registry, kept: Registry, before: Image, load: Loader,
                      sources: seq<Path>, active: set<string>, stale: set<string>)
    requires forall id :: id in active <==> Active(before, load, sources, id)
    requires forall id <- active :: id in registry && registry[id].kind == Bundled
    requires forall id | id !in active :: (id in registry <==> id in was) && (id in was ==> registry[id] == was[id])
    requires forall id :: id in stale <==> id in registry && registry[id].kind == Bundled && id !in active
    requires kept == registry - stale
    ensures RecordsSynced(was, kept, before, load, sources) && StaleAre(stale, before, was, load, sources)
    ensures forall id <- kept :: kept[id].kind == Bundled ==> Active(before, load, sources, id)
  {
    hide Active;
  }

  lemma SyncCompletes(before: Image, middle: Image, d: Image, was: Registry, registry: Registry, kept: Registry,
                      load: Loader, root: Path, sources: seq<Path>, stale: set<string>)
    requires AllReady(middle, before, registry, load, root, sources) && kept == registry - stale
    requires OutsideKept(before, d, root) && forall s <- sources :: Apart(root, s)
    requires StaleAre(stale, before, was, load, sources) && CopiesUnless(d, before, load, root, sources, stale)
    requires forall id <- kept :: kept[id].kind == Bundled ==> Active(before, load, sources, id)
    ensures InSync(d, kept, load, root, sources) <==> NoStaleCollision(before, was, load, sources)
  {
    hide OutsideKept, Ready, ManifestAt, CopiesUnless, NoStaleCollision, InSync, Active, BundledId, RecordFits;
    forall s <- sources
      ensures ManifestAt(before, load, s).Some? && ManifestAt(d, load, s) == ManifestAt(before, load, s)
      ensures RecordFits(kept, root, ManifestAt(before, load, s).value)
    {
      SourceKept(before, d, load, root, s);
      FoundIsActive(before, load, sources, s);
      ReadyFits(middle, before, registry, kept, load, root, sources, s, stale);
    }
    SyncedExactly(before, d, was, kept, load, root, sources, stale);
  }

  lemma InSyncReady(d: Image, registry: Registry, load: Loader, root: Path, sources: seq<Path>)
    requires InSync(d, registry, load, root, sources)
    ensures AllReady(d, d, registry, load, root, sources)
    ensures forall id <- registry :: registry[id].kind == Bundled ==> Active(d, load, sources, id)
  {
  }

  lemma UnderRoot(root: Path, id: string)
    ensures Under(root, InstallPath(root, id))
  {
  }

  lemma NoneActive(before: Image, load: Loader, none: seq<Path>)
    requires none == []
    ensures forall id :: !Active(before, load, none, id)
  {
  }

  lemma NoneReady(before: Image, registry: Registry, load: Loader, root: Path, none: seq<Path>)
    requires none == []
    ensures AllReady(before, before, registry, load, root, none)
  {
  }

  lemma ReadyFrom(before: Image, registry: Registry, load: Loader, root: Path, sources: seq<Path>, k: nat)
    requires k < |sources|
    ensures AllReady(before, before, registry, load, root, sources) ==>
              ManifestAt(before, load, sources[k]).Some?
              && Ready(before, registry, load, root, ManifestAt(before, load, sources[k]).value)
  {
    hide Ready, ManifestAt;
  }

  /** What happens below the install root does not reach the bundled root. */
  lemma SourceKept(before: Image, d: Image, load: Loader, root: Path, source: Path)
    requires OutsideKept(before, d, root) && Apart(root, source)
    ensures ManifestAt(d, load, source) == ManifestAt(before, load, source)
  {
    assert SameAt(before, d, source);
  }
}
