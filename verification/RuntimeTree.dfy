/**
 Removing what a native journey left behind: its runtime tree and its synthetic
 client configuration.  Everything is checked before anything is deleted, files
 go before folders, and folders go deepest first.

 A tree maps paths below its root to folders and files.  Whatever lies in it lies
 in a folder of it, so once its files are gone a listed folder holds only listed
 folders, which are deeper and so already gone when its turn comes.
 */
module RuntimeTree {
  import opened Options
  import opened Sequences
  import Backups

  type Path = seq<string>

  /** A file's content stands for its size and digest, and for the record parsed from it. */
  datatype Node = Folder | File(content: string, links: nat) | Odd

  type Nodes = map<Path, Node>

  function Parent(p: Path): Path
    requires p != []
  {
    p[..|p| - 1]
  }

  /** Everything lies in a folder of the tree, up to its root. */
  predicate Grown(nodes: Nodes) {
    forall p :: p in nodes && p != [] ==> Parent(p) in nodes && nodes[Parent(p)].Folder?
  }

  predicate Empty(nodes: Nodes, folder: Path) {
    forall p :: p in nodes && p != [] ==> Parent(p) != folder
  }

  predicate DeepestFirst(s: seq<Path>) {
    forall i, j :: 0 <= i < j < |s| ==> |s[i]| >= |s[j]|
  }

  function Without(nodes: Nodes, gone: seq<Path>): Nodes {
    nodes - (set p <- gone)
  }

  /** `sorted(folders, key=depth, reverse=True)` */
  method SortDeepestFirst(folders: seq<Path>) returns (sorted: seq<Path>)
    requires NoRepeats(folders)
    ensures DeepestFirst(sorted) && NoRepeats(sorted) && forall p :: p in sorted <==> p in folders
  {
    sorted := [];
    for k := 0 to |folders|
      invariant DeepestFirst(sorted) && NoRepeats(sorted) && forall p :: p in sorted <==> p in folders[..k]
    {
      assert folders[..k + 1] == folders[..k] + [folders[k]];
      assert folders[k] !in folders[..k];
      sorted := InsertDeepestFirst(sorted, folders[k]);
    }
    assert folders[..|folders|] == folders;
  }

  method InsertDeepestFirst(s: seq<Path>, x: Path) returns (r: seq<Path>)
    requires DeepestFirst(s) && NoRepeats(s) && x !in s
    ensures DeepestFirst(r) && NoRepeats(r) && forall p :: p in r <==> p in s || p == x
  {
    var i := 0;
    while i < |s| && |s[i]| >= |x|
      invariant i <= |s| && forall k :: 0 <= k < i ==> |s[k]| >= |x|
    {
      i := i + 1;
    }
    InsertedPaths(s, i, x);
    InsertedInOrder(s, i, x);
    InsertedOnce(s, i, x);
    r := s[..i] + [x] + s[i..];
  }

  lemma InsertedInOrder(s: seq<Path>, i: nat, x: Path)
    requires i <= |s| && DeepestFirst(s)
    requires (forall k :: 0 <= k < i ==> |s[k]| >= |x|) && (i < |s| ==> |s[i]| < |x|)
    ensures DeepestFirst(s[..i] + [x] + s[i..])
  {
    InsertedAt(s, i, x, s[..i] + [x] + s[i..]);
    assert i < |s| ==> forall k :: i <= k < |s| ==> |s[k]| <= |s[i]|;
  }

  lemma InsertedOnce(s: seq<Path>, i: nat, x: Path)
    requires i <= |s| && NoRepeats(s) && x !in s
    ensures NoRepeats(s[..i] + [x] + s[i..])
  {
    InsertedAt(s, i, x, s[..i] + [x] + s[i..]);
  }

  lemma InsertedPaths(s: seq<Path>, i: nat, x: Path)
    requires i <= |s|
    ensures forall p :: p in s[..i] + [x] + s[i..] <==> p in s || p == x
  {
    assert s == s[..i] + s[i..];
  }

  const OWNER: Path := ["journey-owner.json"]
  const PLAN: Path := ["journey-plan.json"]

  /** The files the service itself goes on writing. */
  predicate Mutable(p: Path) {
    || p == ["state", "brains.db"] || p == ["state", "brains.db-wal"] || p == ["state", "brains.db-shm"]
    || p == ["state", "brains.db-journal"] || p == ["state", "sessions", "service.pid"]
    || p == ["state", "sessions", "service.log"] || p == ["state", "sessions", "service.log.1"]
    || p == ["state", "sessions", "service.log.2"] || p == ["state", "sessions", "service.log.3"]
    || p == ["state", "sessions", "service.out.log"] || p == ["state", "sessions", "service.err.log"]
    || p == ["state", "service", "endpoints.json"]
  }

  predicate Expected(p: Path) {
    p == ["workspace"] || p == ["state"] || p == ["state", "sessions"] || p == ["state", "service"]
  }

  predicate Control(p: Path) {
    p == OWNER || p == PLAN
  }

  /** What the plan holds about the tree: its owner record, its own text and the inventory taken after setup. */
  datatype Plan = Plan(owner: string, text: string, inventory: map<Path, string>)

  predicate HasText(nodes: Nodes, p: Path, content: string) {
    p in nodes && nodes[p].File? && nodes[p].content == content
  }

  /** What one resource must be for the tree to be removed. */
  predicate Accounted(p: Path, n: Node, plan: Plan) {
    match n
    case Folder => Expected(p)
    case File(content, links) =>
      links == 1 && (Control(p) || Mutable(p) || (p in plan.inventory && plan.inventory[p] == content))
    case Odd => false
  }

  predicate Validates(nodes: Nodes, plan: Plan) {
    && HasText(nodes, OWNER, plan.owner)
    && (forall p :: p in nodes && p != [] ==> Accounted(p, nodes[p], plan))
    && (forall p :: p in plan.inventory && !Mutable(p) ==> p in nodes && nodes[p].File?)
    && HasText(nodes, PLAN, plan.text)
  }

  /** The check made on each file again just before it is deleted. */
  predicate Unchanged(p: Path, n: Node, plan: Plan) {
    && n.File? && n.links == 1
    && (p == OWNER ==> n.content == plan.owner)
    && (p == PLAN ==> n.content == plan.text)
    && (p in plan.inventory && !Mutable(p) ==> plan.inventory[p] == n.content)
  }

  /** The inventory leaves out the two control files, or has them as they are. */
  predicate ControlsFree(plan: Plan) {
    && (OWNER in plan.inventory ==> plan.inventory[OWNER] == plan.owner)
    && (PLAN in plan.inventory ==> plan.inventory[PLAN] == plan.text)
  }

  /** The folders setup makes. */
  const MADE: set<Path> := {["workspace"], ["state"], ["state", "sessions"], ["state", "service"]}

  /** The files the running service writes. */
  const WRITTEN: set<Path> := {
    ["state", "brains.db"], ["state", "brains.db-wal"], ["state", "brains.db-shm"], ["state", "brains.db-journal"],
    ["state", "sessions", "service.pid"], ["state", "sessions", "service.log"], ["state", "sessions", "service.log.1"],
    ["state", "sessions", "service.log.2"], ["state", "sessions", "service.log.3"], ["state", "sessions", "service.out.log"],
    ["state", "sessions", "service.err.log"], ["state", "service", "endpoints.json"]}

  /**
   A tree may be removed exactly if its folders are among those setup makes, every
   other resource is a file with no second link, the owner's record and the plan are
   there as they should be, and the remaining files are those the service writes and
   those of the inventory, which are all there as they were.
   */
  lemma ValidatesIff(nodes: Nodes, plan: Plan)
    ensures Validates(nodes, plan) <==>
              var owner, text := ["journey-owner.json"], ["journey-plan.json"];
              && (forall p :: p in nodes && p != [] && nodes[p].Folder? ==> p in MADE)
              && (forall p :: p in nodes && p != [] && !nodes[p].Folder? ==> nodes[p].File? && nodes[p].links == 1)
              && (owner in nodes && nodes[owner].File? && nodes[owner].content == plan.owner)
              && (text in nodes && nodes[text].File? && nodes[text].content == plan.text)
              && (forall p :: p in nodes && p != [] && nodes[p].File? && p !in WRITTEN && p != owner && p != text ==>
                    p in plan.inventory && plan.inventory[p] == nodes[p].content)
              && (forall p :: p in plan.inventory && p !in WRITTEN ==> p in nodes && nodes[p].File?)
  {
    assert forall p :: Mutable(p) <==> p in WRITTEN;
    assert forall p :: Expected(p) <==> p in MADE;
    if Validates(nodes, plan) {
      forall p | p in nodes && p != []
        ensures nodes[p].Folder? ==> p in MADE
        ensures !nodes[p].Folder? ==> nodes[p].File? && nodes[p].links == 1
      {
        assert Accounted(p, nodes[p], plan);
      }
    }
  }

  datatype Removal = Removed | Refused | Broken

  /** Whatever lies in one of these folders is itself one of them. */
  predicate Closed(nodes: Nodes, folders: seq<Path>) {
    forall p :: p in nodes && p != [] && Parent(p) in folders ==> p in folders
  }

  /** The folder whose turn it is is empty exactly when what lay in it was listed, and so is already gone. */
  lemma EmptyInTurn(nodes: Nodes, folders: seq<Path>, k: nat)
    requires NoRepeats(folders) && DeepestFirst(folders) && k < |folders| && Closed(nodes, folders[..k])
    requires folders[..k + 1] == folders[..k] + [folders[k]]
    ensures Closed(nodes, folders) ==> Empty(Without(nodes, folders[..k]), folders[k])
    ensures Empty(Without(nodes, folders[..k]), folders[k]) ==> Closed(nodes, folders[..k + 1])
    ensures !Empty(Without(nodes, folders[..k]), folders[k]) ==> !Closed(nodes, folders)
  {
    var left := Without(nodes, folders[..k]);
    if Closed(nodes, folders) {
      forall p | p in left && p != [] ensures Parent(p) != folders[k] {
        if Parent(p) == folders[k] { ListedBefore(folders, k, p); }
      }
    }
  }

  lemma OneMoreGone(nodes: Nodes, gone: seq<Path>, p: Path, more: seq<Path>)
    requires more == gone + [p]
    ensures Without(nodes, more) == Without(nodes, gone) - {p}
    ensures p in nodes && p !in gone ==> p in Without(nodes, gone) && Without(nodes, gone)[p] == nodes[p]
  {
  }

  /** A listed child comes before its folder. */
  lemma ListedBefore(folders: seq<Path>, k: nat, p: Path)
    requires DeepestFirst(folders) && k < |folders| && p != [] && Parent(p) == folders[k] && p in folders
    ensures p in folders[..k]
  {
    var j :| 0 <= j < |folders| && folders[j] == p;
    assert j < k;
    assert folders[..k][j] == p;
  }

  /** The files of a client's configuration, by their place below its root. */
  function Snapshot(nodes: Nodes): map<Path, string> {
    map p | p in nodes && nodes[p].File? :: nodes[p].content
  }

  /** Only the opencode client has a folder below its root. */
  predicate ClientFolder(p: Path, plugins: bool) {
    p == [] || (plugins && p == ["plugins"])
  }

  /** What must hold before any of a client's configuration is deleted. */
  predicate Restorable(nodes: Nodes, plugins: bool, expected: map<Path, string>, directories: seq<Path>, original: map<Path, string>) {
    && (forall p :: p in nodes ==> !nodes[p].Odd? && (nodes[p].Folder? ==> ClientFolder(p, plugins)))
    && Snapshot(nodes) == expected
    && NoRepeats(directories)
    && (forall p :: p in directories ==> p in nodes && nodes[p].Folder?)
    && (forall p :: p in nodes && nodes[p].Folder? ==> p in directories)
    && (forall p :: p in original ==> p in expected && expected[p] == original[p])
  }

  /** The text of the file at a place, if there is one. */
  function FileAt(nodes: Nodes, p: Path): Option<string> {
    if p in nodes && nodes[p].File? then Some(nodes[p].content) else None
  }

  function Listed(files: map<Path, string>, p: Path): Option<string> {
    if p in files then Some(files[p]) else None
  }

  /**
   A configuration may be removed exactly if its folders are the root and, for the
   one client that has it, `plugins`; each of them is listed once; its files are the
   expected ones as expected; and the original ones are among those.
   */
  lemma RestorableIff(nodes: Nodes, plugins: bool, expected: map<Path, string>, directories: seq<Path>, original: map<Path, string>)
    ensures Restorable(nodes, plugins, expected, directories, original) <==>
              && (forall p :: p in nodes ==> nodes[p].Folder? || nodes[p].File?)
              && (forall p :: p in nodes && nodes[p].Folder? ==> p == [] || (plugins && p == ["plugins"]))
              && (forall p :: Listed(expected, p) == FileAt(nodes, p))
              && NoRepeats(directories) && (forall p :: p in directories <==> p in nodes && nodes[p].Folder?)
              && (forall p :: p in original ==> Listed(expected, p) == Some(original[p]))
  {
    assert (forall p :: Listed(expected, p) == FileAt(nodes, p)) <==> Snapshot(nodes) == expected by {
      assert forall p :: Listed(Snapshot(nodes), p) == FileAt(nodes, p);
      SameListing(Snapshot(nodes), expected);
    }
  }

  lemma SameListing(a: map<Path, string>, b: map<Path, string>)
    ensures a == b <==> forall p :: Listed(a, p) == Listed(b, p)
  {
    if forall p :: Listed(a, p) == Listed(b, p) {
      forall p ensures p in a <==> p in b { assert Listed(a, p) == Listed(b, p); }
      forall p | p in a ensures a[p] == b[p] { assert Listed(a, p) == Listed(b, p); }
    }
  }

  // One client keeps its configuration in a single file, with its backups beside it in the
  // home folder; there a tree is that folder's.

  const CLAUDE := ".claude.json"

  /** Beside the file, and named like a backup of it. */
  predicate Beside(p: Path) {
    |p| == 1 && CLAUDE + ".bak-" <= p[0]
  }

  predicate NamedBackup(p: Path) {
    |p| == 1 && CLAUDE <= p[0] && Backups.Stamp(p[0][|CLAUDE|..])
  }

  /** The names of its backups, written out. */
  lemma NamedBackupIff(p: Path)
    ensures NamedBackup(p) <==> |p| == 1 && exists date, time :: Backups.NamedAfter(p[0], ".claude.json", date, time, "")
  {
    if |p| == 1 {
      if NamedBackup(p) {
        var s := p[0][|CLAUDE|..];
        Backups.StampIs(s, s[5..13], s[14..]);
        assert p[0] == CLAUDE + s + "";
        assert Backups.NamedAfter(p[0], ".claude.json", s[5..13], s[14..], "");
      }
      forall date, time | Backups.NamedAfter(p[0], ".claude.json", date, time, "") ensures NamedBackup(p) {
        assert p[0][|CLAUDE|..] == ".bak-" + date + "-" + time;
        Backups.StampIs(p[0][|CLAUDE|..], date, time);
      }
    }
  }

  predicate Configured(p: Path) {
    p == [CLAUDE] || NamedBackup(p)
  }

  /** The file and its backups; nothing else in the home folder belongs to the configuration. */
  function HomeSnapshot(nodes: Nodes): map<Path, string> {
    map p | p in nodes && Configured(p) && nodes[p].File? :: nodes[p].content
  }

  /** What must hold before any of it is deleted: no folder is listed for this client. */
  predicate HomeRestorable(nodes: Nodes, expected: map<Path, string>, original: map<Path, string>) {
    && ([CLAUDE] in nodes ==> nodes[[CLAUDE]].File?)
    && (forall p :: p in nodes && Beside(p) ==> NamedBackup(p) && nodes[p].File?)
    && HomeSnapshot(nodes) == expected
    && (forall p :: p in original ==> p in expected && expected[p] == original[p])
  }

  /** The file itself or a backup of it. */
  ghost predicate OfClient(p: Path) {
    p == [".claude.json"] || (|p| == 1 && exists date, time :: Backups.NamedAfter(p[0], ".claude.json", date, time, ""))
  }

  /**
   The single-file configuration may be removed exactly if what is beside the file
   and begins like a backup of it is a file named as one; if the file and its backups
   are the expected ones as expected; and if the original ones are among those.
   */
  lemma HomeRestorableIff(nodes: Nodes, expected: map<Path, string>, original: map<Path, string>)
    ensures HomeRestorable(nodes, expected, original) <==>
              && ([".claude.json"] in nodes ==> nodes[[".claude.json"]].File?)
              && (forall p :: p in nodes && |p| == 1 && ".claude.json" + ".bak-" <= p[0] ==> OfClient(p) && nodes[p].File?)
              && (forall p :: Listed(expected, p) == if OfClient(p) then FileAt(nodes, p) else None)
              && (forall p :: p in original ==> Listed(expected, p) == Some(original[p]))
  {
    forall p ensures OfClient(p) <==> Configured(p) { NamedBackupIff(p); }
    assert forall p :: Beside(p) ==> p != [CLAUDE];
    assert forall p :: Listed(HomeSnapshot(nodes), p) == if OfClient(p) then FileAt(nodes, p) else None;
    SameListing(HomeSnapshot(nodes), expected);
  }

  class Tree {
    var nodes: Nodes

    constructor (nodes: Nodes)
      ensures this.nodes == nodes
    {
      this.nodes := nodes;
    }

    method Unlink(p: Path)
      requires p in nodes && nodes[p].File?
      modifies this
      ensures nodes == old(nodes) - {p}
    {
      nodes := nodes - {p};
    }

    /** Fails on anything that is not an empty folder. */
    method Rmdir(p: Path) returns (ok: bool)
      modifies this
      ensures ok <==> p in old(nodes) && old(nodes)[p].Folder? && Empty(old(nodes), p)
      ensures nodes == if ok then old(nodes) - {p} else old(nodes)
    {
      ok := p in nodes && nodes[p].Folder? && Empty(nodes, p);
      if ok { nodes := nodes - {p}; }
    }

    /** The walk over the tree: its files and folders, unless something is out of place. */
    method Inventory(plan: Plan) returns (ok: bool, files: seq<Path>, folders: seq<Path>)
      ensures ok <==> forall p :: p in nodes && p != [] ==> Accounted(p, nodes[p], plan)
      ensures ok ==> NoRepeats(files) && NoRepeats(folders)
      ensures ok ==> forall p :: p in files <==> p in nodes && p != [] && nodes[p].File?
      ensures ok ==> forall p :: p in folders <==> p in nodes && p != [] && nodes[p].Folder?
    {
      ok, files, folders := true, [], [];
      var todo := nodes.Keys - {[]};
      while todo != {}
        invariant todo <= nodes.Keys - {[]}
        invariant forall p :: p in nodes && p != [] && p !in todo ==> Accounted(p, nodes[p], plan)
        invariant NoRepeats(files) && NoRepeats(folders)
        invariant forall p :: p in files <==> p in nodes && p != [] && p !in todo && nodes[p].File?
        invariant forall p :: p in folders <==> p in nodes && p != [] && p !in todo && nodes[p].Folder?
      {
        var p :| p in todo;
        if !Accounted(p, nodes[p], plan) {
          ok := false;
          return;
        }
        todo := todo - {p};
        if nodes[p].Folder? { folders := folders + [p]; } else { files := files + [p]; }
      }
    }

    /** Deletes the files one by one, stopping at one that is not as the plan has it. */
    method DeleteFiles(files: seq<Path>, plan: Plan) returns (ok: bool)
      requires NoRepeats(files) && forall p :: p in files ==> p in nodes
      modifies this
      ensures ok <==> forall p :: p in files ==> Unchanged(p, old(nodes)[p], plan)
      ensures ok ==> forall p :: p in files ==>
                var n := old(nodes)[p];
                && n.File? && n.links == 1
                && (p == ["journey-owner.json"] ==> n.content == plan.owner)
                && (p == ["journey-plan.json"] ==> n.content == plan.text)
      ensures ok ==> nodes == Without(old(nodes), files)
    {
      for k := 0 to |files|
        invariant nodes == Without(old(nodes), files[..k])
        invariant forall p :: p in files[..k] ==> Unchanged(p, old(nodes)[p], plan)
      {
        var p := files[k];
        assert p !in files[..k];
        if !Unchanged(p, nodes[p], plan) {
          assert p in files;
          return false;
        }
        assert files[..k + 1] == files[..k] + [p];
        Unlink(p);
      }
      assert files[..|files|] == files;
      ok := true;
    }

    /**
     Deletes folders deepest first.  Every folder left in the tree is on the list,
     so the one whose turn it is has nothing in it.
     */
    method DeleteFolders(folders: seq<Path>) returns (ok: bool)
      requires Grown(nodes) && NoRepeats(folders) && DeepestFirst(folders)
      requires forall p :: p in folders ==> p in nodes && nodes[p].Folder?
      modifies this
      ensures ok <==> Closed(old(nodes), folders)
      ensures ok ==> nodes == Without(old(nodes), folders)
    {
      ghost var before := nodes;
      for k := 0 to |folders|
        invariant nodes == Without(before, folders[..k])
        invariant Closed(before, folders[..k])
      {
        assert folders[..k + 1] == folders[..k] + [folders[k]];
        assert folders[k] !in folders[..k];
        EmptyInTurn(before, folders, k);
        OneMoreGone(before, folders[..k], folders[k], folders[..k + 1]);
        ok := Rmdir(folders[k]);
        if !ok { return; }
      }
      assert folders[..|folders|] == folders;
      ok := true;
    }

    /** Deletes the configured files that were not there originally. */
    method DeleteConfigured(expected: map<Path, string>, original: map<Path, string>) returns (ok: bool)
      requires forall p :: p in expected ==> HasText(nodes, p, expected[p])
      modifies this
      ensures ok && nodes == old(nodes) - (expected.Keys - original.Keys)
    {
      var todo := expected.Keys - original.Keys;
      while todo != {}
        invariant todo <= expected.Keys - original.Keys
        invariant nodes == old(nodes) - (expected.Keys - original.Keys - todo)
      {
        var p :| p in todo;
        if !HasText(nodes, p, expected[p]) { return false; }
        todo := todo - {p};
        Unlink(p);
      }
      ok := true;
    }

    /**
     Removes a synthetic client configuration down to what was there originally.
     It completes exactly when nothing original lies inside a folder it must delete.
     */
    method RemoveConfig(plugins: bool, expected: map<Path, string>, directories: seq<Path>, original: map<Path, string>)
      returns (r: Removal)
      requires Grown(nodes)
      modifies this
      ensures r.Refused? <==> !Restorable(old(nodes), plugins, expected, directories, original)
      ensures r.Refused? ==> nodes == old(nodes)
      ensures r.Removed? <==> Restorable(old(nodes), plugins, expected, directories, original) && forall p :: p in original ==> p == []
      ensures r.Removed? ==> Snapshot(nodes) == original && forall p :: p in nodes ==> !nodes[p].Folder?
    {
      if !Restorable(nodes, plugins, expected, directories, original) { return Refused; }
      ghost var before := nodes;
      assert forall p :: p in expected ==> p in Snapshot(nodes);
      var ok := DeleteConfigured(expected, original);
      ghost var left := nodes;
      OnlyOriginalsKeepFolders(before, plugins, expected, directories, original, left);
      LeftIsGrown(before, expected.Keys - original.Keys);
      var sorted := SortDeepestFirst(directories);
      ok := DeleteFolders(sorted);
      assert Closed(left, sorted) <==> Closed(left, directories);
      if !ok { return Broken; }
      assert nodes == left - (set p <- sorted);
      OriginalsRemain(before, plugins, expected, directories, original, nodes);
      r := Removed;
    }

    /**
     Removes the single-file configuration and the backups that were added to it.
     Nothing of it can be left half done: it is refused, or what remains of it is
     exactly what was there originally, and the rest of the home folder is as it was.
     */
    method RemoveHomeConfig(expected: map<Path, string>, original: map<Path, string>) returns (r: Removal)
      modifies this
      ensures r.Refused? <==> !HomeRestorable(old(nodes), expected, original)
      ensures r.Refused? ==> nodes == old(nodes)
      ensures r.Removed? <==> HomeRestorable(old(nodes), expected, original)
      ensures r.Removed? ==> HomeSnapshot(nodes) == original
      ensures forall p :: p in old(nodes) && (!Configured(p) || p in original) ==> p in nodes && nodes[p] == old(nodes)[p]
    {
      if !HomeRestorable(nodes, expected, original) { return Refused; }
      assert forall p :: p in expected ==> p in HomeSnapshot(nodes);
      ghost var before := nodes;
      var ok := DeleteConfigured(expected, original);
      OriginalsRemainAtHome(before, expected, original);
      r := Removed;
    }

    /** Everything that is checked before anything is deleted; `owned` and `absent` look outside the tree. */
    method Validate(plan: Plan, owned: bool, absent: bool) returns (ok: bool, files: seq<Path>, folders: seq<Path>)
      ensures ok <==> owned && absent && Validates(nodes, plan)
      ensures ok ==> NoRepeats(files) && NoRepeats(folders)
      ensures ok ==> forall p :: p in files <==> p in nodes && p != [] && nodes[p].File?
      ensures ok ==> forall p :: p in folders <==> p in nodes && p != [] && nodes[p].Folder?
    {
      files, folders := [], [];
      if !HasText(nodes, OWNER, plan.owner) || !owned { return false, files, folders; }
      ok, files, folders := Inventory(plan);
      if !ok { return; }
      ok := forall p <- plan.inventory :: !Mutable(p) ==> p in nodes && nodes[p].File?;
      ok := ok && HasText(nodes, PLAN, plan.text) && absent;
    }

    /**
     Removes the runtime tree.  `owned` and `absent` are the ownership checks that
     look outside the tree, made before and after the inventory.
     */
    method RemoveRuntime(plan: Plan, owned: bool, absent: bool) returns (r: Removal)
      requires [] in nodes && nodes[[]].Folder? && Grown(nodes)
      modifies this
      ensures r.Refused? <==> !(owned && absent && Validates(old(nodes), plan))
      ensures r.Refused? ==> nodes == old(nodes)
      ensures r.Removed? <==> owned && absent && Validates(old(nodes), plan) && ControlsFree(plan)
      ensures r.Removed? ==> nodes == map[]
    {
      var ok, files, folders := Validate(plan, owned, absent);
      if !ok { return Refused; }
      UnchangedExactly(nodes, plan);
      FilesAndFolders(nodes, plan);
      ghost var before := nodes;
      ok := DeleteFiles(files, plan);
      if !ok { return Broken; }
      var sorted := SortDeepestFirst(folders);
      FoldersAreLeft(before, files, sorted);
      ok := DeleteFolders(sorted);
      assert ok;
      ok := Rmdir([]);
      assert ok;
      r := Removed;
    }
  }

  lemma FilesAndFolders(nodes: Nodes, plan: Plan)
    requires Validates(nodes, plan)
    ensures forall p :: p in nodes && p != [] ==> nodes[p].File? || nodes[p].Folder?
  {
  }

  /** With its files gone a tree is its folders, and with those gone it is its root. */
  lemma FoldersAreLeft(nodes: Nodes, files: seq<Path>, folders: seq<Path>)
    requires [] in nodes && nodes[[]].Folder? && Grown(nodes)
    requires forall p :: p in nodes && p != [] ==> nodes[p].File? || nodes[p].Folder?
    requires forall p :: p in files <==> p in nodes && p != [] && nodes[p].File?
    requires forall p :: p in folders <==> p in nodes && p != [] && nodes[p].Folder?
    ensures var left := Without(nodes, files);
            && Grown(left) && Closed(left, folders)
            && (forall p :: p in folders ==> p in left && left[p].Folder?)
            && Without(left, folders) == map[[] := Folder]
  {
  }

  lemma LeftIsGrown(nodes: Nodes, gone: set<Path>)
    requires Grown(nodes) && forall p :: p in gone ==> p in nodes && nodes[p].File?
    ensures Grown(nodes - gone)
  {
  }

  lemma OriginalsRemain(
    nodes: Nodes, plugins: bool, expected: map<Path, string>, directories: seq<Path>, original: map<Path, string>, left: Nodes)
    requires Restorable(nodes, plugins, expected, directories, original)
    requires left == nodes - (expected.Keys - original.Keys) - (set p <- directories)
    ensures Snapshot(left) == original && forall p :: p in left ==> !left[p].Folder?
  {
    forall p | p in left && left[p].File? ensures p in original && original[p] == left[p].content {
      assert p in Snapshot(nodes);
    }
    forall p | p in original ensures p in left && left[p].File? {
      assert p in Snapshot(nodes);
    }
  }

  lemma OriginalsRemainAtHome(nodes: Nodes, expected: map<Path, string>, original: map<Path, string>)
    requires HomeRestorable(nodes, expected, original)
    ensures HomeSnapshot(nodes - (expected.Keys - original.Keys)) == original
    ensures forall p :: p in expected ==> Configured(p)
  {
    var left := nodes - (expected.Keys - original.Keys);
    assert forall p :: p in expected ==> p in HomeSnapshot(nodes);
    forall p | p in HomeSnapshot(left) ensures p in original && original[p] == left[p].content {
      assert p in HomeSnapshot(nodes);
    }
    forall p | p in original ensures p in HomeSnapshot(left) {
      assert p in HomeSnapshot(nodes);
    }
  }

  /** Deleting the files that were not there at first leaves folders that hold only what was. */
  lemma OnlyOriginalsKeepFolders(
    nodes: Nodes, plugins: bool, expected: map<Path, string>, directories: seq<Path>, original: map<Path, string>, left: Nodes)
    requires Grown(nodes) && Restorable(nodes, plugins, expected, directories, original)
    requires left == nodes - (expected.Keys - original.Keys)
    ensures Closed(left, directories) <==> forall p :: p in original ==> p == []
  {
    forall p | p in original ensures p in left && left[p].File? && (p != [] ==> Parent(p) in directories) {
      assert p in Snapshot(nodes);
    }
    forall p | p in left && p !in original ensures left[p].Folder? {
      assert nodes[p].File? <==> p in Snapshot(nodes);
    }
    if exists p :: p in original && p != [] {
      var p :| p in original && p != [];
      assert p in left && Parent(p) in directories && p !in directories;
    }
  }

  /** A validated file fails the check before its deletion only where the inventory contradicts a control file. */
  lemma UnchangedExactly(nodes: Nodes, plan: Plan)
    requires Validates(nodes, plan)
    ensures ControlsFree(plan) <==> forall p :: p in nodes && p != [] && nodes[p].File? ==> Unchanged(p, nodes[p], plan)
  {
    assert OWNER != [] && PLAN != [];
    assert !Mutable(OWNER) && !Mutable(PLAN);
  }
}
