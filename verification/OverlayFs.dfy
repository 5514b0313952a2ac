/** The overlay filesystem on values: a snapshot of the branch, an edit overlay
    with tombstones, a blob cache, and the plain path-to-content map they are
    meant to behave like. */
module OverlayFs {
  import opened Options
  import opened Results
  import opened RepoPaths

  datatype Error = Enoent | PathOutsideRepo | NotEmptyDirectory | TreeMissing | RefMissing | NothingToCommit

  /** A git tree entry. Git names a blob by its content, so the content stands
      for its sha. */
  datatype Entry = BlobEntry(content: string) | TreeEntry
  type Tree = map<string, Entry>
  type Files = map<string, string>

  /** `loadingTree`: never created, settled, or rejected. */
  datatype Promise = NotStarted | Resolved | Rejected

  /** The provider's fields; in the overlay None marks a deleted path. */
  datatype Mem = Mem(
    tree: Option<Tree>, loading: Promise, cache: Files, overlay: map<string, Option<string>>, dirs: set<string>)

  const EMPTY := Mem(None, NotStarted, map[], map[], {})

  function FilesOf(tree: Tree): Files {
    map p | p in tree && tree[p].BlobEntry? :: tree[p].content
  }

  /** Edits laid over files: written paths replaced, deleted paths removed. */
  function Overlaid(files: Files, edits: map<string, Option<string>>): Files {
    map p | p in files.Keys + edits.Keys && (p in edits ==> edits[p].Some?) ::
      if p in edits then edits[p].value else files[p]
  }

  /** `ensureTree`: head is the branch's tree, if the branch exists. */
  function Ensured(m: Mem, head: Option<Tree>): Mem {
    if m.tree.Some? || m.loading != NotStarted then m
    else if head.Some? then m.(tree := head, loading := Resolved)
    else m.(loading := Rejected)
  }

  /** What a caller of `ensureTree` gets: a tree, the rejection, or the null that
      it then fails on. */
  function TreeResult(m: Mem): Result<Tree, Error> {
    if m.tree.Some? then Ok(m.tree.value)
    else if m.loading == Rejected then Err(RefMissing) else Err(TreeMissing)
  }

  /** The snapshot as it is, or as the next operation will load it. */
  function Snapshot(m: Mem, head: Option<Tree>): Tree {
    var e := Ensured(m, head);
    if e.tree.Some? then e.tree.value else map[]
  }

  /** The plain map the provider stands for. */
  function View(m: Mem, head: Option<Tree>): Files {
    Overlaid(FilesOf(Snapshot(m, head)), m.overlay)
  }

  predicate Deleted(m: Mem, p: string) { p in m.overlay && m.overlay[p].None? }

  /** Between flushes: the tree can be had, its promise is settled exactly when it
      is there, and each cached blob is the snapshot's blob at that path. */
  predicate Good(m: Mem, head: Option<Tree>) {
    && Ensured(m, head).tree.Some?
    && (m.tree.Some? <==> m.loading == Resolved)
    && (forall p | p in m.cache :: m.tree.Some? && p in m.tree.value && m.tree.value[p] == BlobEntry(m.cache[p]))
  }

  /** A path a session can know: a normal one or, once a directory has been renamed
      to the root, one that begins with a slash. */
  predicate Known(p: string, rooted: bool) { Normal(p) || (rooted && "/" <= p) }

  predicate KnownKeys(m: Mem, head: Option<Tree>, rooted: bool) {
    (forall p | p in Snapshot(m, head) :: Known(p, rooted)) && (forall p | p in m.overlay :: Known(p, rooted))
  }

  predicate NormalKeys(m: Mem, head: Option<Tree>) { KnownKeys(m, head, false) }

  function Lookup(files: Files, p: string): Result<string, Error> {
    if p in files then Ok(files[p]) else Err(Enoent)
  }

  // ---- readFile ----

  function ReadMem(m: Mem, head: Option<Tree>, p: string): (Result<string, Error>, Mem) {
    if p in m.overlay then
      (if m.overlay[p].Some? then Ok(m.overlay[p].value) else Err(Enoent), m)
    else if p in m.cache then (Ok(m.cache[p]), m)
    else
      var e := Ensured(m, head);
      match TreeResult(e)
      case Err(error) => (Err(error), e)
      case Ok(tree) =>
        if p in tree && tree[p].BlobEntry?
        then (Ok(tree[p].content), e.(cache := e.cache[p := tree[p].content]))
        else (Err(Enoent), e)
  }

  /** What one path holds, given the snapshot. */
  function At(m: Mem, tree: Tree, p: string): Option<string> {
    if p in m.overlay then m.overlay[p]
    else if p in tree && tree[p].BlobEntry? then Some(tree[p].content) else None
  }

  lemma ViewAt(m: Mem, head: Option<Tree>)
    ensures forall p :: p in View(m, head) <==> At(m, Snapshot(m, head), p).Some?
    ensures forall p | p in View(m, head) :: At(m, Snapshot(m, head), p) == Some(View(m, head)[p])
  {
    forall p ensures p in View(m, head) <==> At(m, Snapshot(m, head), p).Some? {
      assert p in FilesOf(Snapshot(m, head)) <==> p in Snapshot(m, head) && Snapshot(m, head)[p].BlobEntry?;
    }
  }

  /** Two states whose paths hold the same show the same map. */
  lemma SameView(m': Mem, head: Option<Tree>, files: Files)
    requires forall p :: At(m', Snapshot(m', head), p) == (if p in files then Some(files[p]) else None)
    ensures View(m', head) == files
  {
    ViewAt(m', head);
    forall p ensures p in View(m', head) <==> p in files {
      assert At(m', Snapshot(m', head), p) == (if p in files then Some(files[p]) else None);
    }
  }

  lemma EnsuredKeeps(m: Mem, head: Option<Tree>)
    requires Good(m, head)
    ensures var e := Ensured(m, head);
            && Good(e, head) && TreeResult(e) == Ok(Snapshot(m, head)) && Snapshot(e, head) == Snapshot(m, head)
            && View(e, head) == View(m, head)
  {}

  /** Between flushes a read returns exactly what the plain map holds, and
      changes nothing it shows. */
  lemma ReadIsLookup(m: Mem, head: Option<Tree>, p: string)
    requires Good(m, head)
    ensures var (r, m') := ReadMem(m, head, p);
            r == Lookup(View(m, head), p) && Good(m', head) && View(m', head) == View(m, head)
  {
    ViewAt(m, head);
    assert p in View(m, head) <==> At(m, Snapshot(m, head), p).Some?;
    EnsuredKeeps(m, head);
    var (r, m') := ReadMem(m, head, p);
    assert Snapshot(m', head) == Snapshot(m, head);
    assert m'.overlay == m.overlay;
  }

  // ---- writeFile, appendFile, mkdir ----

  function WriteMem(m: Mem, p: string, content: string): Mem {
    m.(overlay := m.overlay[p := Some(content)], cache := m.cache - {p}, dirs := m.dirs + ParentDirs(p))
  }

  lemma WriteIsUpdate(m: Mem, head: Option<Tree>, p: string, content: string)
    requires Good(m, head)
    ensures Good(WriteMem(m, p, content), head)
    ensures View(WriteMem(m, p, content), head) == View(m, head)[p := content]
  {
    var m' := WriteMem(m, p, content);
    ViewAt(m, head);
    assert Snapshot(m', head) == Snapshot(m, head);
    SameView(m', head, View(m, head)[p := content]);
  }

  /** Any failure of the read counts as "no file yet". */
  function AppendMem(m: Mem, head: Option<Tree>, p: string, content: string): Mem {
    var (r, m') := ReadMem(m, head, p);
    WriteMem(m', p, (if r.Ok? then r.value else "") + content)
  }

  lemma AppendIsConcat(m: Mem, head: Option<Tree>, p: string, content: string)
    requires Good(m, head)
    ensures var v := View(m, head);
            && Good(AppendMem(m, head, p, content), head)
            && View(AppendMem(m, head, p, content), head) == v[p := (if p in v then v[p] else "") + content]
  {
    ReadIsLookup(m, head, p);
    var (r, m') := ReadMem(m, head, p);
    WriteIsUpdate(m', head, p, (if r.Ok? then r.value else "") + content);
  }

  // ---- dirExists, exists ----

  /** The directories that are found without looking at the tree. */
  predicate KnownDir(m: Mem, p: string) { p == "" || (p in m.dirs && !Deleted(m, p)) }

  predicate DirExists(m: Mem, tree: Tree, p: string) {
    || KnownDir(m, p)
    || (p in tree && tree[p].TreeEntry? && !Deleted(m, p))
    || exists k | k in m.overlay.Keys + tree.Keys :: Under(p, k) && !Deleted(m, k)
  }

  /** What makes a path a directory: being the root, having been made and not buried,
      being one in the snapshot and not buried, or lying above a path that is not. */
  lemma DirExistsMeans(m: Mem, tree: Tree, p: string)
    ensures DirExists(m, tree, p) <==>
              || p == ""
              || ((p in m.dirs || (p in tree && tree[p] == TreeEntry)) && !(p in m.overlay && m.overlay[p] == None))
              || exists k :: p + "/" <= k && (if k in m.overlay then m.overlay[k] != None else k in tree)
  {
    if k :| p + "/" <= k && (if k in m.overlay then m.overlay[k] != None else k in tree) {
      assert k in m.overlay.Keys + tree.Keys && Under(p, k) && !Deleted(m, k);
    }
    if k :| k in m.overlay.Keys + tree.Keys && Under(p, k) && !Deleted(m, k) {
      assert p + "/" <= k && (if k in m.overlay then m.overlay[k] != None else k in tree);
    }
  }

  /** `exists` once the tree is there. */
  predicate PathExists(m: Mem, tree: Tree, p: string) {
    if p in m.overlay then !Deleted(m, p) else p in tree || DirExists(m, tree, p)
  }

  /** A live file makes every directory above it exist. */
  lemma LiveFileMakesDir(m: Mem, head: Option<Tree>, p: string, k: string)
    requires Good(m, head) && k in View(m, head) && Under(p, k)
    ensures DirExists(m, Snapshot(m, head), p)
  {
    ViewAt(m, head);
    assert At(m, Snapshot(m, head), k).Some?;
    assert k in m.overlay.Keys + Snapshot(m, head).Keys;
  }

  // ---- rm ----

  function RmMem(m: Mem, head: Option<Tree>, p: string, recursive: bool, force: bool): (Result<(), Error>, Mem) {
    var e := Ensured(m, head);
    match TreeResult(e)
    case Err(error) =>
        (Err(if error == TreeMissing && KnownDir(e, p) && !recursive then NotEmptyDirectory else error), e)
    case Ok(tree) =>
      if DirExists(e, tree, p) then
        if !recursive then (Err(NotEmptyDirectory), e)
        else (Ok(()), e.(overlay := e.overlay + Tombstones(e, tree, p), dirs := e.dirs - {p}))
      else if !PathExists(e, tree, p) then (if force then Ok(()) else Err(Enoent), e)
      else (Ok(()), e.(overlay := e.overlay[p := None], cache := e.cache - {p}))
  }

  /** Tombstones for every known path that is p or lies under it. */
  function Tombstones(m: Mem, tree: Tree, p: string): map<string, Option<string>> {
    map k | k in m.overlay.Keys + tree.Keys && (k == p || Under(p, k)) :: None
  }

  /** The plain map without a path and everything under it. */
  function Without(files: Files, p: string): Files {
    map k | k in files && k != p && !Under(p, k) :: files[k]
  }

  /** Whether a path names a directory, whatever else it names. */
  predicate IsDir(m: Mem, head: Option<Tree>, p: string) { DirExists(Ensured(m, head), Snapshot(m, head), p) }

  /** Removal, recursive or not, takes away the path and every key that begins with
      it and a slash, or fails and takes away nothing. It is refused exactly for a
      directory without `recursive`, and a path is missing exactly when it names
      neither a file nor a directory. */
  lemma RmIsWithout(m: Mem, head: Option<Tree>, p: string, recursive: bool, force: bool)
    requires Good(m, head)
    ensures var (r, m') := RmMem(m, head, p, recursive, force);
            && Good(m', head)
            && View(m', head) == (if r.Ok? then Without(View(m, head), p) else View(m, head))
            && (r == Err(Enoent) <==> !force && p !in View(m, head) && !IsDir(m, head, p))
            && (r == Err(Enoent) ==> Without(View(m, head), p) == View(m, head))
            && (r == Err(NotEmptyDirectory) <==> !recursive && IsDir(m, head, p))
            && (r.Err? ==> r.error == Enoent || r.error == NotEmptyDirectory)
  {
    var e, tree := Ensured(m, head), Snapshot(m, head);
    EnsuredKeeps(m, head);
    ViewAt(e, head);
    assert p in View(m, head) <==> At(e, tree, p).Some?;
    if DirExists(e, tree, p) {
      if recursive {
        BuryIsWithout(e, head, p);
      }
    } else {
      NothingUnder(e, head, p);
      if PathExists(e, tree, p) {
        BuryFileIsWithout(e, head, p);
      } else {
        assert Without(View(e, head), p) == View(e, head);
      }
    }
  }

  /** What lies in a directory: for the root, everything else. */
  predicate In(dir: string, k: string) { if dir == "" then k != "" else Under(dir, k) }

  /** A recursive removal that succeeds leaves nothing at the path and nothing in
      it exactly when the path is not the root, or the root had no files. */
  lemma RmEmptiesIff(m: Mem, head: Option<Tree>, p: string, force: bool)
    requires Good(m, head) && NormalKeys(m, head) && RmMem(m, head, p, true, force).0.Ok?
    ensures var after := View(RmMem(m, head, p, true, force).1, head);
            (forall k | k in after :: k != p && !In(p, k)) <==> p != "" || View(m, head).Keys <= {""}
  {
    RmIsWithout(m, head, p, true, force);
    ViewAt(m, head);
    var files := View(m, head);
    if p == "" {
      forall k | k in files && k != "" ensures k in Without(files, p) {
        assert At(m, Snapshot(m, head), k).Some?;
        assert k in m.overlay || k in Snapshot(m, head);
        assert !("/" <= k) by {
          if "/" <= k {
            LeadingSlashNotNormal(k);
          }
        }
      }
    }
  }

  lemma NothingUnder(m: Mem, head: Option<Tree>, p: string)
    requires Good(m, head) && !DirExists(m, Snapshot(m, head), p)
    ensures forall k | k in View(m, head) :: !Under(p, k)
  {
    forall k | k in View(m, head) ensures !Under(p, k) {
      if Under(p, k) {
        LiveFileMakesDir(m, head, p, k);
      }
    }
  }

  lemma BuryIsWithout(m: Mem, head: Option<Tree>, p: string)
    requires Good(m, head) && m.tree.Some?
    ensures var m' := m.(overlay := m.overlay + Tombstones(m, m.tree.value, p), dirs := m.dirs - {p});
            Good(m', head) && View(m', head) == Without(View(m, head), p)
  {
    var tree := m.tree.value;
    var m' := m.(overlay := m.overlay + Tombstones(m, tree, p), dirs := m.dirs - {p});
    ViewAt(m, head);
    forall k ensures At(m', tree, k)
        == (if k in Without(View(m, head), p) then Some(Without(View(m, head), p)[k]) else None) {
      assert k in View(m, head) <==> At(m, tree, k).Some?;
    }
    SameView(m', head, Without(View(m, head), p));
  }

  lemma BuryFileIsWithout(m: Mem, head: Option<Tree>, p: string)
    requires Good(m, head) && m.tree.Some? && forall k | k in View(m, head) :: !Under(p, k)
    ensures var m' := m.(overlay := m.overlay[p := None], cache := m.cache - {p});
            Good(m', head) && View(m', head) == Without(View(m, head), p)
  {
    var tree := m.tree.value;
    var m' := m.(overlay := m.overlay[p := None], cache := m.cache - {p});
    ViewAt(m, head);
    forall k ensures At(m', tree, k)
        == (if k in Without(View(m, head), p) then Some(Without(View(m, head), p)[k]) else None) {
      assert k in View(m, head) <==> At(m, tree, k).Some?;
    }
    SameView(m', head, Without(View(m, head), p));
  }

  // ---- rename ----

  function SomeDirs(paths: set<string>): set<string> {
    set p, d | p in paths && d in ParentDirs(p) :: d
  }

  /** The path a moved file would land on, seen from where it lands. */
  predicate Lands(files: Files, from: string, to: string, k: string) {
    Under(to, k) && Target(to, from, k) in files && Under(from, Target(to, from, k))
  }

  function Landed(files: Files, from: string, to: string): set<string> {
    set s | s in files && Under(from, s) :: Target(from, to, s)
  }

  /** The plain map after a directory has been renamed. */
  function Moved(files: Files, from: string, to: string): Files {
    map k | k in files.Keys + Landed(files, from, to)
        && (Lands(files, from, to, k) || (k in files && !Under(from, k))) ::
      if Lands(files, from, to, k) then files[Target(to, from, k)] else files[k]
  }

  lemma LandsIff(files: Files, from: string, to: string, k: string)
    ensures Lands(files, from, to, k) <==> k in Landed(files, from, to)
  {
    if Lands(files, from, to, k) {
      TargetSource(to, from, k);
    }
    if k in Landed(files, from, to) {
      var s :| s in files && Under(from, s) && k == Target(from, to, s);
      TargetSource(from, to, s);
    }
  }

  /** Every live file under the source is at the destination plus its suffix,
      nothing live is left under the source, and no other path changes except a
      destination that was overwritten. */
  lemma MovedFiles(files: Files, from: string, to: string)
    requires Apart(from, to)
    ensures var after := Moved(files, from, to);
            && (forall s | s in files && Under(from, s) ::
                  Target(from, to, s) in after && after[Target(from, to, s)] == files[s])
            && (forall k | k in after :: !Under(from, k))
            && (forall k | k !in Landed(files, from, to) && !Under(from, k) ::
                  (k in after <==> k in files) && (k in files ==> after[k] == files[k]))
  {
    var after := Moved(files, from, to);
    forall s | s in files && Under(from, s)
      ensures Target(from, to, s) in after && after[Target(from, to, s)] == files[s]
    {
      TargetSource(from, to, s);
      LandsIff(files, from, to, Target(from, to, s));
    }
    forall k | k in after ensures !Under(from, k) {
      if Lands(files, from, to, k) {
        UnderOneOnly(from, to, k);
      }
    }
    forall k | k !in Landed(files, from, to) && !Under(from, k)
      ensures (k in after <==> k in files) && (k in files ==> after[k] == files[k])
    {
      LandsIff(files, from, to, k);
    }
  }

  lemma {:induction false} LandedSize(sources: set<string>, from: string, to: string)
    requires forall s | s in sources :: Under(from, s)
    ensures |set s | s in sources :: Target(from, to, s)| == |sources|
  {
    var image := set s | s in sources :: Target(from, to, s);
    if sources != {} {
      var x :| x in sources;
      var rest := sources - {x};
      LandedSize(rest, from, to);
      var smaller := set s | s in rest :: Target(from, to, s);
      TargetSource(from, to, x);
      if Target(from, to, x) in smaller {
        var y :| y in rest && Target(from, to, y) == Target(from, to, x);
        TargetSource(from, to, y);
        assert false;
      }
      assert image == smaller + {Target(from, to, x)};
    }
  }

  /** With no collision the number of live files stays the same. */
  lemma MovedCount(files: Files, from: string, to: string)
    requires Apart(from, to) && files.Keys !! Landed(files, from, to)
    ensures |Moved(files, from, to)| == |files|
  {
    var sources := set s | s in files && Under(from, s);
    var landed := Landed(files, from, to);
    LandedSize(sources, from, to);
    assert landed == set s | s in sources :: Target(from, to, s);
    MovedKeys(files, from, to, sources);
    CountKeys(Moved(files, from, to), files, sources, landed);
  }

  lemma MovedKeys(files: Files, from: string, to: string, sources: set<string>)
    requires Apart(from, to) && sources == set s | s in files && Under(from, s)
    ensures Moved(files, from, to).Keys == (files.Keys - sources) + Landed(files, from, to)
  {
    forall k ensures k in Moved(files, from, to) <==> k in (files.Keys - sources) + Landed(files, from, to) {
      LandsIff(files, from, to, k);
    }
  }

  lemma CountKeys(after: Files, files: Files, sources: set<string>, landed: set<string>)
    requires after.Keys == (files.Keys - sources) + landed
    requires sources <= files.Keys && files.Keys !! landed && |landed| == |sources|
    ensures |after| == |files|
  {
    assert |files.Keys - sources| == |files.Keys| - |sources|;
    assert (files.Keys - sources) !! landed;
    assert |after| == |after.Keys| && |files| == |files.Keys|;
  }

  /** `readFile` with the path as its caller wrote it. */
  function ReadPath(m: Mem, head: Option<Tree>, path: string): (Result<string, Error>, Mem) {
    match Normalize(path)
    case OutsideRepo => (Err(PathOutsideRepo), m)
    case Path(p) => ReadMem(m, head, p)
  }

  /** One round of the directory loop: what reads is written at its target and
      buried at its source, what does not read is passed over. */
  function MoveOne(m: Mem, head: Option<Tree>, from: string, to: string, key: string): Mem {
    if !Under(from, key) then m
    else
      var (r, m') := ReadPath(m, head, key);
      if r.Err? then m'
      else
        var target := Target(from, to, key);
        m'.(overlay := m'.overlay[target := Some(r.value)][key := None], dirs := m'.dirs + ParentDirs(target))
  }

  function MoveAll(m: Mem, head: Option<Tree>, from: string, to: string, order: seq<string>): Mem {
    if order == [] then m
    else MoveOne(MoveAll(m, head, from, to, order[..|order| - 1]), head, from, to, order[|order| - 1])
  }

  /** The order is the one in which the two maps list their keys. */
  function RenameMem(
    m: Mem, head: Option<Tree>, from: string, to: string, order: seq<string>): (Result<(), Error>, Mem) {
    var e := Ensured(m, head);
    match TreeResult(e)
    case Err(error) => (Err(error), e)
    case Ok(tree) =>
      if DirExists(e, tree, from) then
        var moved := MoveAll(e, head, from, to, order);
        (Ok(()), moved.(dirs := moved.dirs - {from} + {to}))
      else
        var (r, m1) := ReadMem(e, head, from);
        match r
        case Err(error) => (Err(error), m1)
        case Ok(content) =>
          var m2 := WriteMem(m1, to, content);
          (Ok(()), m2.(overlay := m2.overlay[from := None], cache := m2.cache - {from}))
  }

  predicate Lists(order: seq<string>, m: Mem, head: Option<Tree>) {
    (set k | k in order) == m.overlay.Keys + Snapshot(m, head).Keys
  }

  /** What a path holds once the files in `done` have been moved. */
  function MovedAt(files: Files, from: string, to: string, done: seq<string>, k: string): Option<string> {
    if Lands(files, from, to, k) && Target(to, from, k) in done then Some(files[Target(to, from, k)])
    else if k in files && !(Under(from, k) && k in done) then Some(files[k])
    else None
  }

  lemma MoveOneView(m: Mem, head: Option<Tree>, from: string, to: string, key: string)
    requires Good(m, head) && m.tree.Some? && (Under(from, key) ==> Normal(key))
    ensures var m', files := MoveOne(m, head, from, to, key), View(m, head);
            && Good(m', head) && m'.tree == m.tree
            && View(m', head) ==
                 if Under(from, key) && key in files then files[Target(from, to, key) := files[key]] - {key} else files
  {
    if Under(from, key) {
      ReadIsLookup(m, head, key);
      var m1 := ReadMem(m, head, key).1;
      var files := View(m, head);
      if key in files {
        ViewAt(m1, head);
        SameView(MoveOne(m, head, from, to, key), head, files[Target(from, to, key) := files[key]] - {key});
      }
    }
  }

  lemma MoveOneAt(files: Files, after: Files, from: string, to: string, done: seq<string>, key: string, k: string)
    requires Apart(from, to)
    requires forall x :: FileIn(after, x) == MovedAt(files, from, to, done, x)
    ensures var next :=
            if Under(from, key) && key in after then after[Target(from, to, key) := after[key]] - {key} else after;
            FileIn(next, k) == MovedAt(files, from, to, done + [key], k)
  {
    assert FileIn(after, key) == MovedAt(files, from, to, done, key);
    assert FileIn(after, k) == MovedAt(files, from, to, done, k);
    if Under(from, key) {
      TargetSource(from, to, key);
      UnderOneOnly(from, to, key);
      UnderOneOnly(from, to, Target(from, to, key));
    }
    if Under(to, k) {
      TargetSource(to, from, k);
      UnderOneOnly(from, to, k);
    }
  }

  function FileIn(files: Files, k: string): Option<string> {
    if k in files then Some(files[k]) else None
  }

  lemma {:induction false} MoveAllAt(m: Mem, head: Option<Tree>, from: string, to: string, order: seq<string>)
    requires Good(m, head) && m.tree.Some? && Apart(from, to)
    requires forall key | key in order && Under(from, key) :: Normal(key)
    ensures var m' := MoveAll(m, head, from, to, order);
            && Good(m', head) && m'.tree == m.tree
            && forall k :: FileIn(View(m', head), k) == MovedAt(View(m, head), from, to, order, k)
  {
    if order != [] {
      var front, key := order[..|order| - 1], order[|order| - 1];
      MoveAllAt(m, head, from, to, front);
      var mid := MoveAll(m, head, from, to, front);
      MoveOneView(mid, head, from, to, key);
      assert order == front + [key];
      var m' := MoveAll(m, head, from, to, order);
      forall k ensures FileIn(View(m', head), k) == MovedAt(View(m, head), from, to, order, k) {
        MoveOneAt(View(m, head), View(mid, head), from, to, front, key, k);
      }
    }
  }

  lemma FilesAreListed(m: Mem, head: Option<Tree>, order: seq<string>)
    requires Lists(order, m, head)
    ensures forall k | k in View(m, head) :: k in order
    ensures forall rooted | KnownKeys(m, head, rooted) :: forall k | k in order :: Known(k, rooted)
  {
    ViewAt(m, head);
    forall k | k in View(m, head) ensures k in order {
      assert At(m, Snapshot(m, head), k).Some?;
      assert k in m.overlay.Keys + Snapshot(m, head).Keys;
    }
    forall rooted, k | KnownKeys(m, head, rooted) && k in order ensures Known(k, rooted) {
      assert k in set x | x in order;
      assert k in m.overlay.Keys + Snapshot(m, head).Keys;
    }
  }

  lemma AllMoved(files: Files, from: string, to: string, order: seq<string>, k: string)
    requires forall x | x in files :: x in order
    ensures MovedAt(files, from, to, order, k) == FileIn(Moved(files, from, to), k)
  {
    LandsIff(files, from, to, k);
  }

  lemma KnownUnderIsNormal(from: string, k: string, rooted: bool)
    requires from != "" && from[0] != '/' && Under(from, k) && Known(k, rooted)
    ensures Normal(k)
  {
    assert k[0] == (from + "/")[0] == from[0];
  }

  /** A directory rename, in whatever order its files are moved, also to the root. */
  lemma RenameDirIsMoved(m: Mem, head: Option<Tree>, from: string, to: string, order: seq<string>, rooted: bool)
    requires Good(m, head) && KnownKeys(m, head, rooted) && m.tree.Some? && Apart(from, to) && Lists(order, m, head)
    requires from[0] != '/'
    ensures var m' := MoveAll(m, head, from, to, order);
            Good(m', head) && m'.tree == m.tree && View(m', head) == Moved(View(m, head), from, to)
  {
    var files := View(m, head);
    FilesAreListed(m, head, order);
    forall key | key in order && Under(from, key) ensures Normal(key) {
      KnownUnderIsNormal(from, key, rooted);
    }
    MoveAllAt(m, head, from, to, order);
    forall k { AllMoved(files, from, to, order, k); }
    SameFiles(View(MoveAll(m, head, from, to, order), head), Moved(files, from, to));
  }

  // ---- directory renames that move nothing to another place ----

  /** With no key under the source the loop passes every key over. */
  lemma {:induction false} MoveAllIdle(m: Mem, head: Option<Tree>, from: string, to: string, order: seq<string>)
    requires forall key | key in order :: !Under(from, key)
    ensures MoveAll(m, head, from, to, order) == m
  {
    if order != [] {
      MoveAllIdle(m, head, from, to, order[..|order| - 1]);
      assert order[|order| - 1] in order;
    }
  }

  /** The plain map without what is under a directory. */
  function Hollow(files: Files, dir: string): Files {
    map k | k in files && !Under(dir, k) :: files[k]
  }

  /** The files without the ones under the directory met so far. */
  function LostSoFar(files: Files, dir: string, met: seq<string>): Files {
    map k | k in files && !(Under(dir, k) && k in met) :: files[k]
  }

  lemma LoseOneMore(files: Files, left: Files, dir: string, met: seq<string>, key: string)
    requires left == LostSoFar(files, dir, met)
    ensures (if Under(dir, key) && key in left then left - {key} else left) == LostSoFar(files, dir, met + [key])
  {}

  lemma MoveSelfView(m: Mem, head: Option<Tree>, dir: string, key: string)
    requires Good(m, head) && m.tree.Some? && (Under(dir, key) ==> Normal(key))
    ensures var m', files := MoveOne(m, head, dir, dir, key), View(m, head);
            && Good(m', head) && m'.tree == m.tree
            && View(m', head) == if Under(dir, key) && key in files then files - {key} else files
  {
    hide Good, MoveOne, View, Normal;
    MoveOneView(m, head, dir, dir, key);
    assert Under(dir, key) ==> Target(dir, dir, key) == key;
  }

  lemma {:induction false} MoveAllSelf(m: Mem, head: Option<Tree>, dir: string, order: seq<string>)
    requires Good(m, head) && m.tree.Some? && forall key | key in order && Under(dir, key) :: Normal(key)
    ensures var m' := MoveAll(m, head, dir, dir, order);
            && Good(m', head) && m'.tree == m.tree
            && View(m', head) == LostSoFar(View(m, head), dir, order)
  {
    hide Good, MoveOne, View, Normal, Under;
    if order == [] {
      assert LostSoFar(View(m, head), dir, []) == View(m, head);
    } else {
      var front, key := order[..|order| - 1], order[|order| - 1];
      MoveAllSelf(m, head, dir, front);
      var mid := MoveAll(m, head, dir, dir, front);
      MoveSelfView(mid, head, dir, key);
      LoseOneMore(View(m, head), View(mid, head), dir, front, key);
      assert order == front + [key];
    }
  }

  /** A directory renamed to its own name loses every file under it, in whatever
      order they are met. */
  lemma RenameSelfEmpties(m: Mem, head: Option<Tree>, dir: string, order: seq<string>, rooted: bool)
    requires Good(m, head) && KnownKeys(m, head, rooted) && m.tree.Some? && Lists(order, m, head)
    requires dir != "" && dir[0] != '/'
    ensures var m' := MoveAll(m, head, dir, dir, order);
            Good(m', head) && m'.tree == m.tree && View(m', head) == Hollow(View(m, head), dir)
  {
    FilesAreListed(m, head, order);
    forall key | key in order && Under(dir, key) ensures Normal(key) {
      KnownUnderIsNormal(dir, key, rooted);
    }
    MoveAllSelf(m, head, dir, order);
  }

  lemma SameFiles(a: Files, b: Files)
    requires forall k :: FileIn(a, k) == FileIn(b, k)
    ensures a == b
  {
    forall k ensures k in a <==> k in b { assert FileIn(a, k) == FileIn(b, k); }
    forall k | k in a ensures a[k] == b[k] { assert FileIn(a, k) == FileIn(b, k); }
  }

  /** A file rename; with equal paths it deletes the file. */
  lemma RenameFileIsUpdate(m: Mem, head: Option<Tree>, from: string, to: string, order: seq<string>)
    requires Good(m, head) && !DirExists(Ensured(m, head), Snapshot(m, head), from)
    ensures var (r, m') := RenameMem(m, head, from, to, order);
            var v := View(m, head);
            && Good(m', head)
            && (r.Ok? <==> from in v)
            && (r.Err? ==> r == Err(Enoent))
            && View(m', head) == if from in v then v[to := v[from]] - {from} else v
  {
    EnsuredKeeps(m, head);
    var e := Ensured(m, head);
    ReadIsLookup(e, head, from);
    var (r, m1) := ReadMem(e, head, from);
    if r.Ok? {
      WriteIsUpdate(m1, head, to, r.value);
      BuryOne(WriteMem(m1, to, r.value), head, from);
    }
  }

  lemma BuryOne(m: Mem, head: Option<Tree>, p: string)
    requires Good(m, head)
    ensures var m' := m.(overlay := m.overlay[p := None], cache := m.cache - {p});
            Good(m', head) && View(m', head) == View(m, head) - {p}
  {
    var m' := m.(overlay := m.overlay[p := None], cache := m.cache - {p});
    ViewAt(m, head);
    assert Snapshot(m', head) == Snapshot(m, head);
    SameView(m', head, View(m, head) - {p});
  }

  /** A file rename keeps the content under the new name exactly when the two
      names differ. */
  lemma RenameFileKeepsContentIff(m: Mem, head: Option<Tree>, from: string, to: string, order: seq<string>)
    requires Good(m, head) && !DirExists(Ensured(m, head), Snapshot(m, head), from) && from in View(m, head)
    ensures var m' := RenameMem(m, head, from, to, order).1;
            (to in View(m', head) && View(m', head)[to] == View(m, head)[from]) <==> from != to
  {
    RenameFileIsUpdate(m, head, from, to, order);
  }

  /** A fresh provider of an existing branch starts as the branch's files. */
  lemma FreshIsBranch(tree: Tree)
    ensures Good(EMPTY, Some(tree)) && View(EMPTY, Some(tree)) == FilesOf(tree)
  {}

  // ---- which names stay directories ----

  /** A removed directory is one no longer, except the root. */
  lemma RemovedIsNoDir(m: Mem, head: Option<Tree>, p: string, force: bool)
    requires Good(m, head) && IsDir(m, head, p) && p != ""
    ensures var m' := RmMem(m, head, p, true, force).1;
            !IsDir(m', head, p)
  {
    EnsuredKeeps(m, head);
    var e, tree := Ensured(m, head), Snapshot(m, head);
    var m' := RmMem(m, head, p, true, force).1;
    assert Snapshot(m', head) == tree;
    forall k | k in m'.overlay.Keys + tree.Keys && Under(p, k) ensures Deleted(m', k) {
      assert k in e.overlay.Keys + tree.Keys;
    }
  }

  /** What a flush leaves behind when the snapshot had been loaded: no operation gets
      a tree any more, so a removal fails, with the refusal it would give a known
      directory or with the missing tree. */
  lemma RmWithoutTree(m: Mem, head: Option<Tree>, p: string, recursive: bool, force: bool)
    requires m.tree == None && m.loading == Resolved
    ensures RmMem(m, head, p, recursive, force) ==
              (if !recursive && (p == "" || (p in m.dirs && !(p in m.overlay && m.overlay[p] == None)))
               then Err(NotEmptyDirectory) else Err(TreeMissing), m)
  {}

  lemma {:induction false} MoveAllDirs(m: Mem, head: Option<Tree>, from: string, to: string, order: seq<string>)
    requires Good(m, head) && m.tree.Some? && Apart(from, to)
    requires forall key | key in order && Under(from, key) :: Normal(key)
    ensures MoveAll(m, head, from, to, order).dirs == m.dirs + MovedParents(View(m, head), from, to, order)
  {
    hide Good, View, Normal, ParentDirs, Under, MoveOne;
    if order == [] {
      assert MovedParents(View(m, head), from, to, []) == {};
    } else {
      var front, key := order[..|order| - 1], order[|order| - 1];
      MoveAllDirs(m, head, from, to, front);
      MoveAllAt(m, head, from, to, front);
      var mid := MoveAll(m, head, from, to, front);
      MoveOneDirs(mid, head, from, to, key);
      assert order == front + [key];
      assert FileIn(View(mid, head), key) == MovedAt(View(m, head), from, to, front, key);
      MovedParentsSnoc(View(m, head), View(mid, head), from, to, front, key);
    }
  }

  /** The directories above the places that moved files go to. */
  function MovedParents(files: Files, from: string, to: string, met: seq<string>): set<string> {
    set k, d | k in met && k in files && Under(from, k) && d in ParentDirs(Target(from, to, k)) :: d
  }

  lemma MovedParentsSnoc(files: Files, now: Files, from: string, to: string, met: seq<string>, key: string)
    requires Apart(from, to) && FileIn(now, key) == MovedAt(files, from, to, met, key)
    ensures MovedParents(files, from, to, met + [key])
         == MovedParents(files, from, to, met)
            + if Under(from, key) && key in now then ParentDirs(Target(from, to, key)) else {}
  {
    hide ParentDirs, Target;
    if Under(from, key) {
      UnderOneOnly(from, to, key);
    }
    var whole, before := MovedParents(files, from, to, met + [key]), MovedParents(files, from, to, met);
    var added := if Under(from, key) && key in now then ParentDirs(Target(from, to, key)) else {};
    forall d ensures d in whole <==> d in before + added {
      if d in whole {
        var k :| k in met + [key] && k in files && Under(from, k) && d in ParentDirs(Target(from, to, k));
        assert k in met || k == key;
      }
      if d in added {
        assert key in met + [key] && key in files;
      }
    }
  }

  lemma MoveOneDirs(m: Mem, head: Option<Tree>, from: string, to: string, key: string)
    requires Good(m, head) && (Under(from, key) ==> Normal(key))
    ensures MoveOne(m, head, from, to, key).dirs
         == m.dirs + if Under(from, key) && key in View(m, head) then ParentDirs(Target(from, to, key)) else {}
  {
    hide ParentDirs, Target;
    if Under(from, key) {
      ReadIsLookup(m, head, key);
      hide Good, View;
    }
  }

  /** After a directory rename its new name has been made, its old one no longer is,
      and so have the directories above every file that moved. */
  lemma RenameDirsMade(m: Mem, head: Option<Tree>, from: string, to: string, order: seq<string>, rooted: bool)
    requires Good(m, head) && KnownKeys(m, head, rooted) && m.tree.Some? && Apart(from, to) && Lists(order, m, head)
    requires from[0] != '/' && IsDir(m, head, from)
    ensures var (r, m') := RenameMem(m, head, from, to, order);
            && r == Ok(())
            && m'.dirs == (m.dirs + set s, d | s in View(m, head) && Under(from, s)
                  && d in ParentDirs(Target(from, to, s)) :: d)
                          - {from} + {to}
  {
    FilesAreListed(m, head, order);
    forall key | key in order && Under(from, key) ensures Normal(key) {
      KnownUnderIsNormal(from, key, rooted);
    }
    MoveAllDirs(m, head, from, to, order);
    AllMovedParents(View(m, head), from, to, order);
    var moved := MoveAll(m, head, from, to, order);
    EnsuredKeeps(m, head);
    assert Ensured(m, head) == m && TreeResult(m) == Ok(m.tree.value);
    hide Good, View, MoveAll, ParentDirs, Normal, DirExists, Under, Target, MovedParents;
    assert RenameMem(m, head, from, to, order) == (Ok(()), moved.(dirs := moved.dirs - {from} + {to}));
  }

  lemma AllMovedParents(files: Files, from: string, to: string, order: seq<string>)
    requires forall k | k in files :: k in order
    ensures MovedParents(files, from, to, order)
         == set s, d | s in files && Under(from, s) && d in ParentDirs(Target(from, to, s)) :: d
  {
    hide ParentDirs, Target, Under;
  }

  /** The source of a directory rename stays a directory exactly when the snapshot has
      it, or a directory in it, that no edit buried: the loop buries files alone. */
  lemma RenamedSourceIsDirIff(m: Mem, head: Option<Tree>, from: string, to: string, order: seq<string>, rooted: bool)
    requires Good(m, head) && KnownKeys(m, head, rooted) && m.tree.Some? && Apart(from, to) && Lists(order, m, head)
    requires from[0] != '/' && IsDir(m, head, from)
    ensures var m' := RenameMem(m, head, from, to, order).1;
            IsDir(m', head, from) <==>
              exists k :: (k == from || Under(from, k)) && k in m.tree.value && m.tree.value[k] == TreeEntry
                  && !Deleted(m', k)
  {
    var tree := m.tree.value;
    var m' := RenameMem(m, head, from, to, order).1;
    RenameDirsMade(m, head, from, to, order, rooted);
    RenameDirIsMoved(m, head, from, to, order, rooted);
    MovedFiles(View(m, head), from, to);
    var moved := MoveAll(m, head, from, to, order);
    assert m'.tree == m.tree && m'.overlay == moved.overlay;
    assert View(m', head) == View(moved, head);
    ViewAt(m', head);
    assert Snapshot(m', head) == tree;
    hide Good, View, RenameMem, MoveAll, Moved, ParentDirs;
    SourceDirIff(m', tree, head, from);
  }

  lemma SourceDirIff(m: Mem, tree: Tree, head: Option<Tree>, from: string)
    requires m.tree == Some(tree) && from != "" && from !in m.dirs
    requires forall k | k in View(m, head) :: !Under(from, k)
    ensures IsDir(m, head, from) <==>
              exists k :: (k == from || Under(from, k)) && k in tree && tree[k] == TreeEntry && !Deleted(m, k)
  {
    ViewAt(m, head);
    if IsDir(m, head, from) && !(from in tree && tree[from] == TreeEntry && !Deleted(m, from)) {
      var k :| k in m.overlay.Keys + tree.Keys && Under(from, k) && !Deleted(m, k);
      assert k !in View(m, head);
      assert k in tree && tree[k] == TreeEntry;
    }
    if k :| (k == from || Under(from, k)) && k in tree && tree[k] == TreeEntry && !Deleted(m, k) {
      assert k in m.overlay.Keys + tree.Keys;
    }
  }
}
