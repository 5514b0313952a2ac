/** Every sequence of operations between two flushes, against the plain map. */
module OverlayRuns {
  import opened Options
  import opened Results
  import Text
  import opened RepoPaths
  import opened OverlayFs

  datatype Op =
    | Read(path: string)
    | Write(path: string, content: string)
    | Append(path: string, content: string)
    | Mkdir(path: string)
    | Rm(path: string, recursive: bool, force: bool)
    | Rename(src: string, dest: string, order: seq<string>)

  function Unit(r: Result<(), Error>): Result<string, Error> {
    match r case Ok(_) => Ok("") case Err(error) => Err(error)
  }

  /** One call, with its paths as the caller wrote them. */
  function Apply(m: Mem, head: Option<Tree>, op: Op): (Result<string, Error>, Mem) {
    match op
    case Rename(src, dest, order) => (
      match (Normalize(src), Normalize(dest))
      case (Path(from), Path(to)) => var (r, m') := RenameMem(m, head, from, to, order); (Unit(r), m')
      case _ => (Err(PathOutsideRepo), m))
    case _ =>
      match Normalize(op.path)
      case OutsideRepo => (Err(PathOutsideRepo), m)
      case Path(p) =>
        match op
        case Read(_) => ReadMem(m, head, p)
        case Write(_, content) => (Ok(""), WriteMem(m, p, content))
        case Append(_, content) => (Ok(""), AppendMem(m, head, p, content))
        case Mkdir(_) => (Ok(""), m.(dirs := m.dirs + {p}))
        case Rm(_, recursive, force) => var (r, m') := RmMem(m, head, p, recursive, force); (Unit(r), m')
  }

  // ---- the plain map ----

  /** A plain map's recursive removal. The code leaves the root's files alone: no
      stored path begins with a slash unless a rename to the root put it there. */
  function Removed(files: Files, p: string): Files {
    if p == "" then Without(files, "") else map k | k in files && k != p && !In(p, k) :: files[k]
  }

  /** A plain map's directory rename: nothing to another place for the root, and
      everything lost for a directory renamed to itself. */
  function Relocated(files: Files, from: string, to: string): Files {
    if from == "" then files else if from == to then Hollow(files, from) else Moved(files, from, to)
  }

  /** What a plain path-to-content map answers and becomes, told whether the path
      (of a rename, the source) is a directory. */
  function Plainly(files: Files, dir: bool, op: Op): (Result<string, Error>, Files) {
    match op
    case Rename(src, dest, _) => (
      match (Normalize(src), Normalize(dest))
      case (Path(from), Path(to)) =>
        if dir then (Ok(""), Relocated(files, from, to))
        else if from in files then (Ok(""), files[to := files[from]] - {from})
        else (Err(Enoent), files)
      case _ => (Err(PathOutsideRepo), files))
    case _ =>
      match Normalize(op.path)
      case OutsideRepo => (Err(PathOutsideRepo), files)
      case Path(p) =>
        match op
        case Read(_) => (Lookup(files, p), files)
        case Write(_, content) => (Ok(""), files[p := content])
        case Append(_, content) => (Ok(""), files[p := (if p in files then files[p] else "") + content])
        case Mkdir(_) => (Ok(""), files)
        case Rm(_, recursive, force) =>
          if dir then (if recursive then (Ok(""), Removed(files, p)) else (Err(NotEmptyDirectory), files))
          else if p in files then (Ok(""), files - {p})
          else (if force then Ok("") else Err(Enoent), files)
  }

  /** Whether an operation's path, of a rename the source, is a directory. */
  predicate OnDir(m: Mem, head: Option<Tree>, op: Op) {
    match Normalize(if op.Rename? then op.src else op.path)
    case OutsideRepo => false
    case Path(p) => IsDir(m, head, p)
  }

  /** A rename the plain map can follow: of a file, of a directory to a place
      neither in nor around it, or to itself, or of the root. */
  predicate RenameFollowed(m: Mem, head: Option<Tree>, op: Op) {
    op.Rename? && Normalize(op.src).Path? && Normalize(op.dest).Path? && OnDir(m, head, op) ==>
      Followed(m, head, Normalize(op.src).path, Normalize(op.dest).path)
  }

  predicate Followed(m: Mem, head: Option<Tree>, from: string, to: string) {
    if from == "" then NormalKeys(m, head) else from == to || Apart(from, to)
  }

  /** What the order of a rename is: some listing of all keys of the two maps. */
  predicate OrderListsKeys(m: Mem, head: Option<Tree>, op: Op) {
    op.Rename? ==> Lists(op.order, Ensured(m, head), head)
  }

  lemma NothingUnderRoot(m: Mem, head: Option<Tree>, order: seq<string>)
    requires NormalKeys(m, head) && Lists(order, m, head)
    ensures forall key | key in order :: !Under("", key)
  {
    FilesAreListed(m, head, order);
    forall key | key in order ensures !Under("", key) {
      if Under("", key) {
        assert "" + "/" == "/";
        LeadingSlashNotNormal(key);
      }
    }
  }

  lemma DirsChangeNothing(m: Mem, head: Option<Tree>, dirs: set<string>)
    ensures View(m.(dirs := dirs), head) == View(m, head) && (Good(m, head) ==> Good(m.(dirs := dirs), head))
  {
    assert Snapshot(m.(dirs := dirs), head) == Snapshot(m, head);
  }

  lemma EnsuredKeys(m: Mem, head: Option<Tree>, rooted: bool)
    requires Good(m, head) && KnownKeys(m, head, rooted)
    ensures KnownKeys(Ensured(m, head), head, rooted)
  {
    EnsuredKeeps(m, head);
  }

  lemma RenameDirMatches(m: Mem, head: Option<Tree>, from: string, to: string, order: seq<string>, rooted: bool)
    requires Good(m, head) && KnownKeys(m, head, rooted) && Lists(order, Ensured(m, head), head)
    requires Normal(from) && IsDir(m, head, from) && Followed(m, head, from, to)
    ensures var (r, m') := RenameMem(m, head, from, to, order);
            Good(m', head) && (r, View(m', head)) == (Ok(()), Relocated(View(m, head), from, to))
  {
    EnsuredKeeps(m, head);
    EnsuredKeys(m, head, rooted);
    var e := Ensured(m, head);
    var moved := MoveAll(e, head, from, to, order);
    if from == "" {
      EnsuredKeys(m, head, false);
      NothingUnderRoot(e, head, order);
      MoveAllIdle(e, head, from, to, order);
    } else {
      if from[0] == '/' {
        LeadingSlashNotNormal(from);
      }
      if from == to {
        RenameSelfEmpties(e, head, from, order, rooted);
      } else {
        RenameDirIsMoved(e, head, from, to, order, rooted);
      }
    }
    DirsChangeNothing(moved, head, moved.dirs - {from} + {to});
  }

  lemma RenameMatches(m: Mem, head: Option<Tree>, op: Op, from: string, to: string, rooted: bool)
    requires Good(m, head) && KnownKeys(m, head, rooted) && OrderListsKeys(m, head, op) && RenameFollowed(m, head, op)
    requires op.Rename? && Normalize(op.src) == Path(from) && Normalize(op.dest) == Path(to)
    ensures var (r, m') := Apply(m, head, op);
            Good(m', head) && (r, View(m', head)) == Plainly(View(m, head), OnDir(m, head, op), op)
  {
    NormalizeIdempotent(op.src);
    if IsDir(m, head, from) {
      RenameDirMatches(m, head, from, to, op.order, rooted);
    } else {
      RenameFileIsUpdate(m, head, from, to, op.order);
    }
  }

  lemma RmMatches(m: Mem, head: Option<Tree>, op: Op, p: string)
    requires Good(m, head) && op.Rm? && Normalize(op.path) == Path(p)
    ensures var (r, m') := Apply(m, head, op);
            Good(m', head) && (r, View(m', head)) == Plainly(View(m, head), OnDir(m, head, op), op)
  {
    var files := View(m, head);
    RmIsWithout(m, head, p, op.recursive, op.force);
    RemovedIsWithout(files, p);
    if !IsDir(m, head, p) {
      EnsuredKeeps(m, head);
      NothingUnder(Ensured(m, head), head, p);
      FileWithout(files, p);
    }
    hide Good, View, RmMem, DirExists, Without, Removed, Normalize;
  }

  lemma RemovedIsWithout(files: Files, p: string)
    ensures Removed(files, p) == Without(files, p)
  {}

  lemma FileWithout(files: Files, p: string)
    requires forall k | k in files :: !Under(p, k)
    ensures Without(files, p) == files - {p}
  {}

  lemma PathOpMatches(m: Mem, head: Option<Tree>, op: Op, p: string)
    requires Good(m, head) && !op.Rename? && Normalize(op.path) == Path(p)
    ensures var (r, m') := Apply(m, head, op);
            Good(m', head) && (r, View(m', head)) == Plainly(View(m, head), OnDir(m, head, op), op)
  {
    match op
    case Read(_) => ReadIsLookup(m, head, p);
    case Write(_, content) => WriteIsUpdate(m, head, p, content);
    case Append(_, content) => AppendIsConcat(m, head, p, content);
    case Mkdir(_) => DirsChangeNothing(m, head, m.dirs + {p});
    case Rm(_, recursive, force) => RmMatches(m, head, op, p);
  }

  /** One operation answers and changes what it shows exactly as the plain map. */
  lemma StepMatches(m: Mem, head: Option<Tree>, op: Op, rooted: bool)
    requires Good(m, head) && KnownKeys(m, head, rooted) && OrderListsKeys(m, head, op) && RenameFollowed(m, head, op)
    ensures var (r, m') := Apply(m, head, op);
            Good(m', head) && (r, View(m', head)) == Plainly(View(m, head), OnDir(m, head, op), op)
  {
    hide Good, KnownKeys, View, RenameMem, RmMem, ReadMem, WriteMem, AppendMem;
    if op.Rename? {
      if Normalize(op.src).Path? && Normalize(op.dest).Path? {
        RenameMatches(m, head, op, Normalize(op.src).path, Normalize(op.dest).path, rooted);
      }
    } else if Normalize(op.path).Path? {
      PathOpMatches(m, head, op, Normalize(op.path).path);
    }
  }

  // ---- where a name is a file and a directory at once ----

  /** A rename of a live file succeeds, and takes the file to the new name and away
      from the old one if and only if the old name is no directory and the names
      differ. When it is a directory the file stays where it was. */
  lemma RenameMovesFileIff(m: Mem, head: Option<Tree>, op: Op, from: string, to: string, rooted: bool)
    requires Good(m, head) && KnownKeys(m, head, rooted) && OrderListsKeys(m, head, op) && RenameFollowed(m, head, op)
    requires op.Rename? && Normalize(op.src) == Path(from) && Normalize(op.dest) == Path(to) && from in View(m, head)
    ensures var (r, m') := Apply(m, head, op);
            var content, after := View(m, head)[from], View(m', head);
            && r.Ok?
            && (FileIn(after, to) == Some(content) && from !in after <==> !IsDir(m, head, from) && from != to)
            && (IsDir(m, head, from) ==> FileIn(after, from) == Some(content))
  {
    hide Good, KnownKeys, View, Apply, Normal, Normalize, Moved, Relocated, Apart, DirExists;
    NormalizeIdempotent(op.src);
    RenameMatches(m, head, op, from, to, rooted);
    if IsDir(m, head, from) {
      RelocatedKeeps(View(m, head), from, to);
    }
  }

  /** A file whose name is also the source directory's stays where it is. */
  lemma RelocatedKeeps(files: Files, from: string, to: string)
    requires from in files && Normal(from) && (from == "" || from == to || Apart(from, to))
    ensures FileIn(Relocated(files, from, to), from) == Some(files[from])
  {
    assert !Under(from, from);
    if from != "" && from != to && Under(to, from) {
      assert to == "";
      UnderStarts(to, from);
      LeadingSlashNotNormal(from);
    }
  }

  lemma BothFileAndDir(tree: Tree, p: string, content: string)
    requires Normal(p) && p != ""
    ensures var m := WriteMem(Apply(EMPTY, Some(tree), Mkdir(p)).1, p, content);
            Good(m, Some(tree)) && p in View(m, Some(tree)) && IsDir(m, Some(tree), p)
  {
    FreshIsBranch(tree);
    var made := Apply(EMPTY, Some(tree), Mkdir(p)).1;
    DirsChangeNothing(EMPTY, Some(tree), {p});
    assert made == EMPTY.(dirs := {p});
    WriteIsUpdate(made, Some(tree), p, content);
  }

  /** Such a name can be had on any branch: make a directory and write a file there.
      The file then cannot be removed without `recursive`. */
  lemma MadeThenWritten(tree: Tree, p: string, content: string)
    requires Normal(p) && p != ""
    ensures var m := Apply(Apply(EMPTY, Some(tree), Mkdir(p)).1, Some(tree), Write(p, content)).1;
            && Good(m, Some(tree)) && p in View(m, Some(tree)) && IsDir(m, Some(tree), p)
            && Apply(m, Some(tree), Rm(p, false, false)).0 == Err(NotEmptyDirectory)
  {
    BothFileAndDir(tree, p, content);
    var m := WriteMem(Apply(EMPTY, Some(tree), Mkdir(p)).1, p, content);
    RmIsWithout(m, Some(tree), p, false, false);
  }

  /** A directory renamed into itself: what is left depends on the order of the
      keys, here on whether "a/x" or "a/b/x" was written first. */
  lemma NestedRenameDependsOnOrder()
    ensures var m :=
            EMPTY.(tree := Some(map[]), loading := Resolved, overlay := map["a/x" := Some("1"), "a/b/x" := Some("2")]);
            var head := Some(map[]);
            && Good(m, head) && Lists(["a/x", "a/b/x"], m, head) && Lists(["a/b/x", "a/x"], m, head)
            && FileIn(View(MoveAll(m, head, "a", "a/b", ["a/x", "a/b/x"]), head), "a/b/x") == None
            && FileIn(View(MoveAll(m, head, "a", "a/b", ["a/b/x", "a/x"]), head), "a/b/x") == Some("1")
  {
    hide MoveAll, MoveOne, Good, View;
    var m := EMPTY.(tree := Some(map[]), loading := Resolved, overlay := map["a/x" := Some("1"), "a/b/x" := Some("2")]);
    var head := Some(map[]);
    ExampleView(m, head);
    MoveTwo(m, head, "a/x", "a/b/x");
    MoveTwo(m, head, "a/b/x", "a/x");
    assert Target("a", "a/b", "a/x") == "a/b/x" && Target("a", "a/b", "a/b/x") == "a/b/b/x";
    ExampleOrders(m, head);
  }

  lemma ExampleView(m: Mem, head: Option<Tree>)
    requires m == EMPTY.(tree := Some(map[]), loading := Resolved,
                         overlay := map["a/x" := Some("1"), "a/b/x" := Some("2")])
    ensures Good(m, head) && View(m, head) == map["a/x" := "1", "a/b/x" := "2"] && Snapshot(m, head) == map[]
  {}

  lemma ExampleOrders(m: Mem, head: Option<Tree>)
    requires m.overlay.Keys == {"a/x", "a/b/x"} && Snapshot(m, head) == map[]
    ensures Lists(["a/x", "a/b/x"], m, head) && Lists(["a/b/x", "a/x"], m, head)
  {
    forall k ensures k in {"a/x", "a/b/x"} <==> k in ["a/x", "a/b/x"] {}
    forall k ensures k in {"a/x", "a/b/x"} <==> k in ["a/b/x", "a/x"] {}
  }

  lemma ExampleKeysNormal()
    ensures Normal("a/x") && Normal("a/b/x")
  {
    var two, three := ["a", "x"], ["a", "b", "x"];
    assert Text.Join(two, '/') == "a/x" by { assert two[1..] == ["x"]; }
    assert Text.Join(three, '/') == "a/b/x" by { assert three[1..] == ["b", "x"] && ["b", "x"][1..] == ["x"]; }
    SegmentsOfJoin(two);
    SegmentsOfJoin(three);
    NormalizeBySegments("a/x");
    NormalizeBySegments("a/b/x");
  }

  lemma ExampleKeys(first: string, second: string)
    requires {first, second} == {"a/x", "a/b/x"}
    ensures Under("a", first) && Normal(first) && Under("a", second) && Normal(second)
  {
    hide Normal;
    ExampleKeysNormal();
    assert first in {"a/x", "a/b/x"} && second in {"a/x", "a/b/x"};
  }

  lemma MoveTwo(m: Mem, head: Option<Tree>, first: string, second: string)
    requires Good(m, head) && m.tree.Some? && {first, second} == {"a/x", "a/b/x"}
             && {first, second} <= View(m, head).Keys
    ensures Under("a", first) && Under("a", second)
    ensures var files := View(m, head);
            var after := files[Target("a", "a/b", first) := files[first]] - {first};
            View(MoveAll(m, head, "a", "a/b", [first, second]), head) ==
              if second in after then after[Target("a", "a/b", second) := after[second]] - {second} else after
  {
    ExampleKeys(first, second);
    hide Good, View, MoveOne, Normal, Under, Target;
    var one := MoveOne(m, head, "a", "a/b", first);
    MoveOneView(m, head, "a", "a/b", first);
    MoveOneView(one, head, "a", "a/b", second);
    assert [first, second][..1] == [first] && [first][..0] == [];
    assert MoveAll(m, head, "a", "a/b", []) == m;
    assert MoveAll(m, head, "a", "a/b", [first]) == one;
  }

  // ---- every key a session ever holds is normal ----

  lemma {:induction false} MoveAllKeys(
    m: Mem, head: Option<Tree>, from: string, to: string, order: seq<string>, names: set<string>)
    requires m.tree.Some? && m.overlay.Keys <= names
    requires forall k | k in order && Under(from, k) :: k in names && Target(from, to, k) in names
    ensures var m' := MoveAll(m, head, from, to, order);
            m'.tree == m.tree && m'.overlay.Keys <= names
  {
    if order != [] {
      MoveAllKeys(m, head, from, to, order[..|order| - 1], names);
      assert order[|order| - 1] in order;
    }
  }

  lemma RenameKeys(m: Mem, head: Option<Tree>, from: string, to: string, order: seq<string>)
    requires Good(m, head) && Lists(order, Ensured(m, head), head)
    ensures var (_, m') := RenameMem(m, head, from, to, order);
            var dir := DirExists(Ensured(m, head), Snapshot(m, head), from);
            var targets := set k | k in order && Under(from, k) :: Target(from, to, k);
            && Snapshot(m', head) == Snapshot(m, head)
            && m'.overlay.Keys <= (set k | k in order) + {from, to} + if dir then targets else {}
  {
    EnsuredKeeps(m, head);
    var e := Ensured(m, head);
    if DirExists(e, Snapshot(m, head), from) {
      var targets := set k | k in order && Under(from, k) :: Target(from, to, k);
      MoveAllKeys(e, head, from, to, order, (set k | k in order) + targets);
    }
  }

  lemma PathOpKeys(m: Mem, head: Option<Tree>, op: Op, p: string)
    requires Good(m, head) && !op.Rename? && Normalize(op.path) == Path(p)
    ensures var m' := Apply(m, head, op).1;
            Snapshot(m', head) == Snapshot(m, head) && m'.overlay.Keys <= m.overlay.Keys + Snapshot(m, head).Keys + {p}
  {
    EnsuredKeeps(m, head);
  }

  lemma AllKnown(m: Mem, m': Mem, head: Option<Tree>, names: set<string>, rooted: bool)
    requires KnownKeys(m, head, rooted) && Snapshot(m', head) == Snapshot(m, head) && m'.overlay.Keys <= names
    requires forall p | p in names :: Known(p, rooted)
    ensures KnownKeys(m', head, rooted)
  {}

  /** A directory renamed to the root. */
  predicate ToRoot(m: Mem, head: Option<Tree>, op: Op) {
    op.Rename? && Normalize(op.dest) == Path("") && OnDir(m, head, op)
  }

  lemma StepKeepsKnown(m: Mem, head: Option<Tree>, op: Op, rooted: bool)
    requires Good(m, head) && KnownKeys(m, head, rooted) && OrderListsKeys(m, head, op) && RenameFollowed(m, head, op)
    requires ToRoot(m, head, op) ==> rooted
    ensures KnownKeys(Apply(m, head, op).1, head, rooted)
  {
    if op.Rename? {
      if Normalize(op.src).Path? && Normalize(op.dest).Path? {
        NormalizeIdempotent(op.src);
        NormalizeIdempotent(op.dest);
        RenameKeepsKnown(m, head, Normalize(op.src).path, Normalize(op.dest).path, op.order, rooted);
      }
    } else if Normalize(op.path).Path? {
      NormalizeIdempotent(op.path);
      var p := Normalize(op.path).path;
      PathOpKeys(m, head, op, p);
      AllKnown(m, Apply(m, head, op).1, head, m.overlay.Keys + Snapshot(m, head).Keys + {p}, rooted);
    }
  }

  lemma TargetKnown(from: string, to: string, k: string, rooted: bool)
    requires Normal(from) && Normal(to) && from != "" && (to == "" ==> rooted)
    requires Known(k, rooted) && Under(from, k)
    ensures Known(Target(from, to, k), rooted)
  {
    if from[0] == '/' {
      LeadingSlashNotNormal(from);
    }
    KnownUnderIsNormal(from, k, rooted);
    if to == "" {
      TargetSource(from, to, k);
      assert "" + "/" == "/";
    } else {
      TargetNormal(from, to, k);
    }
  }

  lemma TargetsKnown(from: string, to: string, order: seq<string>, rooted: bool)
    requires Normal(from) && Normal(to) && (to == "" ==> rooted)
    requires from == "" ==> forall k | k in order :: !Under(from, k)
    requires forall k | k in order :: Known(k, rooted)
    ensures forall t | t in (set k | k in order && Under(from, k) :: Target(from, to, k)) :: Known(t, rooted)
  {
    hide Normal, Known, Target;
    forall k | k in order && Under(from, k) ensures Known(Target(from, to, k), rooted) {
      TargetKnown(from, to, k, rooted);
    }
  }

  lemma RenameKeepsKnown(m: Mem, head: Option<Tree>, from: string, to: string, order: seq<string>, rooted: bool)
    requires Good(m, head) && KnownKeys(m, head, rooted) && Lists(order, Ensured(m, head), head)
    requires Normal(from) && Normal(to)
    requires IsDir(m, head, from) ==> Followed(m, head, from, to) && (to == "" ==> rooted)
    ensures KnownKeys(RenameMem(m, head, from, to, order).1, head, rooted)
  {
    hide Good, Target, RenameMem, DirExists, Normal, Apart;
    EnsuredKeys(m, head, rooted);
    assert forall k | k in order :: Known(k, rooted) by {
      FilesAreListed(Ensured(m, head), head, order);
    }
    RenameKeys(m, head, from, to, order);
    var m' := RenameMem(m, head, from, to, order).1;
    var names := (set k | k in order) + {from, to};
    if IsDir(m, head, from) {
      var targets := set k | k in order && Under(from, k) :: Target(from, to, k);
      if from == "" {
        EnsuredKeys(m, head, false);
        NothingUnderRoot(Ensured(m, head), head, order);
      }
      TargetsKnown(from, to, order, rooted);
      AllKnown(m, m', head, names + targets, rooted);
    } else {
      AllKnown(m, m', head, names, rooted);
    }
  }

  predicate Trace(head: Option<Tree>, tr: seq<Mem>, ops: seq<Op>) {
    && |tr| == |ops| + 1
    && forall i {:trigger ops[i]} | 0 <= i < |ops| ::
         OrderListsKeys(tr[i], head, ops[i]) && RenameFollowed(tr[i], head, ops[i])
             && tr[i + 1] == Apply(tr[i], head, ops[i]).1
  }

  /** Cached blobs stay the snapshot's, and the known paths normal as long as no
      directory is renamed to the root. */
  lemma {:induction false} TraceIsGood(head: Option<Tree>, tr: seq<Mem>, ops: seq<Op>, i: nat, rooted: bool)
    requires Trace(head, tr, ops) && Good(tr[0], head) && KnownKeys(tr[0], head, rooted) && i < |tr|
    requires rooted || forall j {:trigger ops[j]} | 0 <= j < i :: !ToRoot(tr[j], head, ops[j])
    ensures Good(tr[i], head) && KnownKeys(tr[i], head, rooted)
  {
    if i > 0 {
      TraceIsGood(head, tr, ops, i - 1, rooted);
      var m, op, m' := tr[i - 1], ops[i - 1], tr[i];
      assert m' == Apply(m, head, op).1;
      assert Good(m', head) by { StepMatches(m, head, op, rooted); }
      assert KnownKeys(m', head, rooted) by { StepKeepsKnown(m, head, op, rooted); }
    }
  }

  /** Between flushes, through every sequence of operations, each answer and each
      next state are those of the plain map. */
  lemma TraceMatchesPlainMap(head: Option<Tree>, tr: seq<Mem>, ops: seq<Op>, i: nat)
    requires Trace(head, tr, ops) && Good(tr[0], head) && KnownKeys(tr[0], head, true) && i < |ops|
    ensures Good(tr[i], head) && Good(tr[i + 1], head)
    ensures (Apply(tr[i], head, ops[i]).0, View(tr[i + 1], head))
            == Plainly(View(tr[i], head), OnDir(tr[i], head, ops[i]), ops[i])
  {
    TraceIsGood(head, tr, ops, i, true);
    StepMatches(tr[i], head, ops[i], true);
  }
}
