/** `flush`: what it commits, what it leaves pending, and what later reads see. */
module OverlayFlush {
  import opened Options
  import opened Results
  import Text
  import opened RepoPaths
  import opened OverlayFs
  import opened OverlayRuns

  type Edits = map<string, Option<string>>
  type Heads = map<string, Tree>

  predicate IsReserved(prefix: Option<string>, p: string) {
    prefix.Some? && (p == prefix.value || Under(prefix.value, p))
  }

  function Committable(overlay: Edits, prefix: Option<string>): Edits {
    map p | p in overlay && !IsReserved(prefix, p) :: overlay[p]
  }

  function Kept(overlay: Edits, prefix: Option<string>): Edits {
    map p | p in overlay && IsReserved(prefix, p) :: overlay[p]
  }

  /** The recursive listing of a commit that holds these files. */
  function TreeOf(files: Files): Tree {
    map p | p in files.Keys + SomeDirs(files.Keys) :: if p in files then BlobEntry(files[p]) else TreeEntry
  }

  lemma FilesOfTree(files: Files)
    ensures FilesOf(TreeOf(files)) == files
  {}

  /** `createTree` on a base tree: listed blobs replaced, null shas removed. */
  function Commit(base: Tree, edits: Edits): Tree {
    TreeOf(Overlaid(FilesOf(base), edits))
  }

  /** The tree the commit is built on; a missing target starts at the own branch. */
  function BaseOf(heads: Heads, own: string, target: string): Tree
    requires own in heads
  {
    if target in heads then heads[target] else heads[own]
  }

  function FlushMem(
    m: Mem, heads: Heads, own: string, branch: Option<string>, prefix: Option<string>)
    : (Result<Tree, Error>, Mem, Heads)
  {
    var edits := Committable(m.overlay, prefix);
    var target := if branch.Some? then branch.value else own;
    if edits == map[] then (Err(NothingToCommit), m, heads)
    else if own !in heads then (Err(RefMissing), m, heads)
    else
      var commit := Commit(BaseOf(heads, own, target), edits);
      (Ok(commit), m.(overlay := m.overlay - edits.Keys, tree := None), heads[target := commit])
  }

  /** A flush succeeds exactly when there is something to commit and the own
      branch exists. The target then holds its base with the non-reserved edits
      and nothing else applied, every other branch is as it was, and exactly the
      reserved edits are still pending. A failed flush changes nothing. */
  lemma FlushCommitsTheEdits(m: Mem, heads: Heads, own: string, branch: Option<string>, prefix: Option<string>)
    ensures var (r, m', heads') := FlushMem(m, heads, own, branch, prefix);
            var target := if branch.Some? then branch.value else own;
            && (r.Ok? <==> own in heads && exists p :: p in m.overlay && !IsReserved(prefix, p))
            && (r.Err? ==> m' == m && heads' == heads)
            && (r.Ok? ==>
                  && heads'.Keys == heads.Keys + {target}
                  && (forall b | b in heads && b != target :: heads'[b] == heads[b])
                  && m'.overlay == Kept(m.overlay, prefix)
                  && forall p :: FileAt(heads'[target], p) ==
                       if p in m.overlay && !IsReserved(prefix, p) then m.overlay[p]
                           else FileAt(BaseOf(heads, own, target), p))
  {
    var edits := Committable(m.overlay, prefix);
    var target := if branch.Some? then branch.value else own;
    if edits == map[] {
      forall p | p in m.overlay ensures IsReserved(prefix, p) {
        assert p !in edits;
      }
    } else {
      var p :| p in edits;
      assert p in m.overlay && !IsReserved(prefix, p);
      if own in heads {
        CommittedAt(BaseOf(heads, own, target), m.overlay, prefix);
        assert m.overlay - edits.Keys == Kept(m.overlay, prefix);
      }
    }
  }

  /** What a successful flush does to each path, by the text of the reserved prefix:
      the prefix itself and whatever begins with it and a slash stay out of the
      commit and pending; every other pending path, a name that merely begins with
      the prefix included, is committed and pending no more; without a prefix all
      of them are. It succeeds exactly when some pending path is not kept back. */
  lemma FlushKeepsReservedBack(
    m: Mem, heads: Heads, own: string, branch: Option<string>, prefix: Option<string>, p: string)
    requires own in heads
    ensures var (r, m', heads') := FlushMem(m, heads, own, branch, prefix);
            var target := if branch.Some? then branch.value else own;
            && (r.Ok? <==> exists q ::
                  q in m.overlay && (prefix == None || (q != prefix.value && !(prefix.value + "/" <= q))))
            && (r.Ok? && p in m.overlay ==>
                  if prefix != None && (p == prefix.value || prefix.value + "/" <= p)
                  then FileAt(heads'[target], p) == FileAt(if target in heads then heads[target] else heads[own], p)
                       && p in m'.overlay && m'.overlay[p] == m.overlay[p]
                  else FileAt(heads'[target], p) == m.overlay[p] && p !in m'.overlay)
            && (r.Ok? && p !in m.overlay ==>
                  && FileAt(heads'[target], p) == FileAt(if target in heads then heads[target] else heads[own], p)
                  && p !in m'.overlay)
  {
    FlushCommitsTheEdits(m, heads, own, branch, prefix);
    var (r, m', heads') := FlushMem(m, heads, own, branch, prefix);
    if r.Ok? {
      var q :| q in m.overlay && !IsReserved(prefix, q);
      assert prefix == None || (q != prefix.value && !(prefix.value + "/" <= q));
    }
    if q :| q in m.overlay && (prefix == None || (q != prefix.value && !(prefix.value + "/" <= q))) {
      assert !IsReserved(prefix, q);
    }
  }

  /** The pending changes, by the text of the prefix. */
  lemma CommittableKeys(overlay: Edits, prefix: Option<string>)
    ensures Committable(overlay, prefix).Keys
         == set p | p in overlay && (prefix == None || (p != prefix.value && !(prefix.value + "/" <= p)))
    ensures forall p | p in Committable(overlay, prefix) :: Committable(overlay, prefix)[p] == overlay[p]
  {}

  function FileAt(tree: Tree, p: string): Option<string> {
    if p in tree && tree[p].BlobEntry? then Some(tree[p].content) else None
  }

  lemma CommittedAt(base: Tree, overlay: Edits, prefix: Option<string>)
    ensures var commit := Commit(base, Committable(overlay, prefix));
            forall p :: FileAt(commit, p) == if p in overlay && !IsReserved(prefix, p) then overlay[p]
                else FileAt(base, p)
  {
    var edits := Committable(overlay, prefix);
    var commit := Commit(base, edits);
    forall p ensures FileAt(commit, p) == if p in overlay && !IsReserved(prefix, p) then overlay[p]
        else FileAt(base, p) {
      FilesOfTree(Overlaid(FilesOf(base), edits));
      assert FileAt(commit, p).Some? <==> p in FilesOf(commit);
      assert p in FilesOf(base) <==> FileAt(base, p).Some?;
    }
  }

  // ---- the own branch, not moved by anyone else ----

  /** With the branch still at the snapshot, the commit is the map the session
      saw, except that reserved paths stay as the branch had them. */
  lemma CommitIsTheView(m: Mem, heads: Heads, own: string, prefix: Option<string>)
    requires own in heads && Good(m, Some(heads[own])) && Snapshot(m, Some(heads[own])) == heads[own]
    requires FlushMem(m, heads, own, None, prefix).0.Ok?
    ensures var (r, _, heads') := FlushMem(m, heads, own, None, prefix);
            var view := View(m, Some(heads[own]));
            && r == Ok(heads'[own])
            && forall p :: FileAt(heads'[own], p) ==
                 if IsReserved(prefix, p) then FileAt(heads[own], p) else if p in view then Some(view[p]) else None
  {
    ViewAt(m, Some(heads[own]));
    CommittedAt(heads[own], m.overlay, prefix);
  }

  /** Every read through state m answers what the map holds. */
  ghost predicate ReadsAgree(m: Mem, head: Option<Tree>, files: Files) {
    forall p :: ReadMem(m, head, p).0 == Lookup(files, p)
  }

  /** A path that no finite set of known paths contains. */
  lemma {:induction false} UnknownPath(known: set<string>) returns (p: string)
    ensures p !in known
    ensures forall k | k in known :: |k| < |p|
  {
    if known == {} {
      p := "";
    } else {
      var k :| k in known;
      var q := UnknownPath(known - {k});
      p := q + k + "/";
    }
  }

  /** Reads after a flush agree with the map seen before it exactly when no
      earlier operation had loaded the snapshot: the settled promise is not
      forgotten with the tree, so nothing loads the new commit. */
  lemma ReadsAfterFlushIff(m: Mem, heads: Heads, own: string, prefix: Option<string>)
    requires own in heads && Good(m, Some(heads[own])) && Snapshot(m, Some(heads[own])) == heads[own]
    requires FlushMem(m, heads, own, None, prefix).0.Ok?
    ensures var (_, m', heads') := FlushMem(m, heads, own, None, prefix);
            ReadsAgree(m', Some(heads'[own]), View(m, Some(heads[own]))) <==> m.loading == NotStarted
  {
    var (_, m', heads') := FlushMem(m, heads, own, None, prefix);
    var view := View(m, Some(heads[own]));
    if m.loading == NotStarted {
      FreshReadsAgreeIff(m, heads, own, prefix);
      assert m' == Forgotten(m');
    } else {
      var p := UnknownPath(m'.overlay.Keys + m'.cache.Keys);
      assert ReadMem(m', Some(heads'[own]), p).0 == Err(TreeMissing) != Lookup(view, p);
    }
  }

  /** The state with the promise forgotten together with the tree. */
  function Forgotten(m: Mem): Mem { m.(tree := None, loading := NotStarted) }

  /** No cached blob lies under a pending, committable edit that says otherwise. */
  predicate NothingStale(m: Mem, prefix: Option<string>) {
    forall p | p in m.cache && p in m.overlay && !IsReserved(prefix, p) :: m.overlay[p] == Some(m.cache[p])
  }

  /** Were the promise forgotten too, reads after the flush would agree with the
      map seen before it exactly when no stale cached blob was left. */
  lemma FreshReadsAgreeIff(m: Mem, heads: Heads, own: string, prefix: Option<string>)
    requires own in heads && Good(m, Some(heads[own])) && Snapshot(m, Some(heads[own])) == heads[own]
    requires FlushMem(m, heads, own, None, prefix).0.Ok?
    ensures var (_, m', heads') := FlushMem(m, heads, own, None, prefix);
            ReadsAgree(Forgotten(m'), Some(heads'[own]), View(m, Some(heads[own]))) <==> NothingStale(m, prefix)
  {
    var (_, m', heads') := FlushMem(m, heads, own, None, prefix);
    var head, head', view := Some(heads[own]), Some(heads'[own]), View(m, Some(heads[own]));
    ViewAt(m, head);
    CommittedAt(heads[own], m.overlay, prefix);
    assert m.overlay - Committable(m.overlay, prefix).Keys == Kept(m.overlay, prefix);
    forall p ensures ReadMem(Forgotten(m'), head', p).0 == Lookup(view, p) <==>
                     !(p in m.cache && p in m.overlay && !IsReserved(prefix, p) && m.overlay[p] != Some(m.cache[p]))
    {
      FreshReadAt(m, heads[own], heads'[own], m'.overlay, prefix, p);
    }
    if NothingStale(m, prefix) {
      forall p ensures ReadMem(Forgotten(m'), head', p).0 == Lookup(view, p) {}
    }
    if ReadsAgree(Forgotten(m'), head', view) {
      forall p | p in m.cache && p in m.overlay && !IsReserved(prefix, p) ensures m.overlay[p] == Some(m.cache[p]) {
        assert ReadMem(Forgotten(m'), head', p).0 == Lookup(view, p);
      }
    }
  }

  lemma FreshReadAt(m: Mem, base: Tree, commit: Tree, overlay: Edits, prefix: Option<string>, p: string)
    requires Good(m, Some(base)) && Snapshot(m, Some(base)) == base
    requires overlay == Kept(m.overlay, prefix)
    requires FileAt(commit, p) == if p in m.overlay && !IsReserved(prefix, p) then m.overlay[p] else FileAt(base, p)
    ensures ReadMem(Mem(None, NotStarted, m.cache, overlay, m.dirs), Some(commit), p).0
            == Lookup(View(m, Some(base)), p) <==>
            !(p in m.cache && p in m.overlay && !IsReserved(prefix, p) && m.overlay[p] != Some(m.cache[p]))
  {
    ViewAt(m, Some(base));
    assert p in View(m, Some(base)) <==> At(m, base, p).Some?;
  }

  // ---- which operations leave something stale ----

  predicate CacheApart(m: Mem) { m.cache.Keys !! m.overlay.Keys }

  /** The two operations that bury cached blobs without evicting them. */
  predicate MovesDirectory(m: Mem, head: Option<Tree>, op: Op) {
    match op
    case Rename(src, _, _) => Normalize(src).Path?
        && DirExists(Ensured(m, head), Snapshot(m, head), Normalize(src).path)
    case Rm(path, _, _) => Normalize(path).Path? && DirExists(Ensured(m, head), Snapshot(m, head), Normalize(path).path)
    case _ => false
  }

  lemma ApartIsNothingStale(m: Mem, prefix: Option<string>)
    requires CacheApart(m)
    ensures NothingStale(m, prefix)
  {
    forall p | p in m.cache ensures p !in m.overlay {
      assert p in m.cache.Keys;
    }
  }

  lemma {:induction false} FileOperationsKeepApart(head: Option<Tree>, tr: seq<Mem>, ops: seq<Op>, i: nat)
    requires Trace(head, tr, ops) && Good(tr[0], head) && KnownKeys(tr[0], head, true) && CacheApart(tr[0]) && i < |tr|
    requires forall j {:trigger ops[j]} | 0 <= j < |ops| :: !MovesDirectory(tr[j], head, ops[j])
    ensures CacheApart(tr[i])
  {
    if i > 0 {
      FileOperationsKeepApart(head, tr, ops, i - 1);
      var m, op := tr[i - 1], ops[i - 1];
      assert Good(m, head) by { TraceIsGood(head, tr, ops, i - 1, true); }
      assert tr[i] == Apply(m, head, op).1;
      FileOperationKeepsApart(m, head, op);
    }
  }

  /** Any run without a directory removal or rename leaves nothing stale. */
  lemma FileOperationsLeaveNothingStale(head: Option<Tree>, tr: seq<Mem>, ops: seq<Op>, i: nat, prefix: Option<string>)
    requires Trace(head, tr, ops) && Good(tr[0], head) && KnownKeys(tr[0], head, true) && CacheApart(tr[0]) && i < |tr|
    requires forall j {:trigger ops[j]} | 0 <= j < |ops| :: !MovesDirectory(tr[j], head, ops[j])
    ensures NothingStale(tr[i], prefix)
  {
    FileOperationsKeepApart(head, tr, ops, i);
    ApartIsNothingStale(tr[i], prefix);
  }

  lemma FileOperationKeepsApart(m: Mem, head: Option<Tree>, op: Op)
    requires Good(m, head) && CacheApart(m) && !MovesDirectory(m, head, op)
    ensures CacheApart(Apply(m, head, op).1)
  {
    match op {
      case Rename(src, dest, _) =>
        if Normalize(src).Path? && Normalize(dest).Path? {
          EnsuredKeeps(m, head);
          ReadKeepsApart(Ensured(m, head), head, Normalize(src).path);
        }
      case _ =>
        if Normalize(op.path).Path? {
          EnsuredKeeps(m, head);
          ReadKeepsApart(m, head, Normalize(op.path).path);
        }
    }
  }

  lemma ReadKeepsApart(m: Mem, head: Option<Tree>, p: string)
    requires CacheApart(m)
    ensures CacheApart(ReadMem(m, head, p).1)
  {}

  /** A recursive removal of a directory with a file that was read leaves one. */
  lemma RemovalLeavesStale(tree: Tree, dir: string, p: string)
    requires Under(dir, p) && p in tree && tree[p].BlobEntry? && Normalize(dir) == Path(dir)
    ensures var m := ReadMem(EMPTY, Some(tree), p).1;
            !NothingStale(Apply(m, Some(tree), Rm(dir, true, false)).1, None)
  {
    var m := ReadMem(EMPTY, Some(tree), p).1;
    assert p in m.overlay.Keys + tree.Keys && Under(dir, p) && !Deleted(m, p);
    assert DirExists(m, tree, dir);
    var m' := Apply(m, Some(tree), Rm(dir, true, false)).1;
    assert p in m'.cache && p in m'.overlay && !IsReserved(None, p);
  }

  // ---- what follows from the two differences ----

  /** After a flush in a session that had loaded its snapshot, appending to a file
      it has not cached replaces the file, and the next flush commits that. */
  lemma AppendAfterFlushReplaces(m: Mem, heads: Heads, own: string, p: string, more: string)
    requires own in heads && Good(m, Some(heads[own])) && m.loading == Resolved
    requires FlushMem(m, heads, own, None, None).0.Ok? && p !in m.cache
    ensures var (_, m1, heads1) := FlushMem(m, heads, own, None, None);
            var m2 := AppendMem(m1, Some(heads1[own]), p, more);
            var (r, _, heads3) := FlushMem(m2, heads1, own, None, None);
            r.Ok? && FileAt(heads3[own], p) == Some(more)
  {
    FlushCommitsTheEdits(m, heads, own, None, None);
    var (_, m1, heads1) := FlushMem(m, heads, own, None, None);
    var m2 := AppendMem(m1, Some(heads1[own]), p, more);
    assert p !in m1.overlay && "" + more == more;
    assert m2.overlay[p] == Some(more);
    FlushCommitsTheEdits(m2, heads1, own, None, None);
  }

  /** A moved name can be written exactly when it was not moved to the root: no
      written path normalises to "/name". */
  lemma TargetReachableIff(from: string, to: string, s: string)
    requires Normal(from) && Normal(to) && Normal(s) && from != "" && Under(from, s)
    ensures (exists input :: Normalize(input) == Path(Target(from, to, s))) <==> to != ""
  {
    var k := Target(from, to, s);
    if to != "" {
      TargetNormal(from, to, s);
      assert Normalize(k) == Path(k);
    } else {
      if input :| Normalize(input) == Path(k) {
        NormalizeIdempotent(input);
        LeadingSlashNotNormal(k);
        assert false;
      }
    }
  }

  /** After a directory rename each live file of the directory is at its target, and
      is read from every path that means the target; there is such a path exactly
      when the directory was not renamed to the root. */
  lemma RenamedReachableIff(m: Mem, head: Option<Tree>, op: Op, from: string, to: string, s: string, rooted: bool)
    requires Good(m, head) && KnownKeys(m, head, rooted) && OrderListsKeys(m, head, op)
    requires op.Rename? && Normalize(op.src) == Path(from) && Normalize(op.dest) == Path(to) && Apart(from, to)
    requires s in View(m, head) && Under(from, s)
    ensures var (r, m') := Apply(m, head, op);
            var target, content := Target(from, to, s), View(m, head)[s];
            && r.Ok? && FileIn(View(m', head), target) == Some(content)
            && (forall input | Normalize(input) == Path(target) :: ReadPath(m', head, input).0 == Ok(content))
            && ((exists input :: Normalize(input) == Path(target)) <==> to != "")
  {
    hide Good, View, Normal, Normalize, Apply, Target, Known, Moved, ReadPath;
    NormalizeIdempotent(op.src);
    NormalizeIdempotent(op.dest);
    RenamedFileAt(m, head, op, from, to, s, rooted);
    var m', target := Apply(m, head, op).1, Target(from, to, s);
    forall input | Normalize(input) == Path(target) ensures ReadPath(m', head, input).0 == Ok(View(m, head)[s]) {
      ReadIs(m', head, input, target);
    }
    LiveIsNormal(m, head, from, s, rooted);
    TargetReachableIff(from, to, s);
  }

  lemma RenamedFileAt(m: Mem, head: Option<Tree>, op: Op, from: string, to: string, s: string, rooted: bool)
    requires Good(m, head) && KnownKeys(m, head, rooted) && OrderListsKeys(m, head, op)
    requires op.Rename? && Normalize(op.src) == Path(from) && Normalize(op.dest) == Path(to) && Apart(from, to)
    requires s in View(m, head) && Under(from, s)
    ensures var (r, m') := Apply(m, head, op);
            r.Ok? && Good(m', head) && FileIn(View(m', head), Target(from, to, s)) == Some(View(m, head)[s])
  {
    EnsuredKeeps(m, head);
    LiveFileMakesDir(Ensured(m, head), head, from, s);
    hide Good, View, Normalize, Apply, Known, Moved, Target, DirExists;
    RenameMatches(m, head, op, from, to, rooted);
    MovedDirFiles(View(m, head), from, to, s);
  }

  lemma MovedDirFiles(files: Files, from: string, to: string, s: string)
    requires Apart(from, to) && s in files && Under(from, s)
    ensures FileIn(Relocated(files, from, to), Target(from, to, s)) == Some(files[s])
  {
    MovedFiles(files, from, to);
  }

  lemma ReadIs(m: Mem, head: Option<Tree>, input: string, p: string)
    requires Good(m, head) && p in View(m, head) && Normalize(input) == Path(p)
    ensures ReadPath(m, head, input).0 == Ok(View(m, head)[p])
  {
    ReadIsLookup(m, head, p);
  }

  lemma LiveIsNormal(m: Mem, head: Option<Tree>, from: string, s: string, rooted: bool)
    requires KnownKeys(m, head, rooted) && s in View(m, head) && Normal(from) && from != "" && Under(from, s)
    ensures Normal(s)
  {
    ViewAt(m, head);
    assert s in m.overlay || s in Snapshot(m, head);
    LeadingName(from);
    KnownUnderIsNormal(from, s, rooted);
  }

  lemma LeadingName(p: string)
    requires Normal(p) && p != ""
    ensures p[0] != '/'
  {
    if p[0] == '/' {
      LeadingSlashNotNormal(p);
    }
  }
}
