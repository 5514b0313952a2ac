/** Writing a review copy of a project into its output directory. */
module Review {
  import opened Options
  import opened Results
  import Text
  import UnifiedDiff
  import opened ReviewTree
  import opened ReviewCounts

  const MARKER := ".foundry-doctor-review"
  const MANIFEST := "annotations-manifest.json"
  const DIFF := "annotations.diff"
  const IGNORE := ".gitignore"
  const MARKER_TEXT := "This directory is a generated Foundry Doctor review copy (.review). Do not deploy it.\n"
  const MAX_TREE: nat := 268435456

  datatype Copied = Copied(rel: Path, reviewRel: Path)

  datatype ManifestFile = ManifestFile(path: Path, reviewPath: Path, style: Style, annotationCount: nat)

  datatype Manifest = Manifest(reviewDir: Path, files: seq<ManifestFile>, annotations: seq<Entry>, total: nat,
      inline: nat, manifestOnly: nat)

  datatype Request = Request(out: Path, azureYaml: Option<Path>, infra: Option<Path>, entries: seq<Entry>,
      writeDiff: bool)

  /** What is not modelled, as functions: whether a manifest is this tool's, which
      files are left out of a copy, the comment inserters and the JSON encoder. */
  datatype Tools = Tools(
    ours: string -> bool, skipped: (Path, nat) -> bool,
    comment: (Style, string, seq<Comment>) -> Option<string>, encode: Manifest -> Option<string>)

  // ---- the output directory ----

  predicate Overlap(a: Path, b: Path) { a == [] || b == [] || a <= b || b <= a }

  predicate Placed(req: Request) {
    (req.azureYaml.Some? ==> !Overlap(req.out, req.azureYaml.value))
        && (req.infra.Some? ==> !Overlap(req.out, req.infra.value))
  }

  /** No file stands where the output's ancestors should be. */
  predicate ParentsAreDirs(files: Files, out: Path) {
    forall k | 1 <= k < |out| :: out[..k] in files ==> files[out[..k]] == Dir
  }

  predicate IsFile(files: Files, p: Path) { p in files && files[p].File? }

  /** `ownedReviewDir`: empty, marked, or holding this tool's manifest. */
  predicate Owned(files: Files, out: Path, ours: string -> bool) {
    || (forall p | p in files && Within(p, out) :: p == out)
    || IsFile(files, out + [MARKER])
    || (IsFile(files, out + [MANIFEST]) && ours(files[out + [MANIFEST]].data))
  }

  /** What a review may be written over. */
  predicate Replaceable(files: Files, out: Path, ours: string -> bool) {
    out !in files || (files[out] == Dir && Owned(files, out, ours))
  }

  predicate Accepted(files: Files, req: Request, ours: string -> bool) {
    Placed(req) && ParentsAreDirs(files, req.out) && Replaceable(files, req.out, ours)
  }

  // ---- what a review may change ----

  /** Nothing outside the output differs, but missing ancestors of it may have been
      made. */
  ghost predicate Confined(before: Files, after: Files, out: Path) {
    && (forall p | p in before && !Within(p, out) :: p in after && after[p] == before[p])
    && (forall p | p in after && !Within(p, out) && p !in before :: after[p] == Dir && p <= out)
  }

  ghost predicate NothingLeft(files: Files, out: Path) { forall p | p in files :: !Within(p, out) }

  lemma ConfinedSteps(before: Files, made: Files, after: Files, out: Path)
    requires OnlyMade(Without(before, out), made, out) && OnlyWithin(made, after, out)
    ensures Confined(before, after, out)
  {
    forall p | p in before && !Within(p, out) ensures p in after && after[p] == before[p] {
      assert p in Without(before, out);
    }
    forall p | p in after && !Within(p, out) && p !in before ensures after[p] == Dir && p <= out {
      assert p in made && p !in Without(before, out);
    }
  }

  lemma RemovedConfined(before: Files, after: Files, out: Path)
    requires Confined(before, after, out)
    ensures Confined(before, Without(after, out), out) && NothingLeft(Without(after, out), out)
  {}

  /** Every path's directories are there, as in any file system. */
  ghost predicate Closed(files: Files) {
    forall p, k | p in files && 1 <= k < |p| :: p[..k] in files && files[p[..k]] == Dir
  }

  lemma AncestorIsThere(files: Files, p: Path, out: Path)
    requires Closed(files) && p in files && Within(p, out) && out != []
    ensures out in files
  {
    var prefix := p[..|out|];
    assert prefix == out && (|p| == |out| ==> p == out);
    assert |p| > |out| ==> prefix in files;
  }

  lemma AbsentIsEmpty(files: Files, out: Path)
    requires Closed(files) && out !in files && out != []
    ensures NothingLeft(files, out) && Without(files, out) == files
  {
    forall p | p in files ensures !Within(p, out) {
      if Within(p, out) {
        AncestorIsThere(files, p, out);
      }
    }
  }

  lemma MadeWithin(base: Files, after: Files, out: Path)
    requires OnlyMade(base, after, out) && NothingLeft(base, out)
    ensures forall p | p in after && Within(p, out) :: p == out && after[p] == Dir
  {
    forall p | p in after && Within(p, out) ensures p == out && after[p] == Dir {
      assert p !in base;
    }
  }

  /** Whether the disk holds out until the output is marked: the missing directories
      and the marker are written. */
  predicate Resets(files: Files, budget: nat, out: Path, ours: string -> bool) {
    Replaceable(files, out, ours) && Unobstructed(Without(files, out), out)
        && budget > DirsToMake(Without(files, out), out)
  }

  predicate Marked(files: Files, out: Path) {
    out + [MARKER] in files && files[out + [MARKER]] == File(MARKER_TEXT)
  }

  lemma MarkedIsReplaceable(files: Files, out: Path, ours: string -> bool)
    requires Rooted(files, out) && Marked(files, out) && out != []
    ensures Replaceable(files, out, ours)
  {
    assert out[..|out|] == out;
  }

  /** `resetReviewDir`: an empty marked directory, or a refusal; a refusal for what
      stands there changes nothing. A directory is left behind by a failure exactly
      when the disk fails at the marker. */
  method ResetReviewDir(root: Root, out: Path, ours: string -> bool) returns (r: Result<(), Error>)
    requires out != [] && Closed(root.files)
    modifies root
    ensures !Replaceable(old(root.files), out, ours) ==> r == Err(UnsafeOutput) && root.files == old(root.files)
    ensures Confined(old(root.files), root.files, out)
    ensures r.Ok? <==> Resets(old(root.files), old(root.budget), out, ours)
    ensures Replaceable(old(root.files), out, ours) && r.Err? ==> forall p | p in root.files && Within(p, out) ::
            p == out
    ensures Replaceable(old(root.files), out, ours) && Unobstructed(Without(old(root.files), out), out) && r.Err? ==>
              r == Err(Io)
                  && (out in root.files <==> old(root.budget) == DirsToMake(Without(old(root.files), out), out))
    ensures r.Ok? ==> Rooted(root.files, out) && Marked(root.files, out)
    ensures r.Ok? ==> forall p | p in root.files && Within(p, out) :: p == out || p == out + [MARKER]
  {
    ghost var before := root.files;
    if out in root.files {
      if root.files[out].File? {
        return Err(UnsafeOutput);
      }
      if !Owned(root.files, out, ours) {
        return Err(UnsafeOutput);
      }
      root.RemoveAll(out);
    } else {
      AbsentIsEmpty(root.files, out);
    }
    ghost var base := root.files;
    assert base == Without(before, out) && NothingLeft(base, out);
    r := root.MkdirAll(out);
    MadeWithin(base, root.files, out);
    ghost var made := root.files;
    ConfinedSteps(before, made, made, out);
    if r.Err? {
      return;
    }
    assert out in made by { assert out[..|out|] == out; }
    r := root.WriteNewFile(out + [MARKER], MARKER_TEXT);
    RootedStays(made, root.files, out, out + [MARKER]);
    ConfinedSteps(before, made, root.files, out);
  }

  /** A write below the rooted directory keeps it rooted. */
  lemma RootedStays(before: Files, after: Files, dir: Path, p: Path)
    requires Rooted(before, dir) && dir < p
    requires forall q | q != p :: (q in before <==> q in after) && (q in before ==> after[q] == before[q])
    ensures Rooted(after, dir) && OnlyWithin(before, after, dir)
  {
    forall k | 1 <= k <= |dir| ensures dir[..k] in after && after[dir[..k]] == Dir {
      assert |dir[..k]| < |p|;
    }
  }

  // ---- the copy ----

  /** azd project files are renamed so that the copy is no project. */
  function ReviewName(rel: Path): (name: Path)
    ensures rel != [] ==> name != []
  {
    if rel == [] then rel
    else
      match Lower(rel[|rel| - 1])
      case "azure.yaml" => rel[..|rel| - 1] + ["azure.review.yaml"]
      case "azure.yml" => rel[..|rel| - 1] + ["azure.review.yml"]
      case _ => rel
  }

  method CopyFile(root: Root, out: Path, rel: Path) returns (r: Result<Copied, Error>)
    requires Rooted(root.files, out) && rel != []
    modifies root
    ensures OnlyWithin(old(root.files), root.files, out) && Rooted(root.files, out)
    ensures r.Ok? ==> r.value == Copied(rel, ReviewName(rel))
    ensures r.Ok? ==> IsFile(old(root.files), rel) && IsFile(root.files, out + ReviewName(rel))
                      && root.files[out + ReviewName(rel)] == old(root.files)[rel]
    ensures r.Ok? ==> out + ReviewName(rel) !in old(root.files)
    ensures Extends(old(root.files), root.files)
  {
    if ".." in rel {
      return Err(UnsafeOutput);
    }
    ghost var before := root.files;
    var data := root.ReadFile(rel);
    if data.Err? {
      return Err(data.error);
    }
    var reviewRel := ReviewName(rel);
    var target := out + reviewRel;
    var parent := target[..|target| - 1];
    assert parent == out + reviewRel[..|reviewRel| - 1];
    var made := root.MkdirAll(parent);
    MadeBelow(before, root.files, parent, out);
    if made.Err? {
      return Err(made.error);
    }
    ghost var middle := root.files;
    var written := root.WriteNewFile(target, data.value);
    RootedStays(middle, root.files, out, target);
    OnlyWithinSteps(before, middle, root.files, out);
    if written.Err? {
      return Err(written.error);
    }
    r := Ok(Copied(rel, reviewRel));
  }

  /** The files of a walk that are looked at: not in the output and not copied yet. */
  predicate Walked(files: Files, p: Path, out: Path, already: set<Path>) {
    !Within(p, out) && p !in already && IsFile(files, p)
  }

  predicate Picked(files: Files, p: Path, out: Path, already: set<Path>, skipped: (Path, nat) -> bool) {
    Walked(files, p, out, already) && !skipped(p, |files[p].data|)
  }

  /** Exactly the picked files of a walk have been copied and the other files left out. */
  ghost predicate TookPicked(
    copied: seq<Copied>, left: seq<Path>, walk: seq<Path>, files: Files, out: Path, already: set<Path>,
    skipped: (Path, nat) -> bool)
  {
    && (forall p :: p in Rels(copied) <==> p in walk && Picked(files, p, out, already, skipped))
    && (forall p :: p in left <==> p in walk && Walked(files, p, out, already) && skipped(p, |files[p].data|))
  }

  /** The walk of the infra directory: directories are made, files that are not
      left out are copied, until the size limit. */
  method CopyTree(root: Root, out: Path, walk: seq<Path>, already: set<Path>, skipped: (Path, nat) -> bool)
    returns (r: Result<seq<Copied>, Error>, left: seq<Path>)
    requires Rooted(root.files, out) && forall p | p in walk :: p != []
    modifies root
    ensures OnlyWithin(old(root.files), root.files, out) && Rooted(root.files, out)
    ensures r.Ok? ==> AllCopied(r.value, out, old(root.files), root.files) && DistinctFrom(r.value, already)
    ensures r.Ok? ==> TookPicked(r.value, left, walk, old(root.files), out, already, skipped)
    ensures r.Ok? ==> TotalSize(r.value, old(root.files)) <= 268435456
    ensures Extends(old(root.files), root.files)
  {
    hide TookPicked, AllCopied, DistinctFrom, Rooted, TotalSize;
    assert TotalSize([], root.files) == 0 by { NothingSized(root.files); }
    ghost var before := root.files;
    var copied: seq<Copied> := [];
    var seen, total := already, 0;
    left := [];
    NothingTaken(before, out, already, skipped);
    for i := 0 to |walk|
      invariant OnlyWithin(before, root.files, out) && Rooted(root.files, out)
      invariant AllCopied(copied, out, before, root.files) && DistinctFrom(copied, already)
      invariant TookPicked(copied, left, walk[..i], before, out, already, skipped)
      invariant seen == already + set p | p in Rels(copied)
      invariant total == TotalSize(copied, before) <= MAX_TREE
      invariant Extends(before, root.files)
    {
      var p := walk[i];
      assert p in walk && walk[..i + 1] == walk[..i] + [p];
      TakeOneMore(copied, left, walk[..i], before, out, already, skipped, p);
      if Within(p, out) || p !in root.files {
        continue;
      }
      ghost var middle := root.files;
      if root.files[p] == Dir {
        var made := root.MkdirAll(out + p);
        MadeBelow(middle, root.files, out + p, out);
        OnlyWithinSteps(before, middle, root.files, out);
        StillCopied(copied, out, before, middle, root.files);
        if made.Err? {
          r := Err(made.error);
          return;
        }
        continue;
      }
      if p in seen {
        continue;
      }
      var size := |root.files[p].data|;
      if skipped(p, size) {
        left := left + [p];
        continue;
      }
      total := total + size;
      if total > MAX_TREE {
        r := Err(TooLarge);
        return;
      }
      var copy := CopyFile(root, out, p);
      OnlyWithinSteps(before, middle, root.files, out);
      if copy.Err? {
        r := Err(copy.error);
        return;
      }
      OneMoreCopied(copied, copy.value, out, before, middle, root.files, already, p);
      assert Rels(copied + [copy.value]) == Rels(copied) + [p];
      SizeSnoc(copied, copy.value, before);
      seen := seen + {p};
      copied := copied + [copy.value];
    }
    assert walk[..|walk|] == walk;
    r := Ok(copied);
  }

  lemma NothingSized(files: Files)
    ensures TotalSize([], files) == 0
  {}

  /** How much was copied. */
  function TotalSize(copied: seq<Copied>, files: Files): nat {
    if copied == [] then 0
    else
      var last := copied[|copied| - 1].rel;
      TotalSize(copied[..|copied| - 1], files) + if IsFile(files, last) then |files[last].data| else 0
  }

  lemma SizeSnoc(copied: seq<Copied>, c: Copied, files: Files)
    ensures TotalSize(copied + [c], files)
         == TotalSize(copied, files) + if IsFile(files, c.rel) then |files[c.rel].data| else 0
  {
    assert (copied + [c])[..|copied|] == copied;
  }

  lemma NothingTaken(files: Files, out: Path, already: set<Path>, skipped: (Path, nat) -> bool)
    ensures TookPicked([], [], [], files, out, already, skipped) && AllCopied([], out, files, files)
            && DistinctFrom([], already)
  {}

  /** What each branch of the walk does to the files taken and left out. */
  lemma TakeOneMore(
    copied: seq<Copied>, left: seq<Path>, walk: seq<Path>, files: Files, out: Path, already: set<Path>,
    skipped: (Path, nat) -> bool, p: Path)
    requires TookPicked(copied, left, walk, files, out, already, skipped)
    ensures !Walked(files, p, out, already) || p in Rels(copied) ==>
              TookPicked(copied, left, walk + [p], files, out, already, skipped)
    ensures Walked(files, p, out, already) && skipped(p, |files[p].data|) ==>
              TookPicked(copied, left + [p], walk + [p], files, out, already, skipped)
    ensures Picked(files, p, out, already, skipped) ==>
              TookPicked(copied + [Copied(p, ReviewName(p))], left, walk + [p], files, out, already, skipped)
  {
    assert Rels(copied + [Copied(p, ReviewName(p))]) == Rels(copied) + [p];
  }

  lemma StillCopied(copied: seq<Copied>, out: Path, source: Files, middle: Files, files: Files)
    requires AllCopied(copied, out, source, middle) && Extends(middle, files)
    ensures AllCopied(copied, out, source, files)
  {
    forall i | 0 <= i < |copied| ensures CopyStands(copied[i], out, source, files) {
      assert CopyStands(copied[i], out, source, middle);
    }
  }

  lemma BothCopied(
    first: seq<Copied>, more: seq<Copied>, out: Path, source: Files, middle: Files, files: Files, seen: set<Path>)
    requires AllCopied(first, out, source, middle) && AllCopied(more, out, middle, files)
    requires OnlyWithin(source, middle, out) && Extends(source, middle) && Extends(middle, files)
    requires DistinctFrom(first, {}) && DistinctFrom(more, seen) && forall c | c in first :: c.rel in seen
    ensures AllCopied(first + more, out, source, files) && DistinctFrom(first + more, {})
  {
    forall i | 0 <= i < |first| ensures CopyStands(first[i], out, source, files) && first[i].rel in seen {
      assert CopyStands(first[i], out, source, middle) && first[i] in first;
    }
    forall i | 0 <= i < |more| ensures CopyStands(more[i], out, source, files) && out + more[i].reviewRel !in middle {
      assert CopyStands(more[i], out, middle, files);
    }
    forall i, j | 0 <= i < |first| && 0 <= j < |more| ensures first[i].reviewRel != more[j].reviewRel {
      assert CopyStands(first[i], out, source, middle);
    }
  }

  /** Each copy is there with its source's content, where nothing was before. */
  ghost predicate AllCopied(copied: seq<Copied>, out: Path, source: Files, files: Files) {
    forall i | 0 <= i < |copied| :: CopyStands(copied[i], out, source, files)
  }

  ghost predicate CopyStands(c: Copied, out: Path, source: Files, files: Files) {
    && c.rel != [] && !Within(c.rel, out)
    && c.reviewRel == ReviewName(c.rel) && out + c.reviewRel !in source
    && IsFile(source, c.rel) && IsFile(files, out + c.reviewRel) && files[out + c.reviewRel] == source[c.rel]
  }

  ghost predicate DistinctFrom(copied: seq<Copied>, already: set<Path>) {
    && (forall i, j | 0 <= i < j < |copied| ::
          copied[i].rel != copied[j].rel && copied[i].reviewRel != copied[j].reviewRel)
    && (forall i | 0 <= i < |copied| :: copied[i].rel !in already)
  }

  lemma OneMoreCopied(
    copied: seq<Copied>, c: Copied, out: Path, source: Files, middle: Files, files: Files, already: set<Path>, p: Path)
    requires AllCopied(copied, out, source, middle) && DistinctFrom(copied, already)
    requires OnlyWithin(source, middle, out) && Extends(source, middle)
    requires c == Copied(p, ReviewName(p)) && p != [] && !Within(p, out) && p !in already && p !in Rels(copied)
    requires IsFile(middle, p) && IsFile(files, out + ReviewName(p)) && files[out + ReviewName(p)] == middle[p]
    requires out + ReviewName(p) !in middle && Extends(middle, files)
    ensures AllCopied(copied + [c], out, source, files) && DistinctFrom(copied + [c], already)
  {
    forall i | 0 <= i < |copied|
      ensures CopyStands(copied[i], out, source, files) && copied[i].rel != p && copied[i].reviewRel != c.reviewRel
    {
      assert CopyStands(copied[i], out, source, middle) && Rels(copied)[i] == copied[i].rel;
    }
    assert source[p] == middle[p];
  }

  /** The paths at or below a directory, in some order. */
  method ListTree(root: Root, dir: Path) returns (walk: seq<Path>)
    ensures forall p :: p in walk <==> p in root.files && Within(p, dir)
  {
    walk := [];
    var rest := root.files.Keys;
    while rest != {}
      invariant rest <= root.files.Keys
      invariant forall p :: p in walk <==> p in root.files && p !in rest && Within(p, dir)
      decreases |rest|
    {
      var p :| p in rest;
      rest := rest - {p};
      if Within(p, dir) {
        walk := walk + [p];
      }
    }
  }

  /** The project's files that a review copies: the azd project file, and in the
      infra directory, if it is one, every file outside the output that is not
      left out. */
  function CopySet(files: Files, req: Request, skipped: (Path, nat) -> bool): set<Path> {
    var first: set<Path> := if req.azureYaml.Some? then {req.azureYaml.value} else {};
    if req.infra.Some? && req.infra.value in files && files[req.infra.value] == Dir
    then first + set p | p in files && Within(p, req.infra.value) && Picked(files, p, req.out, first, skipped)
    else first
  }

  /** The project file and what the walk took are the files to copy. */
  lemma TreeTaken(
    before: Files, middle: Files, req: Request, first: set<Path>, files: seq<Copied>, left: seq<Path>, walk: seq<Path>,
    skipped: (Path, nat) -> bool)
    requires OnlyWithin(before, middle, req.out) && Placed(req)
    requires first == FirstOf(req)
    requires req.infra.Some? && req.infra.value in middle && middle[req.infra.value] == Dir
    requires forall p :: p in walk <==> p in middle && Within(p, req.infra.value)
    requires TookPicked(files, left, walk, middle, req.out, first, skipped)
    ensures forall p :: p in first || p in Rels(files) <==> p in CopySet(before, req, skipped)
  {
    forall p ensures p in first || p in Rels(files) <==> p in CopySet(before, req, skipped) {
      assert !Within(p, req.out) ==> (p in before <==> p in middle) && (p in before ==> before[p] == middle[p]);
    }
  }

  function FirstOf(req: Request): set<Path> {
    if req.azureYaml.Some? then {req.azureYaml.value} else {}
  }

  /** The azd project file, if the project has one. */
  method CopyProjectFile(root: Root, req: Request) returns (r: Result<seq<Copied>, Error>)
    requires Rooted(root.files, req.out) && Placed(req)
    modifies root
    ensures OnlyWithin(old(root.files), root.files, req.out) && Rooted(root.files, req.out)
    ensures r.Ok? ==> AllCopied(r.value, req.out, old(root.files), root.files) && DistinctFrom(r.value, {})
    ensures r.Ok? ==> (set p | p in Rels(r.value)) == FirstOf(req)
    ensures Extends(old(root.files), root.files)
  {
    hide Rooted;
    if req.azureYaml.None? {
      return Ok([]);
    }
    var rel := req.azureYaml.value;
    var copy := CopyFile(root, req.out, rel);
    if copy.Err? {
      return Err(copy.error);
    }
    assert CopyStands(copy.value, req.out, old(root.files), root.files);
    assert Rels([copy.value]) == [rel];
    r := Ok([copy.value]);
  }

  /** The azd project file first, then the infra directory if it is one. */
  method CopyInputs(root: Root, req: Request, skipped: (Path, nat) -> bool)
    returns (r: Result<seq<Copied>, Error>, left: seq<Path>)
    requires Rooted(root.files, req.out) && Placed(req)
    modifies root
    ensures OnlyWithin(old(root.files), root.files, req.out) && Rooted(root.files, req.out)
    ensures r.Ok? ==> AllCopied(r.value, req.out, old(root.files), root.files) && DistinctFrom(r.value, {})
    ensures r.Ok? ==> forall p :: p in Rels(r.value) <==> p in CopySet(old(root.files), req, skipped)
    ensures Extends(old(root.files), root.files)
  {
    hide Rooted, TookPicked, AllCopied, DistinctFrom, CopySet, OnlyWithin, Overlap;
    ghost var before := root.files;
    left := [];
    var first := CopyProjectFile(root, req);
    if first.Err? {
      r := first;
      return;
    }
    ghost var middle := root.files;
    if req.infra.Some? && req.infra.value in root.files && root.files[req.infra.value] == Dir {
      var walk := ListTree(root, req.infra.value);
      NamesPaths(walk, req);
      var seen := set c | c in first.value :: c.rel;
      RelsAre(first.value, seen);
      assert seen == FirstOf(req);
      var files;
      files, left := CopyTree(root, req.out, walk, seen, skipped);
      OnlyWithinSteps(before, middle, root.files, req.out);
      if files.Err? {
        r := files;
        return;
      }
      BothCopied(first.value, files.value, req.out, before, middle, root.files, seen);
      TreeTaken(before, middle, req, seen, files.value, left, walk, skipped);
      assert Rels(first.value + files.value) == Rels(first.value) + Rels(files.value);
      r := Ok(first.value + files.value);
    } else {
      NoTree(before, middle, req, skipped);
      r := first;
    }
  }

  lemma NamesPaths(walk: seq<Path>, req: Request)
    requires Placed(req) && req.infra.Some? && forall p | p in walk :: Within(p, req.infra.value)
    ensures forall p | p in walk :: p != []
  {}

  /** Without an infra directory the project file is all there is to copy. */
  lemma NoTree(before: Files, middle: Files, req: Request, skipped: (Path, nat) -> bool)
    requires OnlyWithin(before, middle, req.out) && Placed(req)
    requires !(req.infra.Some? && req.infra.value in middle && middle[req.infra.value] == Dir)
    ensures CopySet(before, req, skipped) == FirstOf(req)
  {}

  // ---- comments ----

  function Rels(files: seq<Copied>): (rels: seq<Path>)
    ensures |rels| == |files| && forall i | 0 <= i < |rels| :: rels[i] == files[i].rel
  {
    seq(|files|, i requires 0 <= i < |files| => files[i].rel)
  }

  function AllDemoted(entries: seq<Entry>, copied: set<Path>): (out: seq<Entry>)
    ensures |out| == |entries| && forall i | 0 <= i < |out| :: out[i] == Demoted(entries[i], copied)
  {
    seq(|entries|, i requires 0 <= i < |entries| => Demoted(entries[i], copied))
  }

  type Comments = map<Path, seq<Comment>>

  function Of(comments: Comments, file: Path): seq<Comment> {
    if file in comments then comments[file] else []
  }

  ghost predicate Collected(comments: Comments, entries: seq<Entry>, style: Style) {
    forall file :: Of(comments, file) == CommentsFor(entries, file, style)
  }

  function With(comments: Comments, e: Entry, style: Style): Comments {
    if e.inline && StyleOf(e.file) == style then comments[e.file := Of(comments, e.file) + [Comment(e.line, e.text)]]
        else comments
  }

  lemma CollectOneMore(comments: Comments, entries: seq<Entry>, e: Entry, style: Style)
    requires Collected(comments, entries, style)
    ensures Collected(With(comments, e, style), entries + [e], style)
  {
    hide StyleOf;
    assert (entries + [e])[..|entries|] == entries;
    forall file ensures Of(With(comments, e, style), file) == CommentsFor(entries + [e], file, style) {
      assert Of(comments, file) == CommentsFor(entries, file, style);
    }
  }

  /** The loop over the entries: demotion, and comments by file. */
  method SortEntries(entries: seq<Entry>, copied: set<Path>) returns (kept: seq<Entry>, yaml: Comments, bicep: Comments)
    ensures kept == AllDemoted(entries, copied)
    ensures Collected(yaml, kept, Yaml) && Collected(bicep, kept, Bicep)
  {
    kept, yaml, bicep := [], map[], map[];
    assert Collected(yaml, [], Yaml) && Collected(bicep, [], Bicep);
    hide Collected, StyleOf;
    for i := 0 to |entries|
      invariant kept == AllDemoted(entries[..i], copied)
      invariant Collected(yaml, kept, Yaml) && Collected(bicep, kept, Bicep)
    {
      var e := entries[i];
      if e.inline && e.file !in copied {
        e := e.(inline := false);
        if e.inlineReason == "" {
          e := e.(inlineReason := "file-not-copied");
        }
      }
      assert e == Demoted(entries[i], copied);
      assert AllDemoted(entries[..i + 1], copied) == AllDemoted(entries[..i], copied) + [e];
      CollectOneMore(yaml, kept, e, Yaml);
      CollectOneMore(bicep, kept, e, Bicep);
      kept := kept + [e];
      if !e.inline {
        continue;
      }
      match StyleOf(e.file)
      case Yaml => yaml := yaml[e.file := Of(yaml, e.file) + [Comment(e.line, e.text)]];
      case Bicep => bicep := bicep[e.file := Of(bicep, e.file) + [Comment(e.line, e.text)]];
      case Plain =>
    }
    assert entries[..|entries|] == entries;
  }

  /** The counts of a manifest's files added up. */
  function Annotated(files: seq<ManifestFile>): nat {
    if files == [] then 0 else Annotated(files[..|files| - 1]) + files[|files| - 1].annotationCount
  }

  // ---- annotating the copies ----

  /** What becomes of one copied file: whether it is commented, and with what. */
  function StyleFor(rel: Path, comments: seq<Comment>): Style {
    match StyleOf(rel)
    case Yaml => if comments != [] || ReviewName(rel) != rel then Yaml else Plain
    case Bicep => Bicep
    case Plain => Plain
  }

  function CommentsOf(f: Copied, yaml: Comments, bicep: Comments): seq<Comment> {
    match StyleOf(f.rel)
    case Yaml => Of(yaml, f.rel)
    case Bicep => Of(bicep, f.rel)
    case Plain => []
  }

  /** The text a copy ends up with. */
  function Finished(rel: Path, content: string, comments: seq<Comment>, tools: Tools): Option<string> {
    var style := StyleFor(rel, comments);
    if style == Plain then Some(content) else tools.comment(style, content, comments)
  }

  /** A commented copy's line in the manifest. */
  function Listed(rel: Path, out: Path, comments: seq<Comment>): seq<ManifestFile> {
    var style := StyleFor(rel, comments);
    if style == Plain then [] else [ManifestFile(rel, out + ReviewName(rel), style, |comments|)]
  }

  function AllListed(files: seq<Copied>, out: Path, yaml: Comments, bicep: Comments): seq<ManifestFile> {
    if files == [] then []
    else
      var last := files[|files| - 1];
      AllListed(files[..|files| - 1], out, yaml, bicep) + Listed(last.rel, out, CommentsOf(last, yaml, bicep))
  }

  /** The copy's text in `before` has become its finished text in `after`. */
  ghost predicate Finishes(f: Copied, out: Path, comments: seq<Comment>, tools: Tools, before: Files, after: Files) {
    var staged := out + f.reviewRel;
    && IsFile(before, staged) && IsFile(after, staged)
    && Finished(f.rel, before[staged].data, comments, tools) == Some(after[staged].data)
  }

  /** One copied file: commented in place, or left as it is. */
  method AnnotateOne(root: Root, out: Path, f: Copied, comments: seq<Comment>, tools: Tools)
    returns (r: Result<seq<ManifestFile>, Error>, diff: string)
    requires Rooted(root.files, out) && f.reviewRel != [] && f.reviewRel == ReviewName(f.rel)
    modifies root
    ensures OnlyWithin(old(root.files), root.files, out) && Rooted(root.files, out)
    ensures r.Ok? ==>
            r.value == Listed(f.rel, out, comments) && Finishes(f, out, comments, tools, old(root.files), root.files)
    ensures forall q | q != out + f.reviewRel ::
              (q in root.files <==> q in old(root.files)) && (q in root.files ==> root.files[q] == old(root.files)[q])
  {
    diff := "";
    ghost var before := root.files;
    var staged := out + f.reviewRel;
    var content := root.ReadFile(staged);
    if content.Err? {
      r := Err(content.error);
      return;
    }
    var style := StyleFor(f.rel, comments);
    if style == Plain {
      r := Ok([]);
      return;
    }
    var updated := tools.comment(style, content.value, comments);
    if updated.None? {
      r := Err(CommentFailed);
      return;
    }
    var written := root.WriteFile(staged, updated.value);
    RootedStays(before, root.files, out, staged);
    if written.Err? {
      r := Err(written.error);
      return;
    }
    diff := UnifiedDiff.Unified(Text.Join(f.rel, '/'), content.value, updated.value);
    r := Ok([ManifestFile(f.rel, staged, style, |comments|)]);
  }

  /** Every copy has its finished text, and nothing else has changed. */
  ghost predicate AllFinished(
    files: seq<Copied>, out: Path, yaml: Comments, bicep: Comments, tools: Tools, before: Files, after: Files)
  {
    && (forall i | 0 <= i < |files| :: Finishes(files[i], out, CommentsOf(files[i], yaml, bicep), tools, before, after))
    && SameBut(files, out, before, after)
  }

  ghost predicate SameBut(files: seq<Copied>, out: Path, before: Files, after: Files) {
    forall q | forall i | 0 <= i < |files| :: q != out + files[i].reviewRel ::
      (q in before <==> q in after) && (q in before ==> after[q] == before[q])
  }

  lemma FinishOneMore(
    files: seq<Copied>, f: Copied, out: Path, yaml: Comments, bicep: Comments, tools: Tools,
    before: Files, middle: Files, after: Files)
    requires AllFinished(files, out, yaml, bicep, tools, before, middle)
    requires Finishes(f, out, CommentsOf(f, yaml, bicep), tools, middle, after)
    requires forall q | q != out + f.reviewRel ::
             (q in middle <==> q in after) && (q in middle ==> after[q] == middle[q])
    requires forall i | 0 <= i < |files| :: files[i].reviewRel != f.reviewRel
    ensures AllFinished(files + [f], out, yaml, bicep, tools, before, after)
  {
    hide Finished, CommentsOf;
    var all := files + [f];
    forall i | 0 <= i < |all| ensures Finishes(all[i], out, CommentsOf(all[i], yaml, bicep), tools, before, after) {
      if i < |files| {
        assert Finishes(files[i], out, CommentsOf(files[i], yaml, bicep), tools, before, middle);
        OtherStaged(out, files[i].reviewRel, f.reviewRel);
      } else {
        forall k | 0 <= k < |files| ensures out + f.reviewRel != out + files[k].reviewRel {
          OtherStaged(out, files[k].reviewRel, f.reviewRel);
        }
      }
    }
    forall q | forall i | 0 <= i < |all| :: q != out + all[i].reviewRel
      ensures (q in before <==> q in after) && (q in before ==> after[q] == before[q])
    {
      assert all[|files|] == f;
      assert forall i | 0 <= i < |files| :: q != out + files[i].reviewRel by {
        assert forall i | 0 <= i < |files| :: all[i] == files[i];
      }
    }
  }

  lemma OtherStaged(out: Path, a: Path, b: Path)
    requires a != b
    ensures out + a != out + b
  {
    assert (out + a)[|out|..] == a && (out + b)[|out|..] == b;
  }

  method Annotate(
    root: Root, out: Path, files: seq<Copied>, yaml: Comments, bicep: Comments, writeDiff: bool, tools: Tools)
    returns (r: Result<seq<ManifestFile>, Error>, diff: string)
    requires Rooted(root.files, out) && forall f | f in files :: f.reviewRel != [] && f.reviewRel == ReviewName(f.rel)
    requires DistinctFrom(files, {})
    modifies root
    ensures OnlyWithin(old(root.files), root.files, out) && Rooted(root.files, out)
    ensures r.Ok? ==> r.value == AllListed(files, out, yaml, bicep)
    ensures r.Ok? ==> AllFinished(files, out, yaml, bicep, tools, old(root.files), root.files)
  {
    hide CommentsOf, Rooted, AllFinished, Finishes, Listed, AllListed, ReviewName, DistinctFrom;
    ghost var before := root.files;
    var annotated: seq<ManifestFile> := [];
    diff := "";
    NothingFinished(out, yaml, bicep, tools, before);
    NoneListed(out, yaml, bicep);
    for i := 0 to |files|
      invariant OnlyWithin(before, root.files, out) && Rooted(root.files, out)
      invariant annotated == AllListed(files[..i], out, yaml, bicep)
      invariant AllFinished(files[..i], out, yaml, bicep, tools, before, root.files)
    {
      ListedSnoc(files, out, yaml, bicep, i);
      OthersStaged(files, i);
      ghost var middle := root.files;
      var entry, part := AnnotateOne(root, out, files[i], CommentsOf(files[i], yaml, bicep), tools);
      OnlyWithinSteps(before, middle, root.files, out);
      if entry.Err? {
        r := Err(entry.error);
        return;
      }
      FinishOneMore(files[..i], files[i], out, yaml, bicep, tools, before, middle, root.files);
      annotated := annotated + entry.value;
      if writeDiff {
        diff := diff + part;
      }
    }
    assert files[..|files|] == files;
    r := Ok(annotated);
  }

  lemma ListedSnoc(files: seq<Copied>, out: Path, yaml: Comments, bicep: Comments, i: nat)
    requires i < |files|
    ensures files[..i + 1] == files[..i] + [files[i]] && files[i] in files
    ensures AllListed(files[..i + 1], out, yaml, bicep)
         == AllListed(files[..i], out, yaml, bicep) + Listed(files[i].rel, out, CommentsOf(files[i], yaml, bicep))
  {
    hide CommentsOf, Listed;
    assert files[..i + 1][..i] == files[..i];
  }

  lemma OthersStaged(files: seq<Copied>, i: nat)
    requires DistinctFrom(files, {}) && i < |files|
    ensures forall k | 0 <= k < |files[..i]| :: files[..i][k].reviewRel != files[i].reviewRel
  {}

  lemma NothingFinished(out: Path, yaml: Comments, bicep: Comments, tools: Tools, files: Files)
    ensures AllFinished([], out, yaml, bicep, tools, files, files)
  {}

  lemma ListedAddsUp(lines: seq<ManifestFile>, rel: Path, out: Path, comments: seq<Comment>)
    requires StyleOf(rel) == Plain ==> comments == []
    ensures Annotated(lines + Listed(rel, out, comments)) == Annotated(lines) + |comments|
  {
    hide StyleOf;
    var more := Listed(rel, out, comments);
    if more == [] {
      assert lines + more == lines;
    } else {
      assert (lines + more)[..|lines|] == lines;
    }
  }

  lemma {:induction false} ListedCounts(files: seq<Copied>, out: Path, yaml: Comments, bicep: Comments)
    ensures Annotated(AllListed(files, out, yaml, bicep)) == CommentTotal(files, yaml, bicep)
  {
    hide StyleOf, Listed, Annotated;
    if files == [] {
      NothingListed();
    } else {
      var front, last := files[..|files| - 1], files[|files| - 1];
      ListedCounts(front, out, yaml, bicep);
      ListedAddsUp(AllListed(front, out, yaml, bicep), last.rel, out, CommentsOf(last, yaml, bicep));
    }
  }

  lemma NoneListed(out: Path, yaml: Comments, bicep: Comments)
    ensures AllListed([], out, yaml, bicep) == []
  {}

  lemma NothingListed()
    ensures Annotated([]) == 0
  {}

  function CommentTotal(files: seq<Copied>, yaml: Comments, bicep: Comments): nat {
    if files == [] then 0
    else CommentTotal(files[..|files| - 1], yaml, bicep) + |CommentsOf(files[|files| - 1], yaml, bicep)|
  }

  lemma {:induction false} TotalIsLanded(files: seq<Copied>, entries: seq<Entry>, yaml: Comments, bicep: Comments)
    requires Collected(yaml, entries, Yaml) && Collected(bicep, entries, Bicep)
    ensures CommentTotal(files, yaml, bicep) == Landed(entries, Rels(files))
  {
    if files != [] {
      var front := files[..|files| - 1];
      TotalIsLanded(front, entries, yaml, bicep);
      assert Rels(files)[..|files| - 1] == Rels(front);
    }
  }

  /** The summary loop. */
  method Summarise(entries: seq<Entry>) returns (inline: nat, manifestOnly: nat)
    ensures inline == InlineCount(entries) && inline + manifestOnly == |entries|
  {
    inline, manifestOnly := 0, 0;
    for i := 0 to |entries|
      invariant inline == InlineCount(entries[..i]) && inline + manifestOnly == i
    {
      assert entries[..i + 1][..i] == entries[..i];
      if entries[i].inline {
        inline := inline + 1;
      } else {
        manifestOnly := manifestOnly + 1;
      }
    }
    assert entries[..|entries|] == entries;
  }

  // ---- the whole review ----

  /** The comments that a copied file is to carry. */
  function EntryComments(entries: seq<Entry>, rel: Path): seq<Comment> {
    if StyleOf(rel) == Plain then [] else CommentsFor(entries, rel, StyleOf(rel))
  }

  lemma CommentsAgree(f: Copied, entries: seq<Entry>, yaml: Comments, bicep: Comments)
    requires Collected(yaml, entries, Yaml) && Collected(bicep, entries, Bicep)
    ensures CommentsOf(f, yaml, bicep) == EntryComments(entries, f.rel)
  {
    assert Of(yaml, f.rel) == CommentsFor(entries, f.rel, Yaml);
    assert Of(bicep, f.rel) == CommentsFor(entries, f.rel, Bicep);
  }

  /** The finished copy of a source file is in the output, and the manifest lists
      it when it is commented. */
  ghost predicate CopyHolds(rel: Path, source: Files, files: Files, req: Request, tools: Tools, m: Manifest) {
    var staged, comments := req.out + ReviewName(rel), EntryComments(m.annotations, rel);
    && IsFile(source, rel) && IsFile(files, staged)
    && Finished(rel, source[rel].data, comments, tools) == Some(files[staged].data)
    && forall line | line in Listed(rel, req.out, comments) :: line in m.files
  }

  /** What a review holds: the finished copies of the files to copy, each listed,
      and the entries, demoted where their file is not one of them. */
  ghost predicate Holds(source: Files, files: Files, req: Request, tools: Tools, m: Manifest) {
    var copied := CopySet(source, req, tools.skipped);
    && m.reviewDir == req.out && m.annotations == AllDemoted(req.entries, copied)
    && (forall rel | rel in copied :: CopyHolds(rel, source, files, req, tools, m))
    && (forall line | line in m.files ::
          line.path in copied && line in Listed(line.path, req.out, EntryComments(m.annotations, line.path)))
  }

  /** The files beside the copies. */
  ghost predicate Filed(files: Files, req: Request, tools: Tools, m: Manifest) {
    && tools.encode(m).Some? && req.out + [MANIFEST] in files
          && files[req.out + [MANIFEST]] == File(tools.encode(m).value)
    && (req.writeDiff ==> IsFile(files, req.out + [DIFF]))
    && req.out + [IGNORE] in files && files[req.out + [IGNORE]] == File("*\n")
  }

  lemma {:induction false} ListedAre(
    files: seq<Copied>, out: Path, entries: seq<Entry>, yaml: Comments, bicep: Comments)
    requires Collected(yaml, entries, Yaml) && Collected(bicep, entries, Bicep)
    ensures forall line | line in AllListed(files, out, yaml, bicep) ::
              line.path in Rels(files) && line in Listed(line.path, out, EntryComments(entries, line.path))
    ensures forall i, line | 0 <= i < |files|
            && line in Listed(files[i].rel, out, EntryComments(entries, files[i].rel)) ::
              line in AllListed(files, out, yaml, bicep)
  {
    if files != [] {
      hide Collected, CommentsFor, StyleOf;
      var front, last := files[..|files| - 1], files[|files| - 1];
      ListedAre(front, out, entries, yaml, bicep);
      CommentsAgree(last, entries, yaml, bicep);
      assert Rels(files) == Rels(front) + [last.rel];
      forall i, line | 0 <= i < |files| && line in Listed(files[i].rel, out, EntryComments(entries, files[i].rel))
        ensures line in AllListed(files, out, yaml, bicep)
      {
        assert i < |front| ==> front[i] == files[i];
      }
    }
  }

  lemma CopiesHold(
    copies: seq<Copied>, req: Request, tools: Tools, m: Manifest, yaml: Comments, bicep: Comments,
    source: Files, middle: Files, files: Files)
    requires AllCopied(copies, req.out, source, middle)
             && AllFinished(copies, req.out, yaml, bicep, tools, middle, files)
    requires Collected(yaml, m.annotations, Yaml) && Collected(bicep, m.annotations, Bicep)
    requires m.files == AllListed(copies, req.out, yaml, bicep)
    ensures forall rel | rel in Rels(copies) :: CopyHolds(rel, source, files, req, tools, m)
    ensures forall line | line in m.files ::
            line.path in Rels(copies) && line in Listed(line.path, req.out, EntryComments(m.annotations, line.path))
  {
    hide Collected, EntryComments, CommentsOf, Finished, Listed, AllListed;
    ListedAre(copies, req.out, m.annotations, yaml, bicep);
    forall rel | rel in Rels(copies) ensures CopyHolds(rel, source, files, req, tools, m) {
      var i :| 0 <= i < |copies| && Rels(copies)[i] == rel;
      CommentsAgree(copies[i], m.annotations, yaml, bicep);
      assert CopyStands(copies[i], req.out, source, middle);
      assert Finishes(copies[i], req.out, CommentsOf(copies[i], yaml, bicep), tools, middle, files);
    }
  }

  /** What was there before the copies is untouched by the comments. */
  lemma FinishedExtends(
    copies: seq<Copied>, out: Path, yaml: Comments, bicep: Comments, tools: Tools, source: Files, middle: Files,
    files: Files)
    requires AllCopied(copies, out, source, middle) && Extends(source, middle)
    requires AllFinished(copies, out, yaml, bicep, tools, middle, files)
    ensures Extends(source, files)
  {
    hide Finishes;
    forall q | q in source ensures q in files && files[q] == source[q] {
      forall i | 0 <= i < |copies| ensures q != out + copies[i].reviewRel {
        assert CopyStands(copies[i], out, source, middle);
      }
    }
  }

  /** Later files beside the copies change none of them. */
  lemma HoldsExtends(source: Files, middle: Files, files: Files, req: Request, tools: Tools, m: Manifest)
    requires Holds(source, middle, req, tools, m) && Extends(middle, files)
    ensures Holds(source, files, req, tools, m)
  {
    hide EntryComments, Finished, Listed, CopySet;
    forall rel | rel in CopySet(source, req, tools.skipped) ensures CopyHolds(rel, source, files, req, tools, m) {
      assert CopyHolds(rel, source, middle, req, tools, m);
    }
  }

  /** Copies, comments and the manifest's content. */
  method FillCopies(root: Root, req: Request, tools: Tools) returns (r: Result<Manifest, Error>, diff: string)
    requires Rooted(root.files, req.out) && Placed(req)
    modifies root
    ensures OnlyWithin(old(root.files), root.files, req.out) && Rooted(root.files, req.out)
    ensures r.Ok? ==> Accounts(r.value) && Holds(old(root.files), root.files, req, tools, r.value)
    ensures r.Ok? ==> Extends(old(root.files), root.files)
  {
    hide Rooted, AllCopied, AllFinished, Collected, StyleOf, CommentTotal, Demoted, Overlap, CopyHolds, Listed,
        Annotated, AllListed;
    diff := "";
    ghost var before := root.files;
    var inputs, left := CopyInputs(root, req, tools.skipped);
    if inputs.Err? {
      r := Err(inputs.error);
      return;
    }
    var files := inputs.value;
    ghost var copiedFiles := root.files;
    var copied := set f | f in files :: f.rel;
    RelsAre(files, copied);
    assert copied == CopySet(before, req, tools.skipped);
    var entries, yaml, bicep := SortEntries(req.entries, copied);
    CopiesAreNamed(files, req.out, before, root.files);
    var annotated;
    annotated, diff := Annotate(root, req.out, files, yaml, bicep, req.writeDiff, tools);
    OnlyWithinSteps(before, copiedFiles, root.files, req.out);
    if annotated.Err? {
      r := Err(annotated.error);
      return;
    }
    FinishedExtends(files, req.out, yaml, bicep, tools, before, copiedFiles, root.files);
    var inline, manifestOnly := Summarise(entries);
    var manifest := Manifest(req.out, annotated.value, entries, |entries|, inline, manifestOnly);
    ListedCounts(files, req.out, yaml, bicep);
    EveryCommentCounted(files, req.entries, copied, yaml, bicep);
    CopiesHold(files, req, tools, manifest, yaml, bicep, before, copiedFiles, root.files);
    r := Ok(manifest);
  }

  lemma RelsAre(files: seq<Copied>, rels: set<Path>)
    requires rels == set f | f in files :: f.rel
    ensures forall p :: p in rels <==> p in Rels(files)
  {
    forall p ensures p in rels <==> p in Rels(files) {
      if p in rels {
        var f :| f in files && f.rel == p;
        var i :| 0 <= i < |files| && files[i] == f;
        assert Rels(files)[i] == p;
      }
      if p in Rels(files) {
        var i :| 0 <= i < |files| && Rels(files)[i] == p;
        assert files[i] in files && files[i].rel == p;
      }
    }
  }

  /** Everything after the reset: copies, comments, the manifest, the diff and the
      ignore file. */
  method FillReview(root: Root, req: Request, tools: Tools) returns (r: Result<Manifest, Error>)
    requires Rooted(root.files, req.out) && Placed(req)
    modifies root
    ensures OnlyWithin(old(root.files), root.files, req.out) && Rooted(root.files, req.out)
    ensures r.Ok? ==> Accounts(r.value) && Holds(old(root.files), root.files, req, tools, r.value)
    ensures r.Ok? ==> Filed(root.files, req, tools, r.value) && Extends(old(root.files), root.files)
  {
    hide Rooted, Holds, Accounts, Overlap;
    ghost var before := root.files;
    var filled, diff := FillCopies(root, req, tools);
    if filled.Err? {
      return filled;
    }
    var manifest := filled.value;
    ghost var middle := root.files;
    var encoded := tools.encode(manifest);
    if encoded.None? {
      return Err(EncodeFailed);
    }
    var written := WriteInto(root, req.out, MANIFEST, encoded.value, before);
    if written.Err? {
      return Err(written.error);
    }
    if req.writeDiff {
      written := WriteInto(root, req.out, DIFF, diff, before);
      if written.Err? {
        return Err(written.error);
      }
    }
    written := WriteInto(root, req.out, IGNORE, "*\n", before);
    if written.Err? {
      return Err(written.error);
    }
    HoldsExtends(before, middle, root.files, req, tools, manifest);
    r := Ok(manifest);
  }

  /** What a manifest's numbers promise: inline and manifest-only entries are all
      entries, and the files' counts add up to the inline entries exactly when each
      of those is in a file that takes comments. */
  ghost predicate Accounts(m: Manifest) {
    && m.total == |m.annotations| && m.inline + m.manifestOnly == m.total && m.inline == InlineCount(m.annotations)
    && Annotated(m.files) <= m.inline
    && (Annotated(m.files) == m.inline <==> forall e | e in m.annotations && e.inline :: StyleOf(e.file) != Plain)
  }

  method WriteInto(root: Root, out: Path, name: string, data: string, ghost base: Files) returns (r: Result<(), Error>)
    requires Rooted(root.files, out) && OnlyWithin(base, root.files, out)
    modifies root
    ensures Rooted(root.files, out) && OnlyWithin(base, root.files, out) && Extends(old(root.files), root.files)
    ensures r.Ok? ==> out + [name] in root.files && root.files[out + [name]] == File(data)
  {
    ghost var before := root.files;
    r := root.WriteNewFile(out + [name], data);
    RootedStays(before, root.files, out, out + [name]);
    OnlyWithinSteps(base, before, root.files, out);
  }

  lemma CopiesAreNamed(files: seq<Copied>, out: Path, source: Files, now: Files)
    requires AllCopied(files, out, source, now)
    ensures forall f | f in files :: f.reviewRel != [] && f.reviewRel == ReviewName(f.rel)
  {
    forall f | f in files ensures f.reviewRel != [] && f.reviewRel == ReviewName(f.rel) {
      var i :| 0 <= i < |files| && files[i] == f;
      assert CopyStands(files[i], out, source, now);
    }
  }

  lemma EveryCommentCounted(files: seq<Copied>, entries: seq<Entry>, copied: set<Path>, yaml: Comments, bicep: Comments)
    requires DistinctFrom(files, {}) && copied == set f | f in files :: f.rel
    requires var kept := AllDemoted(entries, copied); Collected(yaml, kept, Yaml) && Collected(bicep, kept, Bicep)
    ensures var kept := AllDemoted(entries, copied);
            && CommentTotal(files, yaml, bicep) == CommentCount(kept) <= InlineCount(kept)
            && (CommentTotal(files, yaml, bicep) == InlineCount(kept) <==> forall e | e in kept && e.inline ::
                  StyleOf(e.file) != Plain)
  {
    hide StyleOf, Collected;
    var kept := AllDemoted(entries, copied);
    TotalIsLanded(files, kept, yaml, bicep);
    forall e | e in kept && e.inline ensures e.file in Rels(files) {
      var i :| 0 <= i < |kept| && kept[i] == e;
      assert kept[i] == Demoted(entries[i], copied);
      assert e.file in copied;
      var f :| f in files && f.rel == e.file;
      var j :| 0 <= j < |files| && files[j] == f;
      assert Rels(files)[j] == e.file;
    }
    AllLand(kept, Rels(files));
    CommentsAreInlineIff(kept);
  }

  lemma SameDirs(before: Files, marked: Files, req: Request)
    requires Confined(before, marked, req.out) && Placed(req) && req.infra.Some?
    ensures var infra := req.infra.value;
            (infra in before && before[infra] == Dir) <==> (infra in marked && marked[infra] == Dir)
  {}

  lemma SameCopySet(before: Files, marked: Files, req: Request, skipped: (Path, nat) -> bool)
    requires Confined(before, marked, req.out) && Placed(req)
    ensures CopySet(before, req, skipped) == CopySet(marked, req, skipped)
    ensures forall p | p in CopySet(before, req, skipped) :: !Within(p, req.out)
  {
    if req.infra.Some? {
      SameDirs(before, marked, req);
    }
    forall p | !Within(p, req.out) ensures IsFile(before, p) <==> IsFile(marked, p)
                                   ensures IsFile(before, p) ==> before[p] == marked[p] {}
    forall p ensures p in CopySet(before, req, skipped) <==> p in CopySet(marked, req, skipped) {}
  }

  /** What is copied was decided by the files as they were before the reset. */
  lemma SourcesStay(before: Files, marked: Files, files: Files, req: Request, tools: Tools, m: Manifest)
    requires Confined(before, marked, req.out) && Placed(req) && Holds(marked, files, req, tools, m)
    ensures Holds(before, files, req, tools, m)
  {
    SameCopySet(before, marked, req, tools.skipped);
    hide EntryComments, Finished, Listed, Demoted, CopySet, Placed, Overlap;
    forall rel | rel in CopySet(before, req, tools.skipped) ensures CopyHolds(rel, before, files, req, tools, m) {
      assert CopyHolds(rel, marked, files, req, tools, m);
      assert IsFile(marked, rel) && rel in before;
    }
  }

  /** `WriteReview` on a link-free tree, whichever write fails. */
  method WriteReview(root: Root, req: Request, tools: Tools) returns (r: Result<Manifest, Error>)
    requires req.out != [] && Closed(root.files)
    modifies root
    ensures Confined(old(root.files), root.files, req.out)
    ensures !Accepted(old(root.files), req, tools.ours) ==> r == Err(UnsafeOutput) && root.files == old(root.files)
    ensures Accepted(old(root.files), req, tools.ours)
            && !Resets(old(root.files), old(root.budget), req.out, tools.ours) ==>
              && r == Err(Io)
              && (forall p | p in root.files && Within(p, req.out) :: p == req.out)
              && (req.out in root.files <==> old(root.budget) == DirsToMake(Without(old(root.files), req.out), req.out))
    ensures r.Err? && Accepted(old(root.files), req, tools.ours)
            && Resets(old(root.files), old(root.budget), req.out, tools.ours) ==>
              NothingLeft(root.files, req.out)
    ensures r.Ok? ==>
              && Accepted(old(root.files), req, tools.ours)
              && Accounts(r.value) && Holds(old(root.files), root.files, req, tools, r.value)
              && Filed(root.files, req, tools, r.value)
              && Rooted(root.files, req.out) && Marked(root.files, req.out)
              && Replaceable(root.files, req.out, tools.ours)
  {
    hide Rooted, Holds, Accounts, Filed, Overlap, Owned;
    ghost var before := root.files;
    if !Placed(req) || !ParentsAreDirs(root.files, req.out) {
      r := Err(UnsafeOutput);
      return;
    }
    OutputUnobstructed(before, req.out);
    var ready := ResetReviewDir(root, req.out, tools.ours);
    if ready.Err? {
      r := Err(ready.error);
      return;
    }
    ghost var marked := root.files;
    r := FillReview(root, req, tools);
    ConfinedThen(before, marked, root.files, req.out);
    if r.Err? {
      RemovedConfined(before, root.files, req.out);
      root.RemoveAll(req.out);
    } else {
      SourcesStay(before, marked, root.files, req, tools, r.value);
      MarkedIsReplaceable(root.files, req.out, tools.ours);
    }
  }

  /** With the old output gone, only its ancestors could stand in the way. */
  lemma OutputUnobstructed(files: Files, out: Path)
    requires ParentsAreDirs(files, out)
    ensures Unobstructed(Without(files, out), out)
  {
    assert out[..|out|] == out;
  }

  /** Entries that were made inline by the eligibility rule, of whichever project,
      are all accounted for: the manifest's comment counts add up to exactly the
      inline entries, and those are the requested ones whose file was copied. */
  lemma EligibleRequestsAccount(m: Manifest, entries: seq<Entry>, copied: set<Path>)
    requires Accounts(m) && m.annotations == AllDemoted(entries, copied)
    requires forall e | e in entries && e.inline :: InlineEligibility(true, e).0
    ensures Annotated(m.files) == m.inline && m.inline + m.manifestOnly == |entries|
    ensures m.inline == InlineCopied(entries, copied)
  {
    forall e | e in m.annotations && e.inline ensures StyleOf(e.file) != Plain {
      var i :| 0 <= i < |m.annotations| && m.annotations[i] == e;
      assert e == Demoted(entries[i], copied) && entries[i] in entries;
      assert entries[i].inline && e.file == entries[i].file;
      EligibleIsCommentable(true, entries[i]);
    }
    DemotedCount(entries, copied);
  }

  /** The inline entries whose file was copied. */
  function InlineCopied(entries: seq<Entry>, copied: set<Path>): nat {
    if entries == [] then 0
    else
      var last := entries[|entries| - 1];
      InlineCopied(entries[..|entries| - 1], copied) + if last.inline && last.file in copied then 1 else 0
  }

  lemma {:induction false} DemotedCount(entries: seq<Entry>, copied: set<Path>)
    ensures InlineCount(AllDemoted(entries, copied)) == InlineCopied(entries, copied)
  {
    if entries != [] {
      var front := entries[..|entries| - 1];
      DemotedCount(front, copied);
      assert AllDemoted(entries, copied)[..|entries| - 1] == AllDemoted(front, copied);
    }
  }

  lemma ConfinedThen(before: Files, middle: Files, after: Files, out: Path)
    requires Confined(before, middle, out) && OnlyWithin(middle, after, out)
    ensures Confined(before, after, out)
  {
    forall p | p in before && !Within(p, out) ensures p in after && after[p] == before[p] {
      assert p in middle;
    }
    forall p | p in after && !Within(p, out) && p !in before ensures after[p] == Dir && p <= out {
      assert p in middle;
    }
  }

  // ---- what the refusals mean ----

  /** Two places overlap when one is the other or lies in it, and always with the
      project directory itself. */
  lemma OverlapMeans(a: Path, b: Path)
    ensures Overlap(a, b) <==> a == [] || b == [] || (exists rest :: a == b + rest) || (exists rest :: b == a + rest)
  {
    if a <= b {
      assert b == a + b[|a|..];
    }
    if b <= a {
      assert a == b + a[|b|..];
    }
  }

  /** What may be replaced: nothing, an empty directory, one with the marker file, or
      one whose manifest is this tool's. A file may not, nor any other directory. */
  lemma ReplaceableMeans(files: Files, out: Path, ours: string -> bool)
    ensures out !in files ==> Replaceable(files, out, ours)
    ensures out in files && files[out].File? ==> !Replaceable(files, out, ours)
    ensures out in files && files[out] == Dir ==>
              var marker, manifest := out + [".foundry-doctor-review"], out + ["annotations-manifest.json"];
              (Replaceable(files, out, ours) <==>
                 || (forall p | p in files && p != out :: !(out <= p))
                 || (marker in files && files[marker] != Dir)
                 || (manifest in files && files[manifest] != Dir && ours(files[manifest].data)))
  {}

  /** The output may be placed where neither input is it, lies in it or holds it. */
  lemma PlacedMeans(req: Request)
    ensures Placed(req) <==>
              forall input | Some(input) in {req.azureYaml, req.infra} :: !Overlap(req.out, input)
  {
    assert Placed(req) ==> forall input | Some(input) in {req.azureYaml, req.infra} :: !Overlap(req.out, input);
    if forall input | Some(input) in {req.azureYaml, req.infra} :: !Overlap(req.out, input) {
      assert req.azureYaml.Some? ==> Some(req.azureYaml.value) in {req.azureYaml, req.infra};
      assert req.infra.Some? ==> Some(req.infra.value) in {req.azureYaml, req.infra};
    }
  }

  /** Which files a review copies. */
  lemma CopySetMeans(files: Files, req: Request, skipped: (Path, nat) -> bool, p: Path)
    ensures p in CopySet(files, req, skipped) <==>
              || req.azureYaml == Some(p)
              || (&& req.infra.Some? && req.infra.value in files && files[req.infra.value] == Dir
                  && req.infra.value <= p && !(req.out <= p)
                  && p in files && files[p] != Dir && !skipped(p, |files[p].data|))
  {}

  /** azd project files get another name in the copy, in any letter case, and no other
      file does. */
  lemma ReviewNameMeans(dir: Path, name: string)
    ensures ReviewName([]) == []
    ensures ReviewName(dir + [name]) ==
              if Lower(name) == "azure.yaml" then dir + ["azure.review.yaml"]
              else if Lower(name) == "azure.yml" then dir + ["azure.review.yml"]
              else dir + [name]
  {
    assert (dir + [name])[..|dir|] == dir;
  }

  /** A Bicep copy is always commented, be it with the banner alone; a YAML copy when it
      has comments or was renamed; any other keeps its text. */
  lemma FinishedMeans(rel: Path, content: string, comments: seq<Comment>, tools: Tools)
    ensures StyleOf(rel) == Plain ==> Finished(rel, content, comments, tools) == Some(content)
    ensures StyleOf(rel) == Bicep ==> Finished(rel, content, comments, tools) == tools.comment(Bicep, content, comments)
    ensures StyleOf(rel) == Yaml && comments == [] && ReviewName(rel) == rel ==>
              Finished(rel, content, comments, tools) == Some(content) && Listed(rel, [], comments) == []
    ensures StyleOf(rel) == Yaml && (comments != [] || ReviewName(rel) != rel) ==>
              Finished(rel, content, comments, tools) == tools.comment(Yaml, content, comments)
    ensures StyleOf(rel) != Plain && (comments != [] || StyleOf(rel) == Bicep || ReviewName(rel) != rel) ==>
              Listed(rel, [], comments) == [ManifestFile(rel, ReviewName(rel), StyleOf(rel), |comments|)]
  {
    assert [] + ReviewName(rel) == ReviewName(rel);
  }

  /** A review is accepted exactly when it may be placed, no file stands where one of
      the output's ancestors is or should be, and the output may be replaced. */
  lemma AcceptedMeans(files: Files, req: Request, ours: string -> bool)
    ensures Accepted(files, req, ours) <==>
              && Placed(req) && Replaceable(files, req.out, ours)
              && !exists k :: 1 <= k < |req.out| && req.out[..k] in files && files[req.out[..k]].File?
  {}

  /** The files beside the copies, by their names and texts. */
  lemma FiledMeans(files: Files, req: Request, tools: Tools, m: Manifest)
    ensures Filed(files, req, tools, m) <==>
              var out := req.out;
              && tools.encode(m) != None
              && out + ["annotations-manifest.json"] in files
              && files[out + ["annotations-manifest.json"]] == File(tools.encode(m).value)
              && (req.writeDiff ==> out + ["annotations.diff"] in files && files[out + ["annotations.diff"]] != Dir)
              && out + [".gitignore"] in files && files[out + [".gitignore"]] == File("*\n")
    ensures Marked(files, req.out) <==>
              var marker := req.out + [".foundry-doctor-review"];
              && marker in files
              && files[marker]
                    == File("This directory is a generated Foundry Doctor review copy (.review). Do not deploy it.\n")
  {}
}
