/** A link-free project directory as a map from paths, given by their components,
    to what is there, and the root handle that changes it. */
module ReviewTree {
  import opened Results

  type Path = seq<string>

  datatype Item = Dir | File(data: string)

  type Files = map<Path, Item>

  datatype Error = UnsafeOutput | NotADirectory | AlreadyThere | Missing | NotRegular | TooLarge | CommentFailed
      | EncodeFailed | Io

  /** `isWithin` */
  predicate Within(p: Path, dir: Path) { dir <= p }

  /** Nothing but the directory's own tree differs. */
  ghost predicate OnlyWithin(before: Files, after: Files, dir: Path) {
    forall p | !Within(p, dir) :: (p in before <==> p in after) && (p in before ==> after[p] == before[p])
  }

  /** Nothing differs but ancestors of the path that were made. */
  ghost predicate OnlyMade(before: Files, after: Files, p: Path) {
    && (forall q | q in before :: q in after && after[q] == before[q])
    && (forall q | q in after && q !in before :: after[q] == Dir && q != [] && q <= p)
  }

  /** The directory and all directories above it are there. */
  ghost predicate Rooted(files: Files, dir: Path) {
    forall k | 1 <= k <= |dir| :: dir[..k] in files && files[dir[..k]] == Dir
  }

  /** Nothing is changed or lost. */
  ghost predicate Extends(before: Files, after: Files) {
    forall q | q in before :: q in after && after[q] == before[q]
  }

  /** No file stands where the directories of a path should be. */
  predicate Unobstructed(files: Files, p: Path) {
    forall k | 1 <= k <= |p| && p[..k] in files :: files[p[..k]] == Dir
  }

  /** How many directories have to be made for a path. */
  function DirsToMake(files: Files, p: Path): nat {
    if p == [] then 0 else DirsToMake(files, p[..|p| - 1]) + if p in files then 0 else 1
  }

  /** It is the number of the path's ancestors, itself included, that are not there. */
  lemma {:induction false} DirsToMakeCounts(files: Files, p: Path)
    ensures DirsToMake(files, p) == |set k | 1 <= k <= |p| && p[..k] !in files|
  {
    var missing := set k | 1 <= k <= |p| && p[..k] !in files;
    if p == [] {
      assert missing == {};
    } else {
      var front := p[..|p| - 1];
      DirsToMakeCounts(files, front);
      var before := set k | 1 <= k <= |front| && front[..k] !in files;
      assert forall k | 1 <= k <= |front| :: front[..k] == p[..k];
      assert p[..|p|] == p;
      assert missing == before + if p in files then {} else {|p|};
      assert |p| !in before;
    }
  }

  lemma {:induction false} DirsToMakeGrow(files: Files, p: Path, k: nat)
    requires k <= |p|
    ensures DirsToMake(files, p[..k]) <= DirsToMake(files, p)
    ensures k < |p| ==> DirsToMake(files, p[..k + 1]) == DirsToMake(files, p[..k]) + if p[..k + 1] in files then 0
            else 1
  {
    if k < |p| {
      assert p[..k + 1][..k] == p[..k];
      var front := p[..|p| - 1];
      DirsToMakeGrow(files, front, k);
      assert front[..k] == p[..k];
    } else {
      assert p[..k] == p;
    }
  }

  function Without(files: Files, dir: Path): Files {
    map p | p in files && !Within(p, dir) :: files[p]
  }

  lemma OnlyWithinSteps(a: Files, b: Files, c: Files, dir: Path)
    requires OnlyWithin(a, b, dir) && OnlyWithin(b, c, dir)
    ensures OnlyWithin(a, c, dir)
  {
    forall p | !Within(p, dir) ensures (p in a <==> p in c) && (p in a ==> c[p] == a[p]) {
      assert p in a <==> p in b;
    }
  }

  lemma Nested(q: Path, dir: Path, p: Path)
    requires q <= p && dir <= p
    ensures if |q| < |dir| then q == dir[..|q|] else Within(q, dir)
  {
    assert |q| < |dir| ==> q == p[..|q|] == dir[..|q|];
    assert |q| >= |dir| ==> q[..|dir|] == p[..|dir|] == dir;
  }

  /** Making directories below a rooted one changes nothing outside it. */
  lemma MadeBelow(before: Files, after: Files, p: Path, dir: Path)
    requires OnlyMade(before, after, p) && Rooted(before, dir) && dir <= p
    ensures OnlyWithin(before, after, dir) && Rooted(after, dir)
  {
    forall q | !Within(q, dir) ensures (q in before <==> q in after) && (q in before ==> after[q] == before[q]) {
      if q in after && q !in before {
        Nested(q, dir, p);
      }
    }
  }

  class Root {
    var files: Files

    /** How many more writes succeed: the point at which the disk fails. */
    var budget: nat

    constructor (files: Files, budget: nat)
      ensures this.files == files && this.budget == budget
    {
      this.files, this.budget := files, budget;
    }

    /** Makes what is missing, one directory after the other. */
    method MkdirAll(p: Path) returns (r: Result<(), Error>)
      modifies this
      ensures OnlyMade(old(files), files, p)
      ensures r.Ok? ==> Rooted(files, p)
      ensures r.Ok? <==> Unobstructed(old(files), p) && old(budget) >= DirsToMake(old(files), p)
      ensures r.Ok? ==> budget == old(budget) - DirsToMake(old(files), p)
      ensures r.Err? && Unobstructed(old(files), p) ==> r == Err(Io) && (p in files <==> p in old(files))
    {
      assert p[..0] == [];
      for k := 1 to |p| + 1
        invariant OnlyMade(old(files), files, p)
        invariant forall j | 1 <= j < k :: p[..j] in files && files[p[..j]] == Dir
        invariant forall j | k <= j <= |p| :: p[..j] in files <==> p[..j] in old(files)
        invariant forall j | 1 <= j < k && p[..j] in old(files) :: old(files)[p[..j]] == Dir
        invariant budget + DirsToMake(old(files), p[..k - 1]) == old(budget)
      {
        var q := p[..k];
        DirsToMakeGrow(old(files), p, k - 1);
        DirsToMakeGrow(old(files), p, k);
        assert p[..|p|] == p;
        if q in files {
          if files[q].File? {
            return Err(NotADirectory);
          }
        } else {
          if budget == 0 {
            return Err(Io);
          }
          budget := budget - 1;
          files := files[q := Dir];
          assert forall j | k < j <= |p| :: |p[..j]| != |q|;
        }
      }
      assert p[..|p|] == p;
      r := Ok(());
    }

    /** Refuses a path that exists. */
    method WriteNewFile(p: Path, data: string) returns (r: Result<(), Error>)
      requires p != []
      modifies this
      ensures r == if p in old(files) then Err(AlreadyThere) else if old(budget) == 0 then Err(Io) else Ok(())
      ensures files == if r.Ok? then old(files)[p := File(data)] else old(files)
    {
      if p in files {
        return Err(AlreadyThere);
      }
      if budget == 0 {
        return Err(Io);
      }
      budget := budget - 1;
      files := files[p := File(data)];
      r := Ok(());
    }

    /** Overwrites a file. */
    method WriteFile(p: Path, data: string) returns (r: Result<(), Error>)
      requires p in files && files[p].File?
      modifies this
      ensures r == if old(budget) == 0 then Err(Io) else Ok(())
      ensures files == if r.Ok? then old(files)[p := File(data)] else old(files)
    {
      if budget == 0 {
        return Err(Io);
      }
      budget := budget - 1;
      files := files[p := File(data)];
      r := Ok(());
    }

    method ReadFile(p: Path) returns (r: Result<string, Error>)
      ensures r == if p !in files then Err(Missing) else if files[p].File? then Ok(files[p].data) else Err(NotRegular)
    {
      if p !in files {
        return Err(Missing);
      }
      r := if files[p].File? then Ok(files[p].data) else Err(NotRegular);
    }

    method RemoveAll(dir: Path)
      modifies this`files
      ensures files == Without(old(files), dir)
    {
      files := map p | p in files && !Within(p, dir) :: files[p];
    }
  }
}
