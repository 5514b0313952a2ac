/** Repository paths: what `normalizePath` accepts and returns. */
module RepoPaths {
  import opened Text

  datatype Normalized = Path(path: string) | OutsideRepo

  function DropSlashes(s: string): string {
    if s != "" && s[0] == '/' then DropSlashes(s[1..]) else s
  }

  /** `replace(/^\.?\/+/, "")` */
  function StripLead(s: string): string {
    if s != "" && s[0] == '/' then DropSlashes(s)
    else if |s| >= 2 && s[0] == '.' && s[1] == '/' then DropSlashes(s[1..])
    else s
  }

  /** `replace(/\/+$/, "")` */
  function StripTrail(s: string): string {
    if s != "" && s[|s| - 1] == '/' then StripTrail(s[..|s| - 1]) else s
  }

  /** The segments that mean something: not empty and not ".". */
  function Meaningful(parts: seq<string>): seq<string> {
    if parts == [] then []
    else if parts[0] == "" || parts[0] == "." then Meaningful(parts[1..])
    else [parts[0]] + Meaningful(parts[1..])
  }

  function Normalize(input: string): Normalized {
    var segments := Meaningful(Split(StripTrail(StripLead(input)), '/'));
    if ".." in segments then OutsideRepo else Path(Join(segments, '/'))
  }

  /** The parent directories of a path, outermost first. */
  function ParentDirs(path: string): set<string> {
    var parts := Split(path, '/');
    set i | 1 <= i < |parts| :: Join(parts[..i], '/')
  }

  /** The directories a path lies under are exactly its parents. */
  lemma ParentDirsMeans(path: string, dir: string)
    ensures dir in ParentDirs(path) <==> Under(dir, path)
  {
    var parts := Split(path, '/');
    JoinSplit(path, '/');
    if dir in ParentDirs(path) {
      var i :| 1 <= i < |parts| && dir == Join(parts[..i], '/');
      JoinCut(parts, i);
      assert path == dir + "/" + Join(parts[i..], '/');
    }
    if Under(dir, path) {
      var rest := path[|dir| + 1..];
      assert path == dir + "/" + rest;
      SplitAt(dir, rest);
      var i := |Split(dir, '/')|;
      assert parts[..i] == Split(dir, '/');
      JoinSplit(dir, '/');
    }
  }

  lemma {:induction false} JoinCut(parts: seq<string>, i: nat)
    requires 1 <= i < |parts|
    ensures Join(parts, '/') == Join(parts[..i], '/') + "/" + Join(parts[i..], '/')
  {
    if i == 1 {
      assert parts[..1] == [parts[0]];
    } else {
      JoinCut(parts[1..], i - 1);
      assert parts[..i][1..] == parts[1..][..i - 1] && parts[1..][i - 1..] == parts[i..];
    }
  }

  /** A path `Normalize` leaves as it is. */
  predicate Normal(p: string) { Normalize(p) == Path(p) }

  predicate Under(dir: string, p: string) { dir + "/" <= p }

  // ---- the two regular expressions change nothing ----

  lemma {:induction false} MeaningfulConcat(a: seq<string>, b: seq<string>)
    ensures Meaningful(a + b) == Meaningful(a) + Meaningful(b)
  {
    if a == [] {
      assert a + b == b;
    } else {
      MeaningfulConcat(a[1..], b);
      assert (a + b)[1..] == a[1..] + b;
      assert (a + b)[0] == a[0];
    }
  }

  lemma {:induction false} SplitTail(s: string, sep: char)
    ensures Split(s + [sep], sep) == Split(s, sep) + [""]
  {
    if s == "" {
      assert s + [sep] == [sep];
      assert [sep][1..] == "";
    } else {
      SplitTail(s[1..], sep);
      assert (s + [sep])[1..] == s[1..] + [sep];
      var rest := Split(s[1..], sep);
      assert (rest + [""])[0] == rest[0] && (rest + [""])[1..] == rest[1..] + [""];
    }
  }

  lemma {:induction false} DropSlashesKeeps(s: string)
    ensures Meaningful(Split(DropSlashes(s), '/')) == Meaningful(Split(s, '/'))
  {
    if s != "" && s[0] == '/' {
      DropSlashesKeeps(s[1..]);
      assert Split(s, '/')[1..] == Split(s[1..], '/');
    }
  }

  lemma {:induction false} StripTrailKeeps(s: string)
    ensures Meaningful(Split(StripTrail(s), '/')) == Meaningful(Split(s, '/'))
  {
    if s != "" && s[|s| - 1] == '/' {
      var front := s[..|s| - 1];
      StripTrailKeeps(front);
      assert s == front + "/";
      SplitTail(front, '/');
      MeaningfulConcat(Split(front, '/'), [""]);
      assert Meaningful([""]) == [];
    }
  }

  lemma StripLeadKeeps(s: string)
    ensures Meaningful(Split(StripLead(s), '/')) == Meaningful(Split(s, '/'))
  {
    DropSlashesKeeps(s);
    if |s| >= 2 && s[0] == '.' && s[1] == '/' {
      DropSlashesKeeps(s[1..]);
      var tail := s[2..];
      assert s == "." + "/" + tail && s[1..] == "" + "/" + tail;
      SplitHead(".", tail, '/');
      SplitHead("", tail, '/');
      assert Split(s, '/')[1..] == Split(tail, '/') == Split(s[1..], '/')[1..];
    }
  }

  function Segments(input: string): seq<string> {
    Meaningful(Split(input, '/'))
  }

  /** A path is what its meaningful segments say, whichever leading, trailing or
      doubled slashes and "." segments it is written with. */
  lemma NormalizeBySegments(input: string)
    ensures Normalize(input) == if ".." in Segments(input) then OutsideRepo else Path(Join(Segments(input), '/'))
  {
    StripLeadKeeps(input);
    StripTrailKeeps(StripLead(input));
  }

  predicate Plain(s: string) { s != "" && s != "." && s != ".." }

  lemma {:induction false} MeaningfulFixed(parts: seq<string>)
    requires forall s | s in parts :: Plain(s)
    ensures Meaningful(parts) == parts
  {
    if parts != [] {
      assert Plain(parts[0]);
      MeaningfulFixed(parts[1..]);
      assert [parts[0]] + parts[1..] == parts;
    }
  }

  lemma {:induction false} MeaningfulOnly(parts: seq<string>)
    ensures forall s | s in Meaningful(parts) :: s in parts && s != "" && s != "."
  {
    if parts != [] {
      MeaningfulOnly(parts[1..]);
      assert parts == [parts[0]] + parts[1..];
    }
  }

  lemma SegmentsPlain(input: string)
    requires ".." !in Segments(input)
    ensures forall s | s in Segments(input) :: Plain(s)
    ensures forall i | 0 <= i < |Segments(input)| :: '/' !in Segments(input)[i]
  {
    var parts := Split(input, '/');
    MeaningfulOnly(parts);
    forall i | 0 <= i < |Segments(input)| ensures '/' !in Segments(input)[i] {
      assert Segments(input)[i] in parts;
    }
  }

  lemma RootSegments()
    ensures Segments("") == []
  {
    assert Split("", '/') == [""];
    assert Meaningful([""]) == Meaningful([""][1..]);
  }

  /** Joining plain segments and reading them back. */
  lemma SegmentsOfJoin(segments: seq<string>)
    requires forall s | s in segments :: Plain(s)
    requires forall i | 0 <= i < |segments| :: '/' !in segments[i]
    ensures Segments(Join(segments, '/')) == segments
  {
    if segments == [] {
      RootSegments();
    } else {
      SplitJoin(segments, '/');
      MeaningfulFixed(segments);
    }
  }

  /** Normalising twice is normalising once. */
  lemma NormalizeIdempotent(input: string)
    ensures Normalize(input).Path? ==> Normal(Normalize(input).path)
  {
    NormalizeBySegments(input);
    if ".." !in Segments(input) {
      SegmentsPlain(input);
      SegmentsOfJoin(Segments(input));
      NormalizeBySegments(Join(Segments(input), '/'));
    }
  }

  /** Exactly the root and the paths without empty, "." or ".." segments are normal. */
  lemma NormalIff(p: string)
    ensures Normal(p) <==> (p == "" || forall s | s in Split(p, '/') :: Plain(s))
  {
    if p == "" {
      NormalizeBySegments(p);
      RootSegments();
    } else {
      if Normal(p) {
        NormalIsPlain(p);
      }
      if forall s | s in Split(p, '/') :: Plain(s) {
        PlainIsNormal(p);
      }
    }
  }

  lemma PlainIsNormal(p: string)
    requires forall s | s in Split(p, '/') :: Plain(s)
    ensures Normal(p)
  {
    NormalizeBySegments(p);
    MeaningfulFixed(Split(p, '/'));
    JoinSplit(p, '/');
  }

  lemma NormalIsPlain(p: string)
    requires p != "" && Normal(p)
    ensures forall s | s in Split(p, '/') :: Plain(s)
  {
    NormalizeBySegments(p);
    SegmentsPlain(p);
    assert Segments(p) != [];
    SplitJoin(Segments(p), '/');
  }

  lemma LeadingSlashNotNormal(k: string)
    requires "/" <= k
    ensures !Normal(k)
  {
    NormalIff(k);
    assert k[0] == '/' && Split(k, '/')[0] == "";
    assert "" in Split(k, '/') && !Plain("");
  }

  // ---- directories ----

  /** Two directories, neither of which is or contains the other. */
  predicate Separate(a: string, b: string) {
    a != "" && b != "" && a != b && !Under(a, b) && !Under(b, a)
  }

  lemma BothUnder(a: string, b: string, p: string)
    requires Under(a, p) && Under(b, p)
    ensures a == b || Under(a, b) || Under(b, a)
  {
    assert p[..|a| + 1] == a + "/" && p[..|b| + 1] == b + "/";
    assert a == p[..|a|] && b == p[..|b|];
    if |a| < |b| {
      assert a + "/" == b[..|a| + 1];
    } else if |b| < |a| {
      assert b + "/" == a[..|b| + 1];
    }
  }

  lemma UnderStarts(dir: string, p: string)
    requires Under(dir, p)
    ensures p != "" && p[0] == if dir == "" then '/' else dir[0]
  {
    assert p[0] == (dir + "/")[0];
  }

  /** No path is under both: also for the root as a destination, because a name
      under it would begin with a slash. */
  predicate Apart(from: string, to: string) {
    Separate(from, to) || (to == "" && from != "" && from[0] != '/')
  }

  lemma UnderOneOnly(a: string, b: string, p: string)
    requires Apart(a, b)
    ensures !(Under(a, p) && Under(b, p))
  {
    if Under(a, p) && Under(b, p) {
      if b == "" {
        UnderStarts(a, p);
        UnderStarts(b, p);
      } else {
        BothUnder(a, b, p);
      }
      assert false;
    }
  }

  /** Where a path under `from` lands when its directory becomes `to`. */
  function Target(from: string, to: string, p: string): string
    requires Under(from, p)
  {
    to + p[|from|..]
  }

  lemma TargetSource(from: string, to: string, p: string)
    requires Under(from, p)
    ensures Under(to, Target(from, to, p))
    ensures Target(to, from, Target(from, to, p)) == p
  {
    var t := Target(from, to, p);
    assert p == from + p[|from|..] && p[|from|] == '/';
    assert t[|to|..] == p[|from|..];
    assert t[..|to| + 1] == to + "/";
  }

  /** Moving a normal path under another normal directory keeps it normal. */
  lemma TargetNormal(from: string, to: string, p: string)
    requires Normal(p) && Normal(from) && Normal(to) && from != "" && to != "" && Under(from, p)
    ensures Normal(Target(from, to, p))
  {
    var rest := p[|from| + 1..];
    assert p == from + "/" + rest && Target(from, to, p) == to + "/" + rest;
    SplitAt(from, rest);
    SplitAt(to, rest);
    NormalIff(p);
    NormalIff(to);
    NormalIff(to + "/" + rest);
    forall s | s in Split(to + "/" + rest, '/') ensures Plain(s) {
      if s in Split(rest, '/') {
        assert s in Split(p, '/');
      }
    }
  }

  lemma {:induction false} SplitAt(a: string, b: string)
    ensures Split(a + "/" + b, '/') == Split(a, '/') + Split(b, '/')
  {
    if a == "" {
      SplitHead("", b, '/');
    } else {
      var s, tail := a + "/" + b, a[1..] + "/" + b;
      SplitAt(a[1..], b);
      assert s[1..] == tail && s[0] == a[0];
      SplitCons(s, '/');
      SplitCons(a, '/');
      HeadOfConcat(Split(a[1..], '/'), Split(b, '/'), s[0]);
    }
  }

  lemma SplitCons(s: string, sep: char)
    requires s != ""
    ensures var rest := Split(s[1..], sep);
            Split(s, sep) == if s[0] == sep then [""] + rest else [[s[0]] + rest[0]] + rest[1..]
  {}

  lemma HeadOfConcat(a: seq<string>, b: seq<string>, c: char)
    requires |a| > 0
    ensures [""] + (a + b) == ([""] + a) + b
    ensures [[c] + (a + b)[0]] + (a + b)[1..] == ([[c] + a[0]] + a[1..]) + b
  {}
}
