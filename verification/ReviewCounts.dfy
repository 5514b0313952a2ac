/** Review entries, the comments they become, and how many of each there are. */
module ReviewCounts {
  import opened ReviewTree

  datatype Style = Yaml | Bicep | Plain

  datatype Entry = Entry(file: Path, kind: string, line: int, inline: bool, inlineReason: string, text: string)

  datatype Comment = Comment(line: int, text: string)

  function LowerChar(c: char): char {
    if 'A' <= c <= 'Z' then c - 'A' + 'a' else c
  }

  function Lower(s: string): string {
    seq(|s|, i requires 0 <= i < |s| => LowerChar(s[i]))
  }

  /** `path.Ext`: from the last dot on. */
  function Ext(name: string): string {
    if name == "" then "" else if name[|name| - 1] == '.' then "." else
      var rest := Ext(name[..|name| - 1]);
      if rest == "" then "" else rest + [name[|name| - 1]]
  }

  function BaseName(p: Path): string { if p == [] then "." else p[|p| - 1] }

  function StyleOf(file: Path): Style {
    var ext := Lower(Ext(BaseName(file)));
    if ext == ".yaml" || ext == ".yml" then Yaml else if ext == ".bicep" then Bicep else Plain
  }

  /** `inlineEligibility` */
  function InlineEligibility(projectRelative: bool, e: Entry): (bool, string) {
    if e.file == [] || e.line <= 0 then (false, "imprecise-location")
    else if !projectRelative then (false, "outside-project")
    else
      match StyleOf(e.file)
      case Yaml => (true, "")
      case Bicep => if e.kind == "bicep-diagnostic" then (true, "") else (false, "untrusted-bicep-location")
      case Plain => (false, "unsupported-file-type")
  }

  /** An inline entry in a file that was not copied stays in the manifest only. */
  function Demoted(e: Entry, copied: set<Path>): Entry {
    if e.inline && e.file !in copied
    then e.(inline := false, inlineReason := if e.inlineReason == "" then "file-not-copied" else e.inlineReason) else e
  }

  predicate Becomes(e: Entry, file: Path, style: Style) {
    e.inline && e.file == file && StyleOf(file) == style
  }

  /** The comments of one file, in the order of the entries. */
  function CommentsFor(entries: seq<Entry>, file: Path, style: Style): seq<Comment> {
    if entries == [] then []
    else
      var rest, last := CommentsFor(entries[..|entries| - 1], file, style), entries[|entries| - 1];
      if Becomes(last, file, style) then rest + [Comment(last.line, last.text)] else rest
  }

  function InlineCount(entries: seq<Entry>): nat {
    if entries == [] then 0
    else InlineCount(entries[..|entries| - 1]) + if entries[|entries| - 1].inline then 1 else 0
  }

  /** The inline entries that some comment style can carry. */
  function CommentCount(entries: seq<Entry>): nat {
    if entries == [] then 0
    else
      var last := entries[|entries| - 1];
      CommentCount(entries[..|entries| - 1]) + if last.inline && StyleOf(last.file) != Plain then 1 else 0
  }

  /** The comments that land in some files. */
  function Landed(entries: seq<Entry>, files: seq<Path>): nat {
    if files == [] then 0
    else
      var last := files[|files| - 1];
      Landed(entries, files[..|files| - 1]) + if StyleOf(last) == Plain then 0
          else |CommentsFor(entries, last, StyleOf(last))|
  }

  predicate Distinct(files: seq<Path>) { forall i, j | 0 <= i < j < |files| :: files[i] != files[j] }

  lemma {:induction false} LandedStep(entries: seq<Entry>, files: seq<Path>)
    requires entries != [] && Distinct(files)
    ensures var last := entries[|entries| - 1];
            Landed(entries, files) == Landed(entries[..|entries| - 1], files)
              + if last.inline && last.file in files && StyleOf(last.file) != Plain then 1 else 0
  {
    if files != [] {
      var front, f := files[..|files| - 1], files[|files| - 1];
      LandedStep(entries, front);
      assert forall x :: x in files <==> x in front || x == f;
      assert f !in front;
    }
  }

  lemma {:induction false} NoEntriesLand(files: seq<Path>)
    ensures Landed([], files) == 0
  {
    if files != [] {
      NoEntriesLand(files[..|files| - 1]);
    }
  }

  /** Every inline entry of a commentable kind becomes one comment in one file. */
  lemma {:induction false} AllLand(entries: seq<Entry>, files: seq<Path>)
    requires Distinct(files) && forall e | e in entries && e.inline :: e.file in files
    ensures Landed(entries, files) == CommentCount(entries)
  {
    if entries == [] {
      NoEntriesLand(files);
    } else {
      var front := entries[..|entries| - 1];
      assert forall e | e in front :: e in entries;
      AllLand(front, files);
      LandedStep(entries, files);
      assert entries[|entries| - 1] in entries;
    }
  }

  /** The comments number as many as the inline entries exactly when every inline
      entry is in a file that takes comments. */
  lemma {:induction false} CommentsAreInlineIff(entries: seq<Entry>)
    ensures CommentCount(entries) <= InlineCount(entries)
    ensures CommentCount(entries) == InlineCount(entries) <==> forall e | e in entries && e.inline ::
            StyleOf(e.file) != Plain
  {
    if entries != [] {
      var front, last := entries[..|entries| - 1], entries[|entries| - 1];
      CommentsAreInlineIff(front);
      assert forall e :: e in entries <==> e in front || e == last;
    }
  }

  /** What makes an entry inline also makes it commentable. */
  lemma EligibleIsCommentable(projectRelative: bool, e: Entry)
    requires InlineEligibility(projectRelative, e).0
    ensures StyleOf(e.file) != Plain && e.line > 0 && projectRelative
  {}

  // ---- file kinds and eligibility ----

  /** Capital letters become small ones, and nothing else changes. */
  lemma LowerMeans(s: string, i: nat)
    requires i < |s|
    ensures |Lower(s)| == |s|
    ensures 'A' <= s[i] <= 'Z' ==>
            'a' <= Lower(s)[i] <= 'z' && Lower(s)[i] as int - 'a' as int == s[i] as int - 'A' as int
    ensures !('A' <= s[i] <= 'Z') ==> Lower(s)[i] == s[i]
  {}

  /** The extension is what follows the last dot, with the dot, or nothing. */
  lemma {:induction false} ExtMeans(name: string)
    ensures |Ext(name)| <= |name| && name[|name| - |Ext(name)|..] == Ext(name)
    ensures '.' in name ==> Ext(name) != "" && Ext(name)[0] == '.' && '.' !in Ext(name)[1..]
    ensures '.' !in name ==> Ext(name) == ""
  {
    if name != "" && name[|name| - 1] != '.' {
      var front := name[..|name| - 1];
      ExtMeans(front);
      var rest := Ext(front);
      assert name == front + [name[|name| - 1]];
      if rest != "" {
        assert (rest + [name[|name| - 1]])[1..] == rest[1..] + [name[|name| - 1]];
      }
    }
  }

  /** The extension of a name that ends in one. */
  lemma {:induction false} ExtOf(stem: string, ext: string)
    requires ext != "" && ext[0] == '.' && '.' !in ext[1..]
    ensures Ext(stem + ext) == ext
  {
    var name, last := stem + ext, ext[|ext| - 1];
    if |ext| > 1 {
      var front := ext[..|ext| - 1];
      assert last == ext[1..][|ext| - 2];
      assert forall c | c in front[1..] :: c in ext[1..];
      ExtOf(stem, front);
      assert name[..|name| - 1] == stem + front;
      assert front + [last] == ext;
    }
  }

  /** Which comments a file takes, by how its name ends in any letter case. */
  lemma StyleMeans(dir: Path, stem: string, ext: string)
    requires ext != "" && ext[0] == '.' && '.' !in ext[1..]
    ensures StyleOf(dir + [stem + ext]) ==
              match Lower(ext)
              case ".yaml" => Yaml
              case ".yml" => Yaml
              case ".bicep" => Bicep
              case _ => Plain
  {
    ExtOf(stem, ext);
    assert BaseName(dir + [stem + ext]) == stem + ext;
  }

  lemma NoExtension(dir: Path, name: string)
    requires '.' !in name
    ensures StyleOf(dir + [name]) == StyleOf([]) == Plain
  {
    ExtMeans(name);
    assert Ext(BaseName(dir + [name])) == "";
    assert Ext(".") == ".";
    assert Lower("") == "" && Lower(".") == ".";
  }

  /** When a finding may be an inline comment, and the reason it is told otherwise. */
  lemma EligibilityMeans(projectRelative: bool, e: Entry)
    ensures var (inline, reason) := InlineEligibility(projectRelative, e);
            && (inline <==> reason == "")
            && (inline <==> e.file != [] && e.line > 0 && projectRelative
                            && (StyleOf(e.file) == Yaml || (StyleOf(e.file) == Bicep && e.kind == "bicep-diagnostic")))
            && (reason == "imprecise-location" <==> e.file == [] || e.line <= 0)
            && (reason == "outside-project" <==> e.file != [] && e.line > 0 && !projectRelative)
            && (reason == "untrusted-bicep-location" <==>
                  e.file != [] && e.line > 0 && projectRelative && StyleOf(e.file) == Bicep
                      && e.kind != "bicep-diagnostic")
            && (reason == "unsupported-file-type" <==>
                  e.file != [] && e.line > 0 && projectRelative && StyleOf(e.file) == Plain)
  {}

  /** Demotion touches inline entries of files that were not copied, and of those only
      the flag and a missing reason. */
  lemma DemotedMeans(e: Entry, copied: set<Path>)
    ensures var d := Demoted(e, copied);
            && d.file == e.file && d.kind == e.kind && d.line == e.line && d.text == e.text
            && (d.inline <==> e.inline && e.file in copied)
            && d.inlineReason == if e.inline && e.file !in copied && e.inlineReason == "" then "file-not-copied"
                  else e.inlineReason
  {}
}
