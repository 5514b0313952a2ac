/** The full-file unified diff, and reading both sides back out of it. */
module UnifiedDiff {
  import opened Text

  const NO_NEWLINE := "\\ No newline at end of file"

  /** `strings.ReplaceAll(text, "\r\n", "\n")` */
  function Normalised(data: string): string {
    if data == "" then ""
    else if |data| >= 2 && data[0] == '\r' && data[1] == '\n' then "\n" + Normalised(data[2..])
    else [data[0]] + Normalised(data[1..])
  }

  predicate EndsInNewline(s: string) { s != "" && s[|s| - 1] == '\n' }

  function TrimNewline(s: string): string {
    if EndsInNewline(s) then s[..|s| - 1] else s
  }

  function SplitLines(data: string): (lines: seq<string>)
    ensures forall i | 0 <= i < |lines| :: '\n' !in lines[i]
  {
    var text := TrimNewline(Normalised(data));
    if text == "" then [] else Split(text, '\n')
  }

  function HunkRange(n: nat): string {
    if n == 0 then "0,0" else "1," + Decimal(n)
  }

  function Marked(mark: char, lines: seq<string>): seq<string> {
    seq(|lines|, i requires 0 <= i < |lines| => [mark] + lines[i])
  }

  /** One side of the hunk: its lines, and the marker of a missing final newline. */
  function Side(mark: char, data: string): seq<string> {
    var lines := SplitLines(data);
    Marked(mark, lines) + if |lines| > 0 && !EndsInNewline(data) then [NO_NEWLINE] else []
  }

  function DiffLines(path: string, before: string, after: string): seq<string> {
    [ "--- a/" + path, "+++ b/" + path,
      "@@ -" + HunkRange(|SplitLines(before)|) + " +" + HunkRange(|SplitLines(after)|) + " @@" ]
    + Side('-', before) + Side('+', after)
  }

  /** Every line with its newline. */
  function Lines(lines: seq<string>): string {
    if lines == [] then "" else lines[0] + "\n" + Lines(lines[1..])
  }

  lemma {:induction false} LinesConcat(a: seq<string>, b: seq<string>)
    ensures Lines(a + b) == Lines(a) + Lines(b)
  {
    if a == [] {
      assert a + b == b;
    } else {
      LinesConcat(a[1..], b);
      assert (a + b)[1..] == a[1..] + b;
    }
  }

  method WriteLines(builder: string, mark: char, lines: seq<string>, data: string) returns (out: string)
    requires lines == SplitLines(data)
    ensures out == builder + Lines(Side(mark, data))
  {
    hide SplitLines, EndsInNewline, Lines;
    out := builder;
    ghost var all := Marked(mark, lines);
    NoLines(builder);
    for i := 0 to |lines|
      invariant out == builder + Lines(all[..i])
    {
      AppendLine(builder, all[..i], all[i], [mark] + lines[i]);
      assert all[..i + 1] == all[..i] + [all[i]];
      out := out + ([mark] + lines[i]) + "\n";
    }
    assert all[..|lines|] == all;
    assert all + [] == all;
    if |lines| > 0 && !EndsInNewline(data) {
      AppendLine(builder, all, NO_NEWLINE, NO_NEWLINE);
      out := out + NO_NEWLINE + "\n";
    }
  }

  lemma NoLines(builder: string)
    ensures builder + Lines([]) == builder
  {}

  lemma AppendLine(builder: string, lines: seq<string>, last: string, text: string)
    requires last == text
    ensures builder + Lines(lines + [last]) == builder + Lines(lines) + text + "\n"
  {
    LinesConcat(lines, [last]);
    assert Lines([last]) == last + "\n" by { assert [last][1..] == []; }
    hide Lines;
    assert builder + (Lines(lines) + (text + "\n")) == builder + Lines(lines) + text + "\n";
  }

  /** `Unified`; nothing for equal inputs. */
  method Unified(path: string, before: string, after: string) returns (out: string)
    ensures out == if before == after then "" else Lines(DiffLines(path, before, after))
  {
    if before == after {
      return "";
    }
    var beforeLines := SplitLines(before);
    var afterLines := SplitLines(after);
    out := "--- a/" + path + "\n";
    out := out + "+++ b/" + path + "\n";
    out := out + "@@ -" + HunkRange(|beforeLines|) + " +" + HunkRange(|afterLines|) + " @@\n";
    ghost var header := DiffLines(path, before, after)[..3];
    HeaderText(path, HunkRange(|beforeLines|), HunkRange(|afterLines|));
    hide HunkRange, Lines, Side;
    assert header
        == ["--- a/" + path, "+++ b/" + path,
            "@@ -" + HunkRange(|beforeLines|) + " +" + HunkRange(|afterLines|) + " @@"];
    assert out == Lines(header);
    LinesConcat(header, Side('-', before));
    LinesConcat(header + Side('-', before), Side('+', after));
    out := WriteLines(out, '-', beforeLines, before);
    out := WriteLines(out, '+', afterLines, after);
    assert DiffLines(path, before, after) == header + Side('-', before) + Side('+', after);
  }

  lemma HeaderText(path: string, a: string, b: string)
    ensures Lines(["--- a/" + path, "+++ b/" + path, "@@ -" + a + " +" + b + " @@"])
         == "--- a/" + path + "\n" + "+++ b/" + path + "\n" + "@@ -" + a + " +" + b + " @@\n"
  {
    var x, y, z := "--- a/" + path, "+++ b/" + path, "@@ -" + a + " +" + b + " @@";
    assert [x, y, z][1..] == [y, z] && [y, z][1..] == [z] && [z][1..] == [];
    assert Lines([z]) == z + "\n";
    assert Lines([y, z]) == y + "\n" + Lines([z]);
    assert " @@" + "\n" == " @@\n";
  }

  // ---- reading it back ----

  /** The lines of a text in which every line ends with a newline. */
  function ReadLines(text: string): seq<string> {
    var parts := Split(text, '\n');
    parts[..|parts| - 1]
  }

  lemma {:induction false} LinesReadBack(lines: seq<string>)
    requires forall i | 0 <= i < |lines| :: '\n' !in lines[i]
    ensures Split(Lines(lines), '\n') == lines + [""]
    ensures ReadLines(Lines(lines)) == lines
  {
    if lines == [] {
      assert Split("", '\n') == [""];
    } else {
      LinesReadBack(lines[1..]);
      SplitHead(lines[0], Lines(lines[1..]), '\n');
      assert [lines[0]] + (lines[1..] + [""]) == lines + [""];
    }
  }

  /** The lines with a mark, without it. */
  function Taken(body: seq<string>, mark: char): seq<string> {
    if body == [] then [] else Unmarked(body[0], mark) + Taken(body[1..], mark)
  }

  function Unmarked(line: string, mark: char): seq<string> {
    if Has(line, mark) then [line[1..]] else []
  }

  predicate Has(line: string, mark: char) { line != "" && line[0] == mark }

  /** Whether some line with the mark is followed by the no-newline marker. */
  predicate Unfinished(body: seq<string>, mark: char) { FollowedBy(body, mark, NO_NEWLINE) }

  predicate FollowedBy(body: seq<string>, mark: char, marker: string) {
    exists i :: 0 <= i < |body| - 1 && Has(body[i], mark) && body[i + 1] == marker
  }

  /** The text that lines stand for. */
  function TextOf(lines: seq<string>, unfinished: bool): string {
    if lines == [] then "" else Join(lines, '\n') + if unfinished then "" else "\n"
  }

  /** One side of a diff, read from its text alone. */
  function Recovered(diff: string, mark: char): string {
    var lines := ReadLines(diff);
    var body := if |lines| >= 3 then lines[3..] else [];
    TextOf(Taken(body, mark), Unfinished(body, mark))
  }

  lemma {:induction false} TakenConcat(a: seq<string>, b: seq<string>, mark: char)
    ensures Taken(a + b, mark) == Taken(a, mark) + Taken(b, mark)
  {
    if a == [] {
      assert a + b == b;
    } else {
      hide Unmarked;
      TakenConcat(a[1..], b, mark);
      assert (a + b)[1..] == a[1..] + b && (a + b)[0] == a[0];
      assert Unmarked(a[0], mark) + (Taken(a[1..], mark) + Taken(b, mark))
          == Unmarked(a[0], mark) + Taken(a[1..], mark) + Taken(b, mark);
    }
  }

  lemma {:induction false} TakenMarked(lines: seq<string>, mark: char, wanted: char)
    ensures Taken(Marked(mark, lines), wanted) == if mark == wanted then lines else []
  {
    if lines != [] {
      TakenMarked(lines[1..], mark, wanted);
      assert Marked(mark, lines)[1..] == Marked(mark, lines[1..]);
      assert ([mark] + lines[0])[1..] == lines[0];
      assert [lines[0]] + lines[1..] == lines;
    }
  }

  lemma TakenSide(data: string, mark: char, wanted: char)
    requires wanted != '\\'
    ensures Taken(Side(mark, data), wanted) == if mark == wanted then SplitLines(data) else []
  {
    var lines := SplitLines(data);
    var end := if |lines| > 0 && !EndsInNewline(data) then [NO_NEWLINE] else [];
    TakenConcat(Marked(mark, lines), end, wanted);
    TakenMarked(lines, mark, wanted);
    assert Taken(end, wanted) == [] by {
      if end != [] {
        assert end[1..] == [] && NO_NEWLINE[0] == '\\';
      }
    }
  }

  lemma {:induction false} NormalisedEnds(data: string)
    ensures EndsInNewline(Normalised(data)) <==> EndsInNewline(data)
    ensures Normalised(data) == "" <==> data == ""
  {
    if data != "" {
      if |data| >= 2 && data[0] == '\r' && data[1] == '\n' {
        NormalisedEnds(data[2..]);
      } else {
        NormalisedEnds(data[1..]);
      }
    }
  }

  /** A side's lines and its final newline give back the normalised text, exactly
      when that is not a lone newline. */
  lemma SideIsTextIff(data: string)
    ensures TextOf(SplitLines(data), !EndsInNewline(data)) == Normalised(data) <==> Normalised(data) != "\n"
  {
    hide Normalised;
    NormalisedEnds(data);
    WholeIsTextIff(Normalised(data));
  }

  lemma WholeIsTextIff(whole: string)
    ensures var text := TrimNewline(whole);
            TextOf(if text == "" then [] else Split(text, '\n'), !EndsInNewline(whole)) == whole <==> whole != "\n"
  {
    hide Split, Join;
    var text := TrimNewline(whole);
    if text != "" {
      JoinSplit(text, '\n');
      if EndsInNewline(whole) {
        assert whole == text + "\n";
      }
    }
  }

  lemma SideLine(data: string, mark: char, i: nat)
    requires i < |Side(mark, data)| && mark != '\\'
    ensures if i < |SplitLines(data)| then Has(Side(mark, data)[i], mark) && Side(mark, data)[i] != NO_NEWLINE
            else Side(mark, data)[i] == NO_NEWLINE && i == |SplitLines(data)| > 0 && !EndsInNewline(data)
  {
    var lines := SplitLines(data);
    assert |Marked(mark, lines)| == |lines|;
    if i < |lines| {
      assert Side(mark, data)[i] == [mark] + lines[i];
    }
  }

  lemma SideLength(mark: char, data: string)
    ensures |Side(mark, data)| == |SplitLines(data)| + if |SplitLines(data)| > 0 && !EndsInNewline(data) then 1 else 0
  {
    hide SplitLines;
  }

  /** Among the lines of both sides, the marker follows a side's line exactly when
      that side lacks its final newline. */
  lemma UnfinishedIff(pre: seq<string>, data: string, post: seq<string>, mark: char)
    requires mark != '\\' && (forall i | 0 <= i < |pre| :: !Has(pre[i], mark))
             && (forall i | 0 <= i < |post| :: !Has(post[i], mark))
    requires post != [] ==> post[0] != NO_NEWLINE
    ensures Unfinished(pre + Side(mark, data) + post, mark) <==> SplitLines(data) != [] && !EndsInNewline(data)
  {
    hide Has, SplitLines, EndsInNewline, Side, FollowedBy;
    SideLength(mark, data);
    var n := |SplitLines(data)|;
    forall i | 0 <= i < |Side(mark, data)|
      ensures if i < n then Has(Side(mark, data)[i], mark) && Side(mark, data)[i] != NO_NEWLINE
              else Side(mark, data)[i] == NO_NEWLINE
    {
      SideLine(data, mark, i);
    }
    MarkerIff(pre, Side(mark, data), post, mark, NO_NEWLINE, n);
  }

  lemma MarkerIff(pre: seq<string>, side: seq<string>, post: seq<string>, mark: char, marker: string, n: nat)
    requires (forall i | 0 <= i < |pre| :: !Has(pre[i], mark)) && (forall i | 0 <= i < |post| :: !Has(post[i], mark))
    requires post != [] ==> post[0] != marker
    requires n <= |side| <= n + 1 && (|side| > n ==> n > 0)
    requires forall i | 0 <= i < |side| :: if i < n then Has(side[i], mark) && side[i] != marker else side[i] == marker
    ensures FollowedBy(pre + side + post, mark, marker) <==> |side| > n
  {
    hide Has;
    var body := pre + side + post;
    if |side| > n {
      AtThird(pre, side, post, |pre| + n - 1);
      AtThird(pre, side, post, |pre| + n);
    }
    if FollowedBy(body, mark, marker) {
      var i :| 0 <= i < |body| - 1 && Has(body[i], mark) && body[i + 1] == marker;
      AtThird(pre, side, post, i);
      AtThird(pre, side, post, i + 1);
    }
  }

  lemma AtThird(pre: seq<string>, side: seq<string>, post: seq<string>, i: nat)
    requires i < |pre + side + post|
    ensures (pre + side + post)[i] ==
            if i < |pre| then pre[i] else if i < |pre| + |side| then side[i - |pre|] else post[i - |pre| - |side|]
  {}

  lemma OtherSide(data: string, mark: char, other: char)
    requires mark != other && mark != '\\' && other != '\\'
    ensures forall i | 0 <= i < |Side(other, data)| :: !Has(Side(other, data)[i], mark)
    ensures Side(other, data) != [] ==> Side(other, data)[0] != NO_NEWLINE
  {
    forall i | 0 <= i < |Side(other, data)| ensures !Has(Side(other, data)[i], mark) {
      SideLine(data, other, i);
    }
    if Side(other, data) != [] {
      SideLine(data, other, 0);
    }
  }

  lemma BodyTells(before: string, after: string)
    ensures var body := Side('-', before) + Side('+', after);
            && Taken(body, '-') == SplitLines(before) && Taken(body, '+') == SplitLines(after)
            && (Unfinished(body, '-') <==> SplitLines(before) != [] && !EndsInNewline(before))
            && (Unfinished(body, '+') <==> SplitLines(after) != [] && !EndsInNewline(after))
  {
    hide Side, Taken, SplitLines, EndsInNewline, Unfinished, Has;
    var a, b := Side('-', before), Side('+', after);
    TakenConcat(a, b, '-');
    TakenConcat(a, b, '+');
    TakenSide(before, '-', '-');
    TakenSide(before, '-', '+');
    TakenSide(after, '+', '-');
    TakenSide(after, '+', '+');
    OtherSide(after, '-', '+');
    OtherSide(before, '+', '-');
    UnfinishedIff([], before, b, '-');
    UnfinishedIff(a, after, [], '+');
    assert [] + a + b == a + b && a + b + [] == a + b;
    assert SplitLines(before) + [] == SplitLines(before) && [] + SplitLines(after) == SplitLines(after);
  }

  lemma CleanJoin(a: string, b: string)
    requires '\n' !in a && '\n' !in b
    ensures '\n' !in a + b
  {}

  lemma RangeClean(n: nat)
    ensures '\n' !in HunkRange(n)
  {
    DecimalRoundTrip(n);
    CleanJoin("1,", Decimal(n));
  }

  lemma HeaderClean(path: string, a: string, b: string)
    requires '\n' !in path && '\n' !in a && '\n' !in b
    ensures '\n' !in "--- a/" + path && '\n' !in "+++ b/" + path && '\n' !in "@@ -" + a + " +" + b + " @@"
  {
    CleanJoin("--- a/", path);
    CleanJoin("+++ b/", path);
    CleanJoin("@@ -", a);
    CleanJoin("@@ -" + a, " +");
    CleanJoin("@@ -" + a + " +", b);
    CleanJoin("@@ -" + a + " +" + b, " @@");
  }

  lemma NoNewlineInside(path: string, before: string, after: string)
    requires '\n' !in path
    ensures forall i | 0 <= i < |DiffLines(path, before, after)| :: '\n' !in DiffLines(path, before, after)[i]
  {
    hide HunkRange, Side, SplitLines;
    var lines := DiffLines(path, before, after);
    var b, a := HunkRange(|SplitLines(before)|), HunkRange(|SplitLines(after)|);
    RangeClean(|SplitLines(before)|);
    RangeClean(|SplitLines(after)|);
    HeaderClean(path, b, a);
    SideClean('-', before);
    SideClean('+', after);
    var header := ["--- a/" + path, "+++ b/" + path, "@@ -" + b + " +" + a + " @@"];
    assert lines == header + Side('-', before) + Side('+', after);
    forall i | 0 <= i < |lines| ensures '\n' !in lines[i] {
      AtThird(header, Side('-', before), Side('+', after), i);
      if i < 3 {
        assert header[i] == header[0] || header[i] == header[1] || header[i] == header[2];
      }
    }
  }

  lemma SideClean(mark: char, data: string)
    requires mark != '\n'
    ensures forall i | 0 <= i < |Side(mark, data)| :: '\n' !in Side(mark, data)[i]
  {
    var lines := SplitLines(data);
    assert '\n' !in NO_NEWLINE;
    forall i | 0 <= i < |Side(mark, data)| ensures '\n' !in Side(mark, data)[i] {
      if i < |lines| {
        assert Side(mark, data)[i] == [mark] + lines[i];
      }
    }
  }

  lemma BodyRead(path: string, before: string, after: string)
    requires '\n' !in path
    ensures var lines := ReadLines(Lines(DiffLines(path, before, after)));
            |lines| >= 3 && lines[2] == DiffLines(path, before, after)[2]
                && lines[3..] == Side('-', before) + Side('+', after)
  {
    hide Side, Lines, ReadLines, HunkRange, SplitLines, Split;
    NoNewlineInside(path, before, after);
    LinesReadBack(DiffLines(path, before, after));
    assert DiffLines(path, before, after)[3..] == Side('-', before) + Side('+', after);
  }

  /** Both normalised texts, final newlines included, can be read back out of the
      diff; a side is read back exactly when its normalised text is not a lone
      newline, which prints like the empty file. */
  lemma RecoversIff(path: string, before: string, after: string)
    requires '\n' !in path
    ensures var diff := Lines(DiffLines(path, before, after));
            && (Recovered(diff, '-') == Normalised(before) <==> Normalised(before) != "\n")
            && (Recovered(diff, '+') == Normalised(after) <==> Normalised(after) != "\n")
  {
    hide DiffLines, Lines, ReadLines, Side, Taken, Unfinished, SplitLines, EndsInNewline, Normalised;
    BodyRead(path, before, after);
    BodyTells(before, after);
    SideIsTextIff(before);
    SideIsTextIff(after);
  }

  /** The hunk ranges are the numbers of '-' and '+' lines. */
  lemma RangesCountLines(path: string, before: string, after: string)
    requires '\n' !in path
    ensures var lines := ReadLines(Lines(DiffLines(path, before, after)));
            && |lines| >= 3
            && lines[2] == "@@ -" + HunkRange(|Taken(lines[3..], '-')|) + " +" + HunkRange(|Taken(lines[3..], '+')|)
                  + " @@"
  {
    hide Lines, ReadLines, Side, Taken, Unfinished, SplitLines, HunkRange;
    BodyRead(path, before, after);
    BodyTells(before, after);
  }

  /** Different numbers of lines give different ranges. */
  lemma RangesDiffer(n: nat, m: nat)
    ensures HunkRange(n) == HunkRange(m) <==> n == m
  {
    DecimalRoundTrip(n);
    DecimalRoundTrip(m);
    if n > 0 {
      assert HunkRange(n)[0] == '1' && HunkRange(n)[2..] == Decimal(n);
    }
    if m > 0 {
      assert HunkRange(m)[0] == '1' && HunkRange(m)[2..] == Decimal(m);
    }
    assert "0,0"[0] == '0';
  }

  // ---- what normalising and ranges mean ----

  predicate HasCrLf(s: string) { exists i :: 0 <= i < |s| - 1 && s[i] == '\r' && s[i + 1] == '\n' }

  lemma NoCrLf(head: string)
    requires head != "" && !HasCrLf(head)
    ensures |head| >= 2 ==> !(head[0] == '\r' && head[1] == '\n')
    ensures !HasCrLf(head[1..])
  {
    assert |head| >= 2 ==> !(head[0] == '\r' && head[0 + 1] == '\n');
    forall i | 0 <= i < |head[1..]| - 1 ensures !(head[1..][i] == '\r' && head[1..][i + 1] == '\n') {
      assert !(head[i + 1] == '\r' && head[i + 1 + 1] == '\n');
    }
  }

  lemma HeadOff(head: string, tail: string)
    requires head != ""
    ensures (head + tail)[1..] == head[1..] + tail && (head + tail)[0] == head[0]
    ensures [head[0]] + (head[1..] + tail) == head + tail && [head[0]] + head[1..] == head
  {}

  lemma NormalisedStep(text: string)
    requires text != "" && !(|text| >= 2 && text[0] == '\r' && text[1] == '\n')
    ensures Normalised(text) == [text[0]] + Normalised(text[1..])
  {}

  /** Text without a CRLF is kept, and of other text each CRLF in turn becomes a
      newline. */
  lemma {:induction false} NormalisedMeans(head: string, tail: string)
    requires !HasCrLf(head)
    ensures Normalised(head) == head
    ensures Normalised(head + "\r\n" + tail) == head + "\n" + Normalised(tail)
  {
    if head == "" {
      assert head + "\r\n" + tail == "\r\n" + tail && ("\r\n" + tail)[2..] == tail;
      assert head + "\n" + Normalised(tail) == "\n" + Normalised(tail);
    } else {
      var rest := head[1..];
      NoCrLf(head);
      NormalisedMeans(rest, tail);
      var text := head + "\r\n" + tail;
      HeadOff(head, "\r\n" + tail);
      assert head + ("\r\n" + tail) == text && rest + ("\r\n" + tail) == rest + "\r\n" + tail;
      assert text[1] == if |head| > 1 then head[1] else '\r';
      hide HasCrLf;
      NormalisedStep(text);
      NormalisedStep(head);
      HeadOff(head, "\n" + Normalised(tail));
      assert head + ("\n" + Normalised(tail)) == head + "\n" + Normalised(tail);
      assert rest + ("\n" + Normalised(tail)) == rest + "\n" + Normalised(tail);
    }
  }

  /** An empty side has the range 0,0 and any other starts at line one. */
  lemma RangeMeans(n: nat)
    requires n > 0
    ensures HunkRange(0) == "0,0"
    ensures "1," <= HunkRange(n) && DecimalValue(HunkRange(n)[2..]) == n
  {
    DecimalRoundTrip(n);
    assert HunkRange(n)[2..] == Decimal(n);
  }

  /** A side is its lines behind the mark, followed by the note exactly when there are
      lines and the text does not end in a newline. */
  lemma SideMeans(mark: char, data: string)
    ensures var lines, side := SplitLines(data), Side(mark, data);
            && |side| == |lines| + (if lines != [] && (data == "" || data[|data| - 1] != '\n') then 1 else 0)
            && (forall i | 0 <= i < |lines| :: side[i] == [mark] + lines[i])
            && (|side| > |lines| ==> side[|lines|] == "\\ No newline at end of file")
  {}
}
