/** The tokens of a licence expression. */
module SpdxText {
  import opened Options

  predicate Space(c: char) { c == ' ' || c == '\t' || c == '\n' || c == '\r' }

  predicate Letter(c: char) { 'A' <= c <= 'Z' || 'a' <= c <= 'z' }

  predicate Digit(c: char) { '0' <= c <= '9' }

  /** `[A-Za-z0-9.+-]` */
  predicate IdChar(c: char) { Letter(c) || Digit(c) || c == '.' || c == '+' || c == '-' }

  /** What `\b` looks for after a keyword. */
  predicate WordChar(c: char) { Letter(c) || Digit(c) || c == '_' }

  function Upper(c: char): char {
    if 'a' <= c <= 'z' then c - 'a' + 'A' else c
  }

  function UpperAll(s: string): string {
    seq(|s|, i requires 0 <= i < |s| => Upper(s[i]))
  }

  lemma SpaceMeans(c: char)
    ensures Space(c) <==> c in " \t\n\r"
  {}

  lemma DigitMeans(c: char)
    ensures Digit(c) <==> c in "0123456789"
  {}

  lemma UpperMeans(c: char)
    ensures 'a' <= c <= 'z' ==> 'A' <= Upper(c) <= 'Z' && Upper(c) as int - 'A' as int == c as int - 'a' as int
    ensures !('a' <= c <= 'z') ==> Upper(c) == c
  {}

  /** The characters of each class. */
  lemma CharactersAre(c: char)
    ensures Letter(c) <==> c in "ABCDEFGHIJKLMNOPQRSTUVWXYZ" || c in "abcdefghijklmnopqrstuvwxyz"
    ensures IdChar(c) <==> Letter(c) || Digit(c) || c in ".+-"
    ensures WordChar(c) <==> Letter(c) || Digit(c) || c in "_"
  {}

  function SkipSpace(s: string): string {
    if s != "" && Space(s[0]) then SkipSpace(s[1..]) else s
  }

  /** The length of the identifier a text starts with. */
  function IdLength(s: string): (n: nat)
    ensures n <= |s|
  {
    if s != "" && IdChar(s[0]) then 1 + IdLength(s[1..]) else 0
  }

  /** The keyword, in any case, and a word boundary after it. */
  predicate StartsKeyword(s: string, keyword: string) {
    |s| >= |keyword| && UpperAll(s[..|keyword|]) == keyword && (|s| == |keyword| || !WordChar(s[|keyword|]))
  }

  /** The length of the token a text without leading space starts with; 0 if none. */
  function TokenLength(s: string): (n: nat)
    ensures n <= |s|
  {
    if s == "" then 0
    else if s[0] == '(' || s[0] == ')' then 1
    else if StartsKeyword(s, "AND") then 3
    else if StartsKeyword(s, "OR") then 2
    else if StartsKeyword(s, "WITH") then 4
    else IdLength(s)
  }

  /** The whole text as tokens, if it is made of them; space after the last one is
      not accepted. */
  function Tokens(s: string): Option<seq<string>>
    decreases |s|
  {
    if s == "" then Some([])
    else
      var t := SkipSpace(s);
      var n := TokenLength(t);
      SkipSpaceShortens(s);
      if n == 0 then None
      else
        match Tokens(t[n..])
        case None => None
        case Some(rest) => Some([t[..n]] + rest)
  }

  lemma {:induction false} SkipSpaceShortens(s: string)
    ensures |SkipSpace(s)| <= |s|
  {
    if s != "" && Space(s[0]) {
      SkipSpaceShortens(s[1..]);
    }
  }

  // ---- texts side by side ----

  /** A character that ends the token before it. */
  predicate Break(c: char) { c == ' ' || c == ')' }

  lemma {:induction false} SkipSpaceAppend(s: string, b: string)
    requires SkipSpace(s) != ""
    ensures SkipSpace(s + b) == SkipSpace(s) + b
  {
    if s != "" && Space(s[0]) {
      assert (s + b)[1..] == s[1..] + b;
      SkipSpaceAppend(s[1..], b);
    }
  }

  lemma {:induction false} IdLengthAppend(s: string, b: string)
    requires b != "" && Break(b[0])
    ensures IdLength(s + b) == IdLength(s)
  {
    if s == "" {
      assert s + b == b;
    } else {
      assert (s + b)[1..] == s[1..] + b;
      IdLengthAppend(s[1..], b);
    }
  }

  lemma KeywordAppend(s: string, b: string, keyword: string)
    requires b != "" && Break(b[0]) && forall i | 0 <= i < |keyword| :: Letter(keyword[i])
    ensures StartsKeyword(s + b, keyword) <==> StartsKeyword(s, keyword)
  {
    if |s| >= |keyword| {
      assert (s + b)[..|keyword|] == s[..|keyword|];
    } else if |s + b| >= |keyword| {
      assert UpperAll((s + b)[..|keyword|])[|s|] == Upper(b[0]) == b[0];
      assert Letter(keyword[|s|]);
    }
  }

  lemma TokenLengthAppend(s: string, b: string)
    requires s != "" && b != "" && Break(b[0])
    ensures TokenLength(s + b) == TokenLength(s)
  {
    KeywordAppend(s, b, "AND");
    KeywordAppend(s, b, "OR");
    KeywordAppend(s, b, "WITH");
    IdLengthAppend(s, b);
  }

  lemma CutAppend(t: string, b: string, n: nat)
    requires n <= |t|
    ensures (t + b)[n..] == t[n..] + b && (t + b)[..n] == t[..n]
  {}

  lemma ConsConcat<T>(x: T, a: seq<T>, b: seq<T>)
    ensures [x] + (a + b) == ([x] + a) + b
  {}

  lemma TokensUnfold(a: string)
    requires a != "" && Tokens(a).Some?
    ensures var t := SkipSpace(a);
            var n := TokenLength(t);
            && t != "" && 0 < n <= |t| && |t| <= |a| && Tokens(t[n..]).Some?
                  && Tokens(a).value == [t[..n]] + Tokens(t[n..]).value
  {
    SkipSpaceShortens(a);
  }

  /** A text of tokens followed by a breaking character: the tokens of both. */
  lemma {:induction false} TokensAppend(a: string, b: string)
    requires Tokens(a).Some? && b != "" && Break(b[0])
    ensures Tokens(a + b) == match Tokens(b) case Some(rest) => Some(Tokens(a).value + rest) case None => None
    decreases |a|
  {
    if a == "" {
      assert a + b == b;
      if Tokens(b).Some? {
        assert [] + Tokens(b).value == Tokens(b).value;
      }
    } else {
      hide StartsKeyword, IdLength, TokenLength, SkipSpace, Break;
      TokensUnfold(a);
      hide Tokens;
      var t := SkipSpace(a);
      var n := TokenLength(t);
      SkipSpaceAppend(a, b);
      TokenLengthAppend(t, b);
      TokensAppend(t[n..], b);
      CutAppend(t, b, n);
      TokensStep(a + b, t + b, n);
      if Tokens(b).Some? {
        ConsConcat(t[..n], Tokens(t[n..]).value, Tokens(b).value);
      }
    }
  }

  lemma TokensStep(s: string, t: string, n: nat)
    requires s != "" && t == SkipSpace(s) && n == TokenLength(t) > 0
    ensures Tokens(s) == match Tokens(t[n..]) case Some(rest) => Some([t[..n]] + rest) case None => None
  {}

  lemma TokensAfterSpace(s: string)
    requires s != "" && !Space(s[0])
    ensures Tokens(" " + s) == Tokens(s)
  {
    assert (" " + s)[1..] == s;
    assert SkipSpace(" " + s) == SkipSpace(s) == s;
  }

  /** A keyword between two texts. */
  lemma TokensJoined(a: string, keyword: string, b: string)
    requires keyword == "AND" || keyword == "OR"
    requires Tokens(a).Some? && Tokens(b).Some? && b != "" && !Space(b[0])
    ensures Tokens(a + " " + keyword + " " + b) == Some(Tokens(a).value + [keyword] + Tokens(b).value)
  {
    hide Tokens, TokenLength, SkipSpace, StartsKeyword;
    var tail := " " + b;
    var middle := " " + keyword + tail;
    TokensAfterSpace(b);
    KeywordFirst(keyword, tail);
    TokensStep(middle, keyword + tail, |keyword|);
    assert (keyword + tail)[|keyword|..] == tail && (keyword + tail)[..|keyword|] == keyword;
    TokensAppend(a, middle);
    assert a + " " + keyword + " " + b == a + middle;
    assert Tokens(a).value + ([keyword] + Tokens(b).value) == Tokens(a).value + [keyword] + Tokens(b).value;
  }

  lemma KeywordFirst(keyword: string, tail: string)
    requires (keyword == "AND" || keyword == "OR") && tail != "" && tail[0] == ' '
    ensures SkipSpace(" " + keyword + tail) == keyword + tail
    ensures TokenLength(keyword + tail) == |keyword|
  {
    var s := keyword + tail;
    assert (" " + keyword + tail)[1..] == s;
    assert s[..|keyword|] == keyword && s[|keyword|] == ' ';
    assert UpperAll(keyword) == keyword;
    if keyword == "OR" {
      assert s[0] == 'O';
      assert UpperAll(s[..3])[0] == 'O' != "AND"[0];
    }
  }

  lemma CloseToken()
    ensures Tokens(")") == Some([")"])
  {
    var s := ")";
    assert s[0] == ')' && s[1..] == "" && s[..1] == ")" && [s] + [] == [s];
    NoTokens();
    TokensStep(s, s, 1);
  }

  lemma TokensInParens(a: string)
    requires Tokens(a).Some? && a != "" && !Space(a[0])
    ensures Tokens("(" + a + ")") == Some(["("] + Tokens(a).value + [")"])
  {
    var s := "(" + a + ")";
    assert Break(")"[0]) && s[0] == '(' && SkipSpace(s) == s && TokenLength(s) == 1;
    CloseToken();
    hide Tokens, TokenLength, SkipSpace, StartsKeyword;
    TokensAppend(a, ")");
    assert s[1..] == a + ")" && s[..1] == "(";
    TokensStep(s, s, 1);
    assert ["("] + (Tokens(a).value + [")"]) == ["("] + Tokens(a).value + [")"];
  }

  lemma {:induction false} AllIdChars(s: string)
    requires forall i | 0 <= i < |s| :: IdChar(s[i])
    ensures IdLength(s) == |s|
  {
    if s != "" {
      AllIdChars(s[1..]);
    }
  }

  /** An identifier that no keyword starts is one token. */
  lemma TokensOfId(s: string)
    requires s != "" && forall i | 0 <= i < |s| :: IdChar(s[i])
    requires !StartsKeyword(s, "AND") && !StartsKeyword(s, "OR") && !StartsKeyword(s, "WITH")
    ensures Tokens(s) == Some([s])
  {
    hide Tokens, TokenLength, SkipSpace, StartsKeyword, IdLength;
    IdStarts(s);
    NoTokens();
    assert s[|s|..] == "" && s[..|s|] == s && [s] + [] == [s];
    TokensStep(s, s, |s|);
  }

  lemma NoTokens()
    ensures Tokens("") == Some([])
  {}

  lemma IdStarts(s: string)
    requires s != "" && forall i | 0 <= i < |s| :: IdChar(s[i])
    requires !StartsKeyword(s, "AND") && !StartsKeyword(s, "OR") && !StartsKeyword(s, "WITH")
    ensures SkipSpace(s) == s && TokenLength(s) == |s|
  {
    hide StartsKeyword;
    AllIdChars(s);
    assert IdChar(s[0]);
  }
}
