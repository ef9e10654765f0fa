/** Comment stripping of JSON with comments: the scanning loop, proved against a lexer. */
module JsonComments {

  /** A string literal (closed or cut off by the end), a comment, or any other character. */
  datatype Token = Literal(text: string) | Comment(text: string) | Plain(c: char) {
    function Text(): string {
      if Plain? then [c] else text
    }
  }

  /** How many characters of `s` belong to a string literal that is open before it. */
  function LiteralLength(s: string, escape: bool): (n: nat)
    ensures n <= |s|
  {
    if s == "" then 0
    else if escape then 1 + LiteralLength(s[1..], false)
    else if s[0] == '\\' then 1 + LiteralLength(s[1..], true)
    else if s[0] == '"' then 1
    else 1 + LiteralLength(s[1..], false)
  }

  /** How many characters come before the first newline. */
  function LineLength(s: string): (n: nat)
    ensures n <= |s|
  {
    if s == "" || s[0] == '\n' then 0 else 1 + LineLength(s[1..])
  }

  /** How many characters there are up to the end of the first star-slash. */
  function BlockLength(s: string): (n: nat)
    ensures n <= |s|
  {
    if s == "" then 0
    else if s[0] == '*' && |s| > 1 && s[1] == '/' then 2
    else 1 + BlockLength(s[1..])
  }

  predicate Opens(s: string, second: char) {
    |s| > 1 && s[0] == '/' && s[1] == second
  }

  /** The first token of a text. */
  function First(s: string): (t: Token)
    requires s != ""
    ensures 0 < |t.Text()| <= |s| && t.Text() == s[..|t.Text()|]
  {
    if s[0] == '"' then Literal(s[..1 + LiteralLength(s[1..], false)])
    else if Opens(s, '/') then Comment(s[..LineLength(s)])
    else if Opens(s, '*') then Comment(s[..2 + BlockLength(s[2..])])
    else Plain(s[0])
  }

  function Lex(s: string): seq<Token>
    decreases |s|
  {
    if s == "" then [] else [First(s)] + Lex(s[|First(s).Text()|..])
  }

  function Flatten(tokens: seq<Token>): string {
    if tokens == [] then "" else tokens[0].Text() + Flatten(tokens[1..])
  }

  function WithoutComments(tokens: seq<Token>): seq<Token> {
    if tokens == [] then []
    else (if tokens[0].Comment? then [] else [tokens[0]]) + WithoutComments(tokens[1..])
  }

  /** What is left of a text: its tokens without the comments. */
  function Strip(s: string): string {
    Flatten(WithoutComments(Lex(s)))
  }

  // ----- The lexer -----

  lemma FlattenCons(t: Token, rest: seq<Token>)
    ensures Flatten([t] + rest) == t.Text() + Flatten(rest)
    ensures WithoutComments([t] + rest) == (if t.Comment? then [] else [t]) + WithoutComments(rest)
    ensures Flatten(WithoutComments([t] + rest))
         == (if t.Comment? then "" else t.Text()) + Flatten(WithoutComments(rest))
  {
    assert ([t] + rest)[1..] == rest;
    var kept := WithoutComments(rest);
    if t.Comment? {
      assert [] + kept == kept && "" + Flatten(kept) == Flatten(kept);
    } else {
      assert ([t] + kept)[1..] == kept;
    }
  }

  lemma Assoc(a: string, b: string, c: string)
    ensures a + (b + c) == a + b + c
  {
  }

  lemma StripStep(s: string)
    requires s != ""
    ensures Strip(s) == (if First(s).Comment? then "" else First(s).Text()) + Strip(s[|First(s).Text()|..])
  {
    FlattenCons(First(s), Lex(s[|First(s).Text()|..]));
  }

  lemma FirstCuts(s: string)
    requires s != ""
    ensures s == First(s).Text() + s[|First(s).Text()|..]
  {
    hide LiteralLength, LineLength, BlockLength;
  }

  lemma FlattenLex(s: string)
    requires s != ""
    ensures Flatten(Lex(s)) == First(s).Text() + Flatten(Lex(s[|First(s).Text()|..]))
  {
    hide First;
    FlattenCons(First(s), Lex(s[|First(s).Text()|..]));
  }

  /** Lexing loses nothing. */
  lemma {:induction false} LexIsLossless(s: string)
    ensures Flatten(Lex(s)) == s
    decreases |s|
  {
    if s != "" {
      hide Lex, Flatten, First;
      FirstCuts(s);
      FlattenLex(s);
      LexIsLossless(s[|First(s).Text()|..]);
    }
  }

  /** A literal that its own text closes is read the same whatever follows. */
  lemma {:induction false} ClosedLiteral(s: string, escape: bool, tail: string)
    requires LiteralLength(s, escape) < |s|
    ensures var n := LiteralLength(s, escape);
            LiteralLength(s[..n] + tail, escape) == n
    decreases s
  {
    var n := LiteralLength(s, escape);
    var t := s[..n] + tail;
    assert t[0] == s[0];
    if !escape && s[0] == '"' {
    } else {
      var escape' := !escape && s[0] == '\\';
      ClosedLiteral(s[1..], escape', tail);
      assert t[1..] == s[1..][..n - 1] + tail;
    }
  }

  /** Replacing what follows the first token of a text leaves that token the first,
      if a slash is still followed by what followed it. */
  lemma FirstIsKept(s: string, tail: string)
    requires s != "" && !First(s).Comment?
    requires var rest := s[|First(s).Text()|..];
             && (rest == "" ==> tail == "")
             && (s[0] == '/' && tail != "" ==> rest != "" && tail[0] == rest[0])
    ensures First(First(s).Text() + tail) == First(s)
  {
    var n := |First(s).Text()|;
    var rest := s[n..];
    var u := s[..n] + tail;
    if s[0] == '"' {
      if rest == "" {
        assert u == s;
      } else {
        ClosedLiteral(s[1..], false, tail);
        assert u[1..] == s[1..][..n - 1] + tail;
        assert u[..n] == s[..n];
      }
    } else {
      assert u == [s[0]] + tail;
    }
  }

  /** A kept slash is never followed by a comment, so what follows it starts the same after stripping. */
  lemma AfterSlash(s: string)
    requires s != "" && s[0] == '/' && First(s).Plain?
    ensures s[1..] != "" ==> Strip(s[1..]) != "" && Strip(s[1..])[0] == s[1]
  {
    var rest := s[1..];
    if rest != "" {
      StripStep(rest);
      assert rest[0] == s[1] && s[1] != '/' && s[1] != '*';
      assert !First(rest).Comment? && First(rest).Text()[0] == s[1];
    }
  }

  /** Lexing the stripped text gives exactly the kept tokens: string literals are intact,
      and no two kept characters join into a new comment. */
  lemma {:induction false} StrippedLexesToKept(s: string)
    ensures Lex(Strip(s)) == WithoutComments(Lex(s))
    decreases |s|
  {
    if s != "" {
      var t := First(s);
      var rest := s[|t.Text()|..];
      StrippedLexesToKept(rest);
      if t.Comment? {
        StripComment(s);
      } else {
        StripKept(s);
      }
    }
  }

  lemma StripComment(s: string)
    requires s != "" && First(s).Comment?
    requires var rest := s[|First(s).Text()|..]; Lex(Strip(rest)) == WithoutComments(Lex(rest))
    ensures Lex(Strip(s)) == WithoutComments(Lex(s))
  {
    hide Flatten, WithoutComments;
    var rest := s[|First(s).Text()|..];
    FlattenCons(First(s), Lex(rest));
    assert "" + Strip(rest) == Strip(rest);
    assert [] + WithoutComments(Lex(rest)) == WithoutComments(Lex(rest));
  }

  lemma StripKept(s: string)
    requires s != "" && !First(s).Comment?
    requires var rest := s[|First(s).Text()|..]; Lex(Strip(rest)) == WithoutComments(Lex(rest))
    ensures Lex(Strip(s)) == WithoutComments(Lex(s))
  {
    var t := First(s);
    var rest := s[|t.Text()|..];
    var tail := Strip(rest);
    if s[0] == '/' {
      AfterSlash(s);
    }
    FirstIsKept(s, tail);
    FlattenCons(t, Lex(rest));
    hide Flatten, WithoutComments, First;
    var u := t.Text() + tail;
    assert u == Strip(s) && u[|t.Text()|..] == tail;
    assert Lex(u) == [t] + Lex(tail);
  }

  lemma {:induction false} WithoutCommentsTwice(tokens: seq<Token>)
    ensures WithoutComments(WithoutComments(tokens)) == WithoutComments(tokens)
    ensures forall t <- WithoutComments(tokens) :: !t.Comment?
  {
    if tokens != [] {
      WithoutCommentsTwice(tokens[1..]);
      assert tokens == [tokens[0]] + tokens[1..];
      FlattenCons(tokens[0], tokens[1..]);
      FlattenCons(tokens[0], WithoutComments(tokens[1..]));
      assert [] + WithoutComments(tokens[1..]) == WithoutComments(tokens[1..]);
    }
  }

  /** Stripping twice is stripping once, and what is left has no comment. */
  lemma StripIsIdempotent(s: string)
    ensures Strip(Strip(s)) == Strip(s)
    ensures forall t <- Lex(Strip(s)) :: !t.Comment?
  {
    StrippedLexesToKept(s);
    WithoutCommentsTwice(Lex(s));
  }

  lemma {:induction false} CommentsTakeRoom(tokens: seq<Token>)
    requires forall t <- tokens :: t.Text() != ""
    ensures |Flatten(WithoutComments(tokens))| <= |Flatten(tokens)|
    ensures (forall t <- tokens :: !t.Comment?) ==> WithoutComments(tokens) == tokens
    ensures !(forall t <- tokens :: !t.Comment?) ==> |Flatten(WithoutComments(tokens))| < |Flatten(tokens)|
  {
    if tokens != [] {
      var t, rest := tokens[0], tokens[1..];
      assert tokens == [t] + rest;
      CommentsTakeRoom(rest);
      FlattenCons(t, rest);
      hide Flatten, WithoutComments;
      assert forall x :: x in tokens <==> x == t || x in rest;
      assert [t] + rest == tokens;
    }
  }

  lemma {:induction false} TokensAreNotEmpty(s: string)
    ensures forall t <- Lex(s) :: t.Text() != ""
    decreases |s|
  {
    if s != "" {
      TokensAreNotEmpty(s[|First(s).Text()|..]);
    }
  }

  /** Stripping changes a text if and only if there is a comment in it. */
  lemma StripIsIdentityIff(s: string)
    ensures Strip(s) == s <==> forall t <- Lex(s) :: !t.Comment?
  {
    LexIsLossless(s);
    TokensAreNotEmpty(s);
    CommentsTakeRoom(Lex(s));
  }

  // ----- The loop -----

  /** The output still to come in a state of the loop. */
  ghost function Remaining(s: string, inString: bool, escape: bool): string {
    if inString
    then var n := LiteralLength(s, escape); s[..n] + Strip(s[n..])
    else Strip(s)
  }

  ghost function From(s: string, i: nat): string {
    if i <= |s| then s[i..] else ""
  }

  lemma InLiteral(s: string, escape: bool)
    requires s != ""
    ensures var escape' := !escape && s[0] == '\\';
            var inString' := escape || s[0] != '"';
            Remaining(s, true, escape) == [s[0]] + Remaining(s[1..], inString', escape')
  {
    var escape', inString' := !escape && s[0] == '\\', escape || s[0] != '"';
    var n := LiteralLength(s, escape);
    if inString' {
      var m := LiteralLength(s[1..], escape');
      assert n == 1 + m;
      hide LiteralLength, Strip;
      CutOne(s, n);
      Assoc([s[0]], s[1..][..m], Strip(s[n..]));
    } else {
      hide Strip;
      assert n == 1 && s[..1] == [s[0]];
    }
  }

  lemma CutOne(s: string, n: nat)
    requires 0 < n <= |s|
    ensures s[..n] == [s[0]] + s[1..][..n - 1]
    ensures s[n..] == s[1..][n - 1..]
  {
  }

  lemma OpensLiteral(s: string)
    requires s != "" && s[0] == '"'
    ensures Strip(s) == ['"'] + Remaining(s[1..], true, false)
  {
    StripStep(s);
    var m := LiteralLength(s[1..], false);
    assert First(s) == Literal(s[..1 + m]);
    hide LiteralLength, Strip, First;
    CutOne(s, 1 + m);
    Assoc(['"'], s[1..][..m], Strip(s[1 + m..]));
  }

  lemma SkipsComment(s: string, n: nat)
    requires s != "" && s[0] != '"' && n <= |s|
    requires (Opens(s, '/') && n == LineLength(s)) || (Opens(s, '*') && n == 2 + BlockLength(s[2..]))
    ensures Strip(s) == Strip(s[n..])
  {
    StripStep(s);
    assert First(s) == Comment(s[..n]);
    assert "" + Strip(s[n..]) == Strip(s[n..]);
  }

  lemma RemainingPlain(s: string)
    ensures Remaining(s, false, false) == Strip(s)
    ensures "" + Strip(s) == Strip(s)
  {
  }

  /** The output so far and the output still to come are the stripped text. */
  ghost predicate OnTrack(content: string, result: string, i: nat, inString: bool, escape: bool) {
    result + Remaining(From(content, i), inString, escape) == Strip(content)
  }

  lemma TrackLiteral(content: string, result: string, i: nat, escape: bool)
    requires i < |content| && OnTrack(content, result, i, true, escape)
    ensures var ch := content[i];
            OnTrack(content, result + [ch], i + 1, escape || ch != '"', !escape && ch == '\\')
  {
    hide Strip, Remaining;
    var s, ch := content[i..], content[i];
    InLiteral(s, escape);
    assert content[i + 1..] == s[1..];
  }

  lemma TrackOpening(content: string, result: string, i: nat)
    requires i < |content| && content[i] == '"' && OnTrack(content, result, i, false, false)
    ensures OnTrack(content, result + ['"'], i + 1, true, false)
  {
    hide Strip, Remaining;
    var s := content[i..];
    RemainingPlain(s);
    OpensLiteral(s);
    assert content[i + 1..] == s[1..];
  }

  lemma TrackPlain(content: string, result: string, i: nat)
    requires i < |content| && content[i] != '"' && OnTrack(content, result, i, false, false)
    requires !Opens(content[i..], '/') && !Opens(content[i..], '*')
    ensures OnTrack(content, result + [content[i]], i + 1, false, false)
  {
    hide Strip, Remaining;
    var s, ch := content[i..], content[i];
    StripStep(s);
    assert First(s) == Plain(ch);
    RemainingPlain(s);
    RemainingPlain(s[1..]);
    assert content[i + 1..] == s[1..];
  }

  /** A skipped comment changes nothing of what is still to come. */
  lemma TrackComment(content: string, result: string, i: nat, n: nat)
    requires i < |content| && content[i] != '"' && OnTrack(content, result, i, false, false)
    requires var s := content[i..];
             || (Opens(s, '/') && From(content, n) == s[LineLength(s)..])
             || (Opens(s, '*') && From(content, n) == s[2 + BlockLength(s[2..])..])
    ensures OnTrack(content, result, n, false, false)
  {
    hide Strip, Remaining;
    var s := content[i..];
    SkipsComment(s, if Opens(s, '/') then LineLength(s) else 2 + BlockLength(s[2..]));
    RemainingPlain(s);
    RemainingPlain(From(content, n));
  }

  lemma TrackStart(content: string)
    ensures OnTrack(content, "", 0, false, false)
  {
    RemainingPlain(content);
    assert From(content, 0) == content;
  }

  lemma TrackEnd(content: string, result: string, i: nat, inString: bool, escape: bool)
    requires i >= |content| && OnTrack(content, result, i, inString, escape)
    ensures result == Strip(content)
  {
    assert result + "" == result;
  }

  /** `stripJsonComments`: one pass over the text with two flags. */
  method StripJsonComments(content: string) returns (result: string)
    ensures result == Strip(content)
  {
    hide Strip, OnTrack;
    result := "";
    var inString, escape, i := false, false, 0;
    TrackStart(content);
    while i < |content|
      invariant inString || !escape
      invariant OnTrack(content, result, i, inString, escape)
      decreases |content| - i
    {
      var ch := content[i];
      if inString {
        TrackLiteral(content, result, i, escape);
        result := result + [ch];
        if escape {
          escape := false;
        } else if ch == '\\' {
          escape := true;
        } else if ch == '"' {
          inString := false;
        }
        i := i + 1;
      } else if ch == '"' {
        TrackOpening(content, result, i);
        inString := true;
        result := result + [ch];
        i := i + 1;
      } else if ch == '/' && i + 1 < |content| && content[i + 1] == '/' {
        var n := SkipLine(content, i);
        TrackComment(content, result, i, n);
        i := n;
      } else if ch == '/' && i + 1 < |content| && content[i + 1] == '*' {
        var n := SkipBlock(content, i + 2);
        TrackComment(content, result, i, n);
        i := n;
      } else {
        TrackPlain(content, result, i);
        result := result + [ch];
        i := i + 1;
      }
    }
    TrackEnd(content, result, i, inString, escape);
  }

  /** The loop that skips to the end of the line. */
  method SkipLine(content: string, start: nat) returns (i: nat)
    requires start <= |content|
    ensures i == start + LineLength(content[start..])
    ensures From(content, i) == content[start..][LineLength(content[start..])..]
  {
    i := start;
    while i < |content| && content[i] != '\n'
      invariant start <= i <= |content|
      invariant i + LineLength(content[i..]) == start + LineLength(content[start..])
    {
      assert content[i..][1..] == content[i + 1..];
      i := i + 1;
    }
  }

  /** The loop that skips past the end of a block comment, two characters beyond the end if it is open. */
  method SkipBlock(content: string, start: nat) returns (i: nat)
    requires start <= |content|
    ensures i >= start && From(content, i) == content[start..][BlockLength(content[start..])..]
  {
    i := start;
    ghost var s := content[start..];
    assert content[i..] == s;
    while i < |content| && !(content[i] == '*' && i + 1 < |content| && content[i + 1] == '/')
      invariant start <= i <= |content|
      invariant i + BlockLength(content[i..]) == start + BlockLength(s)
    {
      assert content[i..][1..] == content[i + 1..];
      i := i + 1;
    }
    if i < |content| {
      assert content[i + 2..] == s[BlockLength(s)..];
    }
    i := i + 2;
  }
}
