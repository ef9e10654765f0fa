/** Where string literals and comments end, position by position: what the lexer takes for a token. */
module JsonTokens {
  import opened JsonComments

  /** How many backslashes stand directly before a position. */
  function Backslashes(s: string, i: nat): nat
    requires i <= |s|
  {
    if i > 0 && s[i - 1] == '\\' then 1 + Backslashes(s, i - 1) else 0
  }

  /** A quote that is not escaped: an even number of backslashes stands before it. */
  predicate IsQuote(s: string, i: nat)
    requires i < |s|
  {
    s[i] == '"' && Backslashes(s, i) % 2 == 0
  }

  lemma {:induction false} LiteralEnds(s: string, k: nat, escape: bool)
    requires k <= |s| && escape == (Backslashes(s, k) % 2 == 1)
    ensures var n := k + LiteralLength(s[k..], escape);
            && n <= |s|
            && (forall i: nat :: k <= i < n - 1 ==> !IsQuote(s, i))
            && (n < |s| ==> n > k && IsQuote(s, n - 1))
            && ((exists i: nat :: k <= i < |s| && IsQuote(s, i)) ==> n > k && IsQuote(s, n - 1))
    decreases |s| - k
  {
    if k < |s| {
      assert s[k..][1..] == s[k + 1..];
      if escape || s[k] != '"' {
        LiteralEnds(s, k + 1, !escape && s[k] == '\\');
        assert !IsQuote(s, k);
      }
    }
  }

  /** A literal goes from a quote to the first quote after it that is not escaped, or to the end if there is none. */
  lemma LiteralIff(s: string)
    requires s != "" && s[0] == '"'
    ensures First(s).Literal?
    ensures var n := |First(s).text|;
            && First(s).text == s[..n]
            && (forall i: nat :: 0 < i < n - 1 ==> !IsQuote(s, i))
            && (if exists i: nat :: 0 < i < |s| && IsQuote(s, i) then n > 1 && IsQuote(s, n - 1) else n == |s|)
  {
    LiteralEnds(s, 1, false);
  }

  lemma {:induction false} LineEnds(s: string)
    ensures var n := LineLength(s);
            '\n' !in s[..n] && (n < |s| ==> s[n] == '\n')
  {
    if s != "" && s[0] != '\n' {
      LineEnds(s[1..]);
      var n := LineLength(s);
      assert s[..n] == [s[0]] + s[1..][..n - 1];
    }
  }

  /** A line comment goes up to the next newline and leaves it. */
  lemma LineCommentIff(s: string)
    requires |s| > 1 && s[0] == '/' && s[1] == '/'
    ensures First(s).Comment?
    ensures var n := |First(s).text|;
            First(s).text == s[..n] && '\n' !in s[..n] && (n < |s| ==> s[n] == '\n')
  {
    LineEnds(s);
  }

  predicate IsEnd(s: string, i: nat) {
    i + 1 < |s| && s[i] == '*' && s[i + 1] == '/'
  }

  lemma {:induction false} BlockEnds(s: string, k: nat)
    requires k <= |s|
    ensures var n := k + BlockLength(s[k..]);
            && n <= |s|
            && (forall i: nat :: k <= i < n - 2 ==> !IsEnd(s, i))
            && (if exists i: nat :: k <= i && IsEnd(s, i) then n >= k + 2 && IsEnd(s, n - 2) else n == |s|)
    decreases |s| - k
  {
    if k < |s| {
      assert s[k..][1..] == s[k + 1..];
      if !IsEnd(s, k) {
        BlockEnds(s, k + 1);
      }
    }
  }

  /** A block comment goes up to the end of the first star and slash after the two characters that open it, or to the
      end if there is none. */
  lemma BlockCommentIff(s: string)
    requires |s| > 1 && s[0] == '/' && s[1] == '*'
    ensures First(s).Comment?
    ensures var n := |First(s).text|;
            && First(s).text == s[..n]
            && (forall i: nat :: 2 <= i < n - 2 ==> !IsEnd(s, i))
            && (if exists i: nat :: 2 <= i && IsEnd(s, i) then n >= 4 && IsEnd(s, n - 2) else n == |s|)
  {
    BlockEnds(s, 2);
  }

  /** Anything else is a token by itself. */
  lemma PlainIff(s: string)
    requires s != ""
    ensures First(s) == Plain(s[0]) <==>
              s[0] != '"' && !(|s| > 1 && s[0] == '/' && (s[1] == '/' || s[1] == '*'))
  {
  }

  /** Stripping drops a comment at the beginning and goes on behind it, and keeps any other token. */
  lemma StripsFirst(s: string)
    requires s != ""
    ensures var n := |First(s).Text()|;
            Strip(s) == (if First(s).Comment? then "" else s[..n]) + Strip(s[n..])
    ensures Strip("") == ""
  {
    StripStep(s);
  }
}
