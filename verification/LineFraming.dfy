/** The newline framing of the daemon's standard output: which lines a stream of
    text contains and what is left over after its last newline. */
module LineFraming {

  /** White space as `String.prototype.trim` sees it. */
  predicate IsSpace(c: char) {
    || '\t' <= c <= '\r'
    || c == ' '
    || c == '\U{00A0}'
    || c == '\U{1680}'
    || '\U{2000}' <= c <= '\U{200A}'
    || c == '\U{2028}' || c == '\U{2029}' || c == '\U{202F}' || c == '\U{205F}'
    || c == '\U{3000}'
    || c == '\U{FEFF}'
  }

  function TrimStart(s: string): string {
    if s != [] && IsSpace(s[0]) then TrimStart(s[1..]) else s
  }

  function TrimEnd(s: string): string {
    if s != [] && IsSpace(s[|s| - 1]) then TrimEnd(s[..|s| - 1]) else s
  }

  function Trim(s: string): string {
    TrimEnd(TrimStart(s))
  }

  /** What follows the last newline of a text. */
  function Rest(s: string): string {
    if s == [] then ""
    else
      var front, c := s[..|s| - 1], s[|s| - 1];
      if c == '\n' then "" else Rest(front) + [c]
  }

  /** The pieces of a text that a newline ends, without that newline. */
  function Finished(s: string): seq<string> {
    if s == [] then []
    else
      var front, c := s[..|s| - 1], s[|s| - 1];
      if c == '\n' then Finished(front) + [Rest(front)] else Finished(front)
  }

  /** The pieces, each with its newline put back. */
  function Unsplit(pieces: seq<string>): string {
    if pieces == [] then "" else Unsplit(pieces[..|pieces| - 1]) + pieces[|pieces| - 1] + "\n"
  }

  /** What the framing loop hands on of one piece: nothing if it is blank. */
  function Kept(piece: string): seq<string> {
    if Trim(piece) == "" then [] else [Trim(piece)]
  }

  function NonBlank(pieces: seq<string>): seq<string> {
    if pieces == [] then [] else NonBlank(pieces[..|pieces| - 1]) + Kept(pieces[|pieces| - 1])
  }

  /** The trimmed non-blank lines of a text, in order. */
  function Lines(s: string): seq<string> {
    NonBlank(Finished(s))
  }

  /** Finished and Rest cut a text at its newlines and lose nothing of it. */
  lemma {:induction false} SplitsAtNewlines(s: string)
    ensures Unsplit(Finished(s)) + Rest(s) == s
    ensures '\n' !in Rest(s)
    ensures forall p <- Finished(s) :: '\n' !in p
  {
    if s != [] {
      var front := s[..|s| - 1];
      SplitsAtNewlines(front);
      assert s == front + [s[|s| - 1]];
      if s[|s| - 1] == '\n' {
        assert Finished(s)[..|Finished(s)| - 1] == Finished(front);
      }
    }
  }

  /** Cutting a text in two and carrying the remainder of the first part over
      to the second finishes the same pieces. */
  lemma {:induction false} FinishedConcat(a: string, b: string)
    ensures Finished(a + b) == Finished(a) + Finished(Rest(a) + b)
    ensures Rest(a + b) == Rest(Rest(a) + b)
  {
    if b == [] {
      RestIsUnfinished(a);
      assert a + b == a && Rest(a) + b == Rest(a);
    } else {
      var b', c := b[..|b| - 1], b[|b| - 1];
      FinishedConcat(a, b');
      assert (a + b)[..|a + b| - 1] == a + b';
      assert (Rest(a) + b)[..|Rest(a) + b| - 1] == Rest(a) + b';
    }
  }

  /** The remainder holds no finished piece. */
  lemma {:induction false} RestIsUnfinished(s: string)
    ensures Finished(Rest(s)) == [] && Rest(Rest(s)) == Rest(s)
  {
    if s != [] && s[|s| - 1] != '\n' {
      RestIsUnfinished(s[..|s| - 1]);
      assert Rest(s)[..|Rest(s)| - 1] == Rest(s[..|s| - 1]);
    }
  }

  lemma {:induction false} NonBlankConcat(p: seq<string>, q: seq<string>)
    ensures NonBlank(p + q) == NonBlank(p) + NonBlank(q)
  {
    if q == [] {
      assert p + q == p;
    } else {
      var q', x := q[..|q| - 1], q[|q| - 1];
      assert (p + q)[..|p + q| - 1] == p + q';
      NonBlankConcat(p, q');
      assert NonBlank(p) + (NonBlank(q') + Kept(x)) == (NonBlank(p) + NonBlank(q')) + Kept(x);
    }
  }

  /** Framing a text in two parts gives the lines and the remainder of the whole. */
  lemma FrameConcat(a: string, b: string)
    ensures Lines(a + b) == Lines(a) + Lines(Rest(a) + b)
    ensures Rest(a + b) == Rest(Rest(a) + b)
  {
    FinishedConcat(a, b);
    NonBlankConcat(Finished(a), Finished(Rest(a) + b));
  }

  /** A text with no newline has no line yet and is its own remainder. */
  lemma {:induction false} FrameEnd(s: string)
    requires '\n' !in s
    ensures Finished(s) == [] && Rest(s) == s
  {
    if s != [] {
      FrameEnd(s[..|s| - 1]);
      assert s == s[..|s| - 1] + [s[|s| - 1]];
    }
  }

  lemma FirstLine(piece: string)
    requires '\n' !in piece
    ensures Finished(piece + "\n") == [piece] && Rest(piece + "\n") == ""
  {
    FrameEnd(piece);
    assert (piece + "\n")[..|piece|] == piece;
  }

  lemma NonBlankCons(piece: string, q: seq<string>)
    ensures NonBlank([piece] + q) == Kept(piece) + NonBlank(q)
  {
    NonBlankConcat([piece], q);
    assert [piece][..0] == [];
    assert NonBlank([piece]) == NonBlank([]) + Kept(piece);
  }

  lemma FramePiece(piece: string, after: string)
    requires '\n' !in piece
    ensures Lines(piece + "\n" + after) == Kept(piece) + Lines(after)
    ensures Rest(piece + "\n" + after) == Rest(after)
  {
    hide Finished, Rest, Kept, NonBlank;
    FirstLine(piece);
    FinishedConcat(piece + "\n", after);
    assert "" + after == after;
    NonBlankCons(piece, Finished(after));
  }

  /** One turn of the framing loop: the text up to the first newline is the next line. */
  lemma FrameStep(s: string, n: nat)
    requires n < |s| && s[n] == '\n' && '\n' !in s[..n]
    ensures Lines(s) == Kept(s[..n]) + Lines(s[n + 1..])
    ensures Rest(s) == Rest(s[n + 1..])
  {
    hide Rest, Kept, Lines;
    FramePiece(s[..n], s[n + 1..]);
    assert s == s[..n] + "\n" + s[n + 1..];
  }
}
