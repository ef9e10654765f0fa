/** The output of the child processes: when cutting it into chunks matters, whose output is read as whose, and which
    line resolves which request. */
module NativeDaemonOutput {
  import opened Options
  import opened LineFraming
  import opened NativeDaemonModel
  import opened NativeDaemonProofs

  // ----- Chunking -----

  function Concat(chunks: seq<string>): string {
    if chunks == [] then "" else chunks[0] + Concat(chunks[1..])
  }

  function Chunks(process: nat, chunks: seq<string>, decode: string -> Reply): seq<Event> {
    if chunks == [] then [] else [Chunk(process, chunks[0], decode)] + Chunks(process, chunks[1..], decode)
  }

  /** A way to cut a text into chunks, none of them empty. */
  ghost predicate Cuts(chunks: seq<string>, text: string) {
    Concat(chunks) == text && forall c <- chunks :: c != ""
  }

  ghost predicate Agrees(cfg: Config, s: State, process: nat, chunks: seq<string>, decode: string -> Reply) {
    Run(cfg, s, Chunks(process, chunks, decode)) == Data(s, Concat(chunks), decode)
  }

  lemma {:induction false} NewlineIsAt(x: string, n: nat)
    requires n <= |x| && '\n' !in x[..n] && (n < |x| ==> x[n] == '\n')
    ensures IndexOfNewline(x) == n
  {
    if n > 0 {
      assert x[..n] == [x[0]] + x[1..][..n - 1];
      NewlineIsAt(x[1..], n - 1);
    }
  }

  /** One turn of the loop. */
  lemma ConsumeUnfolds(s: State, piece: string, rest: string, decode: string -> Reply)
    requires s.buffer == piece + "\n" + rest && '\n' !in piece
    ensures var t := s.(buffer := rest);
            Consume(s, decode) ==
              if Trim(piece) == "" then Consume(t, decode)
              else if decode(Trim(piece)).Null? then t
              else Consume(HandleReply(t, decode(Trim(piece))), decode)
  {
    hide Trim, HandleReply;
    var n := |piece|;
    assert s.buffer[..n] == piece && s.buffer[n + 1..] == rest;
    NewlineIsAt(s.buffer, n);
  }

  /** A text with a newline is a piece, that newline and the rest. */
  lemma FirstPiece(x: string) returns (piece: string, rest: string)
    requires '\n' in x
    ensures x == piece + "\n" + rest && '\n' !in piece
  {
    var n := IndexOfNewline(x);
    assert x[..|x|] == x;
    piece, rest := x[..n], x[n + 1..];
  }

  lemma ReplyIgnoresBuffer(s: State, r: Reply, b: string)
    ensures HandleReply(s.(buffer := b), r) == HandleReply(s, r).(buffer := b)
    ensures HandleReply(s, r).buffer == s.buffer
  {
  }

  lemma NoNewlineIsLeft(s: State, decode: string -> Reply)
    requires '\n' !in s.buffer
    ensures Consume(s, decode) == s
  {
    assert s.buffer[..|s.buffer|] == s.buffer;
    NewlineIsAt(s.buffer, |s.buffer|);
  }

  /** If the loop would finish the whole text, it may stop in between. */
  lemma {:induction false} ConsumeAppend(s: State, b: string, decode: string -> Reply)
    requires '\n' !in Consume(s.(buffer := s.buffer + b), decode).buffer
    ensures var t := Consume(s, decode);
            && '\n' !in t.buffer
            && Consume(t.(buffer := t.buffer + b), decode) == Consume(s.(buffer := s.buffer + b), decode)
    decreases |s.buffer|
  {
    hide HandleReply, Trim, Consume;
    if '\n' in s.buffer {
      var piece, rest := FirstPiece(s.buffer);
      assert s.buffer + b == piece + "\n" + (rest + b);
      ConsumeUnfolds(s, piece, rest, decode);
      ConsumeUnfolds(s.(buffer := s.buffer + b), piece, rest + b, decode);
      var u, line := s.(buffer := rest), Trim(piece);
      if line == "" {
        ConsumeAppend(u, b, decode);
      } else if decode(line).Null? {
        NoNewlineIsLeft(s.(buffer := rest + b), decode);
      } else {
        ReplyIgnoresBuffer(u, decode(line), rest + b);
        ConsumeAppend(HandleReply(u, decode(line)), b, decode);
      }
    } else {
      NoNewlineIsLeft(s, decode);
    }
  }

  /** What a throwing line leaves unread is a suffix of the text, and the text before it leads to the same state
      whatever comes after. */
  ghost predicate CutsOff(s: State, head: string, decode: string -> Reply, t: State) {
    && s.buffer == head + "\n" + t.buffer
    && forall x: string {:trigger t.(buffer := x)} ::
         Consume(s.(buffer := head + "\n" + x), decode) == t.(buffer := x)
  }

  lemma {:induction false} ConsumeCut(s: State, decode: string -> Reply) returns (head: string)
    requires '\n' in Consume(s, decode).buffer
    ensures CutsOff(s, head, decode, Consume(s, decode))
    decreases |s.buffer|
  {
    hide HandleReply, Trim, Consume;
    if '\n' !in s.buffer {
      NoNewlineIsLeft(s, decode);
    }
    var piece, rest := FirstPiece(s.buffer);
    ConsumeUnfolds(s, piece, rest, decode);
    var u, line, t := s.(buffer := rest), Trim(piece), Consume(s, decode);
    if line != "" && decode(line).Null? {
      head := piece;
      forall x: string
        ensures Consume(s.(buffer := head + "\n" + x), decode) == t.(buffer := x)
      {
        ConsumeUnfolds(s.(buffer := head + "\n" + x), piece, x, decode);
      }
    } else {
      var next := if line == "" then u else HandleReply(u, decode(line));
      ReplyIgnoresBuffer(u, decode(line), "");
      var deeper := ConsumeCut(next, decode);
      head := piece + "\n" + deeper;
      assert s.buffer == head + "\n" + t.buffer;
      forall x: string
        ensures Consume(s.(buffer := head + "\n" + x), decode) == t.(buffer := x)
      {
        assert head + "\n" + x == piece + "\n" + (deeper + "\n" + x);
        ConsumeUnfolds(s.(buffer := head + "\n" + x), piece, deeper + "\n" + x, decode);
        ReplyIgnoresBuffer(u, decode(line), deeper + "\n" + x);
        assert Consume(next.(buffer := deeper + "\n" + x), decode) == t.(buffer := x);
      }
    }
  }

  lemma {:induction false} ConsumeShrinks(s: State, decode: string -> Reply)
    ensures |Consume(s, decode).buffer| <= |s.buffer|
    ensures '\n' in s.buffer ==> |Consume(s, decode).buffer| < |s.buffer|
    decreases |s.buffer|
  {
    hide Trim, HandleReply, Consume;
    if '\n' in s.buffer {
      var piece, rest := FirstPiece(s.buffer);
      ConsumeUnfolds(s, piece, rest, decode);
      var u, line := s.(buffer := rest), Trim(piece);
      ReplyIgnoresBuffer(u, decode(line), "");
      if line == "" {
        ConsumeShrinks(u, decode);
      } else if !decode(line).Null? {
        ConsumeShrinks(HandleReply(u, decode(line)), decode);
      }
    } else {
      NoNewlineIsLeft(s, decode);
    }
  }

  /** The handling of this piece of output throws. */
  predicate Throws(piece: string, decode: string -> Reply) {
    Trim(piece) != "" && decode(Trim(piece)).Null?
  }

  /** A finished piece other than the last one throws. */
  predicate ThrowsEarly(text: string, decode: string -> Reply) {
    exists i: nat :: i < |Finished(text)| - 1 && Throws(Finished(text)[i], decode)
  }

  lemma FinishedPiece(piece: string, rest: string)
    requires '\n' !in piece
    ensures Finished(piece + "\n" + rest) == [piece] + Finished(rest)
  {
    hide Finished, Rest;
    FirstLine(piece);
    FinishedConcat(piece + "\n", rest);
    assert "" + rest == rest;
  }

  lemma NothingFinishedIff(text: string)
    ensures Finished(text) == [] <==> '\n' !in text
  {
    if '\n' in text {
      var piece, rest := FirstPiece(text);
      FinishedPiece(piece, rest);
    } else {
      FrameEnd(text);
    }
  }

  /** The loop leaves a finished piece unread if and only if one before the last throws. */
  lemma {:induction false} LeavesUnreadIff(s: State, decode: string -> Reply)
    ensures '\n' in Consume(s, decode).buffer <==> ThrowsEarly(s.buffer, decode)
    decreases |s.buffer|
  {
    hide HandleReply, Trim, Consume, Finished;
    NothingFinishedIff(s.buffer);
    if '\n' in s.buffer {
      var piece, rest := FirstPiece(s.buffer);
      ConsumeUnfolds(s, piece, rest, decode);
      FinishedPiece(piece, rest);
      NothingFinishedIff(rest);
      var u, line := s.(buffer := rest), Trim(piece);
      if Throws(piece, decode) {
        assert Finished(s.buffer)[0] == piece;
      } else {
        ReplyIgnoresBuffer(u, decode(line), "");
        LeavesUnreadIff(if line == "" then u else HandleReply(u, decode(line)), decode);
        ThrowsEarlyCons(piece, rest, decode);
      }
    } else {
      NoNewlineIsLeft(s, decode);
    }
  }

  lemma ThrowsEarlyCons(piece: string, rest: string, decode: string -> Reply)
    requires '\n' !in piece && !Throws(piece, decode)
    ensures ThrowsEarly(piece + "\n" + rest, decode) <==> ThrowsEarly(rest, decode)
  {
    hide Finished, Throws;
    FinishedPiece(piece, rest);
    var all := Finished(piece + "\n" + rest);
    if ThrowsEarly(rest, decode) {
      var i: nat :| i < |Finished(rest)| - 1 && Throws(Finished(rest)[i], decode);
      assert all[i + 1] == Finished(rest)[i];
    }
  }

  /** Text that leaves nothing finished unread can be cut anywhere. */
  lemma {:induction false} CutsAgree(cfg: Config, s: State, process: nat, chunks: seq<string>, decode: string -> Reply)
    requires chunks == [] ==> '\n' !in s.buffer
    requires '\n' !in Data(s, Concat(chunks), decode).buffer
    ensures Agrees(cfg, s, process, chunks, decode)
    decreases |chunks|
  {
    hide Consume;
    if chunks == [] {
      assert s.buffer + "" == s.buffer;
      NoNewlineIsLeft(s, decode);
    } else {
      var first, rest := chunks[0], Concat(chunks[1..]);
      var all := s.(buffer := s.buffer + first);
      assert s.buffer + (first + rest) == all.buffer + rest;
      ConsumeAppend(all, rest, decode);
      CutsAgree(cfg, Data(s, first, decode), process, chunks[1..], decode);
      assert Chunks(process, chunks, decode)[1..] == Chunks(process, chunks[1..], decode);
    }
  }

  /** However the output of a process is cut into chunks, the manager ends in the state it would reach if all of it
      came at once, if and only if no line throws that another finished line follows. Output of one character has
      one cut, and no output at all has none: then nothing reads what an earlier throw may have left. */
  lemma ChunkingIrrelevantIff(cfg: Config, s: State, process: nat, text: string, decode: string -> Reply)
    ensures (forall chunks :: Cuts(chunks, text) ==> Agrees(cfg, s, process, chunks, decode))
       <==> if text == "" then '\n' !in s.buffer else |text| == 1 || !ThrowsEarly(s.buffer + text, decode)
  {
    hide Agrees, Cuts, ThrowsEarly, Consume;
    LeavesUnreadIff(s.(buffer := s.buffer + text), decode);
    if |text| <= 1 {
      ShortCuts(cfg, s, process, text, decode);
    } else if ThrowsEarly(s.buffer + text, decode) {
      var chunks := CutAfterThrow(cfg, s, process, text, decode);
      assert Cuts(chunks, text) && !Agrees(cfg, s, process, chunks, decode);
    } else {
      forall chunks | Cuts(chunks, text)
        ensures Agrees(cfg, s, process, chunks, decode)
      {
        NonEmptyCut(chunks, text);
        CutsAgree(cfg, s, process, chunks, decode);
      }
    }
  }

  lemma NonEmptyCut(chunks: seq<string>, text: string)
    requires Cuts(chunks, text)
    ensures Concat(chunks) == text && (chunks == [] <==> text == "")
  {
    if chunks != [] {
      assert chunks[0] in chunks;
    }
  }

  lemma ShortCuts(cfg: Config, s: State, process: nat, text: string, decode: string -> Reply)
    requires |text| <= 1
    ensures (forall chunks :: Cuts(chunks, text) ==> Agrees(cfg, s, process, chunks, decode))
       <==> (text == "" ==> '\n' !in s.buffer)
  {
    hide Consume;
    assert s.buffer + "" == s.buffer;
    if text == "" {
      ConsumeShrinks(s, decode);
      assert Concat([]) == text;
      forall chunks | Cuts(chunks, text)
        ensures chunks == []
      {
        NonEmptyCut(chunks, text);
      }
      assert Chunks(process, [], decode) == [];
      if '\n' !in s.buffer {
        NoNewlineIsLeft(s, decode);
      }
      assert Cuts([], text);
    } else {
      forall chunks | Cuts(chunks, text)
        ensures Agrees(cfg, s, process, chunks, decode)
      {
        OneChunk(chunks, text);
        assert Chunks(process, chunks, decode)[1..] == [];
        assert Run(cfg, Data(s, text, decode), []) == Data(s, text, decode);
      }
    }
  }

  lemma OneChunk(chunks: seq<string>, text: string)
    requires |text| == 1 && Cuts(chunks, text)
    ensures chunks == [text]
  {
    NonEmptyCut(chunks, text);
    var rest := chunks[1..];
    assert chunks[0] in chunks && |text| == |chunks[0]| + |Concat(rest)|;
    assert forall c <- rest :: c in chunks;
    assert Cuts(rest, "");
    NonEmptyCut(rest, "");
    assert chunks == [chunks[0]] && chunks[0] + "" == chunks[0];
  }

  /** Otherwise, a chunk that ends as soon after that line as it can makes a difference. */
  lemma CutAfterThrow(cfg: Config, s: State, process: nat, text: string, decode: string -> Reply)
      returns (chunks: seq<string>)
    requires |text| > 1 && '\n' in Data(s, text, decode).buffer
    ensures Cuts(chunks, text) && !Agrees(cfg, s, process, chunks, decode)
  {
    hide Consume;
    var t := Data(s, text, decode);
    var head := ConsumeCut(s.(buffer := s.buffer + text), decode);
    var first, rest, left := SplitText(s.buffer, text, head, t.buffer);
    chunks := [first, rest];
    ConcatTwo(first, rest);
    assert Data(s, first, decode) == t.(buffer := left);
    assert Data(t.(buffer := left), rest, decode) == Consume(t, decode);
    ConsumeShrinks(t, decode);
    RunTwo(cfg, s, process, first, rest, decode);
  }

  /** A text put after another can be cut behind the line that the two begin with, or later if that is not inside
      it. */
  lemma SplitText(x: string, text: string, head: string, after: string)
      returns (first: string, rest: string, left: string)
    requires |text| > 1 && after != "" && x + text == head + "\n" + after
    ensures first != "" && rest != "" && text == first + rest
    ensures x + first == head + "\n" + left && left + rest == after
  {
    var k := if |head| + 1 > |x| then |head| + 1 - |x| else 1;
    first, rest, left := text[..k], text[k..], after[..|x| + k - (|head| + 1)];
    assert x + first == (x + text)[..|x| + k] == head + "\n" + left;
    assert rest == (x + text)[|x| + k..] == after[|left|..];
  }

  lemma ConcatTwo(a: string, b: string)
    ensures Concat([a, b]) == a + b
  {
    assert [a, b][1..] == [b] && [b][1..] == [];
    assert Concat([b]) == b + "";
    assert b + "" == b;
  }

  lemma RunTwo(cfg: Config, s: State, process: nat, a: string, b: string, decode: string -> Reply)
    ensures Run(cfg, s, Chunks(process, [a, b], decode)) == Data(Data(s, a, decode), b, decode)
  {
    hide Data;
    assert [a, b][1..] == [b] && [b][1..] == [];
    var events := Chunks(process, [a, b], decode);
    assert events[1..] == Chunks(process, [b], decode) && Chunks(process, [b], decode)[1..] == [];
    assert Run(cfg, Data(s, a, decode), events[1..]) == Data(Data(s, a, decode), b, decode);
  }

  /** If no line throws, every cut leads to where the trimmed non-blank lines of the text lead, with the text after
      the last newline left in the buffer. */
  lemma WithoutThrowingLines(cfg: Config, s: State, process: nat, chunks: seq<string>, decode: string -> Reply)
    requires chunks == [] ==> '\n' !in s.buffer
    requires NoneThrows(Lines(s.buffer + Concat(chunks)), decode)
    ensures var text := s.buffer + Concat(chunks);
            Run(cfg, s, Chunks(process, chunks, decode)) == HandleLines(s, Lines(text), decode).(buffer := Rest(text))
  {
    hide Lines, Rest, Consume, HandleLines;
    var text := s.buffer + Concat(chunks);
    ConsumeHandlesLines(s.(buffer := text), decode);
    HandleLinesBuffer(s, Lines(text), decode, text);
    SplitsAtNewlines(text);
    CutsAgree(cfg, s, process, chunks, decode);
  }

  /** A line that is JSON `null` makes the difference: what follows it in its chunk is not handled with it, what
      follows in the next is. */
  lemma NullLineDependsOnChunks(
      cfg: Config, s: State, process: nat, line: string, after: string, decode: string -> Reply)
    requires s.buffer == "" && '\n' !in line && Trim(line) == line && line != "" && decode(line).Null?
    requires '\n' in after
    ensures Step(cfg, s, Chunk(process, line + "\n" + after, decode)) == s.(buffer := after)
    ensures var t := Step(cfg, s, Chunk(process, line + "\n", decode));
            Step(cfg, t, Chunk(process, after, decode)) != s.(buffer := after)
  {
    hide Consume, Trim;
    var first := line + "\n";
    assert "" + first == first + "" && "" + (first + after) == first + after && "" + after == after;
    ConsumeUnfolds(s.(buffer := first + after), line, after, decode);
    ConsumeUnfolds(s.(buffer := first), line, "", decode);
    ConsumeShrinks(s.(buffer := after), decode);
  }

  // ----- Whose output it is -----

  /** The last words of a replaced process are read as the beginning of the new one's first line. */
  lemma LateOutputJoins(
      cfg: Config, s: State, replaced: nat, child: nat, late: string, text: string, decode: string -> Reply)
    requires s.buffer == "" && '\n' !in late
    ensures Step(cfg, Step(cfg, s, Chunk(replaced, late, decode)), Chunk(child, text, decode))
         == Step(cfg, s, Chunk(child, late + text, decode))
  {
    assert "" + late == late && "" + (late + text) == late + text;
    NoNewlineIsLeft(s.(buffer := late), decode);
  }

  // ----- Which line answers which request -----

  /** A line that names this request, with what it says. */
  ghost predicate Answers(reply: Reply, id: nat, outcome: Outcome) {
    && reply.Reply? && reply.id == Some(id)
    && outcome == if reply.ok then Resolved(reply.value) else Rejected(BadResponse)
  }

  lemma {:induction false} HandledByOwnLine(s: State, lines: seq<string>, decode: string -> Reply, id: nat)
    requires id in s.book.pending && id in s.book.finishes && id !in HandleLines(s, lines, decode).book.pending
    ensures var t := HandleLines(s, lines, decode);
            && id in t.book.finishes && |t.book.finishes[id]| > |s.book.finishes[id]|
            && exists line <- lines :: Answers(decode(line), id, t.book.finishes[id][|s.book.finishes[id]|])
    decreases lines
  {
    var u := HandleReply(s, decode(lines[0]));
    if id in u.book.pending {
      HandledByOwnLine(u, lines[1..], decode, id);
    } else {
      LinesKeepFinishes(u, lines[1..], decode, id);
      assert Answers(decode(lines[0]), id, u.book.finishes[id][|s.book.finishes[id]|]);
    }
  }

  lemma {:induction false} LinesKeepFinishes(s: State, lines: seq<string>, decode: string -> Reply, id: nat)
    requires id in s.book.finishes && id !in s.book.pending
    ensures var t := HandleLines(s, lines, decode);
            id in t.book.finishes && t.book.finishes[id] == s.book.finishes[id]
    decreases lines
  {
    if lines != [] && !decode(lines[0]).Null? {
      LinesKeepFinishes(HandleReply(s, decode(lines[0])), lines[1..], decode, id);
    }
  }

  /** A request that output settles is settled by a line of it that carries the request's own id, with what
      that line says. */
  lemma SettledByOwnLine(cfg: Config, s: State, process: nat, text: string, decode: string -> Reply, id: nat)
    requires Inv(cfg, s) && id in s.book.pending
    requires id !in Step(cfg, s, Chunk(process, text, decode)).book.pending
    ensures var t := Step(cfg, s, Chunk(process, text, decode));
            && id in t.book.finishes && |t.book.finishes[id]| == 1
            && exists line <- Lines(s.buffer + text) :: Answers(decode(line), id, t.book.finishes[id][0])
  {
    hide Lines, Rest, Consume;
    var all := s.(buffer := s.buffer + text);
    ConsumeHandlesLines(all, decode);
    HandledByOwnLine(all, Lines(all.buffer), decode, id);
    StepInv(cfg, s, Chunk(process, text, decode));
  }
}
