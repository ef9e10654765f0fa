/** The buffered audit log, with writes that may fail. */
module AuditLog {
  /** An event's line, and the directory whose log it belongs to. `serial` is not written: it numbers the events. */
  datatype Line = Line(dir: string, text: string, critical: bool, serial: nat)

  datatype State = State(written: seq<Line>, buffer: seq<Line>)

  datatype Event = Append(line: Line) | Flush

  const MAX_BUFFERED := 200
  const FLUSH_THRESHOLD := 100

  /** The lines whose writes succeed, in order. */
  function Landed(lands: Line -> bool, lines: seq<Line>): seq<Line>
    decreases |lines|
  {
    if lines == [] then []
    else
      var n := |lines| - 1;
      Landed(lands, lines[..n]) + if lands(lines[n]) then [lines[n]] else []
  }

  function Flushed(lands: Line -> bool, s: State): State {
    State(s.written + Landed(lands, s.buffer), [])
  }

  function Appended(lands: Line -> bool, s: State, line: Line): State {
    if line.critical then
      var t := Flushed(lands, s);
      t.(written := t.written + Landed(lands, [line]))
    else
      var t := if |s.buffer| >= MAX_BUFFERED then Flushed(lands, s) else s;
      var u := t.(buffer := t.buffer + [line]);
      if |u.buffer| >= FLUSH_THRESHOLD then Flushed(lands, u) else u
  }

  function Step(lands: Line -> bool, s: State, e: Event): State {
    match e case Append(line) => Appended(lands, s, line) case Flush => Flushed(lands, s)
  }

  function After(lands: Line -> bool, events: seq<Event>): State
    decreases |events|
  {
    if events == [] then State([], []) else Step(lands, After(lands, events[..|events| - 1]), events[|events| - 1])
  }

  /** Every line appended, in order. */
  function History(events: seq<Event>): seq<Line>
    decreases |events|
  {
    if events == [] then []
    else
      var e := events[|events| - 1];
      History(events[..|events| - 1]) + if e.Append? then [e.line] else []
  }

  // ----- The log is the history -----

  lemma {:induction false} LandedConcat(lands: Line -> bool, a: seq<Line>, b: seq<Line>)
    ensures Landed(lands, a + b) == Landed(lands, a) + Landed(lands, b)
    decreases |b|
  {
    if b == [] {
      assert a + b == a;
    } else {
      var n := |b| - 1;
      assert (a + b)[..|a + b| - 1] == a + b[..n];
      LandedConcat(lands, a, b[..n]);
    }
  }

  /** What was dealt with before the buffer, and what is in it, is the history. */
  ghost predicate Splits(lands: Line -> bool, s: State, history: seq<Line>) {
    && |s.buffer| <= |history|
    && s.buffer == history[|history| - |s.buffer|..]
    && s.written == Landed(lands, history[..|history| - |s.buffer|])
  }

  lemma FlushSplits(lands: Line -> bool, s: State, history: seq<Line>)
    requires Splits(lands, s, history)
    ensures Splits(lands, Flushed(lands, s), history)
  {
    var k := |history| - |s.buffer|;
    assert history == history[..k] + history[k..];
    LandedConcat(lands, history[..k], history[k..]);
    assert history[..|history|] == history;
  }

  lemma PushSplits(lands: Line -> bool, s: State, history: seq<Line>, line: Line)
    requires Splits(lands, s, history)
    ensures Splits(lands, s.(buffer := s.buffer + [line]), history + [line])
  {
    var k := |history| - |s.buffer|;
    assert (history + [line])[..k] == history[..k];
    assert (history + [line])[k..] == history[k..] + [line];
  }

  lemma EmptySplits(lands: Line -> bool, s: State, history: seq<Line>)
    requires Splits(lands, s, history) && s.buffer == []
    ensures s.written == Landed(lands, history)
  {
    assert history[..|history|] == history;
  }

  /** An append never finds the buffer full, and leaves it below the flush threshold. */
  lemma AppendSplits(lands: Line -> bool, s: State, history: seq<Line>, line: Line)
    requires Splits(lands, s, history) && |s.buffer| < FLUSH_THRESHOLD
    ensures var t := Appended(lands, s, line);
            && Splits(lands, t, history + [line]) && |t.buffer| < FLUSH_THRESHOLD
            && (line.critical ==> t.buffer == [])
  {
    FlushSplits(lands, s, history);
    var t := Flushed(lands, s);
    PushSplits(lands, s, history, line);
    PushSplits(lands, t, history, line);
    FlushSplits(lands, s.(buffer := s.buffer + [line]), history + [line]);
    FlushSplits(lands, t.(buffer := t.buffer + [line]), history + [line]);
    hide Splits, Landed;
    assert t.buffer + [line] == [line];
  }

  /** In every run, whichever writes fail: the log is the lines appended and not still buffered, in order, without
      those whose own write failed; and after a critical event or a flush nothing is left in the buffer. */
  lemma {:induction false} LogIsHistory(lands: Line -> bool, events: seq<Event>)
    ensures var s := After(lands, events);
            && Splits(lands, s, History(events))
            && |s.buffer| < FLUSH_THRESHOLD
            && (events != [] && (events[|events| - 1].Flush? || events[|events| - 1].line.critical) ==>
                  s.buffer == [] && s.written == Landed(lands, History(events)))
    decreases |events|
  {
    if events != [] {
      hide Splits, Landed, Appended;
      var n := |events| - 1;
      LogIsHistory(lands, events[..n]);
      var s, h := After(lands, events[..n]), History(events[..n]);
      if events[n].Append? {
        AppendSplits(lands, s, h, events[n].line);
      } else {
        FlushSplits(lands, s, h);
        assert h + [] == h;
      }
      if After(lands, events).buffer == [] {
        EmptySplits(lands, After(lands, events), History(events));
      }
    }
  }

  /** If no write fails, log and buffer together are the history. */
  lemma NothingIsLost(lands: Line -> bool, events: seq<Event>)
    requires forall line :: lands(line)
    ensures After(lands, events).written + After(lands, events).buffer == History(events)
  {
    hide After, History, Landed;
    LogIsHistory(lands, events);
    var h := History(events);
    var k := |h| - |After(lands, events).buffer|;
    AllLand(lands, h[..k]);
    assert h == h[..k] + h[k..];
  }

  lemma {:induction false} AllLand(lands: Line -> bool, lines: seq<Line>)
    requires forall line :: lands(line)
    ensures Landed(lands, lines) == lines
    decreases |lines|
  {
    if lines != [] {
      AllLand(lands, lines[..|lines| - 1]);
    }
  }

  // ----- When lines are written -----

  /** What lands of some lines is those whose writes succeed, in order. */
  lemma LandedIff(lands: Line -> bool, line: Line, rest: seq<Line>)
    ensures Landed(lands, []) == []
    ensures Landed(lands, [line] + rest) == (if lands(line) then [line] else []) + Landed(lands, rest)
  {
    assert [line][..0] == [] && Landed(lands, []) == [];
    assert Landed(lands, [line]) == if lands(line) then [line] else [];
    LandedConcat(lands, [line], rest);
  }

  /** A line that is not critical is only buffered, until a hundred are: then all of them are written at once. A
      critical one has everything before it written first. */
  lemma AppendIff(lands: Line -> bool, s: State, line: Line)
    requires |s.buffer| < 100
    ensures var t := Appended(lands, s, line);
            if !line.critical && |s.buffer| + 1 < 100 then t == s.(buffer := s.buffer + [line])
            else t == State(s.written + Landed(lands, s.buffer + [line]), [])
  {
    LandedConcat(lands, s.buffer, [line]);
    var a, b := Landed(lands, s.buffer), Landed(lands, [line]);
    hide Landed;
    assert s.written + a + b == s.written + (a + b);
  }

  // ----- The buffer, swapped out and written -----

  class Log {
    var written: seq<Line>
    var buffer: seq<Line>

    constructor ()
      ensures Model() == State([], [])
    {
      written, buffer := [], [];
    }

    ghost function Model(): State
      reads this
    {
      State(written, buffer)
    }

    method FlushBuffer(lands: Line -> bool)
      modifies this
      ensures Model() == Flushed(lands, old(Model()))
    {
      var pending := buffer;
      buffer := [];
      for k := 0 to |pending|
        invariant written == old(written) + Landed(lands, pending[..k]) && buffer == []
      {
        assert pending[..k + 1][..k] == pending[..k];
        if lands(pending[k]) {
          written := written + [pending[k]];
        }
      }
      assert pending[..|pending|] == pending;
    }

    method AppendEvent(lands: Line -> bool, line: Line)
      modifies this
      ensures Model() == Appended(lands, old(Model()), line)
    {
      if line.critical {
        FlushBuffer(lands);
        assert [line][..0] == [] && Landed(lands, [line]) == if lands(line) then [line] else [];
        if lands(line) {
          written := written + [line];
        }
        return;
      }
      if |buffer| >= MAX_BUFFERED {
        FlushBuffer(lands);
      }
      buffer := buffer + [line];
      if |buffer| >= FLUSH_THRESHOLD {
        FlushBuffer(lands);
      }
    }
  }
}
