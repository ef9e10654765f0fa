/** The tracker's answers, told from the history of batches alone. */
module FailureDedupTheorems {
  import opened Options
  import opened FailureDedupModel

  ghost predicate Inv(s: State) {
    && (forall i, j :: 0 <= i < j < |s.order| ==> s.order[i] != s.order[j])
    && (forall fp :: fp in s.order <==> fp in s.known)
    && s.resolved <= s.known.Keys
  }

  lemma SeenOneMore(fs: seq<Failure>)
    requires fs != []
    ensures Seen(fs) == Seen(fs[..|fs| - 1]) + {fs[|fs| - 1].fingerprint}
  {
    assert fs == fs[..|fs| - 1] + [fs[|fs| - 1]];
  }

  /** `t` is `s` after some fingerprints have been observed in a generation. */
  ghost predicate Adds(s: State, t: State, seen: set<string>, generation: int) {
    && s.order <= t.order
    && t.known.Keys == s.known.Keys + seen
    && t.resolved == s.resolved - seen
    && (forall fp <- t.known :: t.known[fp].generation == if fp in seen then generation else s.known[fp].generation)
  }

  lemma ObservedHolds(s: State, f: Failure, generation: int)
    requires Inv(s)
    ensures Inv(Observed(s, f, generation)) && Adds(s, Observed(s, f, generation), {f.fingerprint}, generation)
  {
  }

  lemma AddsMore(s: State, t: State, u: State, a: set<string>, b: set<string>, generation: int)
    requires Adds(s, t, a, generation) && Adds(t, u, b, generation)
    ensures Adds(s, u, a + b, generation)
  {
  }

  lemma AddsNothing(s: State, generation: int)
    ensures Adds(s, s, {}, generation)
  {
  }

  /** What the observations of one batch do. */
  lemma {:induction false} ObservedAllHolds(s: State, fs: seq<Failure>, generation: int)
    requires Inv(s)
    ensures Inv(ObservedAll(s, fs, generation)) && Adds(s, ObservedAll(s, fs, generation), Seen(fs), generation)
    decreases |fs|
  {
    if fs == [] {
      AddsNothing(s, generation);
    } else {
      hide Observed, Seen, Inv, Adds;
      var n := |fs| - 1;
      var t := ObservedAll(s, fs[..n], generation);
      ObservedAllHolds(s, fs[..n], generation);
      SeenOneMore(fs);
      ObservedHolds(t, fs[n], generation);
      AddsMore(s, t, Observed(t, fs[n], generation), Seen(fs[..n]), {fs[n].fingerprint}, generation);
    }
  }

  lemma ProcessedHolds(s: State, b: Batch)
    requires Inv(s)
    ensures var t := Processed(s, b);
            && Inv(t) && s.order <= t.order
            && t.known.Keys == s.known.Keys + Seen(b.failures)
            && (forall fp <- t.known ::
                  t.known[fp].generation == if fp in Seen(b.failures) then b.generation else s.known[fp].generation)
            && (forall fp <- t.known ::
                  fp in t.resolved <==>
                    fp !in Seen(b.failures) && (fp in s.resolved || s.known[fp].generation < b.generation))
  {
    hide ObservedAll;
    ObservedAllHolds(s, b.failures, b.generation);
  }

  // ----- Which failures are resolved -----

  /** The last batch that shows a fingerprint. */
  ghost predicate LastSeen(h: seq<Batch>, fp: string, i: nat) {
    && i < |h|
    && fp in Seen(h[i].failures)
    && (forall k :: i < k < |h| ==> fp !in Seen(h[k].failures))
  }

  /** Since it was last seen there has been a batch of a later generation than that. */
  ghost predicate Outlived(h: seq<Batch>, fp: string) {
    exists i: nat :: LastSeen(h, fp, i) && Passed(h, i)
  }

  ghost predicate Passed(h: seq<Batch>, i: nat) {
    exists j: nat :: i < j < |h| && h[i].generation < h[j].generation
  }

  lemma {:induction false} HistoryInv(h: seq<Batch>)
    ensures Inv(After(h))
    decreases |h|
  {
    if h != [] {
      HistoryInv(h[..|h| - 1]);
      ProcessedHolds(After(h[..|h| - 1]), h[|h| - 1]);
    }
  }

  function LastIndex(h: seq<Batch>, fp: string): (r: Option<nat>)
    ensures r.Some? ==> r.value < |h|
    decreases |h|
  {
    if h == [] then None
    else if fp in Seen(h[|h| - 1].failures) then Some(|h| - 1)
    else LastIndex(h[..|h| - 1], fp)
  }

  lemma {:induction false} LastIndexIsLast(h: seq<Batch>, fp: string, i: nat)
    ensures LastSeen(h, fp, i) <==> LastIndex(h, fp) == Some(i)
    decreases |h|
  {
    hide Seen;
    if h != [] {
      LastIndexIsLast(h[..|h| - 1], fp, i);
    }
  }

  lemma {:induction false} HistoryKnows(h: seq<Batch>, fp: string)
    ensures fp in After(h).known <==> LastIndex(h, fp).Some?
    ensures fp in After(h).known ==> After(h).known[fp].generation == h[LastIndex(h, fp).value].generation
    decreases |h|
  {
    if h != [] {
      var n := |h| - 1;
      HistoryKnows(h[..n], fp);
      HistoryInv(h[..n]);
      ProcessedHolds(After(h[..n]), h[n]);
      hide Processed, Seen, Inv;
    }
  }

  /** Over every history, whatever its generations: a fingerprint is known exactly if some batch has shown it, carries
      the generation it was last seen in, and is resolved exactly if it has been outlived since. */
  lemma {:induction false} EveryHistory(h: seq<Batch>, fp: string)
    ensures fp in After(h).known <==> exists i: nat :: LastSeen(h, fp, i)
    ensures forall i: nat :: LastSeen(h, fp, i) ==>
              fp in After(h).known && After(h).known[fp].generation == h[i].generation
    ensures fp in After(h).resolved <==> Outlived(h, fp)
    decreases |h|
  {
    HistoryKnows(h, fp);
    forall i: nat
      ensures LastSeen(h, fp, i) <==> LastIndex(h, fp) == Some(i)
    {
      LastIndexIsLast(h, fp, i);
    }
    if h != [] {
      var n := |h| - 1;
      EveryHistory(h[..n], fp);
      HistoryInv(h[..n]);
      HistoryInv(h);
      ProcessedHolds(After(h[..n]), h[n]);
      if fp in After(h).known {
        hide Processed, Seen, Inv, After;
        var i := LastIndex(h, fp).value;
        if i == n {
          NotOutlived(h, fp);
        } else {
          LastIndexIsLast(h[..n], fp, i);
          OutlivedNow(h, fp, i);
        }
      }
    }
  }

  lemma NotOutlived(h: seq<Batch>, fp: string)
    requires h != [] && LastSeen(h, fp, |h| - 1)
    ensures !Outlived(h, fp)
  {
  }

  lemma OutlivedNow(h: seq<Batch>, fp: string, i: nat)
    requires h != [] && i < |h| - 1 && LastSeen(h, fp, i) && LastSeen(h[..|h| - 1], fp, i)
    ensures Outlived(h, fp) <==> Outlived(h[..|h| - 1], fp) || h[i].generation < h[|h| - 1].generation
  {
    hide Passed, LastSeen, LastIndex;
    OutlivedIsPassed(h, fp, i);
    OutlivedIsPassed(h[..|h| - 1], fp, i);
    PassedNow(h, i);
  }

  lemma OutlivedIsPassed(h: seq<Batch>, fp: string, i: nat)
    requires LastSeen(h, fp, i)
    ensures Outlived(h, fp) <==> Passed(h, i)
  {
    hide LastSeen, LastIndex, Passed;
    LastIndexIsLast(h, fp, i);
    forall k: nat
      ensures LastSeen(h, fp, k) ==> k == i
    {
      LastIndexIsLast(h, fp, k);
    }
  }

  lemma PassedNow(h: seq<Batch>, i: nat)
    requires h != [] && i < |h| - 1
    ensures Passed(h, i) <==> Passed(h[..|h| - 1], i) || h[i].generation < h[|h| - 1].generation
  {
    var front := h[..|h| - 1];
    if Passed(h, i) {
      var j: nat :| i < j < |h| && h[i].generation < h[j].generation;
      assert j < |front| ==> front[j] == h[j];
    }
    if Passed(front, i) {
      var j: nat :| i < j < |front| && front[i].generation < front[j].generation;
      assert h[i].generation < h[j].generation;
    }
  }

  lemma LastBatchIsActive(h: seq<Batch>, fp: string)
    requires h != [] && fp in Seen(h[|h| - 1].failures)
    ensures fp in After(h).known && fp !in After(h).resolved
  {
    EveryHistory(h, fp);
    hide After, Outlived, Seen;
    assert LastSeen(h, fp, |h| - 1);
    NotOutlived(h, fp);
  }

  lemma IncreasingOutlives(h: seq<Batch>, fp: string)
    requires h != [] && fp in After(h).known && fp !in Seen(h[|h| - 1].failures)
    requires forall i, j :: 0 <= i < j < |h| ==> h[i].generation < h[j].generation
    ensures Outlived(h, fp)
  {
    EveryHistory(h, fp);
    hide After;
    var i: nat :| LastSeen(h, fp, i);
    assert i < |h| - 1 && h[i].generation < h[|h| - 1].generation;
    assert Passed(h, i);
  }

  /** The active failures are exactly those of the last batch, if and only if every one that is known and not in it
      has been outlived; strictly increasing generations are enough. */
  lemma ActiveIsLastBatchIff(h: seq<Batch>)
    requires h != []
    ensures var s := After(h); var last := Seen(h[|h| - 1].failures);
            (s.known.Keys - s.resolved == last <==> forall fp <- s.known :: fp !in last ==> Outlived(h, fp))
    ensures (forall i, j :: 0 <= i < j < |h| ==> h[i].generation < h[j].generation) ==>
              After(h).known.Keys - After(h).resolved == Seen(h[|h| - 1].failures)
  {
    hide After, Outlived, Seen, LastSeen;
    var s := After(h);
    var last := Seen(h[|h| - 1].failures);
    forall fp
      ensures fp in s.resolved <==> Outlived(h, fp)
      ensures fp in last ==> fp in s.known && fp !in s.resolved
    {
      EveryHistory(h, fp);
      if fp in last {
        LastBatchIsActive(h, fp);
      }
    }
    if forall i, j :: 0 <= i < j < |h| ==> h[i].generation < h[j].generation {
      forall fp | fp in s.known && fp !in last
        ensures Outlived(h, fp)
      {
        IncreasingOutlives(h, fp);
      }
    }
  }

  /** Generations that stand still keep a failure active after it is gone. */
  lemma StandingStill(f: Failure, generation: int)
    ensures var h := [Batch([f], generation), Batch([], generation)];
            After(h).known.Keys - After(h).resolved == {f.fingerprint}
  {
    var h := [Batch([f], generation), Batch([], generation)];
    assert h[..1] == [Batch([f], generation)] && h[..1][..0] == [];
    assert After(h[..1]) == Processed(INITIAL, Batch([f], generation));
    ProcessedHolds(INITIAL, h[0]);
    ProcessedHolds(After(h[..1]), h[1]);
    assert Seen([f]) == {f.fingerprint};
  }

  // ----- Which failures are new -----

  /** The distinct fingerprints of a batch that were unknown or resolved before it, in the order they first
      appear in it. */
  function FirstAppearances(s: State, fs: seq<Failure>): seq<string>
    decreases |fs|
  {
    if fs == [] then []
    else
      var n := |fs| - 1;
      var fp := fs[n].fingerprint;
      FirstAppearances(s, fs[..n])
      + if (fp !in s.known || fp in s.resolved) && fp !in Seen(fs[..n]) then [fp] else []
  }

  lemma NewAfter(s: State, fs: seq<Failure>, generation: int, fp: string)
    requires Inv(s)
    ensures IsNew(ObservedAll(s, fs, generation), fp) <==> IsNew(s, fp) && fp !in Seen(fs)
  {
    hide ObservedAll, Seen;
    ObservedAllHolds(s, fs, generation);
  }

  /** The new failures of a batch are these, although the records change while it is read. */
  lemma {:induction false} NewAreUnknownOrResolved(s: State, fs: seq<Failure>, generation: int)
    requires Inv(s)
    ensures NewIn(s, fs, generation) == FirstAppearances(s, fs)
    decreases |fs|
  {
    hide Inv, Seen, ObservedAll;
    if fs != [] {
      var n := |fs| - 1;
      NewAreUnknownOrResolved(s, fs[..n], generation);
      NewAfter(s, fs[..n], generation, fs[n].fingerprint);
    }
  }

  // ----- Counting -----

  function CountIn(fs: seq<Failure>, fp: string): nat
    decreases |fs|
  {
    if fs == [] then 0
    else CountIn(fs[..|fs| - 1], fp) + if fs[|fs| - 1].fingerprint == fp then 1 else 0
  }

  function Count(h: seq<Batch>, fp: string): nat
    decreases |h|
  {
    if h == [] then 0 else Count(h[..|h| - 1], fp) + CountIn(h[|h| - 1].failures, fp)
  }

  function Observations(h: seq<Batch>): nat
    decreases |h|
  {
    if h == [] then 0 else Observations(h[..|h| - 1]) + |h[|h| - 1].failures|
  }

  function CountOf(s: State, fp: string): nat {
    if fp in s.known then s.known[fp].occurrences else 0
  }

  lemma {:induction false} OccurrencesUpdate(order: seq<string>, known: map<string, Record>, k: nat, r: Record)
    requires k < |order| && forall fp <- order :: fp in known
    requires forall i, j :: 0 <= i < j < |order| ==> order[i] != order[j]
    ensures Occurrences(order, known[order[k] := r])
         == Occurrences(order, known) - known[order[k]].occurrences + r.occurrences
    decreases |order|
  {
    var n := |order| - 1;
    if k < n {
      OccurrencesUpdate(order[..n], known, k, r);
    } else {
      OccurrencesElsewhere(order[..n], known, order[n], r);
    }
  }

  lemma {:induction false} OccurrencesElsewhere(order: seq<string>, known: map<string, Record>, fp: string, r: Record)
    requires fp !in order && forall x <- order :: x in known
    ensures Occurrences(order, known[fp := r]) == Occurrences(order, known)
    decreases |order|
  {
    if order != [] {
      OccurrencesElsewhere(order[..|order| - 1], known, fp, r);
    }
  }

  lemma KnownCounts(s: State, f: Failure, generation: int)
    requires Inv(s) && f.fingerprint in s.known
    ensures var t := Observed(s, f, generation);
            && (forall fp <- t.order :: fp in t.known)
            && Occurrences(t.order, t.known) == Occurrences(s.order, s.known) + 1
  {
    var k :| 0 <= k < |s.order| && s.order[k] == f.fingerprint;
    OccurrencesUpdate(s.order, s.known, k, Observed(s, f, generation).known[f.fingerprint]);
  }

  lemma UnknownCounts(s: State, f: Failure, generation: int)
    requires Inv(s) && f.fingerprint !in s.known
    ensures var t := Observed(s, f, generation);
            && (forall fp <- t.order :: fp in t.known)
            && Occurrences(t.order, t.known) == Occurrences(s.order, s.known) + 1
  {
    var t := Observed(s, f, generation);
    OccurrencesElsewhere(s.order, s.known, f.fingerprint, t.known[f.fingerprint]);
    assert t.order[..|s.order|] == s.order;
  }

  lemma ObservedCounts(s: State, f: Failure, generation: int, fp: string)
    requires Inv(s)
    ensures var t := Observed(s, f, generation);
            && Inv(t)
            && Occurrences(t.order, t.known) == Occurrences(s.order, s.known) + 1
            && CountOf(t, fp) == CountOf(s, fp) + if fp == f.fingerprint then 1 else 0
  {
    hide Occurrences;
    ObservedHolds(s, f, generation);
    if f.fingerprint in s.known {
      KnownCounts(s, f, generation);
    } else {
      UnknownCounts(s, f, generation);
    }
  }

  lemma {:induction false} ObservedAllCounts(s: State, fs: seq<Failure>, generation: int, fp: string)
    requires Inv(s)
    ensures var t := ObservedAll(s, fs, generation);
            && Inv(t)
            && Occurrences(t.order, t.known) == Occurrences(s.order, s.known) + |fs|
            && CountOf(t, fp) == CountOf(s, fp) + CountIn(fs, fp)
    decreases |fs|
  {
    if fs != [] {
      var n := |fs| - 1;
      ObservedAllCounts(s, fs[..n], generation, fp);
      ObservedCounts(ObservedAll(s, fs[..n], generation), fs[n], generation, fp);
    }
  }

  /** Nothing is lost and nothing counted twice: the total is the number of failures observed since the last reset,
      and each fingerprint's count the number of times it was observed. */
  lemma {:induction false} CountsAreObservations(h: seq<Batch>, fp: string)
    ensures var s := After(h);
            && Inv(s)
            && Occurrences(s.order, s.known) == Observations(h)
            && CountOf(s, fp) == Count(h, fp)
    decreases |h|
  {
    if h != [] {
      var n := |h| - 1;
      CountsAreObservations(h[..n], fp);
      ObservedAllCounts(After(h[..n]), h[n].failures, h[n].generation, fp);
      HistoryInv(h);
    }
  }

  // ----- Active and resolved -----

  /** The two lists hold every known fingerprint once, in one of them. */
  lemma {:induction false} SiftPartitions(order: seq<string>, resolved: set<string>)
    ensures multiset(Sift(order, resolved, true)) + multiset(Sift(order, resolved, false)) == multiset(order)
    ensures forall fp :: fp in Sift(order, resolved, true) <==> fp in order && fp in resolved
    ensures forall fp :: fp in Sift(order, resolved, false) <==> fp in order && fp !in resolved
    decreases |order|
  {
    if order != [] {
      var n := |order| - 1;
      SiftPartitions(order[..n], resolved);
      assert order == order[..n] + [order[n]];
    }
  }

  /** They keep the order in which the fingerprints were first seen. */
  lemma {:induction false} SiftKeepsOrder(a: seq<string>, b: seq<string>, resolved: set<string>, which: bool)
    ensures Sift(a + b, resolved, which) == Sift(a, resolved, which) + Sift(b, resolved, which)
    decreases |b|
  {
    if b == [] {
      assert a + b == a;
    } else {
      var n := |b| - 1;
      assert (a + b)[..|a + b| - 1] == a + b[..n];
      SiftKeepsOrder(a, b[..n], resolved, which);
    }
  }

  // ----- What is remembered of a failure -----

  /** Every failure observed, in order. */
  function AllObserved(h: seq<Batch>): seq<Failure>
    decreases |h|
  {
    if h == [] then [] else AllObserved(h[..|h| - 1]) + h[|h| - 1].failures
  }

  /** The fingerprints of some failures in the order they first appear. */
  function FirstSeen(fs: seq<Failure>): seq<string>
    decreases |fs|
  {
    if fs == [] then []
    else
      var n := |fs| - 1;
      FirstSeen(fs[..n]) + if fs[n].fingerprint in Seen(fs[..n]) then [] else [fs[n].fingerprint]
  }

  ghost predicate IsFirst(fs: seq<Failure>, fp: string, i: int) {
    0 <= i < |fs| && fs[i].fingerprint == fp && forall j :: 0 <= j < i ==> fs[j].fingerprint != fp
  }

  ghost predicate IsLast(fs: seq<Failure>, fp: string, i: int) {
    0 <= i < |fs| && fs[i].fingerprint == fp && forall j :: i < j < |fs| ==> fs[j].fingerprint != fp
  }

  ghost predicate Remembers(s: State, fs: seq<Failure>) {
    && s.order == FirstSeen(fs) && s.known.Keys == Seen(fs)
    && (forall fp <- s.known, i :: IsFirst(fs, fp, i) ==> s.known[fp].classification == fs[i].classification)
    && (forall fp <- s.known, i :: IsLast(fs, fp, i) ==> s.known[fp].lastSeenAt == fs[i].lastSeenAt)
  }

  lemma ObservedRemembers(s: State, fs: seq<Failure>, f: Failure, generation: int)
    requires Remembers(s, fs)
    ensures Remembers(Observed(s, f, generation), fs + [f])
  {
    var t, more := Observed(s, f, generation), fs + [f];
    SeenOneMore(more);
    assert more[..|more| - 1] == fs;
    forall fp | fp in s.known
      ensures exists j :: 0 <= j < |fs| && more[j].fingerprint == fp
    {
      var g :| g in fs && g.fingerprint == fp;
      var j :| 0 <= j < |fs| && fs[j] == g;
      assert more[j].fingerprint == fp;
    }
    forall fp, i | fp in t.known && IsFirst(more, fp, i)
      ensures t.known[fp].classification == more[i].classification
    {
      assert fp in s.known ==> exists j :: 0 <= j < |fs| && more[j].fingerprint == fp;
      if i < |fs| {
        assert more[i] == fs[i] && IsFirst(fs, fp, i);
      }
    }
    forall fp, i | fp in t.known && IsLast(more, fp, i)
      ensures t.known[fp].lastSeenAt == more[i].lastSeenAt
    {
      if i < |fs| {
        assert more[|fs|].fingerprint != fp;
        assert forall j :: 0 <= j < |fs| ==> more[j] == fs[j];
        assert IsLast(fs, fp, i);
      }
    }
  }

  lemma {:induction false} ObservedAllRemembers(s: State, before: seq<Failure>, fs: seq<Failure>, generation: int)
    requires Remembers(s, before)
    ensures Remembers(ObservedAll(s, fs, generation), before + fs)
    decreases |fs|
  {
    hide Remembers, Observed;
    if fs == [] {
      assert before + fs == before;
    } else {
      var n := |fs| - 1;
      ObservedAllRemembers(s, before, fs[..n], generation);
      ObservedRemembers(ObservedAll(s, fs[..n], generation), before + fs[..n], fs[n], generation);
      assert before + fs[..n] + [fs[n]] == before + fs;
    }
  }

  /** Over every history the tracker holds the fingerprints in the order they were first seen, each with the
      classification of its first observation and the time of its last. */
  lemma {:induction false} HistoryRemembers(h: seq<Batch>)
    ensures Remembers(After(h), AllObserved(h))
    decreases |h|
  {
    if h != [] {
      hide ObservedAll, FirstSeen, Seen, IsFirst, IsLast;
      var n := |h| - 1;
      HistoryRemembers(h[..n]);
      ObservedAllRemembers(After(h[..n]), AllObserved(h[..n]), h[n].failures, h[n].generation);
    }
  }
}
