/** The failure tracker: what is known of each fingerprint, and which are resolved. */
module FailureDedupModel {
  datatype Classification = Actionable | Unknown | Other

  /** One observed failure. */
  datatype Failure = Failure(fingerprint: string, classification: Classification, lastSeenAt: int)

  datatype Record = Record(classification: Classification, lastSeenAt: int, generation: int, occurrences: nat)

  /** `order` are the known fingerprints in the order they were first seen. */
  datatype State = State(order: seq<string>, known: map<string, Record>, resolved: set<string>)

  const INITIAL := State([], map[], {})

  datatype Batch = Batch(failures: seq<Failure>, generation: int)

  // ----- One failure -----

  predicate IsNew(s: State, fp: string) {
    fp !in s.known || fp in s.resolved
  }

  /** A known failure is counted and, if it was resolved, opened again; an unknown one is entered. */
  function Observed(s: State, f: Failure, generation: int): State {
    if f.fingerprint in s.known then
      var r := s.known[f.fingerprint];
      State(
        s.order,
        s.known[f.fingerprint := Record(r.classification, f.lastSeenAt, generation, r.occurrences + 1)],
        s.resolved - {f.fingerprint})
    else
      var r := Record(f.classification, f.lastSeenAt, generation, 1);
      State(s.order + [f.fingerprint], s.known[f.fingerprint := r], s.resolved)
  }

  function ObservedAll(s: State, fs: seq<Failure>, generation: int): State
    decreases |fs|
  {
    if fs == [] then s
    else Observed(ObservedAll(s, fs[..|fs| - 1], generation), fs[|fs| - 1], generation)
  }

  function NewIn(s: State, fs: seq<Failure>, generation: int): seq<string>
    decreases |fs|
  {
    if fs == [] then []
    else
      var n := |fs| - 1;
      var before := NewIn(s, fs[..n], generation);
      if IsNew(ObservedAll(s, fs[..n], generation), fs[n].fingerprint) then before + [fs[n].fingerprint] else before
  }

  // ----- One batch -----

  function Seen(fs: seq<Failure>): set<string> {
    set f | f in fs :: f.fingerprint
  }

  function Resolved(s: State, seen: set<string>, generation: int): State {
    s.(resolved := s.resolved + set fp | fp in s.known && fp !in seen && s.known[fp].generation < generation)
  }

  function Processed(s: State, b: Batch): State {
    Resolved(ObservedAll(s, b.failures, b.generation), Seen(b.failures), b.generation)
  }

  /** The fingerprints of a list that are, or are not, resolved, in order. */
  function Sift(order: seq<string>, resolved: set<string>, which: bool): seq<string>
    decreases |order|
  {
    if order == [] then []
    else
      var n := |order| - 1;
      Sift(order[..n], resolved, which) + if (order[n] in resolved) == which then [order[n]] else []
  }

  function Occurrences(order: seq<string>, known: map<string, Record>): nat
    requires forall fp <- order :: fp in known
    decreases |order|
  {
    if order == [] then 0
    else Occurrences(order[..|order| - 1], known) + known[order[|order| - 1]].occurrences
  }

  // ----- Histories -----

  function After(h: seq<Batch>): State
    decreases |h|
  {
    if h == [] then INITIAL else Processed(After(h[..|h| - 1]), h[|h| - 1])
  }
}
