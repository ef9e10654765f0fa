/** The deduplicator object. */
module FailureDedup {
  import opened FailureDedupModel
  import opened FailureDedupTheorems

  class FailureDeduplicator {
    var order: seq<string>
    var known: map<string, Record>
    var resolved: set<string>

    constructor ()
      ensures Model() == INITIAL
    {
      order, known, resolved := [], map[], {};
    }

    ghost function Model(): State
      reads this
    {
      State(order, known, resolved)
    }

    /** The lists name failures by fingerprint. */
    method ProcessObservations(incoming: seq<Failure>, generation: int)
        returns (active: seq<string>, gone: seq<string>, unseen: seq<string>, total: nat)
      requires Inv(Model())
      modifies this
      ensures Inv(Model()) && Model() == Processed(old(Model()), Batch(incoming, generation))
      ensures unseen == FirstAppearances(old(Model()), incoming)
      ensures active == Sift(order, resolved, false) && gone == Sift(order, resolved, true)
      ensures total == Occurrences(order, known)
    {
      ghost var before := Model();
      var seen;
      seen, unseen := Observe(incoming, generation);
      hide ObservedAll, Seen, Occurrences, Sift;
      NewAreUnknownOrResolved(before, incoming, generation);
      ObservedAllHolds(before, incoming, generation);
      ResolveMissing(seen, generation);
      ProcessedHolds(before, Batch(incoming, generation));
      active, gone, total := Summarise();
    }

    method Observe(incoming: seq<Failure>, generation: int) returns (seen: set<string>, unseen: seq<string>)
      requires Inv(Model())
      modifies this
      ensures Model() == ObservedAll(old(Model()), incoming, generation)
      ensures seen == Seen(incoming) && unseen == NewIn(old(Model()), incoming, generation)
    {
      ghost var before := Model();
      seen, unseen := {}, [];
      for k := 0 to |incoming|
        invariant Model() == ObservedAll(before, incoming[..k], generation)
        invariant unseen == NewIn(before, incoming[..k], generation)
        invariant seen == Seen(incoming[..k])
      {
        hide Inv, ObservedAll, NewIn, Seen, Observed, IsNew;
        OneMore(before, incoming, k, generation);
        seen := seen + {incoming[k].fingerprint};
        var isNew := ObserveOne(incoming[k], generation);
        if isNew {
          unseen := unseen + [incoming[k].fingerprint];
        }
      }
      assert incoming[..|incoming|] == incoming;
    }

    /** One failure: counted again and perhaps reopened, or entered. */
    method ObserveOne(f: Failure, generation: int) returns (isNew: bool)
      modifies this
      ensures Model() == Observed(old(Model()), f, generation)
      ensures isNew == IsNew(old(Model()), f.fingerprint)
    {
      if f.fingerprint in known {
        var r := known[f.fingerprint];
        known := known[f.fingerprint := Record(r.classification, f.lastSeenAt, generation, r.occurrences + 1)];
        isNew := f.fingerprint in resolved;
        if isNew {
          resolved := resolved - {f.fingerprint};
        } else {
          assert resolved - {f.fingerprint} == resolved;
        }
      } else {
        order := order + [f.fingerprint];
        known := known[f.fingerprint := Record(f.classification, f.lastSeenAt, generation, 1)];
        isNew := true;
      }
    }

    method ResolveMissing(seen: set<string>, generation: int)
      requires Inv(Model())
      modifies this`resolved
      ensures Model() == Resolved(old(Model()), seen, generation)
    {
      ghost var was := resolved;
      for k := 0 to |order|
        invariant resolved == was + set fp | fp in order[..k] && fp !in seen && known[fp].generation < generation
      {
        assert order[..k + 1] == order[..k] + [order[k]];
        if order[k] !in seen && known[order[k]].generation < generation {
          resolved := resolved + {order[k]};
        }
      }
      assert order[..|order|] == order;
    }

    method Summarise() returns (active: seq<string>, gone: seq<string>, total: nat)
      requires Inv(Model())
      ensures active == Sift(order, resolved, false) && gone == Sift(order, resolved, true)
      ensures total == Occurrences(order, known)
    {
      active, gone, total := [], [], 0;
      for k := 0 to |order|
        invariant active == Sift(order[..k], resolved, false) && gone == Sift(order[..k], resolved, true)
        invariant forall fp <- order[..k] :: fp in known
        invariant total == Occurrences(order[..k], known)
      {
        assert order[..k + 1][..k] == order[..k];
        if order[k] in resolved {
          gone := gone + [order[k]];
        } else {
          active := active + [order[k]];
        }
        total := total + known[order[k]].occurrences;
      }
      assert order[..|order|] == order;
    }

    method Reset()
      modifies this
      ensures Model() == After([])
    {
      order, known, resolved := [], map[], {};
    }
  }

  lemma OneMore(s: State, fs: seq<Failure>, k: nat, generation: int)
    requires k < |fs|
    ensures var now := ObservedAll(s, fs[..k], generation);
            && ObservedAll(s, fs[..k + 1], generation) == Observed(now, fs[k], generation)
            && NewIn(s, fs[..k + 1], generation)
               == NewIn(s, fs[..k], generation) + (if IsNew(now, fs[k].fingerprint) then [fs[k].fingerprint] else [])
            && Seen(fs[..k + 1]) == Seen(fs[..k]) + {fs[k].fingerprint}
  {
    hide Observed, Seen, IsNew;
    assert fs[..k + 1][..k] == fs[..k];
    SeenOneMore(fs[..k + 1]);
  }
}
