/** The handles through which workstreams use up what the ledger has redistributed to them. */
module AdaptiveHandles {
  import opened Options
  import opened AdaptiveLedgerModel
  import opened AdaptiveLedgerTheorems

  // ----- Every grant is a reservation of its own -----

  predicate Grants(entry: Entry, r: nat) {
    entry.Redistribution? && entry.reservation == r
  }

  predicate CallGrants(c: Call, r: nat) {
    c.Granted? && Grants(c.entry, r)
  }

  ghost predicate GrantsApart(s: State) {
    && (forall e <- s.entries :: e.Redistribution? ==> e.reservation < |s.budget.reservations|)
    && (forall c <- s.calls :: c.Granted? && c.entry.Redistribution? ==> c.entry.reservation < |s.budget.reservations|)
    && (forall i, j, r: nat :: 0 <= i < j < |s.entries| && Grants(s.entries[i], r) ==> !Grants(s.entries[j], r))
    && (forall i, k, r: nat :: 0 <= i < |s.entries| && 0 <= k < |s.calls| && Grants(s.entries[i], r) ==>
          !CallGrants(s.calls[k], r))
    && (forall k, l, r: nat :: 0 <= k < l < |s.calls| && CallGrants(s.calls[k], r) ==> !CallGrants(s.calls[l], r))
  }

  /** A call that is not a grant comes, or takes the place of another. */
  lemma OtherCall(s: State, t: State, k: nat)
    requires GrantsApart(s) && t.entries == s.entries && |s.budget.reservations| <= |t.budget.reservations|
    requires k < |t.calls| && !t.calls[k].Granted?
    requires forall l :: 0 <= l < |t.calls| && l != k ==> l < |s.calls| && t.calls[l] == s.calls[l]
    ensures GrantsApart(t)
  {
    assert forall c <- t.calls :: c.Granted? ==> c in s.calls;
  }

  lemma NewGrant(s: State, t: State, k: nat)
    requires GrantsApart(s) && t.entries == s.entries && |t.budget.reservations| == |s.budget.reservations| + 1
    requires k < |s.calls| == |t.calls| && t.calls == s.calls[k := t.calls[k]]
    requires t.calls[k].Granted? && Grants(t.calls[k].entry, |s.budget.reservations|)
    ensures GrantsApart(t)
  {
    assert forall c <- t.calls :: c == t.calls[k] || c in s.calls;
    forall i, j, r: nat | 0 <= i < j < |t.calls| && CallGrants(t.calls[i], r)
      ensures !CallGrants(t.calls[j], r)
    {
      assert forall l :: 0 <= l < |s.calls| ==> !CallGrants(s.calls[l], |s.budget.reservations|);
    }
    forall i, l, r: nat | 0 <= i < |t.entries| && 0 <= l < |t.calls| && Grants(t.entries[i], r)
      ensures !CallGrants(t.calls[l], r)
    {
      assert t.entries[i] in s.entries;
    }
  }

  lemma Recording(s: State, t: State, k: nat)
    requires GrantsApart(s) && t.budget == s.budget && k < |s.calls| && t.calls == s.calls[k := Finished]
    requires s.calls[k].Granted? || s.calls[k].Reclaiming? || s.calls[k].Ended?
    requires WellFormed(s.calls[k]) && t.entries == s.entries + [s.calls[k].entry]
    ensures GrantsApart(t)
  {
    assert forall c <- t.calls :: c.Granted? ==> c in s.calls;
    assert forall r: nat :: Grants(s.calls[k].entry, r) ==> CallGrants(s.calls[k], r);
  }

  lemma MoreReservations(s: State, t: State)
    requires GrantsApart(s) && t.entries == s.entries && t.calls == s.calls
    requires |s.budget.reservations| <= |t.budget.reservations|
    ensures GrantsApart(t)
  {
  }

  lemma StepGrantsApart(limits: Limits, s: State, e: Event)
    requires Inv(s) && GrantsApart(s)
    ensures GrantsApart(Step(limits, s, e))
  {
    StepBudget(limits, s, e);
    var t := Step(limits, s, e);
    if e.Proceed? && e.call < |s.calls| && s.calls[e.call].Asking? {
      ReservedKeeps(limits, s.budget, s.calls[e.call].session, 0, s.calls[e.call].asked, e.refused);
    }
    assert e.Proceed? && e.call < |s.calls| ==> s.calls[e.call] in s.calls && WellFormed(s.calls[e.call]);
    hide CancelFirst, CancelAt, MayRedistribute, Recorded, CommitUsage, Inv, GrantsApart, Reserved;
    if e.Proceed? && e.call < |s.calls| && !s.calls[e.call].Finished? {
      if s.calls[e.call].Asking? && t.calls[e.call].Granted? {
        NewGrant(s, t, e.call);
      } else if s.calls[e.call].Asking? || s.calls[e.call].Terminating? {
        OtherCall(s, t, e.call);
      } else {
        Recording(s, t, e.call);
      }
    } else if |t.calls| > |s.calls| {
      OtherCall(s, t, |s.calls|);
    } else {
      MoreReservations(s, t);
    }
  }

  // ----- What a handle gives out -----

  /** The redistributed reservations of a workstream, in the order they were recorded. */
  function Targeted(entries: seq<Entry>, workstream: string): seq<nat>
    decreases |entries|
  {
    if entries == [] then []
    else
      var before := Targeted(entries[..|entries| - 1], workstream);
      var e := entries[|entries| - 1];
      if e.Redistribution? && e.target == workstream then before + [e.reservation] else before
  }

  function FirstOutside(rs: seq<nat>, given: seq<nat>): Option<nat> {
    if rs == [] then None else if rs[0] !in given then Some(rs[0]) else FirstOutside(rs[1..], given)
  }

  lemma {:induction false} TargetedFirst(entries: seq<Entry>, workstream: string)
    requires entries != []
    ensures Targeted(entries, workstream) ==
      (if entries[0].Redistribution? && entries[0].target == workstream then [entries[0].reservation] else [])
      + Targeted(entries[1..], workstream)
    decreases |entries|
  {
    var n := |entries| - 1;
    if n > 0 {
      TargetedFirst(entries[..n], workstream);
      assert entries[1..][..n - 1] == entries[..n][1..];
    }
  }

  lemma {:induction false} PendingIsFirstOutside(entries: seq<Entry>, workstream: string, given: seq<nat>)
    ensures Pending(entries, workstream, given) == FirstOutside(Targeted(entries, workstream), given)
  {
    if entries != [] {
      TargetedFirst(entries, workstream);
      PendingIsFirstOutside(entries[1..], workstream, given);
      var rest := Targeted(entries[1..], workstream);
      if entries[0].Redistribution? && entries[0].target == workstream {
        assert Targeted(entries, workstream)[1..] == rest;
      } else {
        assert Targeted(entries, workstream) == rest;
      }
    }
  }

  ghost predicate Distinct(rs: seq<nat>) {
    forall i, j :: 0 <= i < j < |rs| ==> rs[i] != rs[j]
  }

  ghost predicate GrantedTo(entries: seq<Entry>, workstream: string, r: nat) {
    exists i :: 0 <= i < |entries| && Grants(entries[i], r) && entries[i].target == workstream
  }

  ghost predicate EntriesApart(entries: seq<Entry>) {
    forall i, j, r: nat :: 0 <= i < j < |entries| && Grants(entries[i], r) ==> !Grants(entries[j], r)
  }

  lemma {:induction false} TargetedDistinct(entries: seq<Entry>, workstream: string)
    requires EntriesApart(entries)
    ensures Distinct(Targeted(entries, workstream))
    ensures forall r <- Targeted(entries, workstream) :: GrantedTo(entries, workstream, r)
    decreases |entries|
  {
    if entries != [] {
      var n := |entries| - 1;
      TargetedDistinct(entries[..n], workstream);
      forall r | r in Targeted(entries[..n], workstream)
        ensures !Grants(entries[n], r) && GrantedTo(entries, workstream, r)
      {
        var i :| 0 <= i < n && Grants(entries[..n][i], r) && entries[..n][i].target == workstream;
        assert Grants(entries[i], r);
      }
      if entries[n].Redistribution? {
        assert Grants(entries[n], entries[n].reservation);
      }
    }
  }

  lemma {:induction false} FirstOutsidePrefix(rs: seq<nat>, given: seq<nat>, n: nat)
    requires Distinct(rs) && n <= |rs|
    requires forall k :: 0 <= k < |rs| ==> (rs[k] in given <==> k < n)
    ensures FirstOutside(rs, given) == if n < |rs| then Some(rs[n]) else None
    decreases |rs|
  {
    if n > 0 {
      assert forall k :: 0 <= k < |rs| - 1 ==> rs[1..][k] == rs[k + 1];
      FirstOutsidePrefix(rs[1..], given, n - 1);
    }
  }

  /** What a handle has given out is where the redistributions of its workstream begin. */
  predicate InOrder(entries: seq<Entry>, h: Handle) {
    h.given <= Targeted(entries, h.workstream)
  }

  /** What it gives out next is the next of them, if there is one. */
  lemma PendingIsNext(entries: seq<Entry>, h: Handle)
    requires EntriesApart(entries) && InOrder(entries, h)
    ensures var all := Targeted(entries, h.workstream);
            Pending(entries, h.workstream, h.given) == if |h.given| < |all| then Some(all[|h.given|]) else None
  {
    var all := Targeted(entries, h.workstream);
    TargetedDistinct(entries, h.workstream);
    FirstOutsidePrefix(all, h.given, |h.given|);
    PendingIsFirstOutside(entries, h.workstream, h.given);
  }

  lemma {:induction false} TargetedGrows(entries: seq<Entry>, more: seq<Entry>, workstream: string)
    ensures Targeted(entries, workstream) <= Targeted(entries + more, workstream)
    decreases |more|
  {
    if more == [] {
      assert entries + more == entries;
    } else {
      var n := |more| - 1;
      TargetedGrows(entries, more[..n], workstream);
      assert (entries + more)[..|entries + more| - 1] == entries + more[..n];
    }
  }

  // ----- Every run -----

  ghost predicate HandlesInv(s: State) {
    GrantsApart(s) && forall h <- s.handles :: InOrder(s.entries, h)
  }

  lemma StepGrows(limits: Limits, s: State, e: Event)
    ensures s.entries <= Step(limits, s, e).entries
  {
    hide CancelFirst, CancelAt, Reserved, Recorded, CommitUsage, MayRedistribute, Pending;
  }

  lemma GrownKeepsOrder(entries: seq<Entry>, grown: seq<Entry>, h: Handle)
    requires entries <= grown && InOrder(entries, h)
    ensures InOrder(grown, h)
  {
    hide Targeted;
    assert grown == entries + grown[|entries|..];
    TargetedGrows(entries, grown[|entries|..], h.workstream);
  }

  lemma GiftKeepsOrder(limits: Limits, s: State, k: nat, input: int, output: int, refused: bool)
    requires HandlesInv(s) && k < |s.handles|
    ensures var t := HandleReserved(limits, s, k, input, output, refused);
            t.entries == s.entries && |t.handles| == |s.handles| && forall h <- t.handles :: InOrder(s.entries, h)
  {
    hide GrantsApart, Targeted, Pending, Reserved;
    ApartEntries(s);
    assert s.handles[k] in s.handles;
    PendingIsNext(s.entries, s.handles[k]);
  }

  /** The ledger only grows, and a handle only goes on to the next redistribution. */
  lemma StepHandles(limits: Limits, s: State, e: Event)
    requires Inv(s) && HandlesInv(s)
    ensures HandlesInv(Step(limits, s, e))
  {
    StepGrantsApart(limits, s, e);
    StepGrows(limits, s, e);
    var t := Step(limits, s, e);
    if e.HandleReserve? && e.handle < |s.handles| {
      GiftKeepsOrder(limits, s, e.handle, e.input, e.output, e.refused);
    } else {
      hide GrantsApart, InOrder, CancelFirst, CancelAt, Reserved, Recorded, CommitUsage, MayRedistribute, Pending, Inv;
      forall h | h in t.handles
        ensures InOrder(t.entries, h)
      {
        if h in s.handles {
          GrownKeepsOrder(s.entries, t.entries, h);
        } else {
          NewHandleInOrder(t.entries, h);
        }
      }
    }
  }

  lemma NewHandleInOrder(entries: seq<Entry>, h: Handle)
    requires h.given == []
    ensures InOrder(entries, h)
  {
  }

  lemma ApartEntries(s: State)
    requires GrantsApart(s)
    ensures EntriesApart(s.entries)
  {
  }

  lemma {:induction false} RunHandles(limits: Limits, s: State, events: seq<Event>)
    requires Inv(s) && HandlesInv(s)
    ensures HandlesInv(Run(limits, s, events))
    decreases |events|
  {
    hide Inv, HandlesInv, Step;
    if events != [] {
      StepInv(limits, s, events[0]);
      StepHandles(limits, s, events[0]);
      RunHandles(limits, Step(limits, s, events[0]), events[1..]);
    }
  }

  /** After any events, every handle has given out redistributions of its workstream in the order they were recorded,
      leaving none out and none of them twice. */
  lemma GivenInOrderOnce(limits: Limits, events: seq<Event>, k: nat)
    requires k < |Run(limits, INITIAL, events).handles|
    ensures var s := Run(limits, INITIAL, events);
            s.handles[k].given <= Targeted(s.entries, s.handles[k].workstream) && Distinct(s.handles[k].given)
  {
    hide Run, Targeted;
    InitialInv();
    RunHandles(limits, INITIAL, events);
    var s := Run(limits, INITIAL, events);
    ApartEntries(s);
    assert s.handles[k] in s.handles;
    TargetedDistinct(s.entries, s.handles[k].workstream);
  }

  /** After any events, two handles have given out a reservation in common if and only if they are of one workstream
      and both have given out something. */
  lemma SharedIff(limits: Limits, events: seq<Event>, j: nat, k: nat)
    requires j < k < |Run(limits, INITIAL, events).handles|
    ensures var s := Run(limits, INITIAL, events);
            var a, b := s.handles[j], s.handles[k];
            (exists r :: r in a.given && r in b.given) <==>
              a.workstream == b.workstream && a.given != [] && b.given != []
  {
    hide Run, Targeted, Pending;
    InitialInv();
    RunHandles(limits, INITIAL, events);
    var s := Run(limits, INITIAL, events);
    var a, b := s.handles[j], s.handles[k];
    ApartEntries(s);
    assert a in s.handles && b in s.handles;
    if a.workstream == b.workstream && a.given != [] && b.given != [] {
      assert a.given[0] == b.given[0];
      assert a.given[0] in a.given && a.given[0] in b.given;
    }
    if r: nat :| r in a.given && r in b.given {
      TargetedDistinct(s.entries, a.workstream);
      TargetedDistinct(s.entries, b.workstream);
      assert GrantedTo(s.entries, a.workstream, r) && GrantedTo(s.entries, b.workstream, r);
    }
  }

  /** What a handle gives out next has been given out by another if and only if that one is of its workstream and
      has given out more. */
  lemma NextIsSharedIff(s: State, j: nat, k: nat)
    requires HandlesInv(s) && j < |s.handles| && k < |s.handles|
    ensures var a, b := s.handles[j], s.handles[k];
            var next := Pending(s.entries, a.workstream, a.given);
            next.Some? && next.value in b.given <==> a.workstream == b.workstream && |a.given| < |b.given|
  {
    hide Targeted, Pending;
    var a, b := s.handles[j], s.handles[k];
    ApartEntries(s);
    assert a in s.handles && b in s.handles;
    PendingIsNext(s.entries, a);
    TargetedDistinct(s.entries, a.workstream);
    TargetedDistinct(s.entries, b.workstream);
    var all := Targeted(s.entries, a.workstream);
    if |a.given| < |all| && all[|a.given|] in b.given {
      var r := all[|a.given|];
      assert r in Targeted(s.entries, b.workstream) && r in all;
      assert GrantedTo(s.entries, a.workstream, r) && GrantedTo(s.entries, b.workstream, r);
      assert a.workstream == b.workstream;
      var i :| 0 <= i < |b.given| && b.given[i] == r;
      assert all[i] == r;
    }
    if a.workstream == b.workstream && |a.given| < |b.given| {
      assert all[|a.given|] == b.given[|a.given|];
    }
  }

  /** A handle does not look at what has become of a reservation: it gives out one that has been cancelled. */
  lemma GivesOutCancelled(limits: Limits, s: State, k: nat, input: int, output: int)
    requires k < |s.handles| && Pending(s.entries, s.handles[k].workstream, s.handles[k].given).Some?
    ensures var r := Pending(s.entries, s.handles[k].workstream, s.handles[k].given).value;
            var t := Step(limits, Step(limits, s, CancelOne(r)), HandleReserve(k, input, output, false));
            t.handles[k].given == s.handles[k].given + [r] && !IsOpen(t.budget, r)
  {
  }
}
