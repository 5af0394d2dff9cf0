/** The theorems about whole runs of a session, and exactly when a call can be handed a reply that
    is not its own. */
module SessionRuns {
  import opened Bytes
  import opened Tags
  import opened Session
  import opened SessionSafety

  // ----- runs -----

  ghost predicate Sound(st: State, limit: nat)
  {
    && OnePlace(st) && Booked(st.c) && Owned(st.c) && BackendGuarded(st)
    && (limit > 0 ==> SlotsCounted(st.s, limit))
  }

  lemma StepSound(st: State, a: Action, limit: nat)
    requires Enabled(st, a, limit) && Sound(st, limit)
    ensures Sound(Next(st, a, limit), limit)
  {
    hide Next, Enabled, OnePlace, Booked, Owned, BackendGuarded, SlotsCounted;
    StepOnePlace(st, a, limit);
    StepBooked(st, a, limit);
    StepOwned(st, a, limit);
    StepBackendGuarded(st, a, limit);
    if limit > 0 {
      StepSlotsCounted(st, a, limit);
    }
  }

  /** Every run, whatever its interleaving: requests are in one place at a time; no send on a reply
      channel blocks or panics and none is closed twice; the semaphore counts exactly the handlers
      that hold a slot, at most the limit; and only handlers that were started reach the backend. */
  lemma {:induction false} RunsAreSound(acts: seq<Action>, limit: nat)
    requires Run(acts, limit).Some?
    ensures Sound(Run(acts, limit).value, limit)
  {
    hide Next, Enabled;
    if acts != [] {
      var m := |acts| - 1;
      RunsAreSound(acts[..m], limit);
      StepSound(Run(acts[..m], limit).value, acts[m], limit);
    } else {
      assert SlotHolders(START.s) == {};
    }
  }

  /** Every prefix of a run is a run. */
  lemma {:induction false} PrefixRuns(acts: seq<Action>, n: nat, limit: nat)
    requires Run(acts, limit).Some? && n <= |acts|
    ensures Run(acts[..n], limit).Some?
  {
    hide Next, Enabled;
    if n < |acts| {
      var m := |acts| - 1;
      PrefixRuns(acts[..m], n, limit);
      assert acts[..m][..n] == acts[..n];
    } else {
      assert acts[..n] == acts;
    }
  }

  lemma RunSnoc(acts: seq<Action>, a: Action, limit: nat)
    requires Run(acts, limit).Some? && Enabled(Run(acts, limit).value, a, limit)
    ensures Run(acts + [a], limit) == Some(Next(Run(acts, limit).value, a, limit))
  {
    hide Next, Enabled;
    assert (acts + [a])[..|acts|] == acts;
  }

  /** Each action of a run was possible where it was taken. */
  lemma StepOfRun(acts: seq<Action>, n: nat, limit: nat)
    requires Run(acts, limit).Some? && n < |acts|
    ensures Run(acts[..n], limit).Some? && Enabled(Run(acts[..n], limit).value, acts[n], limit)
  {
    hide Next, Enabled;
    PrefixRuns(acts, n + 1, limit);
    assert acts[..n + 1][..n] == acts[..n];
  }

  // ----- every call gets the reply to its own request -----

  /** Whenever the run allocates a tag, the tag is not that of an abandoned request that is still to
      be written or answered. */
  ghost predicate TagsFresh(acts: seq<Action>, limit: nat)
  {
    forall n :: 0 <= n < |acts| && acts[n].Register? && Run(acts[..n], limit).Some?
      ==> FreshTag(Run(acts[..n], limit).value)
  }

  lemma {:induction false} RunUnambiguous(acts: seq<Action>, limit: nat)
    requires Run(acts, limit).Some? && TagsFresh(acts, limit)
    ensures TagsUnambiguous(Run(acts, limit).value) && Matched(Run(acts, limit).value.c)
  {
    hide Next, Enabled, FreshTag, Booked, OnePlace, Live;
    if acts != [] {
      var m := |acts| - 1;
      forall n | 0 <= n < m && acts[..m][n].Register? && Run(acts[..m][..n], limit).Some?
        ensures FreshTag(Run(acts[..m][..n], limit).value)
      {
        assert acts[..m][..n] == acts[..n];
      }
      RunUnambiguous(acts[..m], limit);
      RunsAreSound(acts[..m], limit);
      StepTagsUnambiguous(Run(acts[..m], limit).value, acts[m], limit);
      StepMatched(Run(acts[..m], limit).value, acts[m], limit);
    }
  }

  /** In every interleaving of callers, reader, out-of-order handlers and cancellations, a call that
      returns a message returns the reply to its own request, provided tags are fresh. */
  lemma RepliesMatch(acts: seq<Action>, limit: nat, r: Rid, of: Rid)
    requires Run(acts, limit).Some? && TagsFresh(acts, limit)
    requires Is(Run(acts, limit).value.c, r, Returned(Got(of)))
    ensures of == r
  {
    RunUnambiguous(acts, limit);
  }

  lemma {:induction false} RunUncancelled(acts: seq<Action>, limit: nat)
    requires Run(acts, limit).Some? && forall i :: 0 <= i < |acts| ==> !acts[i].Cancel?
    ensures Uncancelled(Run(acts, limit).value.c) && HeldByOwner(Run(acts, limit).value)
  {
    hide Next, Enabled, Booked, OnePlace, Live;
    if acts != [] {
      var m := |acts| - 1;
      RunUncancelled(acts[..m], limit);
      RunsAreSound(acts[..m], limit);
      StepUncancelled(Run(acts[..m], limit).value, acts[m], limit);
      StepHeldByOwner(Run(acts[..m], limit).value, acts[m], limit);
    }
  }

  /** With no cancellation there is nothing to assume: tags are always fresh. */
  lemma FreshWithoutCancel(acts: seq<Action>, limit: nat)
    requires Run(acts, limit).Some? && forall i :: 0 <= i < |acts| ==> !acts[i].Cancel?
    ensures TagsFresh(acts, limit)
  {
    hide Next, Live;
    forall n | 0 <= n < |acts| && acts[n].Register? && Run(acts[..n], limit).Some?
      ensures FreshTag(Run(acts[..n], limit).value)
    {
      RunUncancelled(acts[..n], limit);
      StepOfRun(acts, n, limit);
    }
  }

  lemma RepliesMatchWithoutCancel(acts: seq<Action>, limit: nat, r: Rid, of: Rid)
    requires Run(acts, limit).Some? && forall i :: 0 <= i < |acts| ==> !acts[i].Cancel?
    requires Is(Run(acts, limit).value.c, r, Returned(Got(of)))
    ensures of == r
  {
    FreshWithoutCancel(acts, limit);
    RepliesMatch(acts, limit, r, of);
  }

  /** Whenever a tag is allocated, the counter has not gone a full cycle since any abandoned request
      that is still to be written or answered got its own. */
  ghost predicate AbandonedWithinACycle(acts: seq<Action>, limit: nat)
  {
    forall n :: 0 <= n < |acts| && acts[n].Register? && Run(acts[..n], limit).Some?
      ==> RecentlyAbandoned(Run(acts[..n], limit).value)
  }

  ghost predicate RecentlyAbandoned(st: State)
  {
    NextCounter(st.c).Some? ==>
      forall r :: 0 <= r < |st.c.calls| && Live(st, r) && !OwnPending(st.c, r)
        ==> NextCounter(st.c).value < st.c.calls[r].at + TAG_SPACE
  }

  /** So a call that returns a message returns the reply to its own request, as long as the counter
      never goes a full cycle while an abandoned request's reply is owed. */
  lemma RepliesMatchWithinACycle(acts: seq<Action>, limit: nat, r: Rid, of: Rid)
    requires Run(acts, limit).Some? && AbandonedWithinACycle(acts, limit)
    requires Is(Run(acts, limit).value.c, r, Returned(Got(of)))
    ensures of == r
  {
    hide Next, Enabled, Live, Probe, TagAt, OwnPending;
    forall n | 0 <= n < |acts| && acts[n].Register? && Run(acts[..n], limit).Some?
      ensures FreshTag(Run(acts[..n], limit).value)
    {
      RunsAreSound(acts[..n], limit);
      if NextCounter(Run(acts[..n], limit).value.c).Some? {
        FreshWithinACycle(Run(acts[..n], limit).value);
      }
    }
    RepliesMatch(acts, limit, r, of);
  }

  // ----- nobody waits for ever -----

  /** No step of the run removes another call's tag. */
  ghost predicate OwnForgets(acts: seq<Action>, limit: nat)
  {
    forall n :: 0 <= n < |acts| && Run(acts[..n], limit).Some?
      ==> ForgetsItsOwn(Run(acts[..n], limit).value.c, acts[n])
  }

  lemma {:induction false} RunPendingActive(acts: seq<Action>, limit: nat)
    requires Run(acts, limit).Some?
    ensures PendingActive(Run(acts, limit).value.c)
  {
    hide Next, Enabled, Booked, OnePlace, Owned;
    if acts != [] {
      var m := |acts| - 1;
      RunPendingActive(acts[..m], limit);
      RunsAreSound(acts[..m], limit);
      StepPendingActive(Run(acts[..m], limit).value, acts[m], limit);
    }
  }

  lemma {:induction false} RunNoLostWaiter(acts: seq<Action>, limit: nat)
    requires Run(acts, limit).Some? && OwnForgets(acts, limit)
    ensures NoLostWaiter(Run(acts, limit).value.c)
  {
    hide Next, Enabled, Booked, OnePlace, Owned, ForgetsItsOwn;
    if acts != [] {
      var m := |acts| - 1;
      forall n | 0 <= n < m && Run(acts[..m][..n], limit).Some?
        ensures ForgetsItsOwn(Run(acts[..m][..n], limit).value.c, acts[..m][n])
      {
        assert acts[..m][..n] == acts[..n];
      }
      RunNoLostWaiter(acts[..m], limit);
      RunsAreSound(acts[..m], limit);
      StepNoLostWaiter(Run(acts[..m], limit).value, acts[m], limit);
    }
  }

  /** No call is ever lost during a run: at every point each call that is under way and has received
      nothing is still expected by the table, the reader or the closer. */
  ghost predicate NeverLost(acts: seq<Action>, limit: nat)
  {
    forall n: nat :: n <= |acts| && Run(acts[..n], limit).Some? ==> NoLostWaiter(Run(acts[..n], limit).value.c)
  }

  /** That is so exactly when no step removes another call's tag. */
  lemma NeverLostIffOwnForgets(acts: seq<Action>, limit: nat)
    requires Run(acts, limit).Some?
    ensures NeverLost(acts, limit) <==> OwnForgets(acts, limit)
  {
    hide Run, NoLostWaiter, ForgetsItsOwn;
    if OwnForgets(acts, limit) {
      forall n: nat | n <= |acts| && Run(acts[..n], limit).Some?
        ensures NoLostWaiter(Run(acts[..n], limit).value.c)
      {
        forall k | 0 <= k < n && Run(acts[..n][..k], limit).Some?
          ensures ForgetsItsOwn(Run(acts[..n][..k], limit).value.c, acts[..n][k])
        {
          assert acts[..n][..k] == acts[..k];
        }
        RunNoLostWaiter(acts[..n], limit);
      }
    } else {
      var n :| 0 <= n < |acts| && Run(acts[..n], limit).Some?
               && !ForgetsItsOwn(Run(acts[..n], limit).value.c, acts[n]);
      LostAfterwards(acts, n, limit);
    }
  }

  lemma LostAfterwards(acts: seq<Action>, n: nat, limit: nat)
    requires Run(acts, limit).Some? && n < |acts| && Run(acts[..n], limit).Some?
    requires !ForgetsItsOwn(Run(acts[..n], limit).value.c, acts[n])
    ensures Run(acts[..n + 1], limit).Some? && !NoLostWaiter(Run(acts[..n + 1], limit).value.c)
  {
    hide Next, Enabled, Booked, Owned, OnePlace, ForgetsItsOwn;
    PrefixRuns(acts, n + 1, limit);
    assert acts[..n + 1][..n] == acts[..n];
    RunsAreSound(acts[..n], limit);
    RunPendingActive(acts[..n], limit);
    var victim := ForeignForgetLoses(Run(acts[..n], limit).value, acts[n], limit);
    assert Lost(Run(acts[..n + 1], limit).value.c, victim);
  }

  /** Once the connection is closed and its closer and reader are done, the table is empty and no tag
      can be allocated again; and if no step removed another call's tag, every call that has not
      returned has something to receive. */
  lemma ClosedMeansAnswered(acts: seq<Action>, limit: nat, kind: Kind)
    requires Run(acts, limit).Some?
    requires var c := Run(acts, limit).value.c; c.closed && c.closing == {} && !c.reader.Delivering?
    ensures var st := Run(acts, limit).value;
            && st.c.pending == map[] && !Enabled(st, Register(kind), limit)
            && (OwnForgets(acts, limit) ==>
                  forall r :: 0 <= r < |st.c.calls| && !st.c.calls[r].phase.Returned? ==> st.c.calls[r].chan != Empty)
  {
    RunsAreSound(acts, limit);
    if OwnForgets(acts, limit) {
      RunNoLostWaiter(acts, limit);
    }
  }

  /** Nothing is cancelled: then every forget is the call's own. */
  lemma OwnForgetsWithoutCancel(acts: seq<Action>, limit: nat)
    requires Run(acts, limit).Some? && forall i :: 0 <= i < |acts| ==> !acts[i].Cancel?
    ensures OwnForgets(acts, limit)
  {
    hide Next, Live, HeldByOwner, Uncancelled;
    forall n | 0 <= n < |acts| && Run(acts[..n], limit).Some?
      ensures ForgetsItsOwn(Run(acts[..n], limit).value.c, acts[n])
    {
      RunUncancelled(acts[..n], limit);
      RunsAreSound(acts[..n], limit);
      StepOfRun(acts, n, limit);
      OwnersForgetTheirOwn(Run(acts[..n], limit).value, acts[n], limit);
    }
  }

  lemma OwnersForgetTheirOwn(st: State, a: Action, limit: nat)
    requires Enabled(st, a, limit) && Booked(st.c) && Uncancelled(st.c) && HeldByOwner(st)
    ensures ForgetsItsOwn(st.c, a)
  {
    hide TagAt, Probe;
    if a.WriteFails? && st.c.calls[a.r].tag in st.c.pending {
      assert Live(st, a.r);
    }
  }

  /** The counter never goes a full cycle during one call. */
  ghost predicate CallsWithinACycle(acts: seq<Action>, limit: nat)
  {
    forall n :: 0 <= n < |acts| && acts[n].Register? && Run(acts[..n], limit).Some?
      ==> CounterBehindCalls(Run(acts[..n], limit).value.c)
  }

  lemma {:induction false} RunUnshared(acts: seq<Action>, limit: nat)
    requires Run(acts, limit).Some? && CallsWithinACycle(acts, limit)
    ensures Unshared(Run(acts, limit).value.c)
  {
    hide Next, Enabled, Booked, OnePlace, Owned, CounterBehindCalls;
    if acts != [] {
      var m := |acts| - 1;
      forall n | 0 <= n < m && acts[..m][n].Register? && Run(acts[..m][..n], limit).Some?
        ensures CounterBehindCalls(Run(acts[..m][..n], limit).value.c)
      {
        assert acts[..m][..n] == acts[..n];
      }
      RunUnshared(acts[..m], limit);
      RunsAreSound(acts[..m], limit);
      StepUnshared(Run(acts[..m], limit).value, acts[m], limit);
    }
  }

  /** No call outlives a full cycle of the counter: the same. */
  lemma OwnForgetsWithinACycle(acts: seq<Action>, limit: nat)
    requires Run(acts, limit).Some? && CallsWithinACycle(acts, limit)
    ensures OwnForgets(acts, limit)
  {
    hide Next, Enabled, Run, CounterBehindCalls, Unshared, ForgetsItsOwn;
    forall n | 0 <= n < |acts| && Run(acts[..n], limit).Some?
      ensures ForgetsItsOwn(Run(acts[..n], limit).value.c, acts[n])
    {
      forall k | 0 <= k < n && acts[..n][k].Register? && Run(acts[..n][..k], limit).Some?
        ensures CounterBehindCalls(Run(acts[..n][..k], limit).value.c)
      {
        assert acts[..n][..k] == acts[..k];
      }
      RunUnshared(acts[..n], limit);
      StepOfRun(acts, n, limit);
      UnsharedForgetsItsOwn(Run(acts[..n], limit).value, acts[n], limit);
    }
  }

  lemma UnsharedForgetsItsOwn(st: State, a: Action, limit: nat)
    requires Enabled(st, a, limit) && Unshared(st.c)
    ensures ForgetsItsOwn(st.c, a)
  {
    hide TagAt, Probe;
  }

  lemma ClosedForGood(st: State, a: Action, limit: nat)
    requires Enabled(st, a, limit) && Booked(st.c) && st.c.closed
    ensures Next(st, a, limit).c.closed && Next(st, a, limit).c.pending == map[]
  {
    hide Probe, TagAt;
  }

  // ----- flushes on a full server -----

  /** A handler of a flush at some stage, holding no slot. */
  predicate FlushAt(st: State, r: Rid, g: Stage)
  {
    r < |st.c.calls| && st.c.calls[r].kind.Flush? && AtStage(st.s, r, g) && !st.s.handlers[r].slot
  }

  lemma FlushStarts(st: State, r: Rid, limit: nat)
    requires FlushAt(st, r, Arrived)
    ensures Enabled(st, Start(r), limit) && FlushAt(Next(st, Start(r), limit), r, Running)
  {
  }

  lemma FlushReplies(st: State, r: Rid, limit: nat)
    requires FlushAt(st, r, Running)
    ensures Enabled(st, Reply(r), limit)
    ensures FlushAt(Next(st, Reply(r), limit), r, Replied) && r in Next(st, Reply(r), limit).s.answered
  {
    hide AfterFlush;
    FlushOnlyCancels(st.c, WithStage(st.s, r, Replied), r);
  }

  lemma FlushFinishes(st: State, r: Rid, limit: nat)
    requires FlushAt(st, r, Replied)
    ensures Enabled(st, Finish(r), limit) && AtStage(Next(st, Finish(r), limit).s, r, Finished)
    ensures Next(st, Finish(r), limit).s.answered == st.s.answered
  {
  }

  /** No step of a flush takes a slot or gives one back. */
  lemma FlushKeepsSlots(st: State, a: Action, r: Rid, g: Stage, limit: nat)
    requires Sound(st, limit) && Enabled(st, a, limit) && FlushAt(st, r, g)
    requires a == Start(r) || a == Reply(r) || a == Finish(r)
    requires forall x :: AtStage(st.s, x, Arrived) ==> !st.s.handlers[x].slot
    ensures var st' := Next(st, a, limit);
            && Sound(st', limit) && st'.s.tokens == st.s.tokens && SlotHolders(st'.s) == SlotHolders(st.s)
            && forall x :: AtStage(st'.s, x, Arrived) ==> !st'.s.handlers[x].slot
  {
    hide Next, Enabled, OnePlace, Owned, Booked, BackendGuarded, SlotsCounted;
    StepSound(st, a, limit);
    TokenChange(st, a, limit);
    var s, s' := st.s, Next(st, a, limit).s;
    forall x
      ensures HoldsSlot(s', x) <==> HoldsSlot(s, x)
      ensures AtStage(s', x, Arrived) ==> !s'.handlers[x].slot
    {
      SlotChange(st, a, limit, x);
    }
  }

  /** In every reachable state, however full the server, a Tflush that has arrived can be started,
      answered and finished at once, and takes no slot meanwhile. */
  lemma FlushNeverWaits(acts: seq<Action>, limit: nat, r: Rid)
    requires Run(acts, limit).Some?
    requires var st := Run(acts, limit).value;
             r < |st.c.calls| && st.c.calls[r].kind.Flush? && AtStage(st.s, r, Arrived)
    ensures Run(acts + [Start(r)] + [Reply(r)] + [Finish(r)], limit).Some?
    ensures var s, after := Run(acts, limit).value.s, Run(acts + [Start(r)] + [Reply(r)] + [Finish(r)], limit).value.s;
            && after.tokens == s.tokens && SlotHolders(after) == SlotHolders(s)
            && r in after.answered && AtStage(after, r, Finished)
  {
    hide Next, Enabled, Run, SlotHolders, AtStage, Sound;
    var st := Run(acts, limit).value;
    RunsAreSound(acts, limit);
    ArrivedHoldNoSlot(acts, limit);
    FlushStarts(st, r, limit);
    FlushKeepsSlots(st, Start(r), r, Arrived, limit);
    RunSnoc(acts, Start(r), limit);
    var s1 := Next(st, Start(r), limit);
    FlushReplies(s1, r, limit);
    FlushKeepsSlots(s1, Reply(r), r, Running, limit);
    RunSnoc(acts + [Start(r)], Reply(r), limit);
    var s2 := Next(s1, Reply(r), limit);
    FlushFinishes(s2, r, limit);
    FlushKeepsSlots(s2, Finish(r), r, Replied, limit);
    RunSnoc(acts + [Start(r)] + [Reply(r)], Finish(r), limit);
  }

  lemma {:induction false} ArrivedHoldNoSlot(acts: seq<Action>, limit: nat)
    requires Run(acts, limit).Some?
    ensures forall x :: AtStage(Run(acts, limit).value.s, x, Arrived) ==> !Run(acts, limit).value.s.handlers[x].slot
  {
    hide Next, Enabled;
    if acts != [] {
      var m := |acts| - 1;
      var st := Run(acts[..m], limit).value;
      ArrivedHoldNoSlot(acts[..m], limit);
      RunsAreSound(acts[..m], limit);
      forall x
        ensures AtStage(Next(st, acts[m], limit).s, x, Arrived) ==> !Next(st, acts[m], limit).s.handlers[x].slot
      {
        SlotChange(st, acts[m], limit, x);
      }
    }
  }
}
