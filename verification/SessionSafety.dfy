/** What holds in every reachable state of a session. */
module SessionSafety {
  import opened Bytes
  import opened Tags
  import opened Session

  // ----- channels: at most one message or one close, and no send ever blocks or panics -----

  predicate InDelivery(c: Client, r: Rid)
  {
    c.reader.Delivering? && c.reader.to == r
  }

  /** The right to write to a channel is in one place: the pending table, the reader that took it
      from there, or the closer that took it from there; and while it is, the channel is empty. */
  ghost predicate Owned(c: Client)
  {
    && !c.broken
    && (forall t :: t in c.pending ==>
          c.pending[t] < |c.calls| && c.calls[c.pending[t]].chan == Empty
          && c.pending[t] !in c.closing && !InDelivery(c, c.pending[t]))
    && (forall r :: r in c.closing ==> r < |c.calls| && c.calls[r].chan == Empty && !InDelivery(c, r))
    && (c.reader.Delivering? ==> c.reader.to < |c.calls| && c.calls[c.reader.to].chan == Empty)
    && (c.closing != {} || c.reader.Stopped? ==> c.closed)
  }

  lemma StepOwned(st: State, a: Action, limit: nat)
    requires Enabled(st, a, limit) && Booked(st.c) && Owned(st.c)
    ensures Owned(Next(st, a, limit).c)
  {
    hide TagAt, Probe, Next, Enabled, Owned, Booked;
    if OnServer(a) {
      ServerKeepsClient(st, a, limit);
    } else if a.Register? {
      RegisterOwned(st, a.kind, limit);
    } else if a.ReadFrame? || a.Send? || a.CloseOne? || a.CloseConnection? || a.ReaderFails? {
      ChannelOwned(st, a, limit);
    } else {
      CallerOwned(st, a, limit);
    }
  }

  lemma RegisterOwned(st: State, kind: Kind, limit: nat)
    requires Enabled(st, Register(kind), limit) && Booked(st.c) && Owned(st.c)
    ensures Owned(Next(st, Register(kind), limit).c)
  {
    hide TagAt, Probe;
    ProbeFindsFirst(st.c.pending.Keys, st.c.ctr, PROBES);
  }

  /** The steps of the reader and of the closer. */
  lemma ChannelOwned(st: State, a: Action, limit: nat)
    requires Enabled(st, a, limit) && Booked(st.c) && Owned(st.c)
    requires a.ReadFrame? || a.Send? || a.CloseOne? || a.CloseConnection? || a.ReaderFails?
    ensures Owned(Next(st, a, limit).c)
  {
    hide TagAt, Probe;
  }

  /** The steps of the callers. */
  lemma CallerOwned(st: State, a: Action, limit: nat)
    requires Enabled(st, a, limit) && Booked(st.c) && Owned(st.c) && !OnServer(a) && !a.Register?
    requires !(a.ReadFrame? || a.Send? || a.CloseOne? || a.CloseConnection? || a.ReaderFails?)
    ensures Owned(Next(st, a, limit).c)
  {
    hide TagAt, Probe, CloseLock;
  }

  /** A channel that has received something, or been closed, never changes again. */
  lemma SettledForGood(st: State, a: Action, limit: nat, r: Rid)
    requires Enabled(st, a, limit) && Booked(st.c) && Owned(st.c)
    requires r < |st.c.calls| && st.c.calls[r].chan != Empty
    ensures var c' := Next(st, a, limit).c;
            r < |c'.calls| && c'.calls[r].chan == st.c.calls[r].chan
  {
    hide TagAt, Probe;
  }

  // ----- replies: each call gets the reply to its own request -----

  ghost predicate Matched(c: Client)
  {
    && (forall r, x :: 0 <= r < |c.calls| && c.calls[r].chan == Full(x) ==> x == r)
    && (forall r, x :: 0 <= r < |c.calls| && c.calls[r].phase == Returned(Got(x)) ==> x == r)
    && (c.reader.Delivering? ==> c.reader.to == c.reader.of)
  }

  /** r's tag is, or may yet be, on the wire in a frame that asks or answers. */
  predicate Live(st: State, r: Rid)
  {
    Owed(st, r) || Is(st.c, r, Registered)
  }

  ghost predicate TagsUnambiguous(st: State)
  {
    forall r :: 0 <= r < |st.c.calls| && Live(st, r) && st.c.calls[r].tag in st.c.pending
      ==> st.c.pending[st.c.calls[r].tag] == r
  }

  /** The tag about to be allocated is not the tag of a live request that has lost its place in the
      table, which is to say of one that was abandoned. */
  ghost predicate FreshTag(st: State)
  {
    NextCounter(st.c).Some? ==>
      forall r :: 0 <= r < |st.c.calls| && Live(st, r) && !OwnPending(st.c, r)
        ==> st.c.calls[r].tag != TagAt(NextCounter(st.c).value)
  }

  /** So it is when the counter has not gone a full cycle since any such request got its tag. */
  lemma FreshWithinACycle(st: State)
    requires Booked(st.c) && NextCounter(st.c).Some?
    requires forall r :: 0 <= r < |st.c.calls| && Live(st, r) && !OwnPending(st.c, r)
               ==> NextCounter(st.c).value < st.c.calls[r].at + TAG_SPACE
    ensures FreshTag(st)
  {
    hide TagAt, Probe;
    ProbeFindsFirst(st.c.pending.Keys, st.c.ctr, PROBES);
    forall r | 0 <= r < |st.c.calls| && Live(st, r) && !OwnPending(st.c, r)
      ensures st.c.calls[r].tag != TagAt(NextCounter(st.c).value)
    {
      WithinACycle(st.c.calls[r].at, NextCounter(st.c).value);
    }
  }

  lemma StepTagsUnambiguous(st: State, a: Action, limit: nat)
    requires Enabled(st, a, limit) && Booked(st.c) && OnePlace(st) && TagsUnambiguous(st)
    requires a.Register? ==> FreshTag(st)
    ensures TagsUnambiguous(Next(st, a, limit))
  {
    hide TagAt, Probe, Distinct;
    var st' := Next(st, a, limit);
    if a.Register? {
      RegisterUnambiguous(st, a.kind, limit);
    } else {
      forall r | 0 <= r < |st'.c.calls| && Live(st', r) && st'.c.calls[r].tag in st'.c.pending
        ensures st'.c.pending[st'.c.calls[r].tag] == r
      {
        StaysLive(st, a, limit, r);
        assert st'.c.pending.Keys <= st.c.pending.Keys;
      }
    }
  }

  /** Nothing becomes live except by registering. */
  lemma StaysLive(st: State, a: Action, limit: nat, r: Rid)
    requires Enabled(st, a, limit) && OnePlace(st) && !a.Register?
    requires r < |Next(st, a, limit).c.calls| && Live(Next(st, a, limit), r)
    ensures r < |st.c.calls| && Live(st, r) && Next(st, a, limit).c.calls[r].tag == st.c.calls[r].tag
  {
    hide TagAt, Probe, Distinct, AfterFlush;
    if a.Reply? || a.ReplyLost? {
      FlushOnlyCancels(st.c, WithStage(st.s, a.r, Replied), a.r);
    }
  }

  lemma RegisterUnambiguous(st: State, kind: Kind, limit: nat)
    requires Enabled(st, Register(kind), limit) && Booked(st.c) && OnePlace(st) && TagsUnambiguous(st)
    requires FreshTag(st)
    ensures TagsUnambiguous(Next(st, Register(kind), limit))
  {
    hide TagAt, Probe;
    var c, st' := st.c, Next(st, Register(kind), limit);
    var at, n := NextCounter(c).value, |c.calls|;
    ProbeFindsFirst(c.pending.Keys, c.ctr, PROBES);
    forall r | 0 <= r < |st'.c.calls| && Live(st', r) && st'.c.calls[r].tag in st'.c.pending
      ensures st'.c.pending[st'.c.calls[r].tag] == r
    {
      if r < n {
        assert Live(st, r);
      }
    }
  }

  lemma StepMatched(st: State, a: Action, limit: nat)
    requires Enabled(st, a, limit) && Booked(st.c) && Matched(st.c) && TagsUnambiguous(st)
    ensures Matched(Next(st, a, limit).c)
  {
    hide TagAt, Probe;
    if OnServer(a) {
      ServerKeepsClient(st, a, limit);
    } else if a.ReadFrame? {
      assert Live(st, st.down[0]);
    }
  }

  // ----- waiters: whoever waits will be answered or failed -----

  /** Every call that has not returned and has received nothing is still expected by someone: the
      table, the reader, or the closer. */
  ghost predicate NoLostWaiter(c: Client)
  {
    forall r :: 0 <= r < |c.calls| && !c.calls[r].phase.Returned? && c.calls[r].chan == Empty
      ==> OwnPending(c, r) || r in c.closing || InDelivery(c, r)
  }

  /** A step that removes a tag from the table (forget) finds it absent, or bound to the call that
      removes it. The table is keyed by tag alone, so nothing in the code makes sure of that. */
  predicate ForgetsItsOwn(c: Client, a: Action)
  {
    a.Forget? || a.WriteFails? ==>
      a.r < |c.calls| && (c.calls[a.r].tag in c.pending ==> c.pending[c.calls[a.r].tag] == a.r)
  }

  /** Only calls that are under way have a place in the table. */
  ghost predicate PendingActive(c: Client)
  {
    forall t :: t in c.pending ==> c.pending[t] < |c.calls| && !c.calls[c.pending[t]].phase.Returned?
  }

  lemma StepPendingActive(st: State, a: Action, limit: nat)
    requires Enabled(st, a, limit) && Booked(st.c) && Owned(st.c) && PendingActive(st.c)
    ensures PendingActive(Next(st, a, limit).c)
  {
    hide TagAt, Probe;
    if a.Register? {
      ProbeFindsFirst(st.c.pending.Keys, st.c.ctr, PROBES);
    }
  }

  lemma StepNoLostWaiter(st: State, a: Action, limit: nat)
    requires Enabled(st, a, limit) && Booked(st.c) && Owned(st.c) && NoLostWaiter(st.c) && ForgetsItsOwn(st.c, a)
    ensures NoLostWaiter(Next(st, a, limit).c)
  {
    hide TagAt, Probe;
    var c, c' := st.c, Next(st, a, limit).c;
    if OnServer(a) {
      ServerKeepsClient(st, a, limit);
    } else if a.Register? {
      ProbeFindsFirst(c.pending.Keys, c.ctr, PROBES);
    }
    forall r | 0 <= r < |c'.calls| && !c'.calls[r].phase.Returned? && c'.calls[r].chan == Empty
      ensures OwnPending(c', r) || r in c'.closing || InDelivery(c', r)
    {
      if r < |c.calls| {
        assert !c.calls[r].phase.Returned? && c.calls[r].chan == Empty;
        assert c'.calls[r].tag == c.calls[r].tag;
      }
    }
  }

  /** A call under way that no one will ever answer or fail. */
  predicate Lost(c: Client, r: Rid)
  {
    && r < |c.calls| && !c.calls[r].phase.Returned? && c.calls[r].chan == Empty
    && !OwnPending(c, r) && r !in c.closing && !InDelivery(c, r)
  }

  /** Removing another call's tag loses that call. */
  lemma ForeignForgetLoses(st: State, a: Action, limit: nat) returns (victim: Rid)
    requires Enabled(st, a, limit) && Booked(st.c) && Owned(st.c) && PendingActive(st.c) && !ForgetsItsOwn(st.c, a)
    ensures victim < |st.c.calls| && victim != a.r && OwnPending(st.c, victim)
    ensures Lost(Next(st, a, limit).c, victim)
  {
    hide TagAt, Probe;
    victim := st.c.pending[st.c.calls[a.r].tag];
  }

  /** A lost call stays lost, closing the connection included, until it gives up itself. */
  lemma LostStaysLost(st: State, a: Action, limit: nat, r: Rid)
    requires Enabled(st, a, limit) && Booked(st.c) && Owned(st.c) && Lost(st.c, r)
    requires a != Forget(r) && a != WriteFails(r)
    ensures Lost(Next(st, a, limit).c, r)
  {
    hide TagAt, Probe;
  }

  /** The counter has not gone a full cycle since any call that has not returned got its tag. */
  ghost predicate CounterBehindCalls(c: Client)
  {
    NextCounter(c).Some? ==>
      forall r :: 0 <= r < |c.calls| && !c.calls[r].phase.Returned? && !OwnPending(c, r)
        ==> NextCounter(c).value < c.calls[r].at + TAG_SPACE
  }

  /** No call that has not returned shares its tag with another one waiting. */
  ghost predicate Unshared(c: Client)
  {
    forall r :: 0 <= r < |c.calls| && !c.calls[r].phase.Returned? && c.calls[r].tag in c.pending
      ==> c.pending[c.calls[r].tag] == r
  }

  lemma StepUnshared(st: State, a: Action, limit: nat)
    requires Enabled(st, a, limit) && Booked(st.c) && Unshared(st.c)
    requires a.Register? ==> CounterBehindCalls(st.c)
    ensures Unshared(Next(st, a, limit).c)
  {
    hide TagAt, Probe;
    var c, c' := st.c, Next(st, a, limit).c;
    if a.Register? {
      ProbeFindsFirst(c.pending.Keys, c.ctr, PROBES);
      var at := NextCounter(c).value;
      forall r | 0 <= r < |c.calls| && !c.calls[r].phase.Returned? && c.calls[r].tag == TagAt(at)
        ensures false
      {
        WithinACycle(c.calls[r].at, at);
      }
    }
  }

  // ----- without cancellation -----

  ghost predicate Uncancelled(c: Client)
  {
    forall r :: 0 <= r < |c.calls| ==>
      && c.calls[r].kind == Request && c.calls[r].phase != Cancelled && c.calls[r].phase != Unflushed
      && !c.calls[r].phase.Flushing?
  }

  /** While the connection is open every live request holds its own place in the table. */
  ghost predicate HeldByOwner(st: State)
  {
    !st.c.closed ==> forall r :: 0 <= r < |st.c.calls| && Live(st, r) ==> OwnPending(st.c, r)
  }

  lemma StepUncancelled(st: State, a: Action, limit: nat)
    requires Enabled(st, a, limit) && !a.Cancel? && Uncancelled(st.c)
    ensures Uncancelled(Next(st, a, limit).c)
  {
    hide TagAt, Probe;
  }

  lemma StepHeldByOwner(st: State, a: Action, limit: nat)
    requires Enabled(st, a, limit) && Booked(st.c) && OnePlace(st) && Uncancelled(st.c) && HeldByOwner(st)
    ensures HeldByOwner(Next(st, a, limit))
  {
    hide TagAt, Probe;
    var st' := Next(st, a, limit);
    if a.Register? {
      RegisterHeld(st, a.kind, limit);
    } else if !st'.c.closed {
      forall r | 0 <= r < |st'.c.calls| && Live(st', r)
        ensures OwnPending(st'.c, r)
      {
        StaysLive(st, a, limit, r);
        assert OwnPending(st.c, r);
        if a.ReadFrame? {
          DistinctTail(st.down);
          assert OwnPending(st.c, st.down[0]);
        } else if a.WriteFails? {
          assert Live(st, a.r);
        }
      }
    }
  }

  lemma RegisterHeld(st: State, kind: Kind, limit: nat)
    requires Enabled(st, Register(kind), limit) && Booked(st.c) && OnePlace(st) && HeldByOwner(st)
    requires Uncancelled(st.c)
    ensures HeldByOwner(Next(st, Register(kind), limit))
  {
    hide TagAt, Probe;
    var c, st' := st.c, Next(st, Register(kind), limit);
    ProbeFindsFirst(c.pending.Keys, c.ctr, PROBES);
    forall r | 0 <= r < |st'.c.calls| && Live(st', r)
      ensures OwnPending(st'.c, r)
    {
      if r < |c.calls| {
        assert Live(st, r);
        assert OwnPending(c, r);
      }
    }
  }

  // ----- the server's slots -----

  predicate HoldsSlot(s: Server, r: Rid)
  {
    r in s.handlers && s.handlers[r].slot && (AtStage(s, r, Running) || AtStage(s, r, Replied))
  }

  function SlotHolders(s: Server): set<Rid>
  {
    set r | r in s.handlers && HoldsSlot(s, r)
  }

  /** The semaphore counts exactly the handlers holding a slot, never more than the limit. */
  ghost predicate SlotsCounted(s: Server, limit: nat)
  {
    && s.tokens == |SlotHolders(s)|
    && s.tokens <= limit
    && (forall r :: AtStage(s, r, Arrived) ==> !s.handlers[r].slot)
  }

  /** Only a handler that was started reaches the backend, and only one that ran answers. */
  ghost predicate BackendGuarded(st: State)
  {
    && (forall r :: AtStage(st.s, r, Arrived) || AtStage(st.s, r, Dropped) ==> r !in st.s.ran && r !in st.s.answered)
    && (forall r :: r in st.s.ran ==> r in st.s.handlers)
    && (forall r :: AtStage(st.s, r, Running) ==> r in st.s.ran)
    && (forall r :: r in st.s.answered ==> r in st.s.ran)
    && (forall r :: r in st.down ==> r in st.s.answered)
  }

  lemma StepBackendGuarded(st: State, a: Action, limit: nat)
    requires Enabled(st, a, limit) && OnePlace(st) && BackendGuarded(st)
    ensures BackendGuarded(Next(st, a, limit))
  {
    hide TagAt, Probe;
    if a.Reply? || a.ReplyLost? {
      AnswerBackendGuarded(st, a, limit);
    } else if OnServer(a) {
      ServerBackendGuarded(st, a, limit);
    } else if a.ReadFrame? {
      DistinctTail(st.down);
    }
  }

  lemma ServerBackendGuarded(st: State, a: Action, limit: nat)
    requires Enabled(st, a, limit) && OnePlace(st) && BackendGuarded(st)
    requires OnServer(a) && !a.Reply? && !a.ReplyLost?
    ensures BackendGuarded(Next(st, a, limit))
  {
    if a.Accept? {
      AcceptGuarded(st, limit);
    } else {
      hide TagAt, Probe, AfterFlush, Distinct, OnePlace;
    }
  }

  lemma AcceptGuarded(st: State, limit: nat)
    requires Enabled(st, Accept, limit) && OnePlace(st) && BackendGuarded(st)
    ensures BackendGuarded(Next(st, Accept, limit))
  {
    hide TagAt, Probe, AfterFlush, Distinct;
    assert st.up[0] in st.up;
  }

  lemma AnsweredHandlers(c: Client, s: Server, r: Rid)
    requires r < |c.calls| && r in s.handlers
    ensures var s' := Answered(c, s, r);
            && s'.ran == s.ran && s'.answered == s.answered + {r} && s'.handlers.Keys == s.handlers.Keys
            && s'.handlers[r].stage == Replied
            && forall x :: x in s.handlers && x != r ==> s'.handlers[x].stage == s.handlers[x].stage
  {
    hide AfterFlush;
    FlushOnlyCancels(c, WithStage(s, r, Replied), r);
  }

  lemma AnswerBackendGuarded(st: State, a: Action, limit: nat)
    requires Enabled(st, a, limit) && BackendGuarded(st) && (a.Reply? || a.ReplyLost?)
    ensures BackendGuarded(Next(st, a, limit))
  {
    hide TagAt, Probe, Answered;
    AnsweredHandlers(st.c, st.s, a.r);
  }

  predicate TakesSlot(st: State, a: Action, limit: nat)
  {
    a.Start? && a.r < |st.c.calls| && limit > 0 && !st.c.calls[a.r].kind.Flush?
  }

  predicate GivesSlot(st: State, a: Action)
  {
    a.Finish? && a.r in st.s.handlers && st.s.handlers[a.r].slot
  }

  /** A slot is taken only by starting and given back only by finishing. */
  lemma SlotChange(st: State, a: Action, limit: nat, x: Rid)
    requires Enabled(st, a, limit) && OnePlace(st)
    requires AtStage(st.s, x, Arrived) ==> !st.s.handlers[x].slot
    ensures HoldsSlot(Next(st, a, limit).s, x)
        <==> if TakesSlot(st, a, limit) && a.r == x then true
             else if GivesSlot(st, a) && a.r == x then false
             else HoldsSlot(st.s, x)
    ensures AtStage(Next(st, a, limit).s, x, Arrived) ==> !Next(st, a, limit).s.handlers[x].slot
  {
    if OnServer(a) {
      ServerSlotChange(st, a, limit, x);
    } else {
      ClientKeepsServer(st, a, limit);
    }
  }

  lemma ClientKeepsServer(st: State, a: Action, limit: nat)
    requires Enabled(st, a, limit) && !OnServer(a)
    ensures Next(st, a, limit).s == st.s
  {
    hide TagAt, Probe, CloseLock, AfterRegister, WithPhase, WithChan;
  }

  lemma ServerSlotChange(st: State, a: Action, limit: nat, x: Rid)
    requires Enabled(st, a, limit) && OnePlace(st) && OnServer(a)
    requires AtStage(st.s, x, Arrived) ==> !st.s.handlers[x].slot
    ensures HoldsSlot(Next(st, a, limit).s, x)
        <==> if TakesSlot(st, a, limit) && a.r == x then true
             else if GivesSlot(st, a) && a.r == x then false
             else HoldsSlot(st.s, x)
    ensures AtStage(Next(st, a, limit).s, x, Arrived) ==> !Next(st, a, limit).s.handlers[x].slot
  {
    hide TagAt, Probe, Distinct, AfterFlush;
    if a.Reply? || a.ReplyLost? {
      FlushOnlyCancels(st.c, WithStage(st.s, a.r, Replied), a.r);
    }
  }

  lemma TokenChange(st: State, a: Action, limit: nat)
    requires Enabled(st, a, limit)
    ensures TakesSlot(st, a, limit) ==>
              AtStage(st.s, a.r, Arrived) && st.s.tokens < limit && Next(st, a, limit).s.tokens == st.s.tokens + 1
    ensures GivesSlot(st, a) ==>
              AtStage(st.s, a.r, Replied) && Next(st, a, limit).s.tokens == st.s.tokens - 1
    ensures !TakesSlot(st, a, limit) && !GivesSlot(st, a) ==> Next(st, a, limit).s.tokens == st.s.tokens
  {
    hide TagAt, Probe;
  }

  lemma StepSlotsCounted(st: State, a: Action, limit: nat)
    requires Enabled(st, a, limit) && OnePlace(st) && SlotsCounted(st.s, limit)
    ensures SlotsCounted(Next(st, a, limit).s, limit)
  {
    hide Next, Enabled, OnePlace;
    var s, s' := st.s, Next(st, a, limit).s;
    TokenChange(st, a, limit);
    forall x
      ensures HoldsSlot(s', x) <==>
                if TakesSlot(st, a, limit) && a.r == x then true
                else if GivesSlot(st, a) && a.r == x then false
                else HoldsSlot(s, x)
      ensures AtStage(s', x, Arrived) ==> !s'.handlers[x].slot
    {
      SlotChange(st, a, limit, x);
    }
    if TakesSlot(st, a, limit) {
      assert SlotHolders(s') == SlotHolders(s) + {a.r} && a.r !in SlotHolders(s);
    } else if GivesSlot(st, a) {
      assert SlotHolders(s') == SlotHolders(s) - {a.r} && a.r in SlotHolders(s);
    } else {
      assert SlotHolders(s') == SlotHolders(s);
    }
  }

  /** A request dropped before it got a slot stays dropped: no later step runs or answers it. */
  lemma DroppedForGood(st: State, a: Action, limit: nat, r: Rid)
    requires Enabled(st, a, limit) && OnePlace(st) && AtStage(st.s, r, Dropped)
    ensures AtStage(Next(st, a, limit).s, r, Dropped)
  {
    hide TagAt, Probe;
  }
}
