/** Fresh tags are needed: a call can return another call's reply exactly when its tag was that of an
    abandoned request still under way; and that is reachable, because a flush is answered before the
    request it flushes. Forgetting one's own tag is needed too: a run that loses a waiting call is
    reachable in the same way. */
module SessionWrap {
  import opened Bytes
  import opened Tags
  import opened Session
  import opened SessionSafety
  import opened SessionRuns

  function RunFrom(st: State, acts: seq<Action>, limit: nat): Option<State>
    decreases |acts|
  {
    if acts == [] then Some(st)
    else if !Enabled(st, acts[0], limit) then None
    else RunFrom(Next(st, acts[0], limit), acts[1..], limit)
  }

  /** Call b holds tag t in the table, while another request r with tag t is still under way. */
  ghost predicate Ambiguous(st: State, b: Rid, r: Rid, limit: nat)
  {
    && Sound(st, limit)
    && Is(st.c, b, Registered) && OwnPending(st.c, b)
    && r != b && r < |st.c.calls| && Live(st, r) && st.c.calls[r].tag == st.c.calls[b].tag
    && !st.c.closed
  }

  function Rank(st: State, r: Rid): nat
  {
    if Is(st.c, r, Registered) then 4
    else if r in st.up then 3
    else if AtStage(st.s, r, Arrived) then 2
    else if AtStage(st.s, r, Running) then 1
    else 0
  }

  function Backlog(st: State): nat
  {
    |st.up| + 2 * |st.down| + if st.c.reader.Delivering? then 1 else 0
  }

  /** The call has returned a reply to some other request. */
  predicate Misled(c: Client, b: Rid)
  {
    && b < |c.calls| && c.calls[b].phase.Returned?
    && c.calls[b].phase.r.Got? && c.calls[b].phase.r.of != b
  }

  /** The reader has matched another request's reply to call b. */
  ghost predicate Taken(st: State, b: Rid, limit: nat)
  {
    && Sound(st, limit) && Is(st.c, b, Registered)
    && st.c.reader.Delivering? && st.c.reader.to == b && st.c.reader.of != b
  }

  /** Then b goes on to return that reply. */
  lemma TakenMisleads(st: State, b: Rid, limit: nat) returns (acts: seq<Action>)
    requires Taken(st, b, limit)
    ensures RunFrom(st, acts, limit).Some? && Misled(RunFrom(st, acts, limit).value.c, b)
  {
    hide TagAt, Probe, RunFrom;
    var s1 := Next(st, Send, limit);
    assert s1.c.calls[b].chan == Full(st.c.reader.of);
    var s2 := Next(s1, Write(b), limit);
    var s3 := Next(s2, Receive(b), limit);
    RunTwo(st, Send, Write(b), limit);
    RunOne(s2, Receive(b), limit);
    RunFromConcat(st, [Send, Write(b)], [Receive(b)], limit);
    acts := [Send, Write(b)] + [Receive(b)];
  }

  /** From an ambiguous state some continuation makes b return the reply to another request. */
  lemma {:induction false} MismatchFollows(st: State, b: Rid, r: Rid, limit: nat) returns (acts: seq<Action>)
    requires Ambiguous(st, b, r, limit)
    ensures RunFrom(st, acts, limit).Some? && Misled(RunFrom(st, acts, limit).value.c, b)
    decreases Rank(st, r), Backlog(st)
  {
    hide Next, Enabled, Sound, NextMove, Live, Misled, Taken;
    if Rank(st, r) == 2 && !Enabled(st, Start(r), limit) {
      var more, st1 := FreeASlot(st, b, r, limit);
      var rest := MismatchFollows(Next(st1, Start(r), limit), b, r, limit);
      RunFromConcat(st, more, [Start(r)] + rest, limit);
      return more + ([Start(r)] + rest);
    }
    var a := NextMove(st, r);
    StartIsBlocked(st, r, limit);
    StepAmbiguous(st, b, r, limit, a);
    var st' := Next(st, a, limit);
    var rest;
    if Taken(st', b, limit) {
      rest := TakenMisleads(st', b, limit);
    } else {
      rest := MismatchFollows(st', b, r, limit);
    }
    return [a] + rest;
  }

  lemma StartIsBlocked(st: State, r: Rid, limit: nat)
    ensures NextMove(st, r) == Start(r) ==> Rank(st, r) == 2
  {
  }

  /** The action that brings r's answer one step nearer the reader. */
  function NextMove(st: State, r: Rid): Action
  {
    if Is(st.c, r, Registered) then Write(r)
    else if r in st.up then Accept
    else if AtStage(st.s, r, Arrived) then Start(r)
    else if AtStage(st.s, r, Running) then Reply(r)
    else if st.c.reader.Delivering? then Send
    else ReadFrame
  }

  /** Either b's place has been taken, or the ambiguity persists and r's answer is nearer. */
  ghost predicate Nearer(st: State, st': State, b: Rid, r: Rid, limit: nat)
  {
    || Taken(st', b, limit)
    || (&& Ambiguous(st', b, r, limit)
        && (Rank(st', r) < Rank(st, r) || (Rank(st', r) == Rank(st, r) && Backlog(st') < Backlog(st))))
  }

  lemma StepAmbiguous(st: State, b: Rid, r: Rid, limit: nat, a: Action)
    requires Ambiguous(st, b, r, limit)
    requires a == NextMove(st, r) && (a == Start(r) ==> Enabled(st, a, limit))
    ensures Enabled(st, a, limit) && Nearer(st, Next(st, a, limit), b, r, limit)
  {
    hide TagAt, Probe, Sound;
    match a {
      case Accept => AcceptNearer(st, b, r, limit);
      case ReadFrame => ReadNearer(st, b, r, limit);
      case Send => SendNearer(st, b, r, limit);
      case Reply(_) => ReplyNearer(st, b, r, limit);
      case Write(_) => StepSound(st, a, limit);
      case Start(_) => StepSound(st, a, limit);
    }
  }

  lemma AcceptNearer(st: State, b: Rid, r: Rid, limit: nat)
    requires Ambiguous(st, b, r, limit) && r in st.up
    ensures Enabled(st, Accept, limit) && Nearer(st, Next(st, Accept, limit), b, r, limit)
  {
    hide TagAt, Probe;
    DistinctTail(st.up);
    assert st.up[0] in st.up;
    StepSound(st, Accept, limit);
  }

  lemma ReplyNearer(st: State, b: Rid, r: Rid, limit: nat)
    requires Ambiguous(st, b, r, limit) && r !in st.up && AtStage(st.s, r, Running)
    ensures Enabled(st, Reply(r), limit) && Nearer(st, Next(st, Reply(r), limit), b, r, limit)
  {
    hide TagAt, Probe, AfterFlush, Booked, Owned, BackendGuarded, SlotsCounted, Distinct;
    FlushOnlyCancels(st.c, WithStage(st.s, r, Replied), r);
    StepSound(st, Reply(r), limit);
    assert r in Next(st, Reply(r), limit).down;
  }

  lemma SendNearer(st: State, b: Rid, r: Rid, limit: nat)
    requires Ambiguous(st, b, r, limit) && Rank(st, r) == 0 && st.c.reader.Delivering?
    ensures Enabled(st, Send, limit) && Nearer(st, Next(st, Send, limit), b, r, limit)
  {
    hide TagAt, Probe;
    StepSound(st, Send, limit);
  }

  lemma ReadNearer(st: State, b: Rid, r: Rid, limit: nat)
    requires Ambiguous(st, b, r, limit) && Rank(st, r) == 0 && !st.c.reader.Delivering?
    ensures Enabled(st, ReadFrame, limit) && Nearer(st, Next(st, ReadFrame, limit), b, r, limit)
  {
    hide TagAt, Probe;
    assert st.down[0] in st.down;
    DistinctTail(st.down);
    StepSound(st, ReadFrame, limit);
  }

  lemma RunFromConcat(st: State, xs: seq<Action>, ys: seq<Action>, limit: nat)
    requires RunFrom(st, xs, limit).Some?
    ensures RunFrom(st, xs + ys, limit) == RunFrom(RunFrom(st, xs, limit).value, ys, limit)
    decreases |xs|
  {
    hide Next, Enabled;
    if xs == [] {
      assert xs + ys == ys;
    } else {
      assert (xs + ys)[0] == xs[0] && (xs + ys)[1..] == xs[1..] + ys;
      RunFromConcat(Next(st, xs[0], limit), xs[1..], ys, limit);
    }
  }

  /** A full server can always finish a handler that holds a slot. */
  lemma FreeASlot(st: State, b: Rid, r: Rid, limit: nat) returns (acts: seq<Action>, st': State)
    requires Ambiguous(st, b, r, limit) && Rank(st, r) == 2 && !Enabled(st, Start(r), limit)
    ensures RunFrom(st, acts, limit) == Some(st')
    ensures Enabled(st', Start(r), limit)
    ensures Ambiguous(Next(st', Start(r), limit), b, r, limit) && Rank(Next(st', Start(r), limit), r) == 1
  {
    hide TagAt, Probe, RunFrom, Booked, Owned, BackendGuarded, Distinct;
    assert |SlotHolders(st.s)| > 0;
    var h :| h in SlotHolders(st.s);
    if AtStage(st.s, h, Running) {
      var mid := GiveUpReply(st, b, r, limit, h);
      st' := FinishHolder(mid, b, r, limit, h);
      acts := [ReplyLost(h), Finish(h)];
      RunTwo(st, ReplyLost(h), Finish(h), limit);
    } else {
      st' := FinishHolder(st, b, r, limit, h);
      acts := [Finish(h)];
      RunOne(st, Finish(h), limit);
    }
    StepSound(st', Start(r), limit);
  }

  ghost predicate WaitsForSlot(st: State, b: Rid, r: Rid, limit: nat)
  {
    Ambiguous(st, b, r, limit) && Rank(st, r) == 2 && limit > 0 && !st.c.calls[r].kind.Flush?
  }

  lemma GiveUpReply(st: State, b: Rid, r: Rid, limit: nat, h: Rid) returns (st': State)
    requires WaitsForSlot(st, b, r, limit) && h in SlotHolders(st.s) && AtStage(st.s, h, Running)
    ensures Enabled(st, ReplyLost(h), limit) && st' == Next(st, ReplyLost(h), limit)
    ensures WaitsForSlot(st', b, r, limit) && h in SlotHolders(st'.s) && AtStage(st'.s, h, Replied)
  {
    hide TagAt, Probe, AfterFlush, Booked, Owned, BackendGuarded, Distinct;
    st' := Next(st, ReplyLost(h), limit);
    StepSound(st, ReplyLost(h), limit);
    FlushOnlyCancels(st.c, WithStage(st.s, h, Replied), h);
  }

  lemma FinishHolder(st: State, b: Rid, r: Rid, limit: nat, h: Rid) returns (st': State)
    requires WaitsForSlot(st, b, r, limit) && h in SlotHolders(st.s) && AtStage(st.s, h, Replied)
    ensures Enabled(st, Finish(h), limit) && st' == Next(st, Finish(h), limit)
    ensures WaitsForSlot(st', b, r, limit) && st'.s.tokens < limit
  {
    hide TagAt, Probe, Booked, Owned, BackendGuarded, Distinct;
    st' := Next(st, Finish(h), limit);
    StepSound(st, Finish(h), limit);
  }

  lemma RunOne(st: State, a: Action, limit: nat)
    requires Enabled(st, a, limit)
    ensures RunFrom(st, [a], limit) == Some(Next(st, a, limit))
  {
    hide Next, Enabled;
    assert RunFrom(Next(st, a, limit), [a][1..], limit) == Some(Next(st, a, limit));
  }

  lemma RunTwo(st: State, a: Action, a': Action, limit: nat)
    requires Enabled(st, a, limit) && Enabled(Next(st, a, limit), a', limit)
    ensures RunFrom(st, [a, a'], limit) == Some(Next(Next(st, a, limit), a', limit))
  {
    hide Next, Enabled;
    RunOne(Next(st, a, limit), a', limit);
    assert [a, a'][1..] == [a'];
  }

  /** No request but b's own can be answered to b. */
  ghost predicate OwnRepliesOnly(st: State, b: Rid)
  {
    && b < |st.c.calls| && !Misled(st.c, b)
    && (OwnPending(st.c, b) ==>
          forall r :: 0 <= r < |st.c.calls| && Live(st, r) && st.c.calls[r].tag == st.c.calls[b].tag ==> r == b)
    && (st.c.calls[b].chan.Full? ==> st.c.calls[b].chan.of == b)
    && (st.c.reader.Delivering? && st.c.reader.to == b ==> st.c.reader.of == b)
  }

  lemma StepOwnRepliesOnly(st: State, a: Action, limit: nat, b: Rid)
    requires Enabled(st, a, limit) && Sound(st, limit) && OwnRepliesOnly(st, b)
    ensures OwnRepliesOnly(Next(st, a, limit), b)
  {
    hide Next, Enabled, Sound, OwnRepliesOnly;
    if a.Register? {
      RegisterOwnReplies(st, a.kind, limit, b);
    } else if OnServer(a) {
      ServerOwnReplies(st, a, limit, b);
    } else {
      ClientOwnReplies(st, a, limit, b);
    }
  }

  lemma RegisterOwnReplies(st: State, kind: Kind, limit: nat, b: Rid)
    requires Enabled(st, Register(kind), limit) && Sound(st, limit) && OwnRepliesOnly(st, b)
    ensures OwnRepliesOnly(Next(st, Register(kind), limit), b)
  {
    hide TagAt, Probe, BackendGuarded, SlotsCounted, Distinct;
    ProbeFindsFirst(st.c.pending.Keys, st.c.ctr, PROBES);
  }

  lemma ServerOwnReplies(st: State, a: Action, limit: nat, b: Rid)
    requires Enabled(st, a, limit) && OnServer(a) && Sound(st, limit) && OwnRepliesOnly(st, b)
    ensures OwnRepliesOnly(Next(st, a, limit), b)
  {
    hide Next, Enabled, BackendGuarded, SlotsCounted, Distinct, Live;
    ServerKeepsClient(st, a, limit);
    forall r | 0 <= r < |st.c.calls| && Live(Next(st, a, limit), r)
      ensures Live(st, r)
    {
      StaysLive(st, a, limit, r);
    }
  }

  lemma ClientOwnReplies(st: State, a: Action, limit: nat, b: Rid)
    requires Enabled(st, a, limit) && !OnServer(a) && !a.Register? && Sound(st, limit) && OwnRepliesOnly(st, b)
    ensures OwnRepliesOnly(Next(st, a, limit), b)
  {
    hide TagAt, Probe, BackendGuarded, SlotsCounted, Distinct;
    CallsKept(st, a, limit);
    var st' := Next(st, a, limit);
    forall r | 0 <= r < |st'.c.calls| && Live(st', r) && st'.c.calls[r].tag == st'.c.calls[b].tag && OwnPending(st'.c, b)
      ensures r == b
    {
      StaysLive(st, a, limit, r);
    }
    if a.ReadFrame? {
      assert Live(st, st.down[0]);
    }
  }

  lemma {:induction false} RunOwnRepliesOnly(st: State, acts: seq<Action>, limit: nat, b: Rid)
    requires Sound(st, limit) && OwnRepliesOnly(st, b) && RunFrom(st, acts, limit).Some?
    ensures OwnRepliesOnly(RunFrom(st, acts, limit).value, b)
    decreases |acts|
  {
    hide Next, Enabled, Sound, OwnRepliesOnly;
    if acts != [] {
      StepSound(st, acts[0], limit);
      StepOwnRepliesOnly(st, acts[0], limit, b);
      RunOwnRepliesOnly(Next(st, acts[0], limit), acts[1..], limit, b);
    }
  }

  /** The call about to be registered can ever return another request's reply. */
  ghost predicate CanBeMisled(st: State, kind: Kind, limit: nat)
    requires Enabled(st, Register(kind), limit)
  {
    exists more: seq<Action> ::
      var end := RunFrom(Next(st, Register(kind), limit), more, limit);
      end.Some? && Misled(end.value.c, |st.c.calls|)
  }

  /** That is so, in any reachable state, exactly when the tag it gets is not fresh. */
  lemma MisledIffStale(acts: seq<Action>, kind: Kind, limit: nat)
    requires Run(acts, limit).Some? && Enabled(Run(acts, limit).value, Register(kind), limit)
    ensures CanBeMisled(Run(acts, limit).value, kind, limit) <==> !FreshTag(Run(acts, limit).value)
  {
    hide Next, Enabled, FreshTag, RunFrom, Sound, OwnRepliesOnly, Run;
    var st := Run(acts, limit).value;
    RunsAreSound(acts, limit);
    StepSound(st, Register(kind), limit);
    if FreshTag(st) {
      FreshRegistersOwn(st, kind, limit);
      forall more: seq<Action> | RunFrom(Next(st, Register(kind), limit), more, limit).Some?
        ensures !Misled(RunFrom(Next(st, Register(kind), limit), more, limit).value.c, |st.c.calls|)
      {
        RunOwnRepliesOnly(Next(st, Register(kind), limit), more, limit, |st.c.calls|);
        NotMisled(RunFrom(Next(st, Register(kind), limit), more, limit).value, |st.c.calls|);
      }
    } else {
      var more := StaleTagMisleads(acts, kind, limit);
    }
  }

  lemma NotMisled(st: State, b: Rid)
    requires OwnRepliesOnly(st, b)
    ensures !Misled(st.c, b)
  {
  }

  lemma FreshRegistersOwn(st: State, kind: Kind, limit: nat)
    requires Enabled(st, Register(kind), limit) && Sound(st, limit) && FreshTag(st)
    ensures OwnRepliesOnly(Next(st, Register(kind), limit), |st.c.calls|)
  {
    hide TagAt, Probe, BackendGuarded, SlotsCounted, Distinct;
    var c, st', b := st.c, Next(st, Register(kind), limit), |st.c.calls|;
    ProbeFindsFirst(c.pending.Keys, c.ctr, PROBES);
    assert forall r :: 0 <= r < b && Live(st', r) ==> Live(st, r);
  }

  lemma StaleTagMisleads(acts: seq<Action>, kind: Kind, limit: nat) returns (more: seq<Action>)
    requires Run(acts, limit).Some? && Enabled(Run(acts, limit).value, Register(kind), limit)
    requires !FreshTag(Run(acts, limit).value)
    ensures var st := Run(acts, limit).value;
            var end := RunFrom(Next(st, Register(kind), limit), more, limit);
            end.Some? && Misled(end.value.c, |st.c.calls|)
  {
    hide TagAt, Probe, Next, Enabled, Run, Live, Sound;
    var st := Run(acts, limit).value;
    RunsAreSound(acts, limit);
    StepSound(st, Register(kind), limit);
    var r :| 0 <= r < |st.c.calls| && Live(st, r) && !OwnPending(st.c, r)
             && st.c.calls[r].tag == TagAt(NextCounter(st.c).value);
    StaleIsAmbiguous(st, kind, limit, r);
    more := MismatchFollows(Next(st, Register(kind), limit), |st.c.calls|, r, limit);
  }

  lemma StaleIsAmbiguous(st: State, kind: Kind, limit: nat, r: Rid)
    requires Enabled(st, Register(kind), limit) && Sound(Next(st, Register(kind), limit), limit)
    requires r < |st.c.calls| && Live(st, r) && st.c.calls[r].tag == TagAt(NextCounter(st.c).value)
    ensures Ambiguous(Next(st, Register(kind), limit), |st.c.calls|, r, limit)
  {
    hide TagAt, Probe, Sound;
  }

  // ----- such a state is reachable -----

  lemma {:induction false} RunOn(acts: seq<Action>, more: seq<Action>, limit: nat)
    requires Run(acts, limit).Some? && RunFrom(Run(acts, limit).value, more, limit).Some?
    ensures Run(acts + more, limit) == RunFrom(Run(acts, limit).value, more, limit)
    decreases |more|
  {
    hide Next, Enabled;
    if more == [] {
      assert acts + more == acts;
    } else {
      RunSnoc(acts, more[0], limit);
      RunOn(acts + [more[0]], more[1..], limit);
      assert acts + [more[0]] + more[1..] == acts + more;
    }
  }

  /** n tags have been allocated in all, the first of them to call 0, and no one has a place in the
      table. */
  ghost predicate Cleared(st: State, n: nat)
  {
    var c := st.c;
    && !c.closed && c.closing == {} && c.pending == map[] && c.reader == Idle && st.up == [] && st.down == []
    && c.ctr == n && |c.calls| == n > 0 && c.calls[0].tag == 0
  }

  /** Call 0 was flushed and abandoned while the server is still working on it. */
  ghost predicate Abandoned(st: State, n: nat)
  {
    Cleared(st, n) && AtStage(st.s, 0, Running)
  }

  /** Request 0 cancelled, and its flush, request 1, written behind it. */
  const FLUSHED: State :=
    State(Client([Call(0, 0, Request, Flushing(1), Empty), Call(1, 1, Flush(0), Waiting, Empty)],
                 map[0 := 0, 1 := 1], 2, false, {}, Idle, false),
          START.s, [0, 1], [])

  /** The server has started both and answered the flush; request 0 is still running. */
  const FLUSH_ANSWERED: State :=
    State(FLUSHED.c,
          Server(map[0 := Handler(Running, false, true), 1 := Handler(Replied, false, false)],
                 map[0 := 0, 1 := 1], 0, {0, 1}, {1}),
          [], [1])

  /** Request 0 written and cancelled. */
  const CANCELLED: State :=
    State(Client([Call(0, 0, Request, Cancelled, Empty)], map[0 := 0], 1, false, {}, Idle, false), START.s, [0], [])

  lemma ReachCancelled() returns (acts: seq<Action>)
    ensures RunFrom(START, acts, 0) == Some(CANCELLED)
  {
    hide RunFrom;
    assert Probe({}, 0, PROBES) == Some(0);
    var s1 := Next(START, Register(Request), 0);
    assert s1 == State(Client([Call(0, 0, Request, Registered, Empty)], map[0 := 0], 1, false, {}, Idle, false),
                       START.s, [], []);
    hide Probe;
    var s2 := Next(s1, Write(0), 0);
    assert Next(s2, Cancel(0), 0) == CANCELLED;
    acts := [Register(Request), Write(0), Cancel(0)];
    Unroll(START, acts, [s1, s2, CANCELLED]);
  }

  lemma ReachFlushed() returns (acts: seq<Action>)
    ensures RunFrom(CANCELLED, acts, 0) == Some(FLUSHED)
  {
    hide RunFrom;
    assert CANCELLED.c.pending.Keys == {0} && Probe({0}, 1, PROBES) == Some(1);
    var s1 := Next(CANCELLED, Register(Flush(0)), 0);
    assert Next(s1, Write(1), 0) == FLUSHED;
    acts := [Register(Flush(0)), Write(1)];
    RunTwo(CANCELLED, Register(Flush(0)), Write(1), 0);
  }

  /** The server has both, and has started neither. */
  const FLUSH_ACCEPTED: State :=
    State(FLUSHED.c,
          Server(map[0 := Handler(Arrived, false, false), 1 := Handler(Arrived, false, false)],
                 map[0 := 0, 1 := 1], 0, {}, {}),
          [], [])

  lemma ReachFlushAccepted() returns (acts: seq<Action>)
    ensures RunFrom(FLUSHED, acts, 0) == Some(FLUSH_ACCEPTED)
  {
    hide RunFrom, Probe;
    var s1 := Next(FLUSHED, Accept, 0);
    var s2 := Next(s1, Accept, 0);
    assert s2.up == [];
    acts := [Accept, Accept];
    Unroll(FLUSHED, acts, [s1, s2]);
  }

  lemma ReachFlushAnswered() returns (acts: seq<Action>)
    ensures RunFrom(FLUSH_ACCEPTED, acts, 0) == Some(FLUSH_ANSWERED)
  {
    hide RunFrom, Probe;
    var s3 := Next(FLUSH_ACCEPTED, Start(0), 0);
    var s4 := Next(s3, Start(1), 0);
    var s5 := Next(s4, Reply(1), 0);
    assert s5 == FLUSH_ANSWERED;
    acts := [Start(0), Start(1), Reply(1)];
    Unroll(FLUSH_ACCEPTED, acts, [s3, s4, s5]);
  }

  /** The flush returns, and then the abandoned call. */
  lemma ReachAbandoned() returns (acts: seq<Action>)
    ensures RunFrom(FLUSH_ANSWERED, acts, 0).Some?
    ensures Abandoned(RunFrom(FLUSH_ANSWERED, acts, 0).value, 2)
  {
    hide RunFrom, Probe;
    var s1 := Next(FLUSH_ANSWERED, ReadFrame, 0);
    assert s1.c.pending == map[0 := 0];
    var s2 := Next(s1, Send, 0);
    var s3 := Next(s2, Receive(1), 0);
    var s4 := Next(s3, Forget(0), 0);
    assert s4.c.pending == map[];
    acts := [ReadFrame, Send, Receive(1), Forget(0)];
    Unroll(FLUSH_ANSWERED, acts, [s1, s2, s3, s4]);
  }

  lemma AbandonedReachable() returns (acts: seq<Action>)
    ensures Run(acts, 0).Some? && Abandoned(Run(acts, 0).value, 2)
  {
    hide Next, Enabled, Abandoned;
    var a0 := ReachCancelled();
    var a := ReachFlushed();
    var b := ReachFlushAccepted();
    var c := ReachFlushAnswered();
    var d := ReachAbandoned();
    RunFromConcat(START, a0, a, 0);
    RunFromConcat(START, a0 + a, b, 0);
    RunFromConcat(START, a0 + a + b, c, 0);
    RunFromConcat(START, a0 + a + b + c, d, 0);
    RunOn([], a0 + a + b + c + d, 0);
    acts := [] + (a0 + a + b + c + d);
  }

  lemma {:induction false} Unroll(st: State, acts: seq<Action>, states: seq<State>)
    requires |states| == |acts| > 0
    requires Enabled(st, acts[0], 0) && states[0] == Next(st, acts[0], 0)
    requires forall i :: 1 <= i < |acts| ==>
               Enabled(states[i - 1], acts[i], 0) && states[i] == Next(states[i - 1], acts[i], 0)
    ensures RunFrom(st, acts, 0) == Some(states[|acts| - 1])
    decreases |acts|
  {
    hide Next, Enabled;
    if |acts| > 1 {
      Unroll(states[0], acts[1..], states[1..]);
    } else {
      RunOne(st, acts[0], 0);
      assert acts == [acts[0]];
    }
  }

  lemma AllocatesNext(st: State, n: nat)
    requires Cleared(st, n) && TagAt(n) != NO_TAG
    ensures Enabled(st, Register(Request), 0) && NextCounter(st.c) == Some(n)
  {
    assert st.c.pending.Keys == {};
  }

  /** The connection is open and no frame is under way. */
  predicate Quiet(st: State)
  {
    !st.c.closed && st.c.closing == {} && st.c.reader == Idle && st.up == [] && st.down == []
  }

  /** Every call but r, and how far the server is with it, is as it was; no tag was allocated. */
  ghost predicate SameBut(st: State, st': State, r: Rid)
  {
    && st'.c.ctr == st.c.ctr && |st'.c.calls| == |st.c.calls|
    && (forall x :: 0 <= x < |st.c.calls| && x != r ==> st'.c.calls[x] == st.c.calls[x])
    && (forall x :: x in st.s.handlers && x != r ==>
          x in st'.s.handlers && st'.s.handlers[x].stage == st.s.handlers[x].stage)
  }

  predicate OnlyPhase(c: Call, c': Call, p: Phase, ch: Chan)
  {
    c' == c.(phase := p, chan := ch)
  }

  lemma CallStarts(st: State, r: Rid) returns (st': State)
    requires Quiet(st) && Is(st.c, r, Registered)
    ensures RunFrom(st, [Write(r), Accept, Start(r)], 0) == Some(st')
    ensures Quiet(st') && SameBut(st, st', r) && st'.c.pending == st.c.pending
    ensures OnlyPhase(st.c.calls[r], st'.c.calls[r], Waiting, st.c.calls[r].chan)
    ensures r in st'.s.handlers && st'.s.handlers[r] == Handler(Running, false, false)
  {
    hide TagAt, Probe, RunFrom;
    var s1 := Next(st, Write(r), 0);
    assert s1.up == [r];
    var s2 := Next(s1, Accept, 0);
    assert s2.up == [];
    st' := Next(s2, Start(r), 0);
    Unroll(st, [Write(r), Accept, Start(r)], [s1, s2, st']);
  }

  lemma CallAnswered(st: State, r: Rid) returns (st': State)
    requires Quiet(st) && OwnPending(st.c, r) && st.c.calls[r].chan == Empty
    requires r in st.s.handlers && st.s.handlers[r] == Handler(Running, false, false)
    ensures RunFrom(st, [Reply(r), ReadFrame, Send], 0) == Some(st')
    ensures Quiet(st') && SameBut(st, st', r) && st'.c.pending == st.c.pending - {st.c.calls[r].tag}
    ensures OnlyPhase(st.c.calls[r], st'.c.calls[r], st.c.calls[r].phase, Full(r))
    ensures r in st'.s.handlers && st'.s.handlers[r].stage == Replied && !st'.s.handlers[r].slot
  {
    hide TagAt, Probe, RunFrom, AfterFlush;
    FlushOnlyCancels(st.c, WithStage(st.s, r, Replied), r);
    var s1 := Next(st, Reply(r), 0);
    assert s1.down == [r] && s1.c == st.c;
    var s2 := Next(s1, ReadFrame, 0);
    assert s2.down == [];
    st' := Next(s2, Send, 0);
    Unroll(st, [Reply(r), ReadFrame, Send], [s1, s2, st']);
  }

  lemma CallReturns(st: State, r: Rid) returns (st': State)
    requires Quiet(st) && Is(st.c, r, Waiting) && st.c.calls[r].chan == Full(r)
    requires AtStage(st.s, r, Replied) && !st.s.handlers[r].slot
    ensures RunFrom(st, [Receive(r), Finish(r)], 0) == Some(st')
    ensures Quiet(st') && SameBut(st, st', r) && st'.c.pending == st.c.pending
    ensures OnlyPhase(st.c.calls[r], st'.c.calls[r], Returned(Got(r)), Full(r))
  {
    hide TagAt, Probe, RunFrom;
    var s1 := Next(st, Receive(r), 0);
    st' := Next(s1, Finish(r), 0);
    RunTwo(st, Receive(r), Finish(r), 0);
  }

  function Served(r: Rid): seq<Action>
  {
    [Write(r), Accept, Start(r)] + [Reply(r), ReadFrame, Send] + [Receive(r), Finish(r)]
  }

  /** A call with its tag is written, served, answered and returns, which frees the tag. */
  lemma CallCompletes(st: State, r: Rid) returns (st': State)
    requires Quiet(st) && Is(st.c, r, Registered) && OwnPending(st.c, r) && st.c.calls[r].chan == Empty
    ensures RunFrom(st, Served(r), 0) == Some(st')
    ensures Quiet(st') && SameBut(st, st', r) && st'.c.pending == st.c.pending - {st.c.calls[r].tag}
    ensures OnlyPhase(st.c.calls[r], st'.c.calls[r], Returned(Got(r)), Full(r))
  {
    hide RunFrom, Next, Enabled;
    var s1 := CallStarts(st, r);
    var s2 := CallAnswered(s1, r);
    st' := CallReturns(s2, r);
    var a, b, c := [Write(r), Accept, Start(r)], [Reply(r), ReadFrame, Send], [Receive(r), Finish(r)];
    RunFromConcat(st, a, b, 0);
    RunFromConcat(st, a + b, c, 0);
  }

  /** Call 0, and how far the server is with it, are as they were. */
  predicate ZeroKept(st: State, st': State)
    requires |st.c.calls| > 0 && |st'.c.calls| > 0
  {
    && st'.c.calls[0] == st.c.calls[0]
    && (0 in st.s.handlers ==> 0 in st'.s.handlers && st'.s.handlers[0].stage == st.s.handlers[0].stage)
  }

  /** One more call, served and answered, uses up one tag and leaves nothing behind. */
  lemma OneMoreCall(st: State, n: nat) returns (acts: seq<Action>, st': State)
    requires Cleared(st, n) && TagAt(n) != NO_TAG
    ensures Cleared(st', n + 1) && ZeroKept(st, st') && RunFrom(st, acts, 0) == Some(st')
  {
    AllocatesNext(st, n);
    var s1 := Next(st, Register(Request), 0);
    assert s1.c.calls[n] == Call(TagAt(n), n, Request, Registered, Empty);
    assert s1.c.pending == map[TagAt(n) := n];
    RunOne(st, Register(Request), 0);
    hide TagAt, RunFrom, Next, Enabled, Probe;
    st' := CallCompletes(s1, n);
    RunFromConcat(st, [Register(Request)], Served(n), 0);
    acts := [Register(Request)] + Served(n);
  }

  lemma {:induction false} ManyMoreCalls(acts: seq<Action>, n: nat, m: nat) returns (longer: seq<Action>)
    requires Run(acts, 0).Some? && Cleared(Run(acts, 0).value, n)
    requires n <= m <= PROBES
    ensures Run(longer, 0).Some? && Cleared(Run(longer, 0).value, m)
    ensures |Run(longer, 0).value.c.calls| > 0 && |Run(acts, 0).value.c.calls| > 0
    ensures ZeroKept(Run(acts, 0).value, Run(longer, 0).value)
    decreases m - n
  {
    hide Next, Enabled, Run, RunFrom;
    if n == m {
      longer := acts;
    } else {
      var more, st' := OneMoreCall(Run(acts, 0).value, n);
      RunOn(acts, more, 0);
      longer := ManyMoreCalls(acts + more, n + 1, m);
    }
  }

  /** A run in which a call returns another call's reply: one request abandoned by a flush that was
      answered first, then a full cycle of the tag counter, then a new request. */
  lemma MismatchReachable() returns (acts: seq<Action>, r: Rid, of: Rid)
    ensures Run(acts, 0).Some? && Is(Run(acts, 0).value.c, r, Returned(Got(of))) && of != r
  {
    var before := AbandonedReachable();
    var acts' := ManyMoreCalls(before, 2, PROBES);
    var st := Run(acts', 0).value;
    WrapsToZero(st);
    assert Live(st, 0) && !OwnPending(st.c, 0);
    var more := StaleTagMisleads(acts', Request, 0);
    RunSnoc(acts', Register(Request), 0);
    RunOn(acts' + [Register(Request)], more, 0);
    acts := acts' + [Register(Request)] + more;
    r := |st.c.calls|;
    of := Run(acts, 0).value.c.calls[r].phase.r.of;
  }

  lemma WrapsToZero(st: State)
    requires Cleared(st, PROBES)
    ensures Enabled(st, Register(Request), 0) && NextCounter(st.c) == Some(PROBES + 1) && TagAt(PROBES + 1) == 0
  {
    assert Probe({}, PROBES, PROBES) == Probe({}, PROBES + 1, PROBES - 1) == Some(PROBES + 1);
    assert st.c.pending.Keys == {};
  }

  // ----- a lost call is reachable -----

  /** A call that was answered and then cancelled, and has not given up its tag yet. */
  const ANSWERED: Call := Call(0, 0, Request, Cancelled, Full(0))

  lemma ReachAnswered() returns (acts: seq<Action>)
    ensures Run(acts, 0).Some? && Cleared(Run(acts, 0).value, 1) && Run(acts, 0).value.c.calls[0] == ANSWERED
  {
    hide RunFrom;
    assert Probe({}, 0, PROBES) == Some(0);
    var s1 := Next(START, Register(Request), 0);
    assert s1.c.calls == [Call(0, 0, Request, Registered, Empty)] && s1.c.pending == map[0 := 0];
    RunOne(START, Register(Request), 0);
    hide Probe, Next, Enabled;
    var s2 := CallStarts(s1, 0);
    var s3 := CallAnswered(s2, 0);
    var end := Cancels(s3, 0);
    var a, b, c, d := [Register(Request)], [Write(0), Accept, Start(0)], [Reply(0), ReadFrame, Send], [Cancel(0)];
    RunFromConcat(START, a, b, 0);
    RunFromConcat(START, a + b, c, 0);
    RunFromConcat(START, a + b + c, d, 0);
    acts := a + b + c + d;
    RunOn([], acts, 0);
    assert [] + acts == acts;
  }

  lemma Cancels(st: State, r: Rid) returns (end: State)
    requires Is(st.c, r, Waiting) && st.c.calls[r].kind == Request
    ensures RunFrom(st, [Cancel(r)], 0) == Some(end) && end == st.(c := WithPhase(st.c, r, Cancelled))
  {
    hide TagAt, Probe, RunFrom;
    end := Next(st, Cancel(r), 0);
    RunOne(st, Cancel(r), 0);
  }

  /** A run that loses a call: request 0 is answered, which frees its tag, and its caller cancels; the
      counter goes a full cycle before the caller gets to give its tag up; a new call has that tag by
      then, and loses its place. It is left waiting for ever, the connection closed and its closer
      done. */
  lemma LostCallReachable() returns (acts: seq<Action>, victim: Rid)
    ensures Run(acts, 0).Some? && !OwnForgets(acts, 0)
    ensures var c := Run(acts, 0).value.c;
            && Lost(c, victim) && Is(c, victim, Waiting)
            && c.closed && c.closing == {} && !c.reader.Delivering?
  {
    var before := ReachAnswered();
    var acts0 := ManyMoreCalls(before, 1, PROBES);
    var st := Run(acts0, 0).value;
    WrapsToZero(st);
    victim := |st.c.calls|;
    var more, end := LosesCall(st);
    RunOn(acts0, more, 0);
    acts := acts0 + more;
    assert acts[..|acts|] == acts;
    NeverLostIffOwnForgets(acts, 0);
    assert !NoLostWaiter(Run(acts[..|acts|], 0).value.c);
  }

  lemma LosesCall(st: State) returns (acts: seq<Action>, end: State)
    requires Cleared(st, PROBES) && st.c.calls[0] == ANSWERED
    requires NextCounter(st.c) == Some(PROBES + 1) && TagAt(PROBES + 1) == 0
    ensures RunFrom(st, acts, 0) == Some(end) && Lost(end.c, PROBES) && Is(end.c, PROBES, Waiting)
    ensures end.c.closed && end.c.closing == {} && end.c.reader == Idle
  {
    hide Next, Enabled, RunFrom, Lost, Is;
    var first, mid := ForgetsForeign(st);
    var rest;
    rest, end := WaitsOn(mid, PROBES);
    RunFromConcat(st, first, rest, 0);
    acts := first + rest;
  }

  /** The new call and the old one's flush are registered. */
  lemma BothRegistered(st: State) returns (end: State)
    requires Cleared(st, PROBES) && st.c.calls[0] == ANSWERED
    requires NextCounter(st.c) == Some(PROBES + 1) && TagAt(PROBES + 1) == 0
    ensures RunFrom(st, [Register(Request), Register(Flush(0))], 0) == Some(end)
    ensures Quiet(end) && |end.c.calls| == PROBES + 2 && end.c.pending == map[0 := PROBES, 1 := PROBES + 1]
    ensures end.c.calls[0].tag == 0 && end.c.calls[0].phase == Flushing(PROBES + 1)
    ensures end.c.calls[PROBES] == Call(0, PROBES + 1, Request, Registered, Empty)
    ensures end.c.calls[PROBES + 1] == Call(1, PROBES + 2, Flush(0), Registered, Empty)
  {
    assert Probe({0}, PROBES + 2, PROBES) == Some(PROBES + 2) && TagAt(PROBES + 2) == 1;
    hide TagAt, Probe, RunFrom;
    var s1 := Next(st, Register(Request), 0);
    assert s1.c.pending == map[0 := PROBES] && s1.c.ctr == PROBES + 2;
    assert s1.c.pending.Keys == {0};
    end := Next(s1, Register(Flush(0)), 0);
    RunTwo(st, Register(Request), Register(Flush(0)), 0);
  }

  /** The flush returns, and then the old call removes the new one's tag. */
  lemma ForgetsForeign(st: State) returns (acts: seq<Action>, end: State)
    requires Cleared(st, PROBES) && st.c.calls[0] == ANSWERED
    requires NextCounter(st.c) == Some(PROBES + 1) && TagAt(PROBES + 1) == 0
    ensures RunFrom(st, acts, 0) == Some(end) && Lost(end.c, PROBES) && Is(end.c, PROBES, Registered)
    ensures Quiet(end) && end.c.pending == map[]
  {
    hide TagAt, Probe, RunFrom, Next, Enabled;
    var both := BothRegistered(st);
    var flushed := CallCompletes(both, PROBES + 1);
    assert flushed.c.pending == map[0 := PROBES];
    end := GivesUp(flushed, 0);
    var a, b, c := [Register(Request), Register(Flush(0))], Served(PROBES + 1), [Forget(0)];
    RunFromConcat(st, a, b, 0);
    RunFromConcat(st, a + b, c, 0);
    assert end.c.pending == map[];
    acts := a + b + c;
  }

  lemma GivesUp(st: State, r: Rid) returns (end: State)
    requires r < |st.c.calls| && st.c.calls[r].phase.Flushing? && st.c.calls[r].phase.flush < |st.c.calls|
    requires st.c.calls[st.c.calls[r].phase.flush].phase.Returned?
    ensures RunFrom(st, [Forget(r)], 0) == Some(end) && (Quiet(st) ==> Quiet(end))
    ensures end.c.pending == st.c.pending - {st.c.calls[r].tag} && SameBut(st, end, r)
  {
    hide TagAt, Probe, RunFrom;
    end := Next(st, Forget(r), 0);
    RunOne(st, Forget(r), 0);
  }

  lemma WaitsOn(st: State, n: Rid) returns (acts: seq<Action>, end: State)
    requires Lost(st.c, n) && Is(st.c, n, Registered)
    requires !st.c.closed && st.c.closing == {} && st.c.reader == Idle && st.c.pending == map[]
    ensures RunFrom(st, acts, 0) == Some(end) && Lost(end.c, n) && Is(end.c, n, Waiting)
    ensures end.c.closed && end.c.closing == {} && end.c.reader == Idle
  {
    hide TagAt, Probe, RunFrom;
    var mid := Next(st, Write(n), 0);
    assert mid.c.pending == map[];
    end := Next(mid, CloseConnection, 0);
    acts := [Write(n), CloseConnection];
    RunTwo(st, Write(n), CloseConnection, 0);
  }
}
