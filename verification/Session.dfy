/** One connection as a step system: the callers of client.go over the multiplexer of mux.go, the
    client's reader, and the server's per-request handlers of conn.go, between two FIFO streams of
    frames. Every action below is one critical section, one frame read or written, or one channel
    operation; a run is any interleaving of them.

    A request is identified by its registration number, which the wire does not carry: frames are
    matched by tag alone, and that this finds the right request is what is proved. */
module Session {
  import opened Bytes
  import opened Tags

  type Rid = nat

  // ----- the client -----

  datatype Kind = Request | Flush(target: Rid)

  /** A reply channel of capacity one; Full(of) holds the reply to request `of`. */
  datatype Chan = Empty | Full(of: Rid) | Closed

  datatype Outcome = Got(of: Rid) | Failed

  datatype Phase =
    | Registered               // has a tag, nothing written yet
    | Waiting                  // written; blocked on its channel
    | Cancelled                // its context ended; about to flush
    | Unflushed                // its flush got no tag; about to give up its own
    | Flushing(flush: Rid)     // its flush is registered and not yet over
    | Returned(r: Outcome)

  /** `at` is the counter value at which the tag was allocated. */
  datatype Call = Call(tag: Tag, at: nat, kind: Kind, phase: Phase, chan: Chan)

  datatype Reader = Idle | Delivering(to: Rid, of: Rid) | Stopped

  datatype Client = Client(
    calls: seq<Call>,
    pending: map<Tag, Rid>,
    ctr: nat,
    closed: bool,
    closing: set<Rid>,     // channels closeAll has taken and not closed yet
    reader: Reader,
    broken: bool)          // a send blocked, or a channel was sent on or closed after its close

  // ----- the server -----

  datatype Stage = Arrived | Running | Replied | Finished | Dropped

  datatype Handler = Handler(stage: Stage, slot: bool, cancelled: bool)

  datatype Server = Server(
    handlers: map<Rid, Handler>,
    inflight: map<Tag, Rid>,
    tokens: nat,           // occupied places of the semaphore
    ran: set<Rid>,         // requests handed to the backend (or, for a flush, acted on)
    answered: set<Rid>)    // requests a reply was produced for

  /** `up` and `down` are the frames under way in each direction. */
  datatype State = State(c: Client, s: Server, up: seq<Rid>, down: seq<Rid>)

  const START: State :=
    State(Client([], map[], 0, false, {}, Idle, false), Server(map[], map[], 0, {}, {}), [], [])

  datatype Action =
    | Register(kind: Kind)
    | RegisterFails
    | Write(r: Rid)
    | WriteFails(r: Rid)
    | Receive(r: Rid)
    | ReceiveClosed(r: Rid)
    | Cancel(r: Rid)
    | FlushFails(r: Rid)
    | Forget(r: Rid)
    | ReadFrame
    | Send
    | ReaderFails
    | CloseConnection
    | CloseOne(r: Rid)
    | Accept
    | Start(r: Rid)
    | Drop(r: Rid)
    | Reply(r: Rid)
    | ReplyLost(r: Rid)
    | Finish(r: Rid)

  predicate Is(c: Client, r: Rid, p: Phase)
  {
    r < |c.calls| && c.calls[r].phase == p
  }

  predicate AtStage(s: Server, r: Rid, g: Stage)
  {
    r in s.handlers && s.handlers[r].stage == g
  }

  function NextCounter(c: Client): Option<nat>
  {
    Probe(c.pending.Keys, c.ctr, PROBES)
  }

  /** limit is Server.MaxConcurrentRequests; 0 means no limit. */
  predicate Enabled(st: State, a: Action, limit: nat)
  {
    var c, s := st.c, st.s;
    match a
    case Register(kind) =>
      !c.closed && NextCounter(c).Some? && (kind.Flush? ==> Is(c, kind.target, Cancelled))
    case RegisterFails => !c.closed && NextCounter(c) == None
    case Write(r) => Is(c, r, Registered)
    case WriteFails(r) => Is(c, r, Registered)
    case Receive(r) => Is(c, r, Waiting) && c.calls[r].chan.Full?
    case ReceiveClosed(r) => Is(c, r, Waiting) && c.calls[r].chan == Closed
    case Cancel(r) => Is(c, r, Waiting) && c.calls[r].kind == Request
    case FlushFails(r) => Is(c, r, Cancelled) && (c.closed || NextCounter(c) == None)
    case Forget(r) =>
      || Is(c, r, Unflushed)
      || (r < |c.calls| && c.calls[r].phase.Flushing? && c.calls[r].phase.flush < |c.calls|
          && c.calls[c.calls[r].phase.flush].phase.Returned?)
    case ReadFrame => c.reader == Idle && st.down != [] && st.down[0] < |c.calls|
    case Send => c.reader.Delivering? && c.reader.to < |c.calls|
    case ReaderFails => c.reader == Idle
    case CloseConnection => true
    case CloseOne(r) => r in c.closing && r < |c.calls|
    case Accept => st.up != [] && st.up[0] < |c.calls|
    case Start(r) =>
      AtStage(s, r, Arrived) && r < |c.calls| && (limit == 0 || c.calls[r].kind.Flush? || s.tokens < limit)
    case Drop(r) =>
      AtStage(s, r, Arrived) && r < |c.calls| && limit > 0 && !c.calls[r].kind.Flush? && s.handlers[r].cancelled
    case Reply(r) => AtStage(s, r, Running) && r < |c.calls|
    case ReplyLost(r) => AtStage(s, r, Running) && r < |c.calls|
    case Finish(r) => AtStage(s, r, Replied) && r < |c.calls| && (s.handlers[r].slot ==> s.tokens > 0)
  }

  function WithPhase(c: Client, r: Rid, p: Phase): Client
    requires r < |c.calls|
  {
    c.(calls := c.calls[r := c.calls[r].(phase := p)])
  }

  function WithChan(c: Client, r: Rid, ch: Chan): Client
    requires r < |c.calls|
  {
    c.(calls := c.calls[r := c.calls[r].(chan := ch)])
  }

  function WithStage(s: Server, r: Rid, g: Stage): Server
    requires r in s.handlers
  {
    s.(handlers := s.handlers[r := s.handlers[r].(stage := g)])
  }

  /** The locked part of closeAll: the first caller takes every waiting channel. */
  function CloseLock(c: Client): Client
  {
    if c.closed then c else c.(closed := true, closing := c.pending.Values, pending := map[])
  }

  function AfterRegister(c: Client, kind: Kind): Client
    requires NextCounter(c).Some?
    requires kind.Flush? ==> kind.target < |c.calls|
  {
    var at := NextCounter(c).value;
    var r := |c.calls|;
    var c1 := if kind.Flush? then WithPhase(c, kind.target, Flushing(r)) else c;
    c1.(calls := c1.calls + [Call(TagAt(at), at, kind, Registered, Empty)],
        pending := c.pending[TagAt(at) := r],
        ctr := at + 1)
  }

  /** A flush cancels whatever request the server has in flight under the old tag. */
  function AfterFlush(c: Client, s: Server, r: Rid): Server
    requires r < |c.calls|
  {
    var kind := c.calls[r].kind;
    if kind.Flush? && kind.target < |c.calls| && c.calls[kind.target].tag in s.inflight
       && s.inflight[c.calls[kind.target].tag] in s.handlers then
      var h := s.inflight[c.calls[kind.target].tag];
      s.(handlers := s.handlers[h := s.handlers[h].(cancelled := true)])
    else s
  }

  function Answered(c: Client, s: Server, r: Rid): Server
    requires r < |c.calls| && r in s.handlers
  {
    var s1 := WithStage(s, r, Replied);
    AfterFlush(c, s1, r).(answered := s.answered + {r})
  }

  function Next(st: State, a: Action, limit: nat): State
    requires Enabled(st, a, limit)
  {
    var c, s := st.c, st.s;
    match a
    case Register(kind) => st.(c := AfterRegister(c, kind))
    case RegisterFails => st.(c := c.(ctr := c.ctr + PROBES))
    case Write(r) => st.(c := WithPhase(c, r, Waiting), up := st.up + [r])
    case WriteFails(r) =>
      st.(c := WithPhase(c, r, Returned(Failed)).(pending := c.pending - {c.calls[r].tag}))
    case Receive(r) => st.(c := WithPhase(c, r, Returned(Got(c.calls[r].chan.of))))
    case ReceiveClosed(r) => st.(c := WithPhase(c, r, Returned(Failed)))
    case Cancel(r) => st.(c := WithPhase(c, r, Cancelled))
    case FlushFails(r) => st.(c := WithPhase(c, r, Unflushed).(ctr := if c.closed then c.ctr else c.ctr + PROBES))
    case Forget(r) =>
      st.(c := WithPhase(c, r, Returned(Failed)).(pending := c.pending - {c.calls[r].tag}))
    case ReadFrame =>
      var r, t := st.down[0], c.calls[st.down[0]].tag;
      if t in c.pending then
        st.(c := c.(pending := c.pending - {t}, reader := Delivering(c.pending[t], r)), down := st.down[1..])
      else st.(down := st.down[1..])
    case Send =>
      var to := c.reader.to;
      if c.calls[to].chan == Empty then st.(c := WithChan(c, to, Full(c.reader.of)).(reader := Idle))
      else st.(c := c.(reader := Idle, broken := true))
    case ReaderFails => st.(c := CloseLock(c).(reader := Stopped))
    case CloseConnection => st.(c := CloseLock(c))
    case CloseOne(r) =>
      if c.calls[r].chan == Empty then st.(c := WithChan(c, r, Closed).(closing := c.closing - {r}))
      else st.(c := c.(closing := c.closing - {r}, broken := true))
    case Accept =>
      var r := st.up[0];
      st.(s := s.(handlers := s.handlers[r := Handler(Arrived, false, false)],
                  inflight := s.inflight[c.calls[r].tag := r]),
          up := st.up[1..])
    case Start(r) =>
      var slot := limit > 0 && !c.calls[r].kind.Flush?;
      st.(s := s.(handlers := s.handlers[r := s.handlers[r].(stage := Running, slot := slot)],
                  tokens := if slot then s.tokens + 1 else s.tokens,
                  ran := s.ran + {r}))
    case Drop(r) => st.(s := WithStage(s, r, Dropped).(inflight := s.inflight - {c.calls[r].tag}))
    case Reply(r) => st.(s := Answered(c, s, r), down := st.down + [r])
    case ReplyLost(r) => st.(s := Answered(c, s, r))
    case Finish(r) =>
      st.(s := WithStage(s, r, Finished).(
                inflight := s.inflight - {c.calls[r].tag},
                tokens := if s.handlers[r].slot then s.tokens - 1 else s.tokens))
  }

  /** The state a run ends in, if each of its actions was possible. */
  function Run(acts: seq<Action>, limit: nat): Option<State>
  {
    if acts == [] then Some(START) else
    match Run(acts[..|acts| - 1], limit)
    case None => None
    case Some(st) =>
      var a := acts[|acts| - 1];
      if Enabled(st, a, limit) then Some(Next(st, a, limit)) else None
  }

  // ----- what is under way -----

  /** The server still has to answer r, or its answer is still under way. */
  predicate Owed(st: State, r: Rid)
  {
    r in st.up || AtStage(st.s, r, Arrived) || AtStage(st.s, r, Running) || r in st.down
  }

  predicate Distinct(q: seq<Rid>)
  {
    forall i, j :: 0 <= i < j < |q| ==> q[i] != q[j]
  }

  /** Each request is in at most one place between being written and being answered. */
  ghost predicate OnePlace(st: State)
  {
    && Distinct(st.up) && Distinct(st.down)
    && (forall r :: r in st.up ==> r < |st.c.calls| && r !in st.s.handlers && r !in st.down && !Is(st.c, r, Registered))
    && (forall r :: r in st.s.handlers ==> r < |st.c.calls| && !Is(st.c, r, Registered))
    && (forall r :: r in st.down ==> AtStage(st.s, r, Replied) || AtStage(st.s, r, Finished))
  }

  /** Tags and counters are consistent. */
  ghost predicate Booked(c: Client)
  {
    && (forall r :: 0 <= r < |c.calls| ==> c.calls[r].at < c.ctr && c.calls[r].tag == TagAt(c.calls[r].at))
    && (forall t :: t in c.pending ==> c.pending[t] < |c.calls| && c.calls[c.pending[t]].tag == t)
    && (c.closed ==> c.pending == map[])
  }

  predicate OwnPending(c: Client, r: Rid)
  {
    r < |c.calls| && c.calls[r].tag in c.pending && c.pending[c.calls[r].tag] == r
  }

  lemma DistinctTail(q: seq<Rid>)
    requires Distinct(q) && q != []
    ensures Distinct(q[1..]) && q[0] !in q[1..]
    ensures forall r :: r in q <==> r == q[0] || r in q[1..]
  {
    assert q == [q[0]] + q[1..];
  }

  lemma DistinctSnoc(q: seq<Rid>, r: Rid)
    requires Distinct(q) && r !in q
    ensures Distinct(q + [r])
  {
  }

  predicate OnServer(a: Action)
  {
    a.Accept? || a.Start? || a.Drop? || a.Reply? || a.ReplyLost? || a.Finish?
  }

  lemma StepOnePlace(st: State, a: Action, limit: nat)
    requires Enabled(st, a, limit) && OnePlace(st)
    ensures OnePlace(Next(st, a, limit))
  {
    if a.Accept? || a.Write? || a.ReadFrame? || a.Reply? {
      FrameOnePlace(st, a, limit);
    } else if OnServer(a) {
      ServerOnePlace(st, a, limit);
    } else if a.Register? {
      RegisterOnePlace(st, a.kind, limit);
    } else {
      ClientOnePlace(st, a, limit);
    }
  }

  /** The steps that put a frame on the way or take one off it. */
  lemma FrameOnePlace(st: State, a: Action, limit: nat)
    requires Enabled(st, a, limit) && OnePlace(st) && (a.Accept? || a.Write? || a.ReadFrame? || a.Reply?)
    ensures OnePlace(Next(st, a, limit))
  {
    hide Next, Enabled, OnePlace;
    match a {
      case Accept => AcceptOnePlace(st, limit);
      case Write(r) => WriteOnePlace(st, r, limit);
      case ReadFrame => ReadOnePlace(st, limit);
      case Reply(r) => ReplyOnePlace(st, r, limit);
    }
  }

  lemma AcceptOnePlace(st: State, limit: nat)
    requires Enabled(st, Accept, limit) && OnePlace(st)
    ensures OnePlace(Next(st, Accept, limit))
  {
    hide Probe, TagAt, Distinct;
    DistinctTail(st.up);
  }

  lemma WriteOnePlace(st: State, r: Rid, limit: nat)
    requires Enabled(st, Write(r), limit) && OnePlace(st)
    ensures OnePlace(Next(st, Write(r), limit))
  {
    hide Probe, TagAt, Distinct;
    DistinctSnoc(st.up, r);
  }

  lemma ReadOnePlace(st: State, limit: nat)
    requires Enabled(st, ReadFrame, limit) && OnePlace(st)
    ensures OnePlace(Next(st, ReadFrame, limit))
  {
    hide Probe, TagAt, Distinct;
    DistinctTail(st.down);
  }

  lemma ReplyOnePlace(st: State, r: Rid, limit: nat)
    requires Enabled(st, Reply(r), limit) && OnePlace(st)
    ensures OnePlace(Next(st, Reply(r), limit))
  {
    hide Probe, TagAt, Distinct, AfterFlush;
    DistinctSnoc(st.down, r);
    FlushOnlyCancels(st.c, WithStage(st.s, r, Replied), r);
  }

  /** Acting on a flush marks a handler as cancelled and changes nothing else. */
  lemma FlushOnlyCancels(c: Client, s: Server, r: Rid)
    requires r < |c.calls|
    ensures var s' := AfterFlush(c, s, r);
            && s'.ran == s.ran && s'.answered == s.answered && s'.tokens == s.tokens && s'.inflight == s.inflight
            && s'.handlers.Keys == s.handlers.Keys
            && forall x :: x in s.handlers ==>
                 s'.handlers[x].stage == s.handlers[x].stage && s'.handlers[x].slot == s.handlers[x].slot
  {
  }

  lemma RegisterOnePlace(st: State, kind: Kind, limit: nat)
    requires Enabled(st, Register(kind), limit) && OnePlace(st)
    ensures OnePlace(Next(st, Register(kind), limit))
  {
    hide Probe, TagAt, Distinct;
  }

  lemma ClientOnePlace(st: State, a: Action, limit: nat)
    requires Enabled(st, a, limit) && OnePlace(st) && !OnServer(a) && !a.Register? && !a.Write? && !a.ReadFrame?
    ensures OnePlace(Next(st, a, limit))
  {
    FramesKept(st, a, limit);
    hide Next, Enabled, Distinct;
  }

  lemma FramesKept(st: State, a: Action, limit: nat)
    requires Enabled(st, a, limit) && !OnServer(a) && !a.Register? && !a.Write? && !a.ReadFrame?
    ensures var st' := Next(st, a, limit);
            && st'.s == st.s && st'.up == st.up && st'.down == st.down && |st'.c.calls| == |st.c.calls|
            && forall r :: Is(st'.c, r, Registered) ==> Is(st.c, r, Registered)
  {
    hide Probe, TagAt;
  }

  lemma ServerOnePlace(st: State, a: Action, limit: nat)
    requires Enabled(st, a, limit) && OnePlace(st) && OnServer(a) && !a.Accept? && !a.Reply?
    ensures OnePlace(Next(st, a, limit))
  {
    hide Probe, TagAt, Distinct, AfterFlush;
    if a.ReplyLost? {
      FlushOnlyCancels(st.c, WithStage(st.s, a.r, Replied), a.r);
    }
  }

  lemma ServerKeepsClient(st: State, a: Action, limit: nat)
    requires Enabled(st, a, limit) && OnServer(a)
    ensures Next(st, a, limit).c == st.c
  {
    hide TagAt, Probe, AfterFlush, WithStage;
  }

  lemma StepBooked(st: State, a: Action, limit: nat)
    requires Enabled(st, a, limit) && Booked(st.c)
    ensures Booked(Next(st, a, limit).c)
  {
    hide TagAt, Probe, Next, Enabled, Booked;
    if OnServer(a) {
      ServerKeepsClient(st, a, limit);
    } else if a.Register? {
      RegisterEnabled(st, a.kind, limit);
      RegisterBooked(st.c, a.kind);
    } else {
      ClientBooked(st, a, limit);
    }
  }

  lemma RegisterEnabled(st: State, kind: Kind, limit: nat)
    requires Enabled(st, Register(kind), limit)
    ensures !st.c.closed && NextCounter(st.c).Some? && (kind.Flush? ==> Is(st.c, kind.target, Cancelled))
    ensures Next(st, Register(kind), limit) == st.(c := AfterRegister(st.c, kind))
  {
    hide TagAt, Probe;
  }

  /** No step but a registration adds a call or gives one a tag. */
  lemma CallsKept(st: State, a: Action, limit: nat)
    requires Enabled(st, a, limit) && !OnServer(a) && !a.Register?
    ensures var c, c' := st.c, Next(st, a, limit).c;
            && |c'.calls| == |c.calls| && c.ctr <= c'.ctr && (c.closed ==> c'.closed)
            && (c'.closed ==> c.closed || c'.pending == map[])
            && (forall t :: t in c'.pending ==> t in c.pending && c'.pending[t] == c.pending[t])
    ensures forall r :: 0 <= r < |st.c.calls| ==>
              var call, call' := st.c.calls[r], Next(st, a, limit).c.calls[r];
              call'.tag == call.tag && call'.at == call.at && call'.kind == call.kind
  {
    hide TagAt, Probe;
  }

  lemma ClientBooked(st: State, a: Action, limit: nat)
    requires Enabled(st, a, limit) && Booked(st.c) && !OnServer(a) && !a.Register?
    ensures Booked(Next(st, a, limit).c)
  {
    CallsKept(st, a, limit);
    hide TagAt, Probe, Next, Enabled;
  }

  lemma RegisterBooked(c: Client, kind: Kind)
    requires Booked(c) && NextCounter(c).Some? && !c.closed
    requires kind.Flush? ==> kind.target < |c.calls|
    ensures Booked(AfterRegister(c, kind))
  {
    hide TagAt, Probe;
    ProbeFindsFirst(c.pending.Keys, c.ctr, PROBES);
  }
}
