/** The request/response multiplexer of internal/ws/client.go.

    Any number of Send calls, one read loop and any number of Close calls share `pending`,
    `closed` and the response channels. Every critical section and every channel operation
    is one atomic step; a run is an arbitrary interleaving of steps. */
module WsClient {
  import opened Wrappers

  /** nextID is a uint64: ids wrap around. */
  const ID_SPACE: nat := 0x1_0000_0000_0000_0000

  datatype Response = Response(id: nat, status: nat)

  /** A response is known by its position in the order in which the read loop dispatched it. */
  type Ref = nat

  /** A channel of capacity one. */
  datatype Channel = Channel(open: bool, buffer: Option<Ref>)

  datatype Outcome =
    | Refused
    | WriteFailed
    | Answered(ref: Ref)
    | ClosedDuringRequest
    | Cancelled
    | ReadLoopEnded

  datatype Phase =
    | Allocated
    | Registered
    | Waiting
    | Leaving(outcome: Outcome)
    | Returned(outcome: Outcome)
  {
    predicate Pending() { Registered? || Waiting? }
    predicate Has(o: Outcome) { (Leaving? || Returned?) && outcome == o }
    predicate Decided() { Leaving? || Returned? }
  }

  /** One Send call; `since` is the number of responses dispatched before it registered.
      Its channel is the one with the same index. */
  datatype Send = Send(id: nat, since: nat, phase: Phase)

  datatype Reader = Reading | Failing | Ending | Ended

  datatype State = State(
    nextId: nat,
    pending: map<nat, nat>,
    closed: bool,
    chans: seq<Channel>,
    sends: seq<Send>,
    reader: Reader,
    log: seq<Response>)

  datatype Action =
    | Begin
    | Register(k: nat)
    | Write(k: nat, ok: bool)
    | Receive(k: nat)
    | Cancel(k: nat)
    | SeeDone(k: nat)
    | Deregister(k: nat)
    | Dispatch(resp: Response)
    | ReadFails
    | FailPending
    | EndReadLoop
    | Close

  /** `Panic` is Go's run-time panic: a send on a closed channel or a second close. */
  datatype Effect = Next(state: State) | Blocked | Panic

  const INITIAL := State(0, map[], false, [], [], Reading, [])

  predicate InPhase(s: State, k: nat, p: Phase) {
    k < |s.sends| && k < |s.chans| && s.sends[k].phase == p
  }

  function SetPhase(s: State, k: nat, p: Phase): State
    requires k < |s.sends|
  {
    s.(sends := s.sends[k := s.sends[k].(phase := p)])
  }

  /** Closing every channel in `pending` panics on a channel that is closed already, or that
      two entries share. */
  predicate CanCloseAll(pending: map<nat, nat>, chans: seq<Channel>) {
    && (forall id <- pending :: pending[id] < |chans| && chans[pending[id]].open)
    && (forall i <- pending, j <- pending :: pending[i] == pending[j] ==> i == j)
  }

  function ClosedChannels(chans: seq<Channel>, which: set<nat>): (r: seq<Channel>)
    ensures |r| == |chans|
  {
    seq(|chans|, i requires 0 <= i < |chans| =>
      if i in which then chans[i].(open := false) else chans[i])
  }

  function CloseAll(s: State): Effect {
    if CanCloseAll(s.pending, s.chans) then
      Next(s.(closed := true, pending := map[], chans := ClosedChannels(s.chans, s.pending.Values)))
    else Panic
  }

  function Step(s: State, a: Action): Effect {
    match a
    case Begin =>
      var id := (s.nextId + 1) % ID_SPACE;
      Next(s.(nextId := id,
              chans := s.chans + [Channel(true, None)],
              sends := s.sends + [Send(id, 0, Allocated)]))
    case Register(k) =>
      if !InPhase(s, k, Allocated) then Blocked
      else if s.closed then Next(SetPhase(s, k, Returned(Refused)))
      else
        var send := s.sends[k].(since := |s.log|, phase := Registered);
        Next(s.(pending := s.pending[send.id := k], sends := s.sends[k := send]))
    case Write(k, ok) =>
      if !InPhase(s, k, Registered) then Blocked
      else Next(SetPhase(s, k, if ok then Waiting else Leaving(WriteFailed)))
    case Receive(k) =>
      if !InPhase(s, k, Waiting) then Blocked
      else if s.chans[k].buffer.Some? then
        var t := s.(chans := s.chans[k := s.chans[k].(buffer := None)]);
        Next(SetPhase(t, k, Leaving(Answered(s.chans[k].buffer.value))))
      else if !s.chans[k].open then Next(SetPhase(s, k, Leaving(ClosedDuringRequest)))
      else Blocked
    case Cancel(k) =>
      if !InPhase(s, k, Waiting) then Blocked else Next(SetPhase(s, k, Leaving(Cancelled)))
    case SeeDone(k) =>
      if !InPhase(s, k, Waiting) || !s.reader.Ended? then Blocked
      else Next(SetPhase(s, k, Leaving(ReadLoopEnded)))
    case Deregister(k) =>
      if !(k < |s.sends| && s.sends[k].phase.Leaving?) then Blocked
      else
        var send := s.sends[k];
        Next(SetPhase(s.(pending := s.pending - {send.id}), k, Returned(send.phase.outcome)))
    case Dispatch(resp) =>
      if !s.reader.Reading? then Blocked
      else
        var t := s.(log := s.log + [resp]);
        if resp.id !in s.pending then Next(t)
        else
          var c := s.pending[resp.id];
          if !(c < |s.chans| && s.chans[c].open) then Panic
          else if s.chans[c].buffer.Some? then Next(t)
          else Next(t.(chans := s.chans[c := s.chans[c].(buffer := Some(|s.log|))]))
    case ReadFails =>
      if s.reader.Reading? then Next(s.(reader := Failing)) else Blocked
    case FailPending =>
      if s.reader.Failing? then CloseAll(s.(reader := Ending)) else Blocked
    case EndReadLoop =>
      if s.reader.Ending? then Next(s.(reader := Ended)) else Blocked
    case Close =>
      if s.closed then Next(s) else CloseAll(s)
  }

  function Run(s: State, actions: seq<Action>): Effect
    decreases actions
  {
    if actions == [] then Next(s)
    else
      match Step(s, actions[0])
      case Next(t) => Run(t, actions[1..])
      case Blocked => Blocked
      case Panic => Panic
  }

  // ----- The invariant

  /** Response `r` is the first with Send k's id dispatched after k registered. */
  ghost predicate FirstFor(s: State, k: nat, r: Ref)
    requires k < |s.sends|
  {
    && s.sends[k].since <= r < |s.log|
    && s.log[r].id == s.sends[k].id
    && forall j :: s.sends[k].since <= j < r ==> s.log[j].id != s.sends[k].id
  }

  ghost predicate Unmatched(s: State, k: nat)
    requires k < |s.sends|
  {
    forall j :: s.sends[k].since <= j < |s.log| ==> s.log[j].id != s.sends[k].id
  }

  ghost predicate IsPendingFor(s: State, k: nat)
    requires k < |s.sends|
  {
    s.sends[k].id in s.pending && s.pending[s.sends[k].id] == k
  }

  /** Send k has received response r, or finds it in its channel. */
  ghost predicate Holds(s: State, k: nat, r: Ref)
    requires k < |s.sends| && k < |s.chans|
  {
    s.chans[k].buffer == Some(r) || s.sends[k].phase.Has(Answered(r))
  }

  ghost predicate EntryOk(s: State, id: nat)
    requires id in s.pending && |s.chans| == |s.sends|
  {
    var c := s.pending[id];
    c < |s.sends| && s.sends[c].id == id && s.chans[c].open &&
    (s.sends[c].phase.Pending() || s.sends[c].phase.Leaving?)
  }

  ghost predicate SendOk(s: State, k: nat)
    requires k < |s.sends| && |s.chans| == |s.sends|
  {
    var send, ch := s.sends[k], s.chans[k];
    && send.id == (k + 1) % ID_SPACE
    && send.since <= |s.log|
    && (send.phase.Allocated? ==> ch == Channel(true, None))
    && (send.phase.Pending() && ch.buffer.Some? ==> FirstFor(s, k, ch.buffer.value))
    && (send.phase.Pending() && ch.buffer.None? && IsPendingFor(s, k) ==> Unmatched(s, k))
    && (forall r: Ref :: send.phase.Has(Answered(r)) ==> FirstFor(s, k, r))
    && (|s.sends| <= ID_SPACE && send.phase.Pending() && ch.open ==> IsPendingFor(s, k))
  }

  ghost predicate Inv(s: State) {
    && |s.chans| == |s.sends|
    && s.nextId == |s.sends| % ID_SPACE
    && (s.closed ==> s.pending == map[])
    && (s.reader.Ending? || s.reader.Ended? ==> s.closed)
    && (forall id <- s.pending :: EntryOk(s, id))
    && (forall k: nat :: k < |s.sends| ==> SendOk(s, k))
    && (forall k: nat, r: Ref :: k < |s.sends| && Holds(s, k, r) ==> r < |s.log|)
    && (forall j: nat, k: nat, r: Ref ::
          j < |s.sends| && k < |s.sends| && Holds(s, j, r) && Holds(s, k, r) ==> j == k)
  }

  /** What one Send may find changed around it without losing its own part of the invariant. */
  lemma SendOkFrame(s: State, t: State, k: nat)
    requires Inv(s) && k < |s.sends| <= |t.sends| && |t.chans| == |t.sends|
    requires t.sends[k] == s.sends[k] && t.log == s.log
    requires t.chans[k] == s.chans[k] ||
      (t.chans[k] == s.chans[k].(open := false) && !s.sends[k].phase.Allocated?)
    requires IsPendingFor(t, k) ==> IsPendingFor(s, k)
    requires |t.sends| <= ID_SPACE && s.sends[k].phase.Pending() && t.chans[k].open && IsPendingFor(s, k)
      ==> IsPendingFor(t, k)
    ensures SendOk(t, k)
  {
    assert SendOk(s, k);
  }

  lemma NextIdOf(n: nat)
    ensures (n % ID_SPACE + 1) % ID_SPACE == (n + 1) % ID_SPACE
  {}

  lemma BeginKeepsInv(s: State)
    requires Inv(s)
    ensures Inv(Step(s, Begin).state)
  {
    var t := Step(s, Begin).state;
    NextIdOf(|s.sends|);
    forall k: nat | k < |t.sends| ensures SendOk(t, k) {
      if k < |s.sends| { SendOkFrame(s, t, k); }
    }
    forall id <- t.pending ensures EntryOk(t, id) { assert EntryOk(s, id); }
    forall k: nat, r: Ref | k < |t.sends| && Holds(t, k, r) ensures k < |s.sends| && Holds(s, k, r) {
    }
    HoldsFrame(s, t);
  }

  /** If no Send holds more than it did, each response still has at most one holder. */
  lemma HoldsFrame(s: State, t: State)
    requires Inv(s) && |t.chans| == |t.sends| >= |s.sends| && |s.log| <= |t.log|
    requires forall k: nat, r: Ref :: k < |t.sends| && Holds(t, k, r) ==> k < |s.sends| && Holds(s, k, r)
    ensures forall k: nat, r: Ref :: k < |t.sends| && Holds(t, k, r) ==> r < |t.log|
    ensures forall j: nat, k: nat, r: Ref ::
      j < |t.sends| && k < |t.sends| && Holds(t, j, r) && Holds(t, k, r) ==> j == k
  {
  }

  lemma RegisterKeepsInv(s: State, k: nat)
    requires Inv(s) && Step(s, Register(k)).Next?
    ensures Inv(Step(s, Register(k)).state)
  {
    var t := Step(s, Register(k)).state;
    assert SendOk(s, k);
    forall j: nat | j < |t.sends| ensures SendOk(t, j) {
      if j != k {
        assert SendOk(s, j);
        SendOkFrame(s, t, j);
      }
    }
    forall id <- t.pending ensures EntryOk(t, id) {
      if id in s.pending { assert EntryOk(s, id); }
    }
    HoldsFrame(s, t);
  }

  /** Steps that only move Send k on to another phase past registration. */
  lemma AdvanceKeepsInv(s: State, k: nat, p: Phase)
    requires Inv(s) && k < |s.sends| && s.sends[k].phase.Pending()
    requires p == Waiting || (p.Leaving? && !p.outcome.Answered?)
    ensures Inv(SetPhase(s, k, p))
  {
    var t := SetPhase(s, k, p);
    assert SendOk(s, k);
    forall j: nat | j < |t.sends| ensures SendOk(t, j) {
      if j != k { SendOkFrame(s, t, j); }
    }
    forall id <- t.pending ensures EntryOk(t, id) { assert EntryOk(s, id); }
    HoldsFrame(s, t);
  }

  lemma ReceiveKeepsInv(s: State, k: nat)
    requires Inv(s) && Step(s, Receive(k)).Next? && s.chans[k].buffer.Some?
    ensures Inv(Step(s, Receive(k)).state)
  {
    var t := Step(s, Receive(k)).state;
    assert SendOk(s, k);
    forall j: nat | j < |t.sends| ensures SendOk(t, j) {
      if j != k { SendOkFrame(s, t, j); }
    }
    forall id <- t.pending ensures EntryOk(t, id) { assert EntryOk(s, id); }
    HoldsFrame(s, t);
  }

  lemma DeregisterKeepsInv(s: State, k: nat)
    requires Inv(s) && Step(s, Deregister(k)).Next?
    ensures Inv(Step(s, Deregister(k)).state)
  {
    var t := Step(s, Deregister(k)).state;
    assert SendOk(s, k);
    forall j: nat | j < |t.sends| ensures SendOk(t, j) {
      assert SendOk(s, j);
      if j != k { SendOkFrame(s, t, j); }
    }
    forall id <- t.pending ensures EntryOk(t, id) { assert EntryOk(s, id); }
    HoldsFrame(s, t);
  }

  lemma DispatchKeepsInv(s: State, resp: Response)
    requires Inv(s) && s.reader.Reading?
    ensures Step(s, Dispatch(resp)).Next? && Inv(Step(s, Dispatch(resp)).state)
  {
    if resp.id in s.pending { assert EntryOk(s, resp.id); }
    var t := Step(s, Dispatch(resp)).state;
    forall j: nat | j < |t.sends| ensures SendOk(t, j) {
      assert SendOk(s, j);
    }
    forall id <- t.pending ensures EntryOk(t, id) { assert EntryOk(s, id); }
    forall k: nat, r: Ref | k < |t.sends| && Holds(t, k, r)
      ensures r < |t.log|
      ensures Holds(s, k, r) || (r == |s.log| && resp.id in s.pending && k == s.pending[resp.id])
    {
      if Holds(s, k, r) { assert r < |s.log|; }
    }
  }

  lemma CloseAllKeepsInv(s: State, reader: Reader)
    requires Inv(s)
    ensures CloseAll(s.(reader := reader)).Next? && Inv(CloseAll(s.(reader := reader)).state)
  {
    forall id <- s.pending ensures s.pending[id] < |s.chans| && s.chans[s.pending[id]].open {
      assert EntryOk(s, id);
    }
    forall i <- s.pending, j <- s.pending | s.pending[i] == s.pending[j] ensures i == j {
      assert EntryOk(s, i) && EntryOk(s, j);
    }
    var t := CloseAll(s.(reader := reader)).state;
    forall k: nat | k < |t.sends| ensures SendOk(t, k) {
      if IsPendingFor(s, k) {
        assert k in s.pending.Values;
      }
      if k in s.pending.Values {
        var id :| id in s.pending && s.pending[id] == k;
        assert EntryOk(s, id);
      }
      SendOkFrame(s, t, k);
    }
    HoldsFrame(s, t);
  }

  lemma ReaderKeepsInv(s: State, reader: Reader)
    requires Inv(s) && (reader.Ending? || reader.Ended? ==> s.closed)
    ensures Inv(s.(reader := reader))
  {
    var t := s.(reader := reader);
    forall id <- t.pending ensures EntryOk(t, id) { assert EntryOk(s, id); }
    forall k: nat | k < |t.sends| ensures SendOk(t, k) { SendOkFrame(s, t, k); }
    HoldsFrame(s, t);
  }

  lemma StepKeepsInv(s: State, a: Action)
    requires Inv(s)
    ensures !Step(s, a).Panic?
    ensures Step(s, a).Next? ==> Inv(Step(s, a).state)
  {
    match a
    case Begin => BeginKeepsInv(s);
    case Register(k) => if Step(s, a).Next? { RegisterKeepsInv(s, k); }
    case Write(k, ok) => if Step(s, a).Next? { AdvanceKeepsInv(s, k, if ok then Waiting else Leaving(WriteFailed)); }
    case Receive(k) =>
      if Step(s, a).Next? {
        if s.chans[k].buffer.Some? { ReceiveKeepsInv(s, k); }
        else { AdvanceKeepsInv(s, k, Leaving(ClosedDuringRequest)); }
      }
    case Cancel(k) => if Step(s, a).Next? { AdvanceKeepsInv(s, k, Leaving(Cancelled)); }
    case SeeDone(k) => if Step(s, a).Next? { AdvanceKeepsInv(s, k, Leaving(ReadLoopEnded)); }
    case Deregister(k) => if Step(s, a).Next? { DeregisterKeepsInv(s, k); }
    case Dispatch(resp) => if s.reader.Reading? { DispatchKeepsInv(s, resp); }
    case ReadFails => ReaderKeepsInv(s, Failing);
    case FailPending => CloseAllKeepsInv(s, Ending);
    case EndReadLoop => if s.reader.Ending? { ReaderKeepsInv(s, Ended); }
    case Close => CloseAllKeepsInv(s, s.reader);
  }

  // ----- Runs

  lemma {:induction false} RunKeepsInv(s: State, actions: seq<Action>)
    requires Inv(s)
    ensures !Run(s, actions).Panic?
    ensures Run(s, actions).Next? ==> Inv(Run(s, actions).state)
    decreases actions
  {
    if actions != [] {
      StepKeepsInv(s, actions[0]);
      if Step(s, actions[0]).Next? {
        RunKeepsInv(Step(s, actions[0]).state, actions[1..]);
      }
    }
  }

  lemma {:induction false} RunAppend(s: State, xs: seq<Action>, ys: seq<Action>)
    requires Run(s, xs).Next?
    ensures Run(s, xs + ys) == Run(Run(s, xs).state, ys)
    decreases xs
  {
    if xs == [] {
      assert xs + ys == ys;
    } else {
      assert (xs + ys)[1..] == xs[1..] + ys;
      RunAppend(Step(s, xs[0]).state, xs[1..], ys);
    }
  }

  ghost predicate Reached(actions: seq<Action>, s: State) {
    Run(INITIAL, actions) == Next(s)
  }

  /** No interleaving sends on a closed channel or closes a channel twice, and in every
      reachable state the channels in `pending` are open and filed under their own Send's id. */
  lemma NoRunPanics(actions: seq<Action>)
    ensures Run(INITIAL, actions) != Panic
    ensures forall s, id :: Reached(actions, s) && id in s.pending ==>
      var k := s.pending[id];
      k < |s.sends| == |s.chans| && s.sends[k].id == id && s.chans[k].open
    ensures forall s :: Reached(actions, s) && s.closed ==> s.pending == map[]
  {
    RunKeepsInv(INITIAL, actions);
    forall s, id | Reached(actions, s) && id in s.pending
      ensures var k := s.pending[id];
              k < |s.sends| == |s.chans| && s.sends[k].id == id && s.chans[k].open
    {
      assert EntryOk(s, id);
    }
  }

  /** A response returned by a Send carries that Send's id, is the first with that id
      dispatched since the Send registered, and is returned by no other Send. */
  lemma AnswersMatch(actions: seq<Action>, s: State, k: nat, r: Ref)
    requires Reached(actions, s) && k < |s.sends| && s.sends[k].phase.Has(Answered(r))
    ensures FirstFor(s, k, r) && s.log[r].id == (k + 1) % ID_SPACE
    ensures forall j: nat :: j < |s.sends| && s.sends[j].phase.Has(Answered(r)) ==> j == k
  {
    RunKeepsInv(INITIAL, actions);
    assert SendOk(s, k) && Holds(s, k, r);
    forall j: nat | j < |s.sends| && s.sends[j].phase.Has(Answered(r)) ensures j == k {
      assert Holds(s, j, r);
    }
  }

  /** Nothing is lost: while a Send waits on an open channel, a response to it that has been
      dispatched is in the channel. */
  lemma NoAnswerIsLost(actions: seq<Action>, s: State, k: nat, j: Ref)
    requires Reached(actions, s) && |s.sends| <= ID_SPACE
    requires k < |s.sends| && k < |s.chans| && s.sends[k].phase.Waiting? && s.chans[k].open
    requires s.sends[k].since <= j < |s.log| && s.log[j].id == s.sends[k].id
    ensures s.chans[k].buffer.Some? && FirstFor(s, k, s.chans[k].buffer.value)
  {
    RunKeepsInv(INITIAL, actions);
    assert SendOk(s, k);
  }

  /** A response that finds nobody to answer: no entry for its id, as for an unsolicited one and for
      one that comes after Close, or an entry whose Send has its answer or has given up. */
  ghost predicate Inert(s: State, resp: Response) {
    resp.id in s.pending ==>
      var c := s.pending[resp.id];
      c < |s.chans| && c < |s.sends| ==> s.chans[c].buffer.Some? || s.sends[c].phase.Decided()
  }

  /** Such a response leaves every Send, and every channel still to be read, as it was. */
  lemma InertResponse(actions: seq<Action>, s: State, resp: Response)
    requires Reached(actions, s) && s.reader.Reading? && Inert(s, resp)
    ensures Step(s, Dispatch(resp)).Next?
    ensures var t := Step(s, Dispatch(resp)).state;
            && t.sends == s.sends && t.pending == s.pending && |t.chans| == |s.chans| == |s.sends|
            && forall k: nat :: k < |s.sends| && !s.sends[k].phase.Decided() ==> t.chans[k] == s.chans[k]
  {
    RunKeepsInv(INITIAL, actions);
    if resp.id in s.pending { assert EntryOk(s, resp.id); }
  }

  /** What a Send still has to do to return the response in its channel */
  function ToReturn(p: Phase, c: nat): seq<Action> {
    (if p.Registered? then [Write(c, true)] else []) + [Receive(c), Deregister(c)]
  }

  /** Any other response has an effect: the Send it is filed under can return it. */
  lemma OtherResponsesAnswer(actions: seq<Action>, s: State, resp: Response)
    requires Reached(actions, s) && s.reader.Reading? && !Inert(s, resp)
    ensures resp.id in s.pending && s.pending[resp.id] < |s.sends| && s.sends[s.pending[resp.id]].phase.Pending()
    ensures var c := s.pending[resp.id];
            var e := Run(s, [Dispatch(resp)] + ToReturn(s.sends[c].phase, c));
            && e.Next? && |s.log| < |e.state.log| && c < |e.state.sends|
            && e.state.log[|s.log|] == resp && e.state.sends[c].phase == Returned(Answered(|s.log|))
  {
    RunKeepsInv(INITIAL, actions);
    assert EntryOk(s, resp.id);
    var c := s.pending[resp.id];
    var rest := ToReturn(s.sends[c].phase, c);
    var t := Step(s, Dispatch(resp)).state;
    RunCons(s, Dispatch(resp), rest);
    if s.sends[c].phase.Registered? {
      RunCons(t, Write(c, true), [Receive(c), Deregister(c)]);
      assert rest == [Write(c, true)] + [Receive(c), Deregister(c)];
      ReceiveAndReturn(Step(t, Write(c, true)).state, c);
    } else {
      assert rest == [Receive(c), Deregister(c)];
      ReceiveAndReturn(t, c);
    }
  }

  lemma RunCons(s: State, a: Action, rest: seq<Action>)
    requires Step(s, a).Next?
    ensures Run(s, [a] + rest) == Run(Step(s, a).state, rest)
  {
    assert ([a] + rest)[1..] == rest;
  }

  lemma ReceiveAndReturn(s: State, c: nat)
    requires InPhase(s, c, Waiting) && s.chans[c].buffer.Some?
    ensures var e := Run(s, [Receive(c), Deregister(c)]);
            && e.Next? && e.state.log == s.log && |e.state.sends| == |s.sends|
            && e.state.sends[c].phase == Returned(Answered(s.chans[c].buffer.value))
  {
    RunCons(s, Receive(c), [Deregister(c)]);
    RunCons(Step(s, Receive(c)).state, Deregister(c), []);
    assert [Receive(c)] + [Deregister(c)] == [Receive(c), Deregister(c)];
    assert [Deregister(c)] + [] == [Deregister(c)];
  }

  // ----- Runs with and without an inert response

  /** Where a response is found once another has been dispatched before position n */
  function Shift(n: nat, r: Ref): Ref {
    if r < n then r else r + 1
  }

  function ShiftOutcome(n: nat, o: Outcome): Outcome {
    if o.Answered? then Answered(Shift(n, o.ref)) else o
  }

  function ShiftPhase(n: nat, p: Phase): Phase {
    match p
    case Leaving(o) => Leaving(ShiftOutcome(n, o))
    case Returned(o) => Returned(ShiftOutcome(n, o))
    case _ => p
  }

  function ShiftBuffer(n: nat, b: Option<Ref>): Option<Ref> {
    if b.Some? then Some(Shift(n, b.value)) else None
  }

  /** The same Send in two states, but for the shift; nobody reads the buffer of a decided one. */
  ghost predicate AlikeAt(n: nat, s: State, t: State, k: nat)
    requires k < |s.sends| == |s.chans| && k < |t.sends| == |t.chans|
  {
    && t.sends[k].id == s.sends[k].id
    && t.sends[k].phase == ShiftPhase(n, s.sends[k].phase)
    && t.chans[k].open == s.chans[k].open
    && (!s.sends[k].phase.Decided() ==> t.chans[k].buffer == ShiftBuffer(n, s.chans[k].buffer))
  }

  ghost predicate SameLog(n: nat, s: State, t: State) {
    && n <= |s.log| && |t.log| == |s.log| + 1
    && forall r: nat :: r < |s.log| ==> t.log[Shift(n, r)] == s.log[r]
  }

  /** t is s with one more response dispatched, as the n-th. */
  ghost predicate Alike(n: nat, s: State, t: State) {
    && t.nextId == s.nextId && t.pending == s.pending && t.closed == s.closed && t.reader == s.reader
    && |t.sends| == |t.chans| == |s.sends| == |s.chans|
    && SameLog(n, s, t)
    && forall k: nat :: k < |s.sends| ==> AlikeAt(n, s, t, k)
  }

  ghost predicate SameEffect(n: nat, e: Effect, f: Effect) {
    match e
    case Next(s) => f.Next? && Alike(n, s, f.state)
    case Blocked => f.Blocked?
    case Panic => f.Panic?
  }

  lemma AlikePhase(n: nat, s: State, t: State, k: nat, p: Phase)
    requires Alike(n, s, t) && k < |s.sends| && (p.Leaving? || p.Returned? || !s.sends[k].phase.Decided())
    ensures Alike(n, SetPhase(s, k, p), SetPhase(t, k, ShiftPhase(n, p)))
  {
    var u, v := SetPhase(s, k, p), SetPhase(t, k, ShiftPhase(n, p));
    forall j: nat | j < |u.sends| ensures AlikeAt(n, u, v, j) {
      assert AlikeAt(n, s, t, j);
    }
  }

  lemma AlikeDispatch(n: nat, s: State, t: State, resp: Response)
    requires Alike(n, s, t)
    ensures SameEffect(n, Step(s, Dispatch(resp)), Step(t, Dispatch(resp)))
  {
    if s.reader.Reading? && Step(s, Dispatch(resp)).Next? {
      if resp.id in s.pending && s.pending[resp.id] < |s.sends| {
        assert AlikeAt(n, s, t, s.pending[resp.id]);
      }
      var u, v := Step(s, Dispatch(resp)).state, Step(t, Dispatch(resp)).state;
      forall j: nat | j < |u.sends| ensures AlikeAt(n, u, v, j) {
        assert AlikeAt(n, s, t, j);
      }
    } else if s.reader.Reading? && resp.id in s.pending && s.pending[resp.id] < |s.sends| {
      assert AlikeAt(n, s, t, s.pending[resp.id]);
    }
  }

  lemma AlikeCloseAll(n: nat, s: State, t: State)
    requires Alike(n, s, t)
    ensures SameEffect(n, CloseAll(s), CloseAll(t))
  {
    forall k: nat | k < |s.sends| ensures t.chans[k].open == s.chans[k].open {
      assert AlikeAt(n, s, t, k);
    }
    assert CanCloseAll(s.pending, s.chans) <==> CanCloseAll(t.pending, t.chans);
    if CanCloseAll(s.pending, s.chans) {
      var u, v := CloseAll(s).state, CloseAll(t).state;
      forall j: nat | j < |u.sends| ensures AlikeAt(n, u, v, j) {
        assert AlikeAt(n, s, t, j);
      }
    }
  }

  lemma AlikeBegin(n: nat, s: State, t: State)
    requires Alike(n, s, t)
    ensures SameEffect(n, Step(s, Begin), Step(t, Begin))
  {
    var u, v := Step(s, Begin).state, Step(t, Begin).state;
    forall j: nat | j < |u.sends| ensures AlikeAt(n, u, v, j) {
      if j < |s.sends| { assert AlikeAt(n, s, t, j); }
    }
  }

  lemma AlikeRegister(n: nat, s: State, t: State, k: nat)
    requires Alike(n, s, t)
    ensures SameEffect(n, Step(s, Register(k)), Step(t, Register(k)))
  {
    if k < |s.sends| {
      assert AlikeAt(n, s, t, k);
      if Step(s, Register(k)).Next? {
        var u, v := Step(s, Register(k)).state, Step(t, Register(k)).state;
        forall j: nat | j < |u.sends| ensures AlikeAt(n, u, v, j) {
          assert AlikeAt(n, s, t, j);
        }
      }
    }
  }

  lemma AlikeReceive(n: nat, s: State, t: State, k: nat)
    requires Alike(n, s, t)
    ensures SameEffect(n, Step(s, Receive(k)), Step(t, Receive(k)))
  {
    if k < |s.sends| {
      assert AlikeAt(n, s, t, k);
      if Step(s, Receive(k)).Next? {
        var u, v := Step(s, Receive(k)).state, Step(t, Receive(k)).state;
        forall j: nat | j < |u.sends| ensures AlikeAt(n, u, v, j) {
          assert AlikeAt(n, s, t, j);
        }
      }
    }
  }

  lemma AlikeDeregister(n: nat, s: State, t: State, k: nat)
    requires Alike(n, s, t)
    ensures SameEffect(n, Step(s, Deregister(k)), Step(t, Deregister(k)))
  {
    if k < |s.sends| {
      assert AlikeAt(n, s, t, k);
      if Step(s, Deregister(k)).Next? {
        var u, v := Step(s, Deregister(k)).state, Step(t, Deregister(k)).state;
        forall j: nat | j < |u.sends| ensures AlikeAt(n, u, v, j) {
          assert AlikeAt(n, s, t, j);
        }
      }
    }
  }

  lemma AlikeReader(n: nat, s: State, t: State, reader: Reader)
    requires Alike(n, s, t)
    ensures Alike(n, s.(reader := reader), t.(reader := reader))
  {
    var u, v := s.(reader := reader), t.(reader := reader);
    forall j: nat | j < |u.sends| ensures AlikeAt(n, u, v, j) {
      assert AlikeAt(n, s, t, j);
    }
  }

  lemma AlikeStep(n: nat, s: State, t: State, a: Action)
    requires Alike(n, s, t)
    ensures SameEffect(n, Step(s, a), Step(t, a))
  {
    match a
    case Begin => AlikeBegin(n, s, t);
    case Register(k) => AlikeRegister(n, s, t, k);
    case Receive(k) => AlikeReceive(n, s, t, k);
    case Deregister(k) => AlikeDeregister(n, s, t, k);
    case Dispatch(resp) => AlikeDispatch(n, s, t, resp);
    case Write(k, ok) =>
      if k < |s.sends| {
        assert AlikeAt(n, s, t, k);
        if InPhase(s, k, Registered) { AlikePhase(n, s, t, k, if ok then Waiting else Leaving(WriteFailed)); }
      }
    case Cancel(k) =>
      if k < |s.sends| { assert AlikeAt(n, s, t, k); AlikePhase(n, s, t, k, Leaving(Cancelled)); }
    case SeeDone(k) =>
      if k < |s.sends| { assert AlikeAt(n, s, t, k); AlikePhase(n, s, t, k, Leaving(ReadLoopEnded)); }
    case ReadFails => AlikeReader(n, s, t, Failing);
    case FailPending =>
      AlikeReader(n, s, t, Ending);
      AlikeCloseAll(n, s.(reader := Ending), t.(reader := Ending));
    case EndReadLoop => AlikeReader(n, s, t, Ended);
    case Close => AlikeCloseAll(n, s, t);
  }

  lemma {:induction false} AlikeRun(n: nat, s: State, t: State, actions: seq<Action>)
    requires Alike(n, s, t)
    ensures SameEffect(n, Run(s, actions), Run(t, actions))
    decreases actions
  {
    if actions != [] {
      hide Step, Alike;
      AlikeStep(n, s, t, actions[0]);
      if Step(s, actions[0]).Next? {
        AlikeRun(n, Step(s, actions[0]).state, Step(t, actions[0]).state, actions[1..]);
      }
    }
  }

  /** Taking an inert response out of a run leaves no trace: the rest of the run can happen just the
      same, and every Send gets the same outcome, an answered one the same response. */
  lemma InertResponseLeavesNoTrace(before: seq<Action>, s: State, resp: Response, after: seq<Action>)
    requires Reached(before, s) && s.reader.Reading? && Inert(s, resp)
    ensures var without, with := Run(INITIAL, before + after), Run(INITIAL, before + [Dispatch(resp)] + after);
            && (without.Next? <==> with.Next?)
            && (without.Next? ==>
                  var u, v := without.state, with.state;
                  && |v.sends| == |u.sends|
                  && (forall k: nat :: k < |u.sends| ==>
                        v.sends[k].id == u.sends[k].id && v.sends[k].phase == ShiftPhase(|s.log|, u.sends[k].phase))
                  && SameLog(|s.log|, u, v))
  {
    var n := |s.log|;
    InertResponse(before, s, resp);
    var t := Step(s, Dispatch(resp)).state;
    InertIsAlike(before, s, resp);
    AlikeRun(n, s, t, after);
    RunAppend(INITIAL, before, after);
    RunAppend(INITIAL, before, [Dispatch(resp)] + after);
    assert before + [Dispatch(resp)] + after == before + ([Dispatch(resp)] + after);
    assert ([Dispatch(resp)] + after)[1..] == after;
    assert Run(s, [Dispatch(resp)] + after) == Run(t, after);
    if Run(s, after).Next? {
      var u, v := Run(s, after).state, Run(t, after).state;
      forall k: nat | k < |u.sends|
        ensures v.sends[k].id == u.sends[k].id && v.sends[k].phase == ShiftPhase(n, u.sends[k].phase)
      {
        assert AlikeAt(n, u, v, k);
      }
    }
  }

  lemma InertIsAlike(before: seq<Action>, s: State, resp: Response)
    requires Reached(before, s) && s.reader.Reading? && Inert(s, resp)
    ensures Step(s, Dispatch(resp)).Next? && Alike(|s.log|, s, Step(s, Dispatch(resp)).state)
  {
    RunKeepsInv(INITIAL, before);
    InertResponse(before, s, resp);
    var t := Step(s, Dispatch(resp)).state;
    if resp.id in s.pending { assert EntryOk(s, resp.id); }
    forall k: nat | k < |s.sends| ensures AlikeAt(|s.log|, s, t, k) {
      if s.chans[k].buffer.Some? {
        assert Holds(s, k, s.chans[k].buffer.value);
      }
      if s.sends[k].phase.Decided() && s.sends[k].phase.outcome.Answered? {
        assert Holds(s, k, s.sends[k].phase.outcome.ref);
      }
    }
  }

  /** Once a Send has its outcome, no later step changes it. */
  lemma {:induction false} OutcomesAreFinal(s: State, actions: seq<Action>, k: nat, o: Outcome)
    requires k < |s.sends| && s.sends[k].phase.Has(o) && Run(s, actions).Next?
    ensures k < |Run(s, actions).state.sends| && Run(s, actions).state.sends[k].phase.Has(o)
    decreases actions
  {
    if actions != [] {
      var t := Step(s, actions[0]).state;
      assert k < |t.sends| && t.sends[k].phase.Has(o);
      OutcomesAreFinal(t, actions[1..], k, o);
    }
  }

  /** After `closed` is set no Send registers any more, in any continuation. */
  lemma {:induction false} ClosedForEver(s: State, actions: seq<Action>)
    requires Inv(s) && s.closed && Run(s, actions).Next?
    ensures var t := Run(s, actions).state;
            && t.closed && t.pending == map[] && |t.sends| >= |s.sends|
            && forall k: nat :: k < |t.sends| && t.sends[k].phase.Pending() ==>
                 k < |s.sends| && s.sends[k].phase.Pending()
    decreases actions
  {
    if actions != [] {
      StepKeepsInv(s, actions[0]);
      ClosedForEver(Step(s, actions[0]).state, actions[1..]);
    }
  }

  predicate HasExit(s: State, k: nat) {
    Step(s, Receive(k)).Next? || Step(s, SeeDone(k)).Next?
  }

  /** Once the read loop has ended every waiting Send can return. Once `closed` is set every
      waiting Send can return as long as ids have not wrapped around. */
  lemma WaitingSendsCanReturn(actions: seq<Action>, s: State, k: nat)
    requires Reached(actions, s) && k < |s.sends| && s.sends[k].phase.Waiting?
    requires s.reader.Ended? || (s.closed && |s.sends| <= ID_SPACE)
    ensures HasExit(s, k)
  {
    RunKeepsInv(INITIAL, actions);
    assert SendOk(s, k);
  }

  /** What Close does to a reached state: no Send is pending, every waiting one can return, and those
      that have not registered yet are refused. */
  lemma CloseReleasesAll(actions: seq<Action>, s: State, k: nat)
    requires Reached(actions, s) && k < |s.sends|
    ensures Step(s, Close).Next?
    ensures var t := Step(s, Close).state;
            && t.closed && t.pending == map[] && t.sends == s.sends && |t.chans| == |t.sends|
            && (forall id <- s.pending :: s.pending[id] < |t.chans| && !t.chans[s.pending[id]].open)
            && (t.sends[k].phase.Waiting? && |s.sends| <= ID_SPACE ==> HasExit(t, k))
            && (t.sends[k].phase.Allocated? ==> Step(t, Register(k)) == Next(SetPhase(t, k, Returned(Refused))))
  {
    RunKeepsInv(INITIAL, actions);
    StepKeepsInv(s, Close);
    var t := Step(s, Close).state;
    assert SendOk(t, k);
    forall id <- s.pending ensures s.pending[id] < |t.chans| && !t.chans[s.pending[id]].open {
      assert EntryOk(s, id);
      if !s.closed { assert s.pending[id] in s.pending.Values; }
    }
  }

  lemma ReaderSteps(s: State)
    requires Inv(s)
    ensures s.reader.Reading? ==> Step(s, ReadFails) == Next(s.(reader := Failing))
    ensures s.reader.Failing? ==>
      && Step(s, FailPending).Next?
      && var t := Step(s, FailPending).state;
         t.reader == Ending && t.sends == s.sends
    ensures s.reader.Ending? ==> Step(s, EndReadLoop) == Next(s.(reader := Ended))
  {
    CloseAllKeepsInv(s, Ending);
  }

  lemma ExitsAtEnd(s: State, k: nat)
    requires Inv(s) && s.reader.Ended? && k < |s.sends|
    ensures s.closed && (s.sends[k].phase.Waiting? ==> HasExit(s, k))
  {
    assert SendOk(s, k);
  }

  /** The read loop can end from every reached state, and then every waiting Send can return. */
  lemma ReadLoopCanEnd(actions: seq<Action>, s: State, k: nat) returns (rest: seq<Action>)
    requires Reached(actions, s) && k < |s.sends|
    ensures Run(s, rest).Next?
    ensures var t := Run(s, rest).state;
            t.reader.Ended? && t.closed && t.sends == s.sends && (t.sends[k].phase.Waiting? ==> HasExit(t, k))
  {
    RunKeepsInv(INITIAL, actions);
    rest := [];
    var t := s;
    assert Run(s, rest) == Next(t);
    hide Inv, Step, Run, HasExit;
    if t.reader.Reading? {
      ReaderSteps(t);
      rest, t := RunOneMore(s, rest, t, ReadFails);
    }
    if t.reader.Failing? {
      ReaderSteps(t);
      rest, t := RunOneMore(s, rest, t, FailPending);
    }
    if t.reader.Ending? {
      ReaderSteps(t);
      rest, t := RunOneMore(s, rest, t, EndReadLoop);
    }
    ExitsAtEnd(t, k);
  }

  lemma RunOneMore(s: State, rest: seq<Action>, t: State, a: Action) returns (more: seq<Action>, u: State)
    requires Run(s, rest) == Next(t) && Inv(t) && Step(t, a).Next?
    ensures more == rest + [a] && Step(t, a) == Next(u) && Run(s, more) == Next(u) && Inv(u)
  {
    RunAppend(s, rest, [a]);
    assert [a][1..] == [];
    StepKeepsInv(t, a);
    more, u := rest + [a], Step(t, a).state;
  }

  // ----- Why a Send has its outcome

  predicate Concerns(a: Action, k: nat) {
    !a.Begin? && !a.Dispatch? && !a.ReadFails? && !a.FailPending? && !a.EndReadLoop? && !a.Close? && a.k == k
  }

  /** How far Send k is, and its outcome, from the steps taken for it */
  ghost predicate Caused(actions: seq<Action>, s: State, k: nat)
    requires k < |s.sends| && k < |s.chans|
  {
    var p := s.sends[k].phase;
    && (p.Allocated? <==> Register(k) !in actions)
    && (p.Has(Refused) ==> p.Returned? && s.closed)
    && (p.Has(WriteFailed) <==> Write(k, false) in actions)
    && (p.Waiting? || (p.Decided() && p.outcome != Refused && p.outcome != WriteFailed) <==> Write(k, true) in actions)
    && (p.Decided() && (p.outcome.Answered? || p.outcome == ClosedDuringRequest) <==> Receive(k) in actions)
    && (p.Has(ClosedDuringRequest) ==> !s.chans[k].open)
    && (!s.chans[k].open ==> s.closed)
    && (p.Has(Cancelled) <==> Cancel(k) in actions)
    && (p.Has(ReadLoopEnded) <==> SeeDone(k) in actions)
    && (p.Has(ReadLoopEnded) ==> s.reader.Ended?)
    && (p.Returned? && p.outcome != Refused <==> Deregister(k) in actions)
  }

  ghost predicate AllCaused(actions: seq<Action>, s: State) {
    && |s.chans| == |s.sends|
    && (forall k: nat :: k < |s.sends| ==> Caused(actions, s, k))
    && (forall a, k: nat :: a in actions && Concerns(a, k) ==> k < |s.sends|)
  }

  lemma CausedFrame(actions: seq<Action>, s: State, a: Action, t: State, k: nat)
    requires k < |s.sends| == |s.chans| && k < |t.sends| && k < |t.chans| && Caused(actions, s, k) && !Concerns(a, k)
    requires t.sends[k].phase == s.sends[k].phase && (s.closed ==> t.closed) && (s.reader.Ended? ==> t.reader.Ended?)
    requires t.chans[k].open == s.chans[k].open || (!t.chans[k].open && t.closed)
    ensures Caused(actions + [a], t, k)
  {
    forall b | Concerns(b, k) ensures b in actions + [a] <==> b in actions {
    }
    assert Concerns(Register(k), k) && Concerns(Write(k, true), k) && Concerns(Write(k, false), k);
    assert Concerns(Receive(k), k);
    assert Concerns(Cancel(k), k) && Concerns(SeeDone(k), k) && Concerns(Deregister(k), k);
  }

  lemma CausedOwn(actions: seq<Action>, s: State, a: Action, k: nat)
    requires Inv(s) && k < |s.sends| && Caused(actions, s, k) && Concerns(a, k) && Step(s, a).Next?
    ensures var t := Step(s, a).state; k < |t.sends| && k < |t.chans| && Caused(actions + [a], t, k)
  {
    forall b ensures b in actions + [a] <==> b in actions || b == a {
    }
  }

  lemma AllCausedStep(actions: seq<Action>, s: State, a: Action)
    requires Inv(s) && AllCaused(actions, s) && Step(s, a).Next?
    ensures AllCaused(actions + [a], Step(s, a).state)
  {
    var t := Step(s, a).state;
    forall k: nat | k < |t.sends| ensures k < |t.chans| && Caused(actions + [a], t, k) {
      if k < |s.sends| && Concerns(a, k) {
        CausedOwn(actions, s, a, k);
      } else if k < |s.sends| {
        StepElsewhere(s, a, k);
        CausedFrame(actions, s, a, t, k);
      } else {
        assert a == Begin && t.sends[k].phase == Allocated && t.chans[k].open;
        assert forall b :: b in actions + [a] && Concerns(b, k) ==> b in actions;
        assert Concerns(Register(k), k) && Concerns(Write(k, true), k) && Concerns(Write(k, false), k);
        assert Concerns(Receive(k), k);
        assert Concerns(Cancel(k), k) && Concerns(SeeDone(k), k) && Concerns(Deregister(k), k);
      }
    }
  }

  lemma StepElsewhere(s: State, a: Action, k: nat)
    requires |s.chans| == |s.sends| && k < |s.sends| && !Concerns(a, k) && Step(s, a).Next?
    ensures var t := Step(s, a).state;
            && |t.chans| == |t.sends| && k < |t.sends| && t.sends[k].phase == s.sends[k].phase
            && (s.closed ==> t.closed) && (s.reader.Ended? ==> t.reader.Ended?)
            && (t.chans[k].open == s.chans[k].open || (!t.chans[k].open && t.closed))
  {
  }

  /** Every outcome has its cause, and every cause its outcome: a failed write, a cancellation, the
      end of the read loop and what was received decide a Send, each exactly in its own way, and a
      Send whose write succeeded waits until one of the last three does. */
  lemma {:induction false} OutcomesHaveCauses(actions: seq<Action>, s: State)
    requires Reached(actions, s)
    ensures Inv(s) && AllCaused(actions, s)
  {
    RunKeepsInv(INITIAL, actions);
    if actions != [] {
      var n := |actions| - 1;
      var front, a := actions[..n], actions[n];
      assert actions == front + [a];
      RunSplit(INITIAL, front, a);
      var before := Run(INITIAL, front).state;
      OutcomesHaveCauses(front, before);
      AllCausedStep(front, before, a);
    }
  }

  lemma {:induction false} RunSplit(s: State, xs: seq<Action>, a: Action)
    requires Run(s, xs + [a]).Next?
    ensures Run(s, xs).Next? && Step(Run(s, xs).state, a) == Run(s, xs + [a])
    decreases xs
  {
    if xs == [] {
      assert xs + [a] == [a] && [a][1..] == [];
    } else {
      assert (xs + [a])[1..] == xs[1..] + [a];
      RunSplit(Step(s, xs[0]).state, xs[1..], a);
    }
  }

  // ----- The bound on the number of Sends is exact

  function Begins(n: nat): (r: seq<Action>)
    ensures |r| == n
  {
    seq(n, i => Begin)
  }

  function AfterBegins(n: nat): State {
    INITIAL.(nextId := n % ID_SPACE,
             chans := seq(n, i => Channel(true, None)),
             sends := seq(n, i requires 0 <= i => Send((i + 1) % ID_SPACE, 0, Allocated)))
  }

  lemma BeginAfterBegins(n: nat)
    ensures Step(AfterBegins(n), Begin) == Next(AfterBegins(n + 1))
  {
    NextIdOf(n);
    var t := Step(AfterBegins(n), Begin).state;
    assert t.chans == AfterBegins(n + 1).chans;
    assert t.sends == AfterBegins(n + 1).sends;
  }

  lemma {:induction false} RunBegins(n: nat)
    ensures Run(INITIAL, Begins(n)) == Next(AfterBegins(n))
  {
    if n == 0 {
      assert AfterBegins(0).chans == [] && AfterBegins(0).sends == [];
    } else {
      hide Step, AfterBegins;
      RunBegins(n - 1);
      RunAppend(INITIAL, Begins(n - 1), [Begin]);
      assert Begins(n) == Begins(n - 1) + [Begin];
      BeginAfterBegins(n - 1);
      assert [Begin][1..] == [];
    }
  }

  /** Past 2^64 Sends two can hold one id; the later entry hides the earlier channel from
      Close, and that Send is left without an exit until the read loop ends. */
  lemma WrapAroundStrandsASend(n: nat) returns (actions: seq<Action>, s: State)
    requires n > ID_SPACE
    ensures Reached(actions, s) && |s.sends| == n && s.closed
    ensures s.sends[0].phase.Waiting? && !HasExit(s, 0)
  {
    RunBegins(n);
    var s0 := AfterBegins(n);
    var s1 := Step(s0, Register(0)).state;
    var s2 := Step(s1, Write(0, true)).state;
    var s3 := Step(s2, Register(ID_SPACE)).state;
    assert s3.pending == map[1 := ID_SPACE];
    s := Step(s3, Close).state;
    var tail := [Register(0), Write(0, true), Register(ID_SPACE), Close];
    assert Run(s3, tail[3..]) == Step(s3, Close);
    assert Run(s2, tail[2..]) == Run(s3, tail[2..][1..]);
    assert Run(s1, tail[1..]) == Run(s2, tail[1..][1..]);
    assert Run(s0, tail) == Run(s1, tail[1..]);
    RunAppend(INITIAL, Begins(n), tail);
    actions := Begins(n) + tail;
  }

  /** Past 2^64 Sends an answer can get lost as well: it goes to the later Send with the same id, and
      the earlier one waits on an open, empty channel. */
  lemma WrapAroundLosesAnAnswer(n: nat) returns (actions: seq<Action>, s: State)
    requires n > ID_SPACE
    ensures Reached(actions, s) && |s.sends| == |s.chans| == n && |s.log| == 1
    ensures s.sends[0].phase.Waiting? && s.chans[0] == Channel(true, None)
    ensures s.sends[0].since == 0 && s.log[0].id == s.sends[0].id
  {
    RunBegins(n);
    var s0 := AfterBegins(n);
    var s1 := Step(s0, Register(0)).state;
    var s2 := Step(s1, Write(0, true)).state;
    var s3 := Step(s2, Register(ID_SPACE)).state;
    assert s3.pending == map[1 := ID_SPACE];
    var resp := Response(1, 200);
    s := Step(s3, Dispatch(resp)).state;
    var tail := [Register(0)] + ([Write(0, true)] + ([Register(ID_SPACE)] + ([Dispatch(resp)] + [])));
    RunCons(s3, Dispatch(resp), []);
    RunCons(s2, Register(ID_SPACE), [Dispatch(resp)] + []);
    RunCons(s1, Write(0, true), [Register(ID_SPACE)] + ([Dispatch(resp)] + []));
    RunCons(s0, Register(0), [Write(0, true)] + ([Register(ID_SPACE)] + ([Dispatch(resp)] + [])));
    RunAppend(INITIAL, Begins(n), tail);
    actions := Begins(n) + tail;
  }

  // ----- The client object

  /** Half-way through closing: what is left in `pending` can still be closed, and exactly the
      channels that have left it are closed. */
  ghost predicate Closing(all: map<nat, nat>, before: seq<Channel>, pending: map<nat, nat>, chans: seq<Channel>) {
    && CanCloseAll(pending, chans)
    && pending.Values <= all.Values
    && chans == ClosedChannels(before, all.Values - pending.Values)
  }

  lemma RemoveEntry(pending: map<nat, nat>, id: nat)
    requires id in pending
    requires forall i <- pending :: pending[i] == pending[id] ==> i == id
    ensures (pending - {id}).Values == pending.Values - {pending[id]}
  {
    var rest := pending - {id};
    forall v | v in pending.Values - {pending[id]} ensures v in rest.Values {
      var i :| i in pending && pending[i] == v;
      assert i in rest && rest[i] == v;
    }
  }

  lemma CloseOneMore(all: map<nat, nat>, before: seq<Channel>, pending: map<nat, nat>, chans: seq<Channel>, id: nat)
    requires Closing(all, before, pending, chans) && id in pending
    ensures var c := pending[id];
            Closing(all, before, pending - {id}, chans[c := chans[c].(open := false)])
  {
    var c, rest := pending[id], pending - {id};
    RemoveEntry(pending, id);
    assert c in pending.Values;
    assert CanCloseAll(rest, chans[c := chans[c].(open := false)]);
    assert chans[c := chans[c].(open := false)] == ClosedChannels(before, all.Values - rest.Values);
  }

  class Client {
    var nextId: nat
    var pending: map<nat, nat>
    var closed: bool
    var chans: seq<Channel>
    var sends: seq<Send>
    var reader: Reader
    var log: seq<Response>

    ghost function Now(): State
      reads this
    {
      State(nextId, pending, closed, chans, sends, reader, log)
    }

    constructor ()
      ensures Now() == INITIAL && Inv(Now())
    {
      nextId, pending, closed := 0, map[], false;
      chans, sends, reader, log := [], [], Reading, [];
    }

    /** close(ch): the precondition is what keeps Go from panicking. */
    method CloseChannel(c: nat)
      requires c < |chans| && chans[c].open
      modifies this`chans
      ensures chans == old(chans)[c := old(chans)[c].(open := false)]
    {
      chans := chans[c := chans[c].(open := false)];
    }

    /** The head of Send: a fresh id and a fresh channel. */
    method SendBegin() returns (k: nat)
      requires Inv(Now())
      modifies this
      ensures k == |old(sends)| && |sends| == k + 1 && |chans| == k + 1
      ensures sends[k].phase == Allocated && chans[k] == Channel(true, None)
      ensures Step(old(Now()), Begin) == Next(Now()) && Inv(Now())
    {
      k := |sends|;
      nextId := (nextId + 1) % ID_SPACE;
      sends := sends + [Send(nextId, 0, Allocated)];
      chans := chans + [Channel(true, None)];
      StepKeepsInv(old(Now()), Begin);
    }

    /** Send's first critical section. */
    method SendRegister(k: nat) returns (refused: bool)
      requires Inv(Now()) && InPhase(Now(), k, Allocated)
      modifies this
      ensures refused == old(closed)
      ensures Step(old(Now()), Register(k)) == Next(Now()) && Inv(Now())
    {
      if closed {
        sends := sends[k := sends[k].(phase := Returned(Refused))];
        refused := true;
      } else {
        sends := sends[k := sends[k].(since := |log|, phase := Registered)];
        pending := pending[sends[k].id := k];
        refused := false;
      }
      StepKeepsInv(old(Now()), Register(k));
    }

    /** Send's deferred critical section. */
    method SendDeregister(k: nat)
      requires Inv(Now()) && k < |sends| && sends[k].phase.Leaving?
      modifies this
      ensures Step(old(Now()), Deregister(k)) == Next(Now()) && Inv(Now())
    {
      pending := pending - {sends[k].id};
      sends := sends[k := sends[k].(phase := Returned(sends[k].phase.outcome))];
      StepKeepsInv(old(Now()), Deregister(k));
    }

    method DispatchResponse(resp: Response)
      requires Inv(Now()) && reader.Reading?
      modifies this
      ensures Step(old(Now()), Dispatch(resp)) == Next(Now()) && Inv(Now())
    {
      StepKeepsInv(Now(), Dispatch(resp));
      log := log + [resp];
      if resp.id !in pending {
        return;
      }
      var c := pending[resp.id];
      if chans[c].buffer.None? {
        chans := chans[c := chans[c].(buffer := Some(|log| - 1))];
      }
    }

    /** The loop that Close and failPending share. */
    method CloseEveryPending()
      requires CanCloseAll(pending, chans)
      modifies this`pending, this`chans
      ensures pending == map[]
      ensures chans == ClosedChannels(old(chans), old(pending).Values)
    {
      ghost var all, before := pending, chans;
      assert chans == ClosedChannels(chans, {});
      while pending != map[]
        invariant Closing(all, before, pending, chans)
        decreases |pending|
      {
        var id :| id in pending.Keys;
        CloseOneMore(all, before, pending, chans, id);
        CloseChannel(pending[id]);
        pending := pending - {id};
      }
    }

    method FailPendingSends()
      requires Inv(Now()) && reader.Failing?
      modifies this
      ensures Step(old(Now()), FailPending) == Next(Now()) && Inv(Now())
      ensures closed && pending == map[] && sends == old(sends) && |chans| == |sends|
      ensures forall id <- old(pending) :: old(pending)[id] < |chans| && !chans[old(pending)[id]].open
    {
      StepKeepsInv(Now(), FailPending);
      closed := true;
      CloseEveryPending();
      reader := Ending;
    }

    /** Close's critical section. */
    method CloseClient()
      requires Inv(Now())
      modifies this
      ensures Step(old(Now()), Close) == Next(Now()) && Inv(Now())
      ensures closed && pending == map[] && sends == old(sends) && |chans| == |sends|
      ensures forall id <- old(pending) :: old(pending)[id] < |chans| && !chans[old(pending)[id]].open
    {
      StepKeepsInv(Now(), Close);
      if closed {
        return;
      }
      closed := true;
      CloseEveryPending();
    }
  }
}
