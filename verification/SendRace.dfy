/** Any number of sends to one recipient at once (pkg/signal/send.go). They share the cached device
    list, under its mutex, and the session store; every access to either, every encryption and
    every PUT is one atomic step, and a run is any interleaving. */
module SendRace {
  import opened Wrappers
  import opened Delivery

  /** How far a send has come; `next` counts the devices dealt with in a loop, `caches` is whether
      the list was discovered and is still to be cached, `again` whether this is the retry. */
  datatype Phase =
    | Starting
    | Discovering
    | Ensuring(addrs: seq<Address>, next: nat, caches: bool)
    | Encrypting(addrs: seq<Address>, next: nat, again: bool)
    | Dropping(addrs: seq<Address>, missing: seq<DeviceId>, extra: seq<DeviceId>, next: nat)
    | Adding(addrs: seq<Address>, missing: seq<DeviceId>, extra: seq<DeviceId>, next: nat)
    | Delivered
    | Refused(again: bool)
    | SessionLost
    | Failed

  datatype State = State(cache: Option<seq<DeviceId>>, sessions: set<Address>, sends: seq<Phase>, puts: nat)

  datatype Action =
    | Begin
    | ReadCache(k: nat)
    | Discover(k: nat, ids: seq<DeviceId>)
    | EnsureNext(k: nat)
    | EncryptNext(k: nat)
    | PutMessages(k: nat)
    | DropNext(k: nat)
    | AddNext(k: nat)
    | Fail(k: nat)

  const INITIAL := State(None, {}, [], 0)

  function Set(s: State, k: nat, p: Phase): State
    requires k < |s.sends|
  {
    s.(sends := s.sends[k := p])
  }

  function Put(w: World, aci: Aci, s: State, k: nat, addrs: seq<Address>, again: bool): State
    requires k < |s.sends|
  {
    if addrs == [] then Set(s, k, Refused(again))
    else
      var t := s.(puts := s.puts + 1);
      match w.put(s.puts, aci, Devices(addrs))
      case Accepted => Set(t, k, Delivered)
      case Conflict(missing, extra) => Set(t, k, if again then Refused(again) else Dropping(addrs, missing, extra, 0))
      case _ => Set(t, k, Refused(again))
  }

  /** None when the send is not at that point; a failure of any kind may happen at any point. */
  function Step(w: World, aci: Aci, s: State, a: Action): Option<State> {
    if a.Begin? then Some(s.(sends := s.sends + [Starting]))
    else if a.k >= |s.sends| then None
    else
      var k := a.k;
      match (a, s.sends[k])
      case (ReadCache(_), Starting) =>
        Some(Set(s, k, if s.cache.None? then Discovering else Ensuring(Addresses(aci, s.cache.value), 0, false)))
      case (Discover(_, ids), Discovering) =>
        if ids == [] then Some(Set(s, k, Failed)) else Some(Set(s, k, Ensuring(Addresses(aci, ids), 0, true)))
      case (EnsureNext(_), Ensuring(addrs, i, caches)) =>
        if i < |addrs| then Some(Set(s.(sessions := s.sessions + {addrs[i]}), k, Ensuring(addrs, i + 1, caches)))
        else
          var t := if caches then s.(cache := Some(Devices(addrs))) else s;
          Some(Set(t, k, Encrypting(addrs, 0, false)))
      case (EncryptNext(_), Encrypting(addrs, i, again)) =>
        if i >= |addrs| then None
        else Some(Set(s, k, if addrs[i] in s.sessions then Encrypting(addrs, i + 1, again) else SessionLost))
      case (PutMessages(_), Encrypting(addrs, i, again)) =>
        if i < |addrs| then None else Some(Put(w, aci, s, k, addrs, again))
      case (DropNext(_), Dropping(addrs, missing, extra, i)) =>
        if i < |extra|
        then Some(Set(s.(sessions := s.sessions - {Address(aci, extra[i])}), k, Dropping(addrs, missing, extra, i + 1)))
        else Some(Set(s, k, Adding(addrs, missing, extra, 0)))
      case (AddNext(_), Adding(addrs, missing, extra, i)) =>
        if i < |missing|
        then Some(Set(s.(sessions := s.sessions + {Address(aci, missing[i])}), k, Adding(addrs, missing, extra, i + 1)))
        else
          var fixed := Repaired(aci, addrs, missing, extra);
          Some(Set(s.(cache := Some(Devices(fixed))), k, Encrypting(fixed, 0, true)))
      case (Fail(_), p) => if Finished(p) then None else Some(Set(s, k, Failed))
      case _ => None
  }

  predicate Finished(p: Phase) {
    p.Delivered? || p.Refused? || p.SessionLost? || p.Failed?
  }

  function Run(w: World, aci: Aci, s: State, actions: seq<Action>): Option<State>
    decreases actions
  {
    if actions == [] then Some(s)
    else
      match Step(w, aci, s, actions[0])
      case None => None
      case Some(t) => Run(w, aci, t, actions[1..])
  }

  /** The server lists every device at most once. */
  ghost predicate Sane(actions: seq<Action>) {
    forall i :: 0 <= i < |actions| && actions[i].Discover? ==> NoDup(actions[i].ids)
  }

  // ----- The invariant

  ghost predicate ListOk(devices: set<DeviceId>, ids: seq<DeviceId>) {
    NoDup(ids) && (devices != {} ==> ids != [])
  }

  ghost predicate AddrsOk(aci: Aci, devices: set<DeviceId>, addrs: seq<Address>) {
    AllOf(addrs, aci) && NoDup(addrs) && ListOk(devices, Devices(addrs))
  }

  /** Missing and extra are the difference between the server's set and the list. */
  ghost predicate Differs(devices: set<DeviceId>, addrs: seq<Address>, missing: seq<DeviceId>, extra: seq<DeviceId>) {
    && NoDup(missing)
    && AsSet(missing) == devices - AsSet(Devices(addrs))
    && AsSet(extra) == AsSet(Devices(addrs)) - devices
  }

  ghost predicate PhaseOk(aci: Aci, devices: set<DeviceId>, p: Phase) {
    match p
    case Ensuring(addrs, _, _) => AddrsOk(aci, devices, addrs)
    case Encrypting(addrs, _, again) =>
      AddrsOk(aci, devices, addrs) && (again ==> AsSet(Devices(addrs)) == devices)
    case Dropping(addrs, missing, extra, _) => AddrsOk(aci, devices, addrs) && Differs(devices, addrs, missing, extra)
    case Adding(addrs, missing, extra, _) => AddrsOk(aci, devices, addrs) && Differs(devices, addrs, missing, extra)
    case Refused(_) => devices == {}
    case _ => true
  }

  ghost predicate Inv(aci: Aci, devices: set<DeviceId>, s: State) {
    && (s.cache.Some? ==> ListOk(devices, s.cache.value))
    && forall k :: 0 <= k < |s.sends| ==> PhaseOk(aci, devices, s.sends[k])
  }

  lemma AddressesOk(aci: Aci, devices: set<DeviceId>, ids: seq<DeviceId>)
    requires ListOk(devices, ids)
    ensures AddrsOk(aci, devices, Addresses(aci, ids))
  {
    AddedAddresses(aci, ids);
  }

  /** Whatever other sends do in between, the list a send repairs is exactly the server's set. */
  lemma RepairedOk(aci: Aci, devices: set<DeviceId>, addrs: seq<Address>, missing: seq<DeviceId>, extra: seq<DeviceId>)
    requires AddrsOk(aci, devices, addrs) && Differs(devices, addrs, missing, extra)
    ensures var fixed := Repaired(aci, addrs, missing, extra);
            AddrsOk(aci, devices, fixed) && AsSet(Devices(fixed)) == devices
  {
    hide Repaired;
    RepairHitsTheSet(aci, addrs, missing, extra, devices);
  }

  lemma PutOk(w: World, aci: Aci, devices: set<DeviceId>, s: State, k: nat, addrs: seq<Address>, again: bool)
    requires FixedServer(w, aci, devices) && Inv(aci, devices, s) && k < |s.sends|
    requires AddrsOk(aci, devices, addrs) && (again ==> AsSet(Devices(addrs)) == devices)
    ensures Inv(aci, devices, Put(w, aci, s, k, addrs, again))
  {
    if again {
      FixedServerAccepts(w, aci, devices, s.puts, Devices(addrs));
    }
  }

  lemma StepKeepsInv(w: World, aci: Aci, devices: set<DeviceId>, s: State, a: Action)
    requires FixedServer(w, aci, devices) && Inv(aci, devices, s)
    requires Step(w, aci, s, a).Some? && (a.Discover? ==> NoDup(a.ids))
    ensures Inv(aci, devices, Step(w, aci, s, a).value)
  {
    if a.Begin? {
      return;
    }
    hide FixedServer, NoDup, AllOf, Addresses, Devices, Repaired, Put;
    var p := s.sends[a.k];
    assert PhaseOk(aci, devices, p);
    match (a, p) {
      case (ReadCache(_), Starting) => if s.cache.Some? { AddressesOk(aci, devices, s.cache.value); }
      case (Discover(_, ids), Discovering) => if ids != [] { AddressesOk(aci, devices, ids); }
      case (PutMessages(_), Encrypting(addrs, _, again)) => PutOk(w, aci, devices, s, a.k, addrs, again);
      case (AddNext(_), Adding(addrs, missing, extra, _)) => RepairedOk(aci, devices, addrs, missing, extra);
      case _ =>
    }
  }

  lemma {:induction false} RunKeepsInv(w: World, aci: Aci, devices: set<DeviceId>, s: State, actions: seq<Action>)
    requires FixedServer(w, aci, devices) && Inv(aci, devices, s)
    requires Sane(actions) && Run(w, aci, s, actions).Some?
    ensures Inv(aci, devices, Run(w, aci, s, actions).value)
    decreases actions
  {
    if actions != [] {
      hide Step, Inv, FixedServer;
      StepKeepsInv(w, aci, devices, s, actions[0]);
      RunKeepsInv(w, aci, devices, Step(w, aci, s, actions[0]).value, actions[1..]);
    }
  }

  // ----- What holds of every interleaving

  ghost predicate Reached(w: World, aci: Aci, actions: seq<Action>, s: State) {
    Sane(actions) && Run(w, aci, INITIAL, actions) == Some(s)
  }

  lemma ReachedIsOk(w: World, aci: Aci, devices: set<DeviceId>, actions: seq<Action>, s: State)
    requires FixedServer(w, aci, devices) && Reached(w, aci, actions, s)
    ensures Inv(aci, devices, s)
  {
    RunKeepsInv(w, aci, devices, INITIAL, actions);
  }

  /** However sends interleave, a retry is never refused, and no send is left without devices: each
      has its own list to repair. */
  lemma RetriesAreAccepted(w: World, aci: Aci, devices: set<DeviceId>, actions: seq<Action>, s: State, k: nat)
    requires FixedServer(w, aci, devices) && devices != {} && Reached(w, aci, actions, s) && k < |s.sends|
    ensures !s.sends[k].Refused?
  {
    ReachedIsOk(w, aci, devices, actions, s);
    assert PhaseOk(aci, devices, s.sends[k]);
  }

  ghost predicate CacheIsRight(devices: set<DeviceId>, s: State) {
    s.cache.Some? && NoDup(s.cache.value) && AsSet(s.cache.value) == devices
  }

  /** Whether the step caches a list that was discovered */
  predicate CachesDiscovered(s: State, a: Action) {
    a.EnsureNext? && a.k < |s.sends| && s.sends[a.k].Ensuring? && s.sends[a.k].caches
      && s.sends[a.k].next >= |s.sends[a.k].addrs|
  }

  /** Whether the step caches a repaired list */
  predicate CachesRepaired(s: State, a: Action) {
    a.AddNext? && a.k < |s.sends| && s.sends[a.k].Adding? && s.sends[a.k].next >= |s.sends[a.k].missing|
  }

  /** The last write to the cache wins. A repaired list is always the server's set, whichever send
      repaired it; only a list discovered earlier and cached later can put another one back. */
  lemma CacheAfterStep(w: World, aci: Aci, devices: set<DeviceId>, actions: seq<Action>, s: State, a: Action)
    requires FixedServer(w, aci, devices) && Reached(w, aci, actions, s) && Step(w, aci, s, a).Some?
    ensures var t := Step(w, aci, s, a).value;
            && (CachesRepaired(s, a) ==> CacheIsRight(devices, t))
            && (CachesDiscovered(s, a) ==> t.cache == Some(Devices(s.sends[a.k].addrs)))
            && (!CachesRepaired(s, a) && !CachesDiscovered(s, a) ==> t.cache == s.cache)
  {
    ReachedIsOk(w, aci, devices, actions, s);
    hide FixedServer, NoDup, AllOf, Addresses, Devices, Repaired;
    if CachesRepaired(s, a) {
      var p := s.sends[a.k];
      assert PhaseOk(aci, devices, p);
      RepairedOk(aci, devices, p.addrs, p.missing, p.extra);
    }
  }

  /** In every reachable state the cached list is one from which a send on its own converges. */
  method LaterSendConverges(c: Client, aci: Aci, path: Path, devices: set<DeviceId>, ghost actions: seq<Action>, s: State)
    returns (err: Option<Error>)
    requires FixedServer(c.world, aci, devices) && devices != {} && Reached(c.world, aci, actions, s)
    requires if s.cache.Some? then aci in c.known && c.known[aci] == s.cache.value else aci !in c.known
    requires forall n: nat :: c.world.fetchAll(n, aci).Some? ==> NoDup(c.world.fetchAll(n, aci).value)
    modifies c
    ensures |old(c.puts)| <= |c.puts| && c.Converged(aci, devices, |old(c.puts)|, err)
  {
    ReachedIsOk(c.world, aci, devices, actions, s);
    hide FixedServer;
    err := c.SendContent(aci, path);
  }

  // ----- A send on its own

  ghost predicate Holds(s: State, addrs: seq<Address>) {
    forall a <- addrs :: a in s.sessions
  }

  ghost predicate HoldsKept(s: State, addrs: seq<Address>, extra: seq<DeviceId>) {
    forall a <- addrs :: a.device !in extra ==> a in s.sessions
  }

  /** What a send that nobody interferes with can rely on at each point. It is never refused and
      never misses a session, and once delivered the cache and the sessions are right. */
  ghost predicate Alone(aci: Aci, devices: set<DeviceId>, s: State, p: Phase) {
    match p
    case Ensuring(addrs, i, caches) =>
      i <= |addrs| && Holds(s, addrs[..i]) && (!caches ==> s.cache == Some(Devices(addrs)))
    case Encrypting(addrs, i, _) => i <= |addrs| && Holds(s, addrs) && s.cache == Some(Devices(addrs))
    case Dropping(addrs, _, extra, i) => i <= |extra| && HoldsKept(s, addrs, extra)
    case Adding(addrs, missing, extra, i) =>
      i <= |missing| && HoldsKept(s, addrs, extra) && Holds(s, Addresses(aci, missing)[..i])
    case Delivered => CacheIsRight(devices, s) && forall d <- devices :: Address(aci, d) in s.sessions
    case _ => !Finished(p)
  }

  /** The steps a send has left, in the order of its phases */
  function Stage(p: Phase): nat {
    match p
    case Starting => 7
    case Discovering => 6
    case Ensuring(_, _, _) => 5
    case Encrypting(_, _, again) => if again then 1 else 4
    case Dropping(_, _, _, _) => 3
    case Adding(_, _, _, _) => 2
    case _ => 0
  }

  function Left(p: Phase): int {
    match p
    case Ensuring(addrs, i, _) => |addrs| - i
    case Encrypting(addrs, i, _) => |addrs| - i
    case Dropping(_, _, extra, i) => |extra| - i
    case Adding(_, missing, _, i) => |missing| - i
    case _ => 0
  }

  predicate Nearer(p: Phase, q: Phase) {
    Stage(q) < Stage(p) || (Stage(q) == Stage(p) && Left(q) < Left(p))
  }

  /** The PUTs a send still has */
  function PutsLeft(p: Phase): nat {
    if Stage(p) >= 4 then 2 else if Stage(p) >= 1 then 1 else 0
  }

  /** A step of send k that is no failure, discovering at least one device if it discovers */
  ghost predicate Works(k: nat, a: Action) {
    !a.Begin? && !a.Fail? && a.k == k && (a.Discover? ==> NoDup(a.ids) && a.ids != [])
  }

  lemma PutAlone(w: World, aci: Aci, devices: set<DeviceId>, s: State, k: nat, addrs: seq<Address>, again: bool)
    requires FixedServer(w, aci, devices) && devices != {} && k < |s.sends|
    requires PhaseOk(aci, devices, Encrypting(addrs, |addrs|, again))
    requires Alone(aci, devices, s, Encrypting(addrs, |addrs|, again))
    ensures var t := Put(w, aci, s, k, addrs, again);
            && Alone(aci, devices, t, t.sends[k]) && Nearer(Encrypting(addrs, |addrs|, again), t.sends[k])
            && t.sends == s.sends[k := t.sends[k]]
            && t.puts + PutsLeft(t.sends[k]) <= s.puts + PutsLeft(Encrypting(addrs, |addrs|, again))
  {
    var reply := w.put(s.puts, aci, Devices(addrs));
    if again { FixedServerAccepts(w, aci, devices, s.puts, Devices(addrs)); }
    if reply.Accepted? {
      assert AsSet(Devices(addrs)) == devices;
      DevicesMembers(addrs);
      forall d | d in devices ensures Address(aci, d) in s.sessions {
        var a :| a in addrs && a.device == d;
        assert a == Address(aci, d);
      }
    }
  }

  /** The repaired list is one of sessions held: the kept addresses and the added ones. */
  lemma RepairedIsHeld(aci: Aci, s: State, addrs: seq<Address>, missing: seq<DeviceId>, extra: seq<DeviceId>)
    requires HoldsKept(s, addrs, extra) && Holds(s, Addresses(aci, missing))
    ensures Holds(s, Repaired(aci, addrs, missing, extra))
  {
    hide Addresses;
    KeepMembers(addrs, extra);
  }

  lemma StepAlone(w: World, aci: Aci, devices: set<DeviceId>, s: State, k: nat, a: Action)
    requires FixedServer(w, aci, devices) && devices != {} && Inv(aci, devices, s) && k < |s.sends|
    requires Alone(aci, devices, s, s.sends[k]) && Works(k, a) && Step(w, aci, s, a).Some?
    ensures var t := Step(w, aci, s, a).value;
            && |t.sends| == |s.sends| && Alone(aci, devices, t, t.sends[k]) && Nearer(s.sends[k], t.sends[k])
            && t.sends == s.sends[k := t.sends[k]]
            && t.puts + PutsLeft(t.sends[k]) <= s.puts + PutsLeft(s.sends[k])
  {
    hide FixedServer, NoDup, AllOf, Addresses, Devices, Repaired, Put;
    var p := s.sends[k];
    assert PhaseOk(aci, devices, p);
    match (a, p) {
      case (ReadCache(_), Starting) => if s.cache.Some? { CachedList(aci, devices, s.cache.value); }
      case (PutMessages(_), Encrypting(addrs, _, again)) => PutAlone(w, aci, devices, s, k, addrs, again);
      case (AddNext(_), Adding(addrs, missing, extra, i)) =>
        if i == |missing| {
          assert Addresses(aci, missing)[..i] == Addresses(aci, missing);
          RepairedIsHeld(aci, s, addrs, missing, extra);
        } else {
          NextAddress(aci, missing, i);
        }
      case (EnsureNext(_), Ensuring(addrs, i, _)) =>
        if i == |addrs| {
          assert addrs[..i] == addrs;
        } else {
          assert addrs[..i + 1] == addrs[..i] + [addrs[i]];
        }
      case _ =>
    }
  }

  lemma CachedList(aci: Aci, devices: set<DeviceId>, ids: seq<DeviceId>)
    requires ListOk(devices, ids)
    ensures Devices(Addresses(aci, ids)) == ids
  {
    AddedAddresses(aci, ids);
  }

  lemma NextAddress(aci: Aci, ids: seq<DeviceId>, i: nat)
    requires i < |ids|
    ensures Addresses(aci, ids)[..i + 1] == Addresses(aci, ids)[..i] + [Address(aci, ids[i])]
  {}

  /** A send that is not done has a step to make. */
  lemma NeverStuck(w: World, aci: Aci, devices: set<DeviceId>, s: State, k: nat) returns (a: Action)
    requires devices != {} && k < |s.sends| && !Finished(s.sends[k])
    ensures Works(k, a) && Step(w, aci, s, a).Some?
  {
    match s.sends[k] {
      case Starting => a := ReadCache(k);
      case Discovering =>
        EmptyAsSet(Listed(devices));
        a := Discover(k, Listed(devices));
      case Ensuring(_, _, _) => a := EnsureNext(k);
      case Encrypting(addrs, i, _) => a := if i < |addrs| then EncryptNext(k) else PutMessages(k);
      case Dropping(_, _, _, _) => a := DropNext(k);
      case Adding(_, _, _, _) => a := AddNext(k);
    }
  }

  ghost predicate AllWork(k: nat, own: seq<Action>) {
    forall i :: 0 <= i < |own| ==> Works(k, own[i])
  }

  lemma {:induction false} RunAlone(w: World, aci: Aci, devices: set<DeviceId>, s: State, k: nat, own: seq<Action>)
    requires FixedServer(w, aci, devices) && devices != {} && Inv(aci, devices, s) && k < |s.sends|
    requires Alone(aci, devices, s, s.sends[k]) && AllWork(k, own) && Run(w, aci, s, own).Some?
    ensures var t := Run(w, aci, s, own).value;
            && |t.sends| == |s.sends| && t.sends == s.sends[k := t.sends[k]]
            && Inv(aci, devices, t) && Alone(aci, devices, t, t.sends[k])
            && t.puts + PutsLeft(t.sends[k]) <= s.puts + PutsLeft(s.sends[k])
    decreases own
  {
    if own != [] {
      hide Step, Inv, FixedServer, Alone, PutsLeft;
      var t := Step(w, aci, s, own[0]).value;
      StepKeepsInv(w, aci, devices, s, own[0]);
      StepAlone(w, aci, devices, s, k, own[0]);
      RunAlone(w, aci, devices, t, k, own[1..]);
    }
  }

  lemma {:induction false} FinishAlone(w: World, aci: Aci, devices: set<DeviceId>, s: State, k: nat)
    returns (own: seq<Action>)
    requires FixedServer(w, aci, devices) && devices != {} && Inv(aci, devices, s) && k < |s.sends|
    requires Alone(aci, devices, s, s.sends[k])
    ensures AllWork(k, own) && Run(w, aci, s, own).Some?
    ensures k < |Run(w, aci, s, own).value.sends| && Run(w, aci, s, own).value.sends[k] == Delivered
    decreases Stage(s.sends[k]), Left(s.sends[k])
  {
    if Finished(s.sends[k]) {
      own := [];
    } else {
      hide Step, Inv, FixedServer;
      var a := NeverStuck(w, aci, devices, s, k);
      StepKeepsInv(w, aci, devices, s, a);
      StepAlone(w, aci, devices, s, k, a);
      var rest := FinishAlone(w, aci, devices, Step(w, aci, s, a).value, k);
      own := [a] + rest;
      assert own[1..] == rest;
    }
  }

  /** A send that begins in any reachable state and is left alone: however far it has come, it can
      go on, and when it is done it is delivered, after at most two PUTs. The cached list is then
      the server's set, and there is a session for every device. */
  lemma LoneSendIsDelivered(w: World, aci: Aci, devices: set<DeviceId>, actions: seq<Action>, s: State, own: seq<Action>)
    returns (more: seq<Action>, t: State)
    requires FixedServer(w, aci, devices) && devices != {} && Reached(w, aci, actions, s)
    requires AllWork(|s.sends|, own) && Run(w, aci, s, [Begin] + own).Some?
    ensures AllWork(|s.sends|, more) && Run(w, aci, Run(w, aci, s, [Begin] + own).value, more) == Some(t)
    ensures t.sends == s.sends + [Delivered] && t.puts <= s.puts + 2
    ensures CacheIsRight(devices, t) && forall d <- devices :: Address(aci, d) in t.sessions
    ensures var now := Run(w, aci, s, [Begin] + own).value;
            |now.sends| == |t.sends| && (Finished(now.sends[|s.sends|]) ==> now.sends[|s.sends|] == Delivered)
  {
    var k, begun := |s.sends|, Step(w, aci, s, Begin).value;
    ReachedIsOk(w, aci, devices, actions, s);
    StepKeepsInv(w, aci, devices, s, Begin);
    assert ([Begin] + own)[1..] == own;
    hide FixedServer, Inv;
    RunAlone(w, aci, devices, begun, k, own);
    var now := Run(w, aci, begun, own).value;
    more := FinishAlone(w, aci, devices, now, k);
    RunAlone(w, aci, devices, now, k, more);
    t := Run(w, aci, now, more).value;
  }

  // ----- What only an interleaving can do

  lemma {:induction false} RunSnoc(w: World, aci: Aci, s: State, actions: seq<Action>, a: Action)
    requires Run(w, aci, s, actions).Some?
    ensures Run(w, aci, s, actions + [a]) == Step(w, aci, Run(w, aci, s, actions).value, a)
    decreases actions
  {
    hide Step;
    if actions == [] {
      assert actions + [a] == [a] && [a][1..] == [];
    } else {
      assert (actions + [a])[1..] == actions[1..] + [a];
      RunSnoc(w, aci, Step(w, aci, s, actions[0]).value, actions[1..], a);
    }
  }

  lemma Reach(w: World, aci: Aci, actions: seq<Action>, s: State, a: Action) returns (more: seq<Action>, t: State)
    requires Reached(w, aci, actions, s) && Step(w, aci, s, a).Some? && (a.Discover? ==> NoDup(a.ids))
    ensures more == actions + [a] && t == Step(w, aci, s, a).value && Reached(w, aci, more, t)
  {
    RunSnoc(w, aci, INITIAL, actions, a);
    more, t := actions + [a], Step(w, aci, s, a).value;
  }

  lemma ListedOne(d: DeviceId)
    ensures Listed({d}) == [d] && Listed({}) == []
  {
    var l := Listed({d});
    EmptyAsSet(l);
    forall i | 0 <= i < |l| ensures l[i] == d {
      assert l[i] in AsSet(l);
    }
    EmptyAsSet(Listed({}));
  }

  /** Device 1 is the recipient's only one, and the first PUT goes to devices 1 and 2. */
  ghost function OneDevice(): World {
    World((_, _) => None, (_, _, _) => None, _ => true, _ => true, _ => None, (_, _, targets) => Difference({1}, targets))
  }

  lemma OneDeviceIsFixed(aci: Aci, n: nat)
    ensures FixedServer(OneDevice(), aci, {1})
    ensures OneDevice().put(n, aci, [1, 2]) == Conflict([], [2])
  {
    forall targets: seq<DeviceId> | AsSet(targets) != {1}
      ensures var reply := Difference({1}, targets); reply.missing != [] || reply.extra != []
    {
      EmptyAsSet(Listed({1} - AsSet(targets)));
      EmptyAsSet(Listed(AsSet(targets) - {1}));
    }
    var two: seq<DeviceId> := [1, 2];
    assert AsSet(two) == {1, 2} && 2 in AsSet(two);
    assert {1} - AsSet(two) == {} && AsSet(two) - {1} == {2};
    ListedOne(2);
  }

  /** Two sends have discovered devices 1 and 2. */
  lemma BothDiscover(aci: Aci) returns (actions: seq<Action>, s: State)
    ensures Reached(OneDevice(), aci, actions, s)
    ensures var addrs := Addresses(aci, [1, 2]);
            s == State(None, {}, [Ensuring(addrs, 0, true), Ensuring(addrs, 0, true)], 0)
  {
    var w, ids := OneDevice(), [1, 2];
    actions, s := [], INITIAL;
    hide OneDevice, Addresses, Devices, Run;
    RunNothing(w, aci);
    actions, s := Reach(w, aci, actions, s, Begin);
    actions, s := Reach(w, aci, actions, s, Begin);
    actions, s := Reach(w, aci, actions, s, ReadCache(0));
    actions, s := Reach(w, aci, actions, s, ReadCache(1));
    actions, s := Reach(w, aci, actions, s, Discover(0, ids));
    actions, s := Reach(w, aci, actions, s, Discover(1, ids));
  }

  lemma RunNothing(w: World, aci: Aci)
    ensures Reached(w, aci, [], INITIAL)
  {}

  /** Both have sessions, and the first has cached the list. */
  lemma OneSendCaches(aci: Aci) returns (actions: seq<Action>, s: State)
    ensures Reached(OneDevice(), aci, actions, s)
    ensures var addrs := Addresses(aci, [1, 2]);
            s == State(Some([1, 2]), {addrs[0], addrs[1]}, [Encrypting(addrs, 0, false), Ensuring(addrs, 2, true)], 0)
  {
    var w, addrs := OneDevice(), Addresses(aci, [1, 2]);
    AddedAddresses(aci, [1, 2]);
    actions, s := BothDiscover(aci);
    hide OneDevice, Addresses, Devices, Run, Reached;
    actions, s := Reach(w, aci, actions, s, EnsureNext(0));
    actions, s := Reach(w, aci, actions, s, EnsureNext(0));
    actions, s := Reach(w, aci, actions, s, EnsureNext(1));
    actions, s := Reach(w, aci, actions, s, EnsureNext(1));
    actions, s := Reach(w, aci, actions, s, EnsureNext(0));
  }

  /** The first has had its PUT answered. */
  lemma OneSendIsRejected(aci: Aci) returns (actions: seq<Action>, s: State)
    ensures Reached(OneDevice(), aci, actions, s)
    ensures var addrs := Addresses(aci, [1, 2]);
            s == State(Some([1, 2]), {addrs[0], addrs[1]}, [Dropping(addrs, [], [2], 0), Ensuring(addrs, 2, true)], 1)
  {
    var w, addrs := OneDevice(), Addresses(aci, [1, 2]);
    OneDeviceIsFixed(aci, 0);
    AddedAddresses(aci, [1, 2]);
    actions, s := OneSendCaches(aci);
    hide OneDevice, FixedServer, Addresses, Devices, Run, Reached;
    actions, s := Reach(w, aci, actions, s, EncryptNext(0));
    actions, s := Reach(w, aci, actions, s, EncryptNext(0));
    actions, s := Reach(w, aci, actions, s, PutMessages(0));
  }

  /** One send on its own never misses a session. Beside another one it can: the repair of the first
      deletes a session between the second's check and its encryption. */
  lemma SessionCanBeLost(aci: Aci) returns (actions: seq<Action>, s: State)
    ensures FixedServer(OneDevice(), aci, {1}) && Reached(OneDevice(), aci, actions, s)
    ensures |s.sends| == 2 && s.sends[1] == SessionLost
  {
    OneDeviceIsFixed(aci, 0);
    actions, s := OneSendIsRejected(aci);
    var w := OneDevice();
    hide OneDevice, FixedServer, Run, Reached, Devices;
    actions, s := Reach(w, aci, actions, s, EnsureNext(1));
    actions, s := Reach(w, aci, actions, s, DropNext(0));
    actions, s := Reach(w, aci, actions, s, EncryptNext(1));
    actions, s := Reach(w, aci, actions, s, EncryptNext(1));
  }

  lemma FirstIsKept(aci: Aci)
    ensures Devices(Repaired(aci, Addresses(aci, [1, 2]), [], [2])) == [1]
  {
    var addrs := Addresses(aci, [1, 2]);
    assert addrs == [Address(aci, 1), Address(aci, 2)];
    assert addrs[..1] == [Address(aci, 1)] && addrs[..1][..0] == [];
    assert Keep(addrs[..1], [2]) == [Address(aci, 1)];
    assert Keep(addrs, [2]) == [Address(aci, 1)];
    assert Addresses(aci, []) == [];
  }

  /** The first has repaired and cached its list. */
  lemma OneSendRepairs(aci: Aci) returns (actions: seq<Action>, s: State)
    ensures Reached(OneDevice(), aci, actions, s)
    ensures s.cache == Some([1]) && |s.sends| == 2 && s.sends[1] == Ensuring(Addresses(aci, [1, 2]), 2, true)
  {
    FirstIsKept(aci);
    actions, s := OneSendIsRejected(aci);
    var w := OneDevice();
    hide OneDevice, FixedServer, Repaired, Devices, Addresses, Run, Reached;
    actions, s := Reach(w, aci, actions, s, DropNext(0));
    actions, s := Reach(w, aci, actions, s, DropNext(0));
    actions, s := Reach(w, aci, actions, s, AddNext(0));
  }

  /** A list discovered before a repair and cached after it puts the wrong list back. */
  lemma StaleListCanReturn(aci: Aci) returns (actions: seq<Action>, s: State, more: seq<Action>, t: State)
    ensures FixedServer(OneDevice(), aci, {1})
    ensures Reached(OneDevice(), aci, actions, s) && CacheIsRight({1}, s)
    ensures Reached(OneDevice(), aci, more, t) && actions <= more && t.cache == Some([1, 2])
  {
    OneDeviceIsFixed(aci, 0);
    AddedAddresses(aci, [1, 2]);
    actions, s := OneSendRepairs(aci);
    hide OneDevice, FixedServer, Devices, Addresses, Run, Reached;
    more, t := Reach(OneDevice(), aci, actions, s, EnsureNext(1));
  }
}
