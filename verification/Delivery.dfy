/** The 1:1 send pipeline of pkg/signal/send.go: device discovery, session upkeep, request
    building, and the single retry after a 409 or 410 reply. */
module Delivery {
  import opened Wrappers

  type Aci = string
  type DeviceId = x: int | 0 <= x < 0x1_0000_0000

  datatype Address = Address(aci: Aci, device: DeviceId)

  datatype Path = BasicAuth | SealedSender

  /** What the server answers to PUT /v1/messages/{aci}. */
  datatype Reply =
    | Accepted
    | Conflict(missing: seq<DeviceId>, extra: seq<DeviceId>)
    | Gone(stale: seq<DeviceId>)
    | OtherStatus

  datatype SendError =
    | NoMessages
    | MismatchedDevices(missing: seq<DeviceId>, extra: seq<DeviceId>)
    | StaleDevices(stale: seq<DeviceId>)
    | Plain

  datatype Error =
    | DiscoveryFailed
    | NoDevices
    | StoreFailed
    | BundleFailed(device: DeviceId)
    | NoSession
    | EncryptFailed
    | Undelivered(cause: SendError)

  datatype Envelope = Envelope(kind: nat, device: DeviceId)

  /** `kinds` are the types of the envelopes, one for each target, and `at` is the number of the call. */
  datatype Put = Put(aci: Aci, targets: seq<DeviceId>, kinds: seq<nat>, reply: Reply, at: nat)

  /** Every answer the outside gives, indexed by the number of the call: all behaviours of the
      server, of libsignal and of the session store are covered.
      - fetchAll: a recipient's devices listed by the fetch of all bundles, or a failure (a
        cooldown included)
      - fetchOne: number of devices listed by the fetch of one bundle, or a failure
      - process: whether the bundle is accepted
      - storeOk: whether an access to the session store works
      - encrypt: libsignal's message type, or a failure
      - put: the reply to a PUT to a recipient with the given targets */
  datatype World = World(
    fetchAll: (nat, Aci) -> Option<seq<DeviceId>>,
    fetchOne: (nat, Aci, DeviceId) -> Option<nat>,
    process: nat -> bool,
    storeOk: nat -> bool,
    encrypt: nat -> Option<nat>,
    put: (nat, Aci, seq<DeviceId>) -> Reply)

  function Addresses(aci: Aci, ids: seq<DeviceId>): (r: seq<Address>)
    ensures |r| == |ids|
  {
    seq(|ids|, i requires 0 <= i < |ids| => Address(aci, ids[i]))
  }

  function Devices(addrs: seq<Address>): (r: seq<DeviceId>)
    ensures |r| == |addrs|
  {
    seq(|addrs|, i requires 0 <= i < |addrs| => addrs[i].device)
  }

  /** The addresses whose device is not listed, in order. */
  function Keep(addrs: seq<Address>, remove: seq<DeviceId>): seq<Address> {
    if addrs == [] then []
    else
      var front := Keep(addrs[..|addrs| - 1], remove);
      var a := addrs[|addrs| - 1];
      if a.device in remove then front else front + [a]
  }

  function AsSet<T>(s: seq<T>): set<T> {
    set x | x in s
  }

  predicate NoDup<T(==)>(s: seq<T>) {
    forall i, j :: 0 <= i < j < |s| ==> s[i] != s[j]
  }

  predicate AllOf(addrs: seq<Address>, aci: Aci) {
    forall a <- addrs :: a.aci == aci
  }

  /** internal/web/messages.go, mapSendError */
  function MapSendError(reply: Reply): (e: Option<SendError>)
    ensures e.None? <==> reply.Accepted?
    ensures reply == Conflict([], []) || reply == Gone([]) ==> e == Some(Plain)
    ensures forall m, x :: e == Some(MismatchedDevices(m, x)) <==> reply == Conflict(m, x) && (m != [] || x != [])
    ensures forall stale :: e == Some(StaleDevices(stale)) <==> reply == Gone(stale) && stale != []
  {
    match reply
    case Accepted => None
    case Conflict(m, x) => Some(if m == [] && x == [] then Plain else MismatchedDevices(m, x))
    case Gone(s) => Some(if s == [] then Plain else StaleDevices(s))
    case OtherStatus => Some(Plain)
  }

  /** libsignal's Whisper is 2, the wire's is 1; sealed-sender envelopes are type 6. */
  function WireType(path: Path, libsignalType: nat): nat {
    if path.SealedSender? then 6 else if libsignalType == 2 then 1 else libsignalType
  }

  /** The types a server is sent: 6 for sealed-sender envelopes, never libsignal's 2 for others */
  predicate OnTheWire(kinds: seq<nat>, path: Path) {
    forall k <- kinds :: if path.SealedSender? then k == 6 else k != 2
  }

  function Kinds(msgs: seq<Envelope>): (r: seq<nat>)
    ensures |r| == |msgs|
  {
    seq(|msgs|, i requires 0 <= i < |msgs| => msgs[i].kind)
  }

  function Targets(msgs: seq<Envelope>): (r: seq<DeviceId>)
    ensures |r| == |msgs|
  {
    seq(|msgs|, i requires 0 <= i < |msgs| => msgs[i].device)
  }

  lemma {:induction false} KeepMembers(addrs: seq<Address>, remove: seq<DeviceId>)
    ensures forall a :: a in Keep(addrs, remove) <==> a in addrs && a.device !in remove
    ensures NoDup(addrs) ==> NoDup(Keep(addrs, remove))
  {
    if addrs != [] {
      var front := addrs[..|addrs| - 1];
      KeepMembers(front, remove);
      assert addrs == front + [addrs[|addrs| - 1]];
      if NoDup(addrs) {
        assert NoDup(front);
        assert addrs[|addrs| - 1] !in front;
      }
    }
  }

  /** The address list after a 409: without the extra devices, then the missing ones */
  function Repaired(aci: Aci, addrs: seq<Address>, missing: seq<DeviceId>, extra: seq<DeviceId>): seq<Address> {
    Keep(addrs, extra) + Addresses(aci, missing)
  }

  /** A server with a fixed device set for the recipient: it accepts exactly the sends that target
      that set, and answers any other with the difference, listing no missing device twice. */
  ghost predicate FixedServer(w: World, aci: Aci, devices: set<DeviceId>) {
    forall n: nat, targets: seq<DeviceId> ::
      match w.put(n, aci, targets)
      case Accepted => AsSet(targets) == devices
      case Conflict(missing, extra) =>
        && AsSet(missing) == devices - AsSet(targets)
        && AsSet(extra) == AsSet(targets) - devices
        && NoDup(missing)
        && (missing != [] || extra != [])
      case _ => false
  }

  lemma FixedServerAccepts(w: World, aci: Aci, devices: set<DeviceId>, n: nat, targets: seq<DeviceId>)
    requires FixedServer(w, aci, devices) && AsSet(targets) == devices
    ensures w.put(n, aci, targets) == Accepted
  {
    var reply := w.put(n, aci, targets);
    if reply.Conflict? {
      EmptyAsSet(reply.missing);
      EmptyAsSet(reply.extra);
    }
  }

  lemma EmptyAsSet<T>(s: seq<T>)
    ensures AsSet(s) == {} <==> s == []
  {
    if s != [] { assert s[0] in AsSet(s); }
  }

  /** The devices of a set in some order */
  ghost function Listed(devices: set<DeviceId>): (r: seq<DeviceId>)
    ensures AsSet(r) == devices && NoDup(r)
  {
    if devices == {} then []
    else
      var d :| d in devices;
      var rest := Listed(devices - {d});
      assert AsSet(rest + [d]) == AsSet(rest) + {d};
      assert d !in AsSet(rest);
      rest + [d]
  }

  ghost function Difference(devices: set<DeviceId>, targets: seq<DeviceId>): Reply {
    if AsSet(targets) == devices then Accepted
    else Conflict(Listed(devices - AsSet(targets)), Listed(AsSet(targets) - devices))
  }

  /** One server can be fixed for every recipient at once, whatever their device sets. */
  lemma FixedServersExist(sets: Aci -> set<DeviceId>) returns (w: World)
    ensures forall aci :: FixedServer(w, aci, sets(aci))
  {
    w := World((_, _) => None, (_, _, _) => None, _ => true, _ => true, _ => None,
               (_, aci, targets) => Difference(sets(aci), targets));
    forall aci, targets: seq<DeviceId> | AsSet(targets) != sets(aci)
      ensures var reply := Difference(sets(aci), targets); reply.missing != [] || reply.extra != []
    {
      EmptyAsSet(Listed(sets(aci) - AsSet(targets)));
      EmptyAsSet(Listed(AsSet(targets) - sets(aci)));
    }
  }

  lemma DevicesMembers(addrs: seq<Address>)
    ensures forall d :: d in AsSet(Devices(addrs)) <==> exists a :: a in addrs && a.device == d
  {
    forall a | a in addrs ensures a.device in Devices(addrs) {
      var i :| 0 <= i < |addrs| && addrs[i] == a;
      assert Devices(addrs)[i] == a.device;
    }
    forall d | d in Devices(addrs) ensures exists a :: a in addrs && a.device == d {
      var i :| 0 <= i < |addrs| && Devices(addrs)[i] == d;
      assert addrs[i] in addrs;
    }
  }

  lemma NoDupDevices(addrs: seq<Address>, aci: Aci)
    requires AllOf(addrs, aci) && NoDup(addrs)
    ensures NoDup(Devices(addrs))
  {
    forall i, j | 0 <= i < j < |addrs| ensures addrs[i].device != addrs[j].device {
      assert addrs[i] in addrs && addrs[j] in addrs && addrs[i] != addrs[j];
    }
  }

  lemma NoDupConcat<T>(a: seq<T>, b: seq<T>)
    requires NoDup(a) && NoDup(b) && forall x :: x in a ==> x !in b
    ensures NoDup(a + b)
  {
    forall i, j | 0 <= i < j < |a + b| ensures (a + b)[i] != (a + b)[j] {
      if i < |a| <= j {
        assert a[i] in a && b[j - |a|] in b;
      }
    }
  }

  lemma AddedAddresses(aci: Aci, ids: seq<DeviceId>)
    requires NoDup(ids)
    ensures NoDup(Addresses(aci, ids)) && Devices(Addresses(aci, ids)) == ids && AllOf(Addresses(aci, ids), aci)
  {
  }

  /** Dropping the extra devices and appending the missing ones hits the server's set exactly. */
  lemma RepairHitsTheSet(aci: Aci, addrs: seq<Address>, missing: seq<DeviceId>, extra: seq<DeviceId>, devices: set<DeviceId>)
    requires AllOf(addrs, aci) && NoDup(addrs) && NoDup(missing)
    requires AsSet(missing) == devices - AsSet(Devices(addrs))
    requires AsSet(extra) == AsSet(Devices(addrs)) - devices
    ensures var fixed := Repaired(aci, addrs, missing, extra);
            AllOf(fixed, aci) && NoDup(fixed) && NoDup(Devices(fixed)) && AsSet(Devices(fixed)) == devices
  {
    hide Keep, Addresses, Devices, NoDup;
    KeepMembers(addrs, extra);
    var kept, added := Keep(addrs, extra), Addresses(aci, missing);
    var fixed := kept + added;
    DevicesMembers(addrs);
    DevicesMembers(fixed);
    AddressesMembers(aci, missing);
    AddedAddresses(aci, missing);
    forall a | a in kept ensures a in addrs && a.device in devices {
      assert a.device in AsSet(Devices(addrs)) && a.device !in AsSet(extra);
    }
    forall a | a in added ensures a in AsSet(added) && a.device in AsSet(missing) {
    }
    NoDupConcat(kept, added);
    NoDupDevices(fixed, aci);
    forall d | d in devices ensures exists a :: a in fixed && a.device == d {
      if d in AsSet(Devices(addrs)) {
        var a :| a in addrs && a.device == d;
        assert d !in AsSet(extra) && a in kept;
      } else {
        assert d in AsSet(missing) && Address(aci, d) in AsSet(added);
      }
    }
  }

  /** Against a fixed server the list repaired from its 409 is duplicate-free, names exactly its
      set, and is accepted. */
  lemma RepairIsAccepted(w: World, devices: set<DeviceId>, aci: Aci, addrs: seq<Address>, first: nat)
    requires FixedServer(w, aci, devices) && AllOf(addrs, aci) && NoDup(addrs)
    requires !w.put(first, aci, Devices(addrs)).Accepted?
    ensures w.put(first, aci, Devices(addrs)).Conflict?
    ensures var reply := w.put(first, aci, Devices(addrs));
            var fixed := Repaired(aci, addrs, reply.missing, reply.extra);
            && MapSendError(reply) == Some(MismatchedDevices(reply.missing, reply.extra))
            && NoDup(Devices(fixed)) && AsSet(Devices(fixed)) == devices
            && forall n: nat :: w.put(n, aci, Devices(fixed)) == Accepted
  {
    hide Repaired, Addresses, Devices, NoDup;
    var reply := w.put(first, aci, Devices(addrs));
    RepairHitsTheSet(aci, addrs, reply.missing, reply.extra, devices);
    forall n: nat {
      FixedServerAccepts(w, aci, devices, n, Devices(Repaired(aci, addrs, reply.missing, reply.extra)));
    }
  }

  lemma AddressesOfDevices(aci: Aci, addrs: seq<Address>)
    requires AllOf(addrs, aci)
    ensures Addresses(aci, Devices(addrs)) == addrs
  {
    forall i | 0 <= i < |addrs| ensures Addresses(aci, Devices(addrs))[i] == addrs[i] {
      assert addrs[i] in addrs;
    }
  }

  lemma NothingKept(aci: Aci, ids: seq<DeviceId>)
    ensures Repaired(aci, Addresses(aci, ids), [], ids) == []
  {
    var kept := Keep(Addresses(aci, ids), ids);
    KeepMembers(Addresses(aci, ids), ids);
    AddressesMembers(aci, ids);
    assert forall a :: a in Addresses(aci, ids) ==> a in AsSet(Addresses(aci, ids));
    assert AsSet(kept) == {};
    EmptyAsSet(kept);
  }

  method FilterOutDevices(addrs: seq<Address>, remove: seq<DeviceId>) returns (out: seq<Address>)
    ensures out == Keep(addrs, remove)
  {
    if |remove| == 0 {
      KeepsAll(addrs);
      return addrs;
    }
    var skip: set<DeviceId> := {};
    for i := 0 to |remove|
      invariant skip == AsSet(remove[..i])
    {
      skip := skip + {remove[i]};
    }
    assert remove[..|remove|] == remove;
    out := [];
    for i := 0 to |addrs|
      invariant out == Keep(addrs[..i], remove)
    {
      assert addrs[..i + 1][..i] == addrs[..i];
      assert addrs[i].device in skip <==> addrs[i].device in remove;
      if addrs[i].device !in skip {
        out := out + [addrs[i]];
      }
    }
    assert addrs[..|addrs|] == addrs;
  }

  lemma {:induction false} KeepsAll(addrs: seq<Address>)
    ensures Keep(addrs, []) == addrs
  {
    if addrs != [] {
      KeepsAll(addrs[..|addrs| - 1]);
    }
  }

  method AddressDeviceIds(addrs: seq<Address>) returns (ids: seq<DeviceId>)
    ensures ids == Devices(addrs)
  {
    ids := [];
    for i := 0 to |addrs|
      invariant ids == Devices(addrs[..i])
    {
      ids := ids + [addrs[i].device];
    }
    assert addrs[..|addrs|] == addrs;
  }

  lemma AddressesGrow(aci: Aci, ids: seq<DeviceId>, i: nat)
    requires i < |ids|
    ensures ids[..i + 1] == ids[..i] + [ids[i]]
    ensures AsSet(Addresses(aci, ids[..i + 1])) == AsSet(Addresses(aci, ids[..i])) + {Address(aci, ids[i])}
  {
    var now, next := Addresses(aci, ids[..i]), Addresses(aci, ids[..i + 1]);
    assert next == now + [Address(aci, ids[i])];
  }

  lemma AddressesMembers(aci: Aci, ids: seq<DeviceId>)
    ensures forall a :: a in AsSet(Addresses(aci, ids)) <==> a.aci == aci && a.device in ids
  {
    forall d | d in ids ensures Address(aci, d) in Addresses(aci, ids) {
      var i :| 0 <= i < |ids| && ids[i] == d;
      assert Addresses(aci, ids)[i] == Address(aci, d);
    }
  }

  class Client {
    const world: World
    /** knownDevices: absent means never discovered; present may be empty. */
    var known: map<Aci, seq<DeviceId>>
    var sessions: set<Address>
    /** The call that last established a session with the address */
    ghost var born: map<Address, nat>
    var tick: nat
    var puts: seq<Put>

    constructor (world: World)
      ensures this.world == world && known == map[] && sessions == {} && born == map[] && puts == []
    {
      this.world := world;
      known, sessions, born, tick, puts := map[], {}, map[], 0, [];
    }

    ghost predicate HaveSessions(addrs: seq<Address>)
      reads this
    {
      forall a <- addrs :: a in sessions
    }

    /** There are sessions with these devices, all established since that call. */
    ghost predicate Renewed(aci: Aci, ids: seq<DeviceId>, since: nat)
      reads this
    {
      forall d <- ids :: var a := Address(aci, d); a in sessions && a in born && born[a] >= since
    }

    /** The server never hands out a bundle for the device. */
    ghost predicate NoBundleFor(aci: Aci, d: DeviceId) {
      forall n: nat :: world.fetchOne(n, aci, d) in {None, Some(0)}
    }

    /** The cached list names a device that has no session and no bundle. */
    ghost predicate Wedged(aci: Aci, d: DeviceId)
      reads this
    {
      aci in known && d in known[aci] && Address(aci, d) !in sessions && NoBundleFor(aci, d)
    }

    /** The store and libsignal work. */
    ghost predicate LocalWorks() {
      && (forall n: nat :: world.storeOk(n))
      && (forall n: nat :: world.process(n))
      && (forall n: nat :: world.encrypt(n).Some?)
    }

    /** Discovery finds some device of the recipient. */
    ghost predicate Lists(aci: Aci) {
      forall n: nat :: world.fetchAll(n, aci).Some? && world.fetchAll(n, aci).value != []
    }

    /** Everything around sending to the recipient works. */
    ghost predicate AllWorks(aci: Aci) {
      && LocalWorks() && Lists(aci)
      && forall n: nat, d: DeviceId :: world.fetchOne(n, aci, d).Some? && world.fetchOne(n, aci, d).value > 0
    }

    /** What a send of `err` leaves against a fixed server: on success the cached list, without
        duplicates, is exactly the server's set and is what the last PUT targeted; a second PUT
        is always the successful one; with everything around it working the send fails only if the
        set is empty; and the cached list stays free of duplicates, ready for the next send. */
    ghost predicate Converged(aci: Aci, devices: set<DeviceId>, before: nat, err: Option<Error>)
      requires before <= |puts|
      reads this
    {
      && (err.None? ==>
            && |puts| > before
            && aci in known && NoDup(known[aci]) && AsSet(known[aci]) == devices
            && var last := puts[|puts| - 1]; last.aci == aci && last.targets == known[aci] && last.reply.Accepted?)
      && (|puts| == before + 2 ==> err.None?)
      && (err.Some? && (err.value.Undelivered? || AllWorks(aci)) ==> devices == {})
      && (aci in known ==> NoDup(known[aci]))
    }

    /** Sessions that existed are the ones they were. */
    ghost predicate Untouched(before: set<Address>, births: map<Address, nat>)
      reads this
    {
      forall a <- before :: a in births ==> a in born && born[a] == births[a]
    }

    method Access() returns (ok: bool)
      modifies this`tick
      ensures ok == world.storeOk(old(tick)) && tick == old(tick) + 1
    {
      ok := world.storeOk(tick);
      tick := tick + 1;
    }

    method ProcessBundle(addr: Address) returns (ok: bool)
      modifies this`tick, this`sessions, this`born
      ensures ok == world.process(old(tick)) && tick == old(tick) + 1
      ensures sessions == if ok then old(sessions) + {addr} else old(sessions)
      ensures born == if ok then old(born)[addr := old(tick)] else old(born)
    {
      ok := world.process(tick);
      tick := tick + 1;
      if ok {
        born := born[addr := tick - 1];
        sessions := sessions + {addr};
      }
    }

    method FetchAndProcessBundle(aci: Aci, d: DeviceId) returns (err: Option<Error>)
      modifies this`tick, this`sessions, this`born
      ensures err in {None, Some(BundleFailed(d))} && old(tick) < tick
      ensures err.None? ==>
        var a := Address(aci, d);
        a in born && old(tick) <= born[a] && born == old(born)[a := born[a]]
      ensures err.Some? ==> born == old(born)
      ensures sessions == if err.None? then old(sessions) + {Address(aci, d)} else old(sessions)
      ensures NoBundleFor(aci, d) ==> err.Some?
      ensures AllWorks(aci) ==> err.None?
    {
      var listed := world.fetchOne(tick, aci, d);
      tick := tick + 1;
      if listed.None? || listed.value == 0 {
        return Some(BundleFailed(d));
      }
      var ok := ProcessBundle(Address(aci, d));
      err := if ok then None else Some(BundleFailed(d));
    }

    /** The sessions that discovery makes, from the bundles it has just been given */
    method EnsureListed(aci: Aci, ids: seq<DeviceId>) returns (err: Option<Error>)
      modifies this`tick, this`sessions, this`born
      ensures old(tick) <= tick && old(sessions) <= sessions && Untouched(old(sessions), old(born))
      ensures forall a: Address :: a.aci != aci ==> (a in sessions <==> a in old(sessions))
      ensures err.None? ==> sessions == old(sessions) + AsSet(Addresses(aci, ids))
      ensures err.Some? ==> err.value == StoreFailed || err.value.BundleFailed?
      ensures ids == [] || LocalWorks() ==> err.None?
    {
      for i := 0 to |ids|
        invariant old(tick) <= tick && old(sessions) <= sessions && Untouched(old(sessions), old(born))
        invariant forall a: Address :: a.aci != aci ==> (a in sessions <==> a in old(sessions))
        invariant sessions == old(sessions) + AsSet(Addresses(aci, ids[..i]))
      {
        var addr := Address(aci, ids[i]);
        var readable := Access();
        if !readable {
          return Some(StoreFailed);
        }
        if addr !in sessions {
          var ok := ProcessBundle(addr);
          if !ok {
            return Some(BundleFailed(addr.device));
          }
        }
        AddressesGrow(aci, ids, i);
      }
      assert ids[..|ids|] == ids;
      return None;
    }

    /** The sessions of a cached list, each missing one from a bundle of its own */
    method EnsureCached(aci: Aci, ids: seq<DeviceId>) returns (err: Option<Error>)
      modifies this`tick, this`sessions, this`born
      ensures old(tick) <= tick && old(sessions) <= sessions && Untouched(old(sessions), old(born))
      ensures forall a: Address :: a.aci != aci ==> (a in sessions <==> a in old(sessions))
      ensures err.None? ==> sessions == old(sessions) + AsSet(Addresses(aci, ids))
      ensures err.Some? ==> err.value == StoreFailed || err.value.BundleFailed?
      ensures ids == [] || AllWorks(aci) ==> err.None?
      ensures forall d :: d in ids && NoBundleFor(aci, d) && Address(aci, d) !in old(sessions) ==> err.Some?
      ensures forall d :: NoBundleFor(aci, d) && Address(aci, d) in sessions ==> Address(aci, d) in old(sessions)
    {
      for i := 0 to |ids|
        invariant old(tick) <= tick && old(sessions) <= sessions && Untouched(old(sessions), old(born))
        invariant forall a: Address :: a.aci != aci ==> (a in sessions <==> a in old(sessions))
        invariant sessions == old(sessions) + AsSet(Addresses(aci, ids[..i]))
        invariant forall d :: NoBundleFor(aci, d) && Address(aci, d) in sessions ==> Address(aci, d) in old(sessions)
      {
        var addr := Address(aci, ids[i]);
        var readable := Access();
        if !readable {
          return Some(StoreFailed);
        }
        if addr !in sessions {
          err := FetchAndProcessBundle(aci, ids[i]);
          if err.Some? {
            return;
          }
        }
        AddressesGrow(aci, ids, i);
      }
      AddressesMembers(aci, ids);
      assert ids[..|ids|] == ids;
      return None;
    }

    method DiscoverAndEnsureSessions(aci: Aci) returns (r: Result<seq<Address>, Error>)
      modifies this`tick, this`sessions, this`born, this`known
      ensures old(tick) <= tick && Untouched(old(sessions), old(born))
      ensures forall a: Address :: a.aci != aci ==> (a in sessions <==> a in old(sessions))
      ensures old(sessions) <= sessions
      ensures r.Ok? ==> sessions == old(sessions) + AsSet(r.value)
      ensures r.Ok? ==> aci in known && r.value == Addresses(aci, known[aci]) && HaveSessions(r.value)
      ensures r.Err? ==> r.error in {DiscoveryFailed, NoDevices, StoreFailed} || r.error.BundleFailed?
      ensures aci in old(known) || r.Err? ==> known == old(known)
      ensures (aci in old(known) && old(known)[aci] == []) || AllWorks(aci) ==> r.Ok?
      ensures aci !in old(known) && LocalWorks() && Lists(aci) ==> r.Ok?
      ensures aci !in old(known) && r.Ok? ==>
        known[aci] != [] && known == old(known)[aci := known[aci]]
        && exists n: nat :: world.fetchAll(n, aci) == Some(known[aci])
      ensures forall d :: old(Wedged(aci, d)) ==> r.Err? && Wedged(aci, d)
    {
      var ids: seq<DeviceId>, err: Option<Error>;
      AddressesMembers(aci, if aci in known then known[aci] else []);
      if aci !in known {
        ghost var n := tick;
        var listed := world.fetchAll(tick, aci);
        tick := tick + 1;
        if listed.None? {
          return Err(DiscoveryFailed);
        }
        if listed.value == [] {
          return Err(NoDevices);
        }
        ids := listed.value;
        err := EnsureListed(aci, ids);
        if err.Some? {
          return Err(err.value);
        }
        known := known[aci := ids];
        assert world.fetchAll(n, aci) == Some(known[aci]);
      } else {
        ids := known[aci];
        err := EnsureCached(aci, ids);
        if err.Some? {
          return Err(err.value);
        }
      }
      AddressesMembers(aci, ids);
      return Ok(Addresses(aci, ids));
    }

    method DropSessions(aci: Aci, extra: seq<DeviceId>) returns (ok: bool)
      modifies this`tick, this`sessions, this`born
      ensures old(tick) <= tick
      ensures forall a: Address :: a.aci != aci ==> (a in sessions <==> a in old(sessions))
      ensures ok ==> sessions == old(sessions) - AsSet(Addresses(aci, extra))
      ensures LocalWorks() ==> ok
    {
      for i := 0 to |extra|
        invariant old(tick) <= tick
        invariant forall a: Address :: a.aci != aci ==> (a in sessions <==> a in old(sessions))
        invariant sessions == old(sessions) - AsSet(Addresses(aci, extra[..i]))
      {
        ok := Access();
        if !ok {
          return;
        }
        sessions := sessions - {Address(aci, extra[i])};
        AddressesGrow(aci, extra, i);
      }
      assert extra[..|extra|] == extra;
      ok := true;
    }

    method AddMissing(aci: Aci, kept: seq<Address>, missing: seq<DeviceId>) returns (r: Result<seq<Address>, Error>)
      modifies this`tick, this`sessions, this`born
      ensures old(tick) <= tick
      ensures r.Ok? ==> Renewed(aci, missing, old(tick))
      ensures forall a: Address :: a.aci != aci ==> (a in sessions <==> a in old(sessions))
      ensures r.Ok? ==>
        r.value == kept + Addresses(aci, missing) && sessions == old(sessions) + AsSet(Addresses(aci, missing))
      ensures r.Err? ==> r.error.BundleFailed? && !AllWorks(aci) && missing != []
      ensures (exists d :: d in missing && NoBundleFor(aci, d)) ==> r.Err?
      ensures old(sessions) <= sessions
      ensures forall d :: d !in missing && Address(aci, d) in sessions ==> Address(aci, d) in old(sessions)
    {
      var fixed := kept;
      for i := 0 to |missing|
        invariant old(tick) <= tick && Renewed(aci, missing[..i], old(tick))
        invariant forall a: Address :: a.aci != aci ==> (a in sessions <==> a in old(sessions))
        invariant fixed == kept + Addresses(aci, missing[..i])
        invariant sessions == old(sessions) + AsSet(Addresses(aci, missing[..i]))
        invariant forall d :: d !in missing && Address(aci, d) in sessions ==> Address(aci, d) in old(sessions)
        invariant forall d :: d in missing[..i] ==> !NoBundleFor(aci, d)
      {
        var err := FetchAndProcessBundle(aci, missing[i]);
        if err.Some? {
          return Err(err.value);
        }
        fixed := fixed + [Address(aci, missing[i])];
        AddressesGrow(aci, missing, i);
        assert forall d :: d in missing[..i + 1] ==> d == missing[i] || d in missing[..i];
      }
      assert missing[..|missing|] == missing;
      return Ok(fixed);
    }

    method RefreshStale(aci: Aci, stale: seq<DeviceId>) returns (err: Option<Error>)
      modifies this`tick, this`sessions, this`born
      ensures old(tick) <= tick
      ensures err.None? ==> Renewed(aci, stale, old(tick))
      ensures forall a: Address :: a.aci != aci ==> (a in sessions <==> a in old(sessions))
      ensures err.None? ==> sessions == old(sessions) + AsSet(Addresses(aci, stale))
      ensures err.Some? ==> (err.value == StoreFailed || err.value.BundleFailed?) && !AllWorks(aci)
    {
      for i := 0 to |stale|
        invariant old(tick) <= tick && Renewed(aci, stale[..i], old(tick))
        invariant forall a: Address :: a.aci != aci ==> (a in sessions <==> a in old(sessions))
        invariant sessions == old(sessions) + AsSet(Addresses(aci, stale[..i]))
      {
        var ok := Access();
        if !ok {
          return Some(StoreFailed);
        }
        sessions := sessions - {Address(aci, stale[i])};
        err := FetchAndProcessBundle(aci, stale[i]);
        if err.Some? {
          return;
        }
        AddressesGrow(aci, stale, i);
        assert forall d :: d in stale[..i + 1] ==> d == stale[i] || d in stale[..i];
      }
      assert stale[..|stale|] == stale;
      err := None;
    }

    /** After a 409 the address list is the repaired one and the cache equals it; after a 410 it
        is unchanged. Either way every address that had a session, or was newly added, has one. */
    method HandleSendError(aci: Aci, addrs: seq<Address>, e: SendError) returns (r: Result<seq<Address>, Error>)
      modifies this`tick, this`sessions, this`born, this`known
      ensures old(tick) <= tick
      ensures r.Ok? && e.MismatchedDevices? ==> Renewed(aci, e.missing, old(tick))
      ensures r.Ok? && e.StaleDevices? ==> Renewed(aci, e.stale, old(tick))
      ensures forall a: Address :: a.aci != aci ==> (a in sessions <==> a in old(sessions))
      ensures r.Err? ==> known == old(known)
      ensures r.Err? ==> r.error == StoreFailed || r.error.BundleFailed? || r.error == Undelivered(e)
      ensures (e.Plain? || e.NoMessages?) ==> r == Err(Undelivered(e)) && sessions == old(sessions)
      ensures !(e.Plain? || e.NoMessages?) && r.Err? ==> !r.error.Undelivered? && !AllWorks(aci)
      ensures r.Ok? && e.MismatchedDevices? ==>
        && r.value == Repaired(aci, addrs, e.missing, e.extra)
        && known == old(known)[aci := Devices(r.value)]
      ensures r.Ok? && e.StaleDevices? ==> r.value == addrs && known == old(known)
      ensures r.Ok? && e.MismatchedDevices? ==>
        sessions == old(sessions) - AsSet(Addresses(aci, e.extra)) + AsSet(Addresses(aci, e.missing))
      ensures r.Ok? && e.StaleDevices? ==> sessions == old(sessions) + AsSet(Addresses(aci, e.stale))
      ensures (r.Ok? || r.error.BundleFailed?) && e.MismatchedDevices? ==>
        forall d :: d in e.extra && d !in e.missing ==> Address(aci, d) !in sessions
      ensures LocalWorks() && e.MismatchedDevices? ==>
        && (r.Err? ==> r.error.BundleFailed?)
        && (e.missing == [] ==> r.Ok?)
        && ((exists d :: d in e.missing && NoBundleFor(aci, d)) ==> r.Err?)
      ensures r.Ok? && AllOf(addrs, aci) && old(HaveSessions(addrs)) ==> AllOf(r.value, aci) && HaveSessions(r.value)
    {
      match e
      case MismatchedDevices(missing, extra) =>
        var dropped := DropSessions(aci, extra);
        if !dropped {
          return Err(StoreFailed);
        }
        AddressesMembers(aci, extra);
        AddressesMembers(aci, missing);
        KeepMembers(addrs, extra);
        var kept := FilterOutDevices(addrs, extra);
        r := AddMissing(aci, kept, missing);
        if r.Ok? {
          var ids := AddressDeviceIds(r.value);
          known := known[aci := ids];
        }
      case StaleDevices(stale) =>
        var err := RefreshStale(aci, stale);
        r := if err.Some? then Err(err.value) else Ok(addrs);
      case _ =>
        return Err(Undelivered(e));
    }

    method EncryptForDevice(addr: Address, path: Path) returns (r: Result<Envelope, Error>)
      modifies this`tick
      ensures old(tick) <= tick
      ensures r.Ok? ==> addr in sessions && r.value.device == addr.device
      ensures r.Ok? && path.SealedSender? ==> r.value.kind == 6
      ensures r.Ok? && path.BasicAuth? ==>
        var typ := world.encrypt(old(tick));
        typ.Some? && r.value.kind == if typ.value == 2 then 1 else typ.value
      ensures r.Err? ==> r.error in {NoSession, EncryptFailed, StoreFailed}
      ensures r == Err(NoSession) <==> addr !in sessions
      ensures LocalWorks() && addr in sessions ==> r.Ok?
    {
      if addr !in sessions {
        return Err(NoSession);
      }
      var typ := world.encrypt(tick);
      tick := tick + 1;
      if typ.None? {
        return Err(EncryptFailed);
      }
      var readable := Access();
      if !readable {
        return Err(StoreFailed);
      }
      return Ok(Envelope(WireType(path, typ.value), addr.device));
    }

    /** One envelope per address, in order. */
    method BuildSendRequest(addrs: seq<Address>, path: Path) returns (r: Result<seq<Envelope>, Error>)
      modifies this`tick
      ensures old(tick) <= tick
      ensures r.Ok? ==> |r.value| == |addrs| && Targets(r.value) == Devices(addrs)
      ensures r.Ok? ==> OnTheWire(Kinds(r.value), path)
      ensures r.Ok? ==> HaveSessions(addrs)
      ensures addrs == [] ==> r.Ok?
      ensures r.Err? ==> r.error in {NoSession, EncryptFailed, StoreFailed}
      ensures HaveSessions(addrs) ==> r != Err(NoSession) && (LocalWorks() ==> r.Ok?)
    {
      var msgs: seq<Envelope> := [];
      for i := 0 to |addrs|
        invariant old(tick) <= tick
        invariant |msgs| == i
        invariant forall j :: 0 <= j < i ==> msgs[j].device == addrs[j].device && addrs[j] in sessions
        invariant forall j :: 0 <= j < i ==> OnTheWire([msgs[j].kind], path)
      {
        var env := EncryptForDevice(addrs[i], path);
        if env.Err? {
          return Err(env.error);
        }
        msgs := msgs + [env.value];
      }
      forall k | k in Kinds(msgs) ensures OnTheWire([k], path) {
        var j :| 0 <= j < |msgs| && Kinds(msgs)[j] == k;
      }
      assert forall k :: OnTheWire([k], path) ==> k in [k];
      return Ok(msgs);
    }

    /** The server answered the PUT so. */
    ghost predicate Answered(p: Put) {
      world.put(p.at, p.aci, p.targets) == p.reply
    }

    /** Without messages there is no PUT. */
    method SendMessage(aci: Aci, msgs: seq<Envelope>) returns (err: Option<SendError>)
      modifies this`tick, this`puts
      ensures msgs == [] ==> err == Some(NoMessages) && puts == old(puts)
      ensures msgs != [] ==>
        && |puts| == |old(puts)| + 1 && old(puts) <= puts
        && var p := puts[|old(puts)|];
           && p == Put(aci, Targets(msgs), Kinds(msgs), p.reply, old(tick)) && p.at < tick
           && Answered(p) && err == MapSendError(p.reply)
    {
      if |msgs| == 0 {
        return Some(NoMessages);
      }
      var targets := Targets(msgs);
      var reply := world.put(tick, aci, targets);
      tick := tick + 1;
      puts := puts + [Put(aci, targets, Kinds(msgs), reply, tick - 1)];
      err := MapSendError(reply);
    }

    /** From the n-th on, every PUT is of the path's envelopes. */
    ghost predicate SentOver(n: nat, path: Path)
      reads this
    {
      forall i :: n <= i < |puts| ==> |puts[i].kinds| == |puts[i].targets| && OnTheWire(puts[i].kinds, path)
    }

    /** There is a session with every device that the last PUT went to. */
    ghost predicate LastHasSessions(aci: Aci)
      requires puts != []
      reads this
    {
      HaveSessions(Addresses(aci, puts[|puts| - 1].targets))
    }

    /** What a delivery of `err` whose first PUT, the n-th, was answered 409 leaves: a retry goes to
        the repaired list and the cache is that list; a bundle that is not handed out fails the
        repair, which leaves the cache with the old list and the extra devices without sessions;
        and if all devices were extra the empty list is cached and nothing is sent. */
    ghost predicate Reconciled(aci: Aci, n: nat, err: Option<Error>)
      requires n < |puts| && puts[n].reply.Conflict?
      reads this
    {
      var missing, extra := puts[n].reply.missing, puts[n].reply.extra;
      var ids := Devices(Repaired(aci, Addresses(aci, puts[n].targets), missing, extra));
      missing != [] || extra != [] ==>
        && aci in known
        && (|puts| > n + 1 ==>
              && puts[n + 1].targets == known[aci] == ids && Renewed(aci, missing, puts[n].at + 1)
              && forall d :: d in extra && d !in missing ==> Address(aci, d) !in sessions)
        && (err.Some? && err.value.Undelivered? ==> known[aci] == ids)
        && (err.Some? && err.value.BundleFailed? ==>
              && |puts| == n + 1 && known[aci] == puts[n].targets
              && forall d :: d in extra && d !in missing ==> Address(aci, d) !in sessions)
        && (LocalWorks() && (exists d :: d in missing && NoBundleFor(aci, d)) ==>
              err.Some? && err.value.BundleFailed?)
        && (LocalWorks() && missing == [] && ids == [] ==>
              err == Some(Undelivered(NoMessages)) && |puts| == n + 1 && known[aci] == [])
    }

    /** What a delivery of `err` whose first PUT, the n-th, was answered 410 leaves: unless something
        around it fails it is sent once more to the same devices, with new sessions for the stale
        ones. */
    ghost predicate Refreshed(aci: Aci, n: nat, err: Option<Error>)
      requires n < |puts| && puts[n].reply.Gone?
      reads this
    {
      puts[n].reply.stale != [] ==>
        && (AllWorks(aci) || (err.Some? && err.value.Undelivered?) ==> |puts| == n + 2)
        && (err.None? ==> |puts| == n + 2)
        && (|puts| > n + 1 ==>
              puts[n + 1].targets == puts[n].targets && Renewed(aci, puts[n].reply.stale, puts[n].at + 1))
    }

    /** The second half of a delivery: repair, encrypt again, send once more. */
    method SendAgain(aci: Aci, addrs: seq<Address>, failed: SendError, path: Path) returns (err: Option<Error>)
      requires AllOf(addrs, aci) && HaveSessions(addrs)
      modifies this`tick, this`sessions, this`born, this`known, this`puts
      ensures forall a: Address :: a.aci != aci ==> (a in sessions <==> a in old(sessions))
      ensures err != Some(NoSession)
      ensures old(puts) <= puts && |puts| <= |old(puts)| + 1
      ensures |puts| > |old(puts)| ==> puts[|old(puts)|].aci == aci && Answered(puts[|old(puts)|])
      ensures SentOver(|old(puts)|, path) && (|puts| > |old(puts)| ==> LastHasSessions(aci))
      ensures err.None? <==> |puts| > |old(puts)| && puts[|old(puts)|].reply.Accepted?
      ensures failed.Plain? || failed.NoMessages? ==>
        err == Some(Undelivered(failed)) && puts == old(puts) && known == old(known) && sessions == old(sessions)
      ensures failed.StaleDevices? ==>
        && known == old(known)
        && (|puts| > |old(puts)| ==> puts[|old(puts)|].targets == Devices(addrs) && Renewed(aci, failed.stale, old(tick)))
        && (addrs != [] && (AllWorks(aci) || (err.Some? && err.value.Undelivered?)) ==> |puts| > |old(puts)|)
      ensures failed.MismatchedDevices? && |puts| > |old(puts)| ==>
        && Renewed(aci, failed.missing, old(tick))
        && forall d :: d in failed.extra && d !in failed.missing ==> Address(aci, d) !in sessions
      ensures failed.MismatchedDevices? ==>
        var ids := Devices(Repaired(aci, addrs, failed.missing, failed.extra));
        && (known == old(known) || known == old(known)[aci := ids])
        && (|puts| > |old(puts)| ==> known == old(known)[aci := ids] && puts[|old(puts)|].targets == ids)
        && (err.Some? && err.value.Undelivered? ==>
              known == old(known)[aci := ids] && (ids != [] ==> |puts| > |old(puts)|))
        && (AllWorks(aci) && ids != [] ==> |puts| > |old(puts)|)
        && (LocalWorks() && failed.missing == [] && ids == [] ==>
              err == Some(Undelivered(NoMessages)) && puts == old(puts))
        && (LocalWorks() && (exists d :: d in failed.missing && NoBundleFor(aci, d)) ==>
              err.Some? && err.value.BundleFailed?)
        && (err.Some? && err.value.BundleFailed? ==>
              && puts == old(puts) && known == old(known)
              && forall d :: d in failed.extra && d !in failed.missing ==> Address(aci, d) !in sessions)
    {
      hide Repaired, Addresses, OnTheWire;
      var fixed := HandleSendError(aci, addrs, failed);
      if fixed.Err? {
        return Some(fixed.error);
      }
      AddressesOfDevices(aci, fixed.value);
      var msgs := BuildSendRequest(fixed.value, path);
      if msgs.Err? {
        return Some(msgs.error);
      }
      var again := SendMessage(aci, msgs.value);
      err := if again.Some? then Some(Undelivered(again.value)) else None;
    }

    /** A PUT to a server with a fixed device set: accepted exactly on the set, and otherwise
        answered with what repairs the list. */
    lemma FixedAnswer(aci: Aci, addrs: seq<Address>, devices: set<DeviceId>, p: Put)
      requires FixedServer(world, aci, devices) && AllOf(addrs, aci)
      requires Answered(p) && p.aci == aci && p.targets == Devices(addrs)
      ensures p.reply.Accepted? <==> AsSet(Devices(addrs)) == devices
      ensures !p.reply.Accepted? && NoDup(addrs) ==>
        && p.reply.Conflict?
        && var fixed := Repaired(aci, addrs, p.reply.missing, p.reply.extra);
           && MapSendError(p.reply) == Some(MismatchedDevices(p.reply.missing, p.reply.extra))
           && NoDup(Devices(fixed)) && AsSet(Devices(fixed)) == devices
           && forall q: Put :: Answered(q) && q.aci == aci && q.targets == Devices(fixed) ==> q.reply.Accepted?
    {
      hide Repaired, Devices, NoDup;
      var n := p.at;
      if AsSet(Devices(addrs)) == devices {
        FixedServerAccepts(world, aci, devices, n, p.targets);
      }
      if !p.reply.Accepted? && NoDup(addrs) {
        RepairIsAccepted(world, devices, aci, addrs, n);
      }
    }

    /** Send, and on a 409 or 410 repair and send once more (both paths). */
    method Deliver(aci: Aci, addrs: seq<Address>, path: Path) returns (err: Option<Error>)
      requires AllOf(addrs, aci) && HaveSessions(addrs)
      modifies this`tick, this`sessions, this`born, this`known, this`puts
      ensures forall a: Address :: a.aci != aci ==> (a in sessions <==> a in old(sessions))
      ensures old(puts) <= puts && |puts| <= |old(puts)| + 2
      ensures err != Some(NoSession)
      ensures known - {aci} == old(known) - {aci}
      ensures |puts| > |old(puts)| ==>
        puts[|old(puts)|].aci == aci && puts[|old(puts)|].targets == Devices(addrs) && Answered(puts[|old(puts)|])
      ensures err.None? ==> |puts| > |old(puts)| && puts[|puts| - 1].reply.Accepted?
      ensures SentOver(|old(puts)|, path)
      ensures err.None? || |puts| == |old(puts)| + 2 ==> puts != [] && LastHasSessions(aci)
      ensures |puts| == |old(puts)| + 2 ==> !puts[|old(puts)|].reply.Accepted?
      ensures addrs == [] ==>
        err == Some(Undelivered(NoMessages)) && puts == old(puts) && known == old(known) && sessions == old(sessions)
      ensures addrs != [] && LocalWorks() ==> |puts| > |old(puts)|
      ensures old(aci in known && known[aci] == Devices(addrs))
              && |puts| > |old(puts)| && puts[|old(puts)|].reply.Conflict? ==>
        Reconciled(aci, |old(puts)|, err)
      ensures |puts| > |old(puts)| && puts[|old(puts)|].reply.Gone? ==> Refreshed(aci, |old(puts)|, err)
      ensures NoDup(addrs) && addrs != [] && old(aci in known && known[aci] == Devices(addrs)) ==>
        forall devices :: FixedServer(world, aci, devices) ==> Converged(aci, devices, |old(puts)|, err)
      ensures FixedServer(world, aci, AsSet(Devices(addrs))) ==> |puts| <= |old(puts)| + 1 && known == old(known)
    {
      hide Repaired, Addresses, OnTheWire, FixedServer;
      AddressesOfDevices(aci, addrs);
      var msgs := BuildSendRequest(addrs, path);
      if msgs.Err? {
        return Some(msgs.error);
      }
      var failed := SendMessage(aci, msgs.value);
      forall devices | FixedServer(world, aci, devices) && addrs != []
        ensures failed.None? <==> AsSet(Devices(addrs)) == devices
        ensures failed.Some? && NoDup(addrs) ==>
          && failed.value.MismatchedDevices?
          && var fixed := Repaired(aci, addrs, failed.value.missing, failed.value.extra);
             && NoDup(Devices(fixed)) && AsSet(Devices(fixed)) == devices
             && forall q: Put :: Answered(q) && q.aci == aci && q.targets == Devices(fixed) ==> q.reply.Accepted?
      {
        FixedAnswer(aci, addrs, devices, puts[|old(puts)|]);
      }
      if failed.None? {
        return None;
      }
      err := SendAgain(aci, addrs, failed.value, path);
    }

    /** One send to `aci`, from discovery to delivery. */
    method SendContent(aci: Aci, path: Path) returns (err: Option<Error>)
      modifies this`tick, this`sessions, this`born, this`known, this`puts
      // At most two PUTs; success means the last one was accepted.
      ensures old(puts) <= puts && |puts| <= |old(puts)| + 2
      ensures err.None? ==> |puts| > |old(puts)| && puts[|puts| - 1].reply.Accepted?
      // Every PUT is of the path's envelopes, and what was sent last was sent over sessions still there.
      ensures SentOver(|old(puts)|, path)
      ensures err.None? || |puts| == |old(puts)| + 2 ==> puts != [] && LastHasSessions(aci)
      // Every address handed to request building has a session at that moment.
      ensures err != Some(NoSession)
      // Convergence in one retry, on either path.
      ensures (if aci in old(known) then old(known)[aci] != [] && NoDup(old(known)[aci])
               else forall n: nat :: world.fetchAll(n, aci).Some? ==> NoDup(world.fetchAll(n, aci).value)) ==>
        forall devices :: FixedServer(world, aci, devices) ==> Converged(aci, devices, |old(puts)|, err)
      // Once the list is right it stays, and sends need no retry.
      ensures aci in old(known) && FixedServer(world, aci, AsSet(old(known)[aci])) ==>
        |puts| <= |old(puts)| + 1 && known == old(known)
      // Other recipients' lists and sessions are left alone.
      ensures forall a: Address :: a.aci != aci ==> (a in sessions <==> a in old(sessions))
      ensures known - {aci} == old(known) - {aci}
      // The first PUT goes to the cached or the discovered list, and is made if everything works here.
      ensures |puts| > |old(puts)| ==>
        && puts[|old(puts)|].aci == aci && Answered(puts[|old(puts)|])
        && (aci in old(known) ==> puts[|old(puts)|].targets == old(known)[aci])
        && (aci !in old(known) ==> exists n: nat :: world.fetchAll(n, aci) == Some(puts[|old(puts)|].targets))
      ensures aci !in old(known) && LocalWorks() && Lists(aci) ==> |puts| > |old(puts)|
      // What a 409 and a 410 leave.
      ensures |puts| > |old(puts)| && puts[|old(puts)|].reply.Gone? ==> Refreshed(aci, |old(puts)|, err)
      ensures |puts| > |old(puts)| && puts[|old(puts)|].reply.Conflict? ==> Reconciled(aci, |old(puts)|, err)
      // An empty cached list is never rediscovered.
      ensures aci in old(known) && old(known)[aci] == [] ==>
        && err == Some(Undelivered(NoMessages))
        && puts == old(puts) && known == old(known) && sessions == old(sessions)
      // A repair that fails after dropping an extra device wedges the recipient ...
      ensures |puts| == |old(puts)| + 1 && err.Some? && err.value.BundleFailed? && puts[|old(puts)|].reply.Conflict? ==>
        var reply := puts[|old(puts)|].reply;
        forall d :: d in reply.extra && d !in reply.missing && d in puts[|old(puts)|].targets && NoBundleFor(aci, d) ==>
          Wedged(aci, d)
      // ... and a wedged recipient stays so.
      ensures forall d :: old(Wedged(aci, d)) ==> err.Some? && puts == old(puts) && Wedged(aci, d)
    {
      hide Repaired, FixedServer;
      var addrs := DiscoverAndEnsureSessions(aci);
      if addrs.Err? {
        return Some(addrs.error);
      }
      assert Devices(addrs.value) == known[aci];
      err := Deliver(aci, addrs.value, path);
    }
  }

  // ----- The stuck states arise

  /** A server that takes every device for extra leaves the empty list in the cache, and from then
      on no send to the recipient makes a PUT. */
  method EmptyListArises(aci: Aci, path: Path) returns (c: Client, first: Option<Error>, second: Option<Error>)
    ensures fresh(c) && c.known == map[aci := []] && |c.puts| == 1
    ensures first == second == Some(Undelivered(NoMessages))
  {
    var w := World((_, _) => Some([1]), (_, _, _) => Some(1), _ => true, _ => true, _ => Some(3),
                   (_, _, targets) => Conflict([], targets));
    c := new Client(w);
    first := c.SendContent(aci, path);
    NothingKept(aci, [1]);
    assert forall a :: a in c.known && a != aci ==> a in c.known - {aci};
    second := c.SendContent(aci, path);
  }

  /** A 409 that replaces the only device by one without a bundle leaves the old device in the
      cache without a session; with no bundle for it either, every further send fails. */
  method WedgeArises(aci: Aci, path: Path) returns (c: Client, first: Option<Error>, second: Option<Error>)
    ensures fresh(c) && c.Wedged(aci, 1) && |c.puts| == 1
    ensures first.Some? && second.Some?
  {
    var w := World((_, _) => Some([1]), (_, _, _) => None, _ => true, _ => true, _ => Some(3),
                   (_, _, _) => Conflict([2], [1]));
    c := new Client(w);
    first := c.SendContent(aci, path);
    assert c.NoBundleFor(aci, 1) && c.NoBundleFor(aci, 2);
    second := c.SendContent(aci, path);
  }
}
