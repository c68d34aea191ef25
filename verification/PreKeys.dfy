/** One-time prekey ids: how internal/prekeys and internal/prekeymaint hand them out, store
    them and publish them. Key material is opaque; a key is its id. */
module PreKeys {
  import opened Inventory
  import opened Wrappers

  const MAX_ID := 0x3FFE
  const LAST_RESORT: Id := 1
  const DEFAULT_MIN_AVAILABLE := 10
  const DEFAULT_TOP_UP_BATCH := 100

  /** Addition on uint32 */
  function Add32(a: Id, b: int): Id {
    (a + b) % 0x1_0000_0000
  }

  predicate ValidId(id: Id) {
    id != 0 && id <= MAX_ID
  }

  function Range(start: Id, n: nat): (r: seq<Id>)
    ensures |r| == n
    ensures start + n <= 0x1_0000_0000 ==> forall i :: 0 <= i < n ==> r[i] == start + i
  {
    seq(n, i requires 0 <= i => Add32(start, i))
  }

  function AsSet(s: seq<Id>): set<Id> {
    set x | x in s
  }

  lemma RangeMembers(start: Id, n: nat)
    requires start + n <= 0x1_0000_0000
    ensures forall id: Id :: id in Range(start, n) <==> start <= id < start + n
    ensures forall id: Id :: id in AsSet(Range(start, n)) <==> start <= id < start + n
  {
    forall id: Id | start <= id < start + n ensures id in Range(start, n) {
      assert Range(start, n)[id - start] == id;
    }
  }

  lemma {:induction false} RangeSize(start: Id, n: nat)
    requires start + n <= 0x1_0000_0000
    ensures |AsSet(Range(start, n))| == n
  {
    if n == 0 {
      assert AsSet(Range(start, 0)) == {};
    } else {
      RangeSize(start, n - 1);
      var front, last: Id := Range(start, n - 1), start + n - 1;
      assert Range(start, n) == front + [last];
      assert last !in AsSet(front) by {
        RangeMembers(start, n - 1);
      }
      AsSetAppend(front, last);
    }
  }

  lemma AsSetAppend(s: seq<Id>, id: Id)
    ensures AsSet(s + [id]) == AsSet(s) + {id}
  {
  }

  /** Every id is checked, so the batch is generated exactly when it lies inside [1, MAX_ID].
      `works(i)` is whether libsignal produces the i-th key. */
  method GenerateOneTimePreKeys(start: Id, count: int, works: nat -> bool) returns (r: Option<seq<Id>>)
    ensures r.Some? <==> count > 0 && 1 <= start && start + count - 1 <= 0x3FFE && forall i: nat :: i < count ==> works(i)
    ensures r.Some? ==> r.value == Range(start, count)
  {
    if count <= 0 {
      return None;
    }
    var out: seq<Id> := [];
    for i := 0 to count
      invariant out == Range(start, i)
      invariant i > 0 ==> 1 <= start && start + i - 1 <= MAX_ID
      invariant forall j: nat :: j < i ==> works(j)
    {
      var id := Add32(start, i % 0x1_0000_0000);
      if !ValidId(id) {
        return None;
      }
      if !works(i) {
        return None;
      }
      out := out + [id];
    }
    return Some(out);
  }

  /** No id is checked: past the top of uint32 the ids wrap around. */
  method GenerateOneTimeKyberWithPairs(start: Id, count: int, works: nat -> bool) returns (r: Option<seq<Id>>)
    ensures r.Some? <==> count > 0 && forall i: nat :: i < count ==> works(i)
    ensures r.Some? ==> r.value == Range(start, count)
  {
    if count <= 0 {
      return None;
    }
    var out: seq<Id> := [];
    for i := 0 to count
      invariant out == Range(start, i)
      invariant forall j: nat :: j < i ==> works(j)
    {
      var id := Add32(start, i % 0x1_0000_0000);
      if !works(i) {
        return None;
      }
      out := out + [id];
    }
    return Some(out);
  }

  // ----- The linked device as a state machine

  datatype Counters = Counters(ec: Id, kem: Id)

  datatype Batch = Batch(ec: seq<Id>, kem: seq<Id>)

  /** acct is the account in memory, saved the one on disk; ec, kem and used are the local
      store; published lists the batches the server has taken. */
  datatype Device = Device(
    acct: Counters,
    saved: Counters,
    ec: set<Id>,
    kem: set<Id>,
    used: set<Id>,
    published: seq<Batch>)

  /** A PUT whose reply is lost looks to the client like one the server refused. */
  datatype PutOutcome = Accepted | Refused | ReplyLost

  /** What goes wrong during one upload: key generation, the store after that many writes, the
      PUT, or saving the account. */
  datatype Faults = Faults(ecWorks: nat -> bool, kemWorks: nat -> bool, writes: nat, put: PutOutcome, saveOk: bool)

  datatype Event =
    | TopUp(minAvailable: int, batch: int, faults: Faults)
    | ConsumeEc(id: Id)
    | ConsumeKem(id: Id)
    | Restart

  function Available(d: Device): set<Id> {
    Unused(d.kem, d.used, LAST_RESORT)
  }

  function Threshold(minAvailable: int): nat {
    if minAvailable > 0 then minAvailable else DEFAULT_MIN_AVAILABLE
  }

  function BatchSize(batch: int): nat {
    if batch > 0 then batch else DEFAULT_TOP_UP_BATCH
  }

  predicate Low(d: Device, minAvailable: int) {
    |d.ec| < Threshold(minAvailable) || |Available(d)| < Threshold(minAvailable)
  }

  ghost predicate Generates(start: Id, count: int, f: Faults) {
    && count > 0 && 1 <= start && start + count - 1 <= MAX_ID
    && (forall i: nat :: i < count ==> f.ecWorks(i))
    && (forall i: nat :: i < count ==> f.kemWorks(i))
  }

  /** The store after the first `writes` records, EC records first. */
  function Persisted(d: Device, b: Batch, writes: nat): Device {
    var e := if writes < |b.ec| then writes else |b.ec|;
    var k := if writes - e < |b.kem| then writes - e else |b.kem|;
    d.(ec := d.ec + AsSet(b.ec[..e]), kem := d.kem + AsSet(b.kem[..k]))
  }

  /** UploadOneTimeBatch. The counters move only once the PUT is known to have succeeded. */
  ghost function Upload(d: Device, count: int, f: Faults): (Device, bool) {
    if !Generates(d.acct.ec, count, f) then (d, false)
    else
      var b := Batch(Range(d.acct.ec, count), Range(d.acct.kem, count));
      var stored := Persisted(d, b, f.writes);
      if f.writes < |b.ec| + |b.kem| || f.put.Refused? then (stored, false)
      else if f.put.ReplyLost? then (stored.(published := d.published + [b]), false)
      else
        (stored.(acct := Counters(Add32(d.acct.ec, count), Add32(d.acct.kem, count)),
                 published := d.published + [b]), true)
  }

  /** MaybeTopUp with its dependencies present */
  ghost function TopUpOnce(d: Device, minAvailable: int, batch: int, f: Faults): (Device, bool) {
    if !Low(d, minAvailable) then (d, true)
    else
      var (t, ok) := Upload(d, BatchSize(batch), f);
      if !ok then (t, false)
      else if !f.saveOk then (t, false)
      else (t.(saved := t.acct), true)
  }

  ghost predicate Published(d: Device, id: Id) {
    exists i :: 0 <= i < |d.published| && id in d.published[i].ec
  }

  /** A peer can only use up keys that were published; a restart reloads the saved account. */
  ghost function Apply(d: Device, e: Event): Option<Device> {
    match e
    case TopUp(m, b, f) => Some(TopUpOnce(d, m, b, f).0)
    case ConsumeEc(id) => if Published(d, id) then Some(d.(ec := d.ec - {id})) else None
    case ConsumeKem(id) => if Published(d, id) || id == LAST_RESORT then Some(d.(used := d.used + {id})) else None
    case Restart => Some(d.(acct := d.saved))
  }

  ghost function Run(d: Device, events: seq<Event>): Option<Device>
    decreases events
  {
    if events == [] then Some(d)
    else
      match Apply(d, events[0])
      case None => None
      case Some(t) => Run(t, events[1..])
  }

  /** Link: ids 1 are the signed and last-resort keys, so one-time ids start at 2; no account
      results when the upload or a write fails. `count` 0 skips the upload. */
  ghost function Link(count: nat, f: Faults): Option<Device> {
    var blank := Device(Counters(2, 2), Counters(2, 2), {}, {}, {}, []);
    var (t, ok) := if count > 0 then Upload(blank, count, f) else (blank, true);
    if ok && f.saveOk then Some(t.(saved := t.acct, kem := t.kem + {LAST_RESORT})) else None
  }

  // ----- Invariant

  /** The batches take consecutive id ranges from lo up to hi, the same in both namespaces. */
  ghost predicate Tiles(published: seq<Batch>, lo: int, hi: int)
    decreases |published|
  {
    if published == [] then lo == hi
    else
      var b := published[|published| - 1];
      var start := hi - |b.ec|;
      && b.ec != [] && 0 <= start <= hi <= MAX_ID + 1
      && b.ec == Range(start, |b.ec|) && b.kem == b.ec
      && Tiles(published[..|published| - 1], lo, start)
  }

  ghost predicate Inv(d: Device) {
    && d.acct.ec == d.acct.kem && d.saved.ec == d.saved.kem
    && 2 <= d.saved.ec <= d.acct.ec <= MAX_ID + 1
    && Tiles(d.published, 2, d.acct.ec)
    && (forall id <- d.used :: id == LAST_RESORT || 2 <= id < d.acct.kem)
    && (forall id <- d.ec :: 2 <= id <= MAX_ID)
    && (forall id <- d.kem :: 1 <= id <= MAX_ID)
  }

  lemma {:induction false} TileMembers(published: seq<Batch>, lo: int, hi: int, id: Id)
    requires Tiles(published, lo, hi)
    ensures lo <= hi
    ensures (exists i :: 0 <= i < |published| && id in published[i].ec) <==> lo <= id < hi
    decreases |published|
  {
    if published != [] {
      var n := |published| - 1;
      var front, b := published[..n], published[n];
      TileMembers(front, lo, hi - |b.ec|, id);
      RangeMembers(hi - |b.ec|, |b.ec|);
      if id in b.ec { assert id in published[n].ec; }
      if i :| 0 <= i < n && id in front[i].ec { assert id in published[i].ec; }
    }
  }

  lemma TilesGrow(published: seq<Batch>, hi: Id, b: Batch)
    requires Tiles(published, 2, hi) && b.ec != [] && hi + |b.ec| <= MAX_ID + 1 && 2 <= hi
    requires b.ec == Range(hi, |b.ec|) && b.kem == b.ec
    ensures Tiles(published + [b], 2, hi + |b.ec|)
  {
    assert (published + [b])[..|published|] == published;
  }

  lemma RangePrefix(start: Id, n: nat, k: nat)
    requires k <= n
    ensures Range(start, n)[..k] == Range(start, k)
  {}

  function Min(a: nat, b: nat): nat {
    if a < b then a else b
  }

  /** What persisting a batch of consecutive ids, cut off after some writes, changes */
  lemma PersistedSets(d: Device, start: Id, n: nat, writes: nat)
    ensures var t := Persisted(d, Batch(Range(start, n), Range(start, n)), writes);
            && t.ec == d.ec + AsSet(Range(start, Min(writes, n)))
            && t.kem == d.kem + AsSet(Range(start, Min(writes - Min(writes, n), n)))
            && t == d.(ec := t.ec, kem := t.kem)
  {
    RangePrefix(start, n, Min(writes, n));
    RangePrefix(start, n, Min(writes - Min(writes, n), n));
  }

  /** A batch of ids the counters have not passed yet, below the limit */
  ghost predicate Fits(d: Device, count: int) {
    count > 0 && d.acct.ec == d.acct.kem && d.acct.ec + count - 1 <= MAX_ID
  }

  function NextBatch(d: Device, count: nat): Batch {
    Batch(Range(d.acct.ec, count), Range(d.acct.ec, count))
  }

  lemma StoringKeepsInv(d: Device, count: nat, writes: nat)
    requires Inv(d) && Fits(d, count)
    ensures var t := Persisted(d, NextBatch(d, count), writes);
            && Inv(t) && t.acct == d.acct && t.saved == d.saved && t.published == d.published
            && (writes >= 2 * count ==> AsSet(Range(d.acct.ec, count)) <= t.ec * Available(t))
  {
    hide Persisted, Range, AsSet, Tiles;
    var start := d.acct.ec;
    PersistedSets(d, start, count, writes);
    RangeMembers(start, Min(writes, count));
    RangeMembers(start, Min(writes - Min(writes, count), count));
    RangeMembers(start, count);
  }

  lemma AdvancingKeepsInv(d: Device, count: nat)
    requires Inv(d) && Fits(d, count)
    ensures var next := Counters(Add32(d.acct.ec, count), Add32(d.acct.kem, count));
            next.ec == d.acct.ec + count && Inv(d.(acct := next, published := d.published + [NextBatch(d, count)]))
  {
    hide Tiles, Range;
    TilesGrow(d.published, d.acct.ec, NextBatch(d, count));
  }

  /** An upload keeps the invariant, unless the reply to a successful PUT is lost; it moves the
      counters exactly when it succeeds, and then its whole batch is in the inventory. */
  lemma UploadKeepsInv(d: Device, count: int, f: Faults)
    requires Inv(d)
    ensures var (t, ok) := Upload(d, count, f);
            && t.saved == d.saved && (!ok ==> t.acct == d.acct)
            && (!f.put.ReplyLost? || t.published == d.published ==> Inv(t) && (!ok ==> t.published == d.published))
    ensures var (t, ok) := Upload(d, count, f);
            ok ==>
              && count > 0 && t.acct.ec == d.acct.ec + count
              && AsSet(Range(d.acct.ec, count)) <= t.ec * Available(t)
  {
    assert d.acct.ec == d.acct.kem;
    hide Inv, Persisted, Range, AsSet, Add32;
    if Generates(d.acct.ec, count, f) {
      StoringKeepsInv(d, count, f.writes);
      var stored := Persisted(d, NextBatch(d, count), f.writes);
      AdvancingKeepsInv(stored, count);
    }
  }

  /** Linking succeeds exactly when nothing goes wrong. The account then has used up the ids from 2
      on, on disk too, the upload is the only one, and the store holds all of it and key 1. */
  lemma LinkEstablishesInv(count: nat, f: Faults)
    ensures Link(count, f).Some? <==>
              && f.saveOk
              && (count == 0 ||
                  (&& Generates(2, count, f) && f.writes >= 2 * count && f.put.Accepted?))
    ensures Link(count, f).Some? ==>
              var (d, ids) := (Link(count, f).value, AsSet(Range(2, count)));
              && Inv(d) && d.acct == d.saved && d.acct.ec == 2 + count
              && d.ec == ids && d.kem == {1} + ids && d.used == {}
              && d.published == if count == 0 then [] else [Batch(Range(2, count), Range(2, count))]
  {
    var blank := Device(Counters(2, 2), Counters(2, 2), {}, {}, {}, []);
    assert Inv(blank);
    UploadKeepsInv(blank, count, f);
    PersistedSets(blank, 2, count, f.writes);
    assert AsSet(Range(2, 0)) == {};
  }

  /** Restarting is safe when the account on disk is the one in memory, topping up unless the reply
      to a successful PUT is lost. */
  ghost predicate SafeEvent(d: Device, e: Event) {
    && (e.Restart? ==> d.saved == d.acct)
    && (e.TopUp? && e.faults.put.ReplyLost? ==> Apply(d, e).value.published == d.published)
  }

  lemma EventKeepsInv(d: Device, e: Event)
    requires Inv(d) && SafeEvent(d, e) && Apply(d, e).Some?
    ensures Inv(Apply(d, e).value)
  {
    match e
    case TopUp(m, b, f) => UploadKeepsInv(d, BatchSize(b), f);
    case ConsumeKem(id) => TileMembers(d.published, 2, d.acct.ec, id);
    case _ =>
  }

  ghost predicate SafeRun(d: Device, events: seq<Event>)
    decreases events
  {
    events == [] ||
    (SafeEvent(d, events[0]) &&
     match Apply(d, events[0])
     case None => false
     case Some(t) => SafeRun(t, events[1..]))
  }

  lemma {:induction false} RunKeepsInv(d: Device, events: seq<Event>)
    requires Inv(d) && SafeRun(d, events)
    ensures Run(d, events).Some? && Inv(Run(d, events).value)
    decreases events
  {
    if events != [] {
      EventKeepsInv(d, events[0]);
      RunKeepsInv(Apply(d, events[0]).value, events[1..]);
    }
  }

  predicate CanSave(events: seq<Event>) {
    forall i :: 0 <= i < |events| && events[i].TopUp? ==> events[i].faults.saveOk
  }

  predicate NoReplyLost(events: seq<Event>) {
    forall i :: 0 <= i < |events| && events[i].TopUp? ==> !events[i].faults.put.ReplyLost?
  }

  /** What one event leaves in the account on disk: what a top-up uploaded, if it can be saved. */
  lemma EventSaves(d: Device, e: Event)
    requires Apply(d, e).Some? && (e.TopUp? ==> e.faults.saveOk)
    ensures d.saved == d.acct ==> Apply(d, e).value.saved == Apply(d, e).value.acct
    ensures e.TopUp? && Apply(d, e).value.acct != d.acct ==> Apply(d, e).value.saved == Apply(d, e).value.acct
  {}

  /** While every top-up can save, the account on disk is the one in memory, and a restart is safe
      at any time. */
  lemma {:induction false} SavedRunsAreSafe(d: Device, events: seq<Event>)
    requires d.saved == d.acct && CanSave(events) && Run(d, events).Some?
    ensures Run(d, events).value.saved == Run(d, events).value.acct
    ensures NoReplyLost(events) ==> SafeRun(d, events)
    decreases events
  {
    if events != [] {
      hide Apply;
      EventSaves(d, events[0]);
      SavedRunsAreSafe(Apply(d, events[0]).value, events[1..]);
    }
  }

  /** One top-up that cannot save leaves the disk as it was and makes the next restart unsafe,
      exactly if it moved the counters. */
  lemma UnsavedTopUp(d: Device, minAvailable: int, batch: int, f: Faults)
    requires Inv(d) && d.saved == d.acct && !f.saveOk
    ensures var (t, ok) := TopUpOnce(d, minAvailable, batch, f);
            && t.saved == d.saved && (ok <==> !Low(d, minAvailable))
            && (SafeEvent(t, Restart) <==> t.acct == d.acct)
            && (t.acct != d.acct <==> Low(d, minAvailable) && Upload(d, BatchSize(batch), f).1)
  {
    hide Inv;
    UploadKeepsInv(d, BatchSize(batch), f);
  }

  // ----- What the allocator promises

  /** Over every run from linking on: the counters stay equal and at most MAX_ID + 1, the
      successful uploads tile [2, counter) in both namespaces, hence every published id,
      Kyber ids included, is in [2, MAX_ID] and is published once. */
  lemma AllocatorIsSound(count: nat, f: Faults, events: seq<Event>)
    requires Link(count, f).Some? && SafeRun(Link(count, f).value, events)
    ensures Run(Link(count, f).value, events).Some?
    ensures var d := Run(Link(count, f).value, events).value;
            && d.acct.ec == d.acct.kem <= 0x3FFF
            && Tiles(d.published, 2, d.acct.ec)
            && (forall i, id :: 0 <= i < |d.published| && id in d.published[i].ec + d.published[i].kem ==>
                 2 <= id <= 0x3FFE)
            && (forall i, j, id :: 0 <= i < j < |d.published| && id in d.published[i].kem ==> id !in d.published[j].kem)
            && (forall i, j, id :: 0 <= i < j < |d.published| && id in d.published[i].ec ==> id !in d.published[j].ec)
  {
    hide Link, Run, SafeRun, Tiles;
    LinkEstablishesInv(count, f);
    RunKeepsInv(Link(count, f).value, events);
    var d := Run(Link(count, f).value, events).value;
    TilesAreSound(d.published, d.acct.ec);
  }

  /** Tiled batches lie between the bounds, are the same in both namespaces, and share no id. */
  lemma TilesAreSound(published: seq<Batch>, hi: int)
    requires Tiles(published, 2, hi) && hi <= MAX_ID + 1
    ensures forall i, id :: 0 <= i < |published| && id in published[i].ec + published[i].kem ==> 2 <= id <= MAX_ID
    ensures forall i, j, id :: 0 <= i < j < |published| && id in published[i].kem ==> id !in published[j].kem
    ensures forall i, j, id :: 0 <= i < j < |published| && id in published[i].ec ==> id !in published[j].ec
  {
    hide Tiles;
    forall i | 0 <= i < |published| ensures published[i].kem == published[i].ec {
      TileAt(published, 2, hi, i);
    }
    forall i, id | 0 <= i < |published| && id in published[i].ec ensures 2 <= id <= MAX_ID {
      TileMembers(published, 2, hi, id);
    }
    forall i, j, id | 0 <= i < j < |published| && id in published[i].ec ensures id !in published[j].ec {
      TilesDisjoint(published, 2, hi, i, j, id);
    }
  }

  lemma {:induction false} TileAt(published: seq<Batch>, lo: int, hi: int, i: nat)
    requires Tiles(published, lo, hi) && i < |published|
    ensures published[i].kem == published[i].ec
    decreases |published|
  {
    var n := |published| - 1;
    if i < n { TileAt(published[..n], lo, hi - |published[n].ec|, i); }
  }

  lemma {:induction false} TilesDisjoint(published: seq<Batch>, lo: int, hi: int, i: nat, j: nat, id: Id)
    requires Tiles(published, lo, hi) && i < j < |published| && id in published[i].ec
    ensures id !in published[j].ec
    decreases |published|
  {
    var n := |published| - 1;
    var front, last := published[..n], published[n];
    if j < n {
      TilesDisjoint(front, lo, hi - |last.ec|, i, j, id);
    } else {
      assert id in front[i].ec;
      TileMembers(front, lo, hi - |last.ec|, id);
      RangeMembers(hi - |last.ec|, |last.ec|);
    }
  }

  /** A top-up that reports success leaves both counts at min(threshold, batch) or more. */
  lemma TopUpFillsInventory(d: Device, minAvailable: int, batch: int, f: Faults)
    requires Inv(d) && TopUpOnce(d, minAvailable, batch, f).1
    ensures var t := TopUpOnce(d, minAvailable, batch, f).0;
            var wanted := if Threshold(minAvailable) <= BatchSize(batch) then Threshold(minAvailable) else BatchSize(batch);
            |t.ec| >= wanted && |Available(t)| >= wanted
  {
    if Low(d, minAvailable) {
      var count := BatchSize(batch);
      UploadKeepsInv(d, count, f);
      var t := Upload(d, count, f).0;
      RangeSize(d.acct.ec, count);
      SubsetSize(AsSet(Range(d.acct.ec, count)), t.ec);
      SubsetSize(AsSet(Range(d.acct.ec, count)), Available(t));
      assert Available(TopUpOnce(d, minAvailable, batch, f).0) == Available(t);
    }
  }

  lemma {:induction false} SubsetSize(a: set<Id>, b: set<Id>)
    requires a <= b
    ensures |a| <= |b|
  {
    if a != {} {
      var x :| x in a;
      SubsetSize(a - {x}, b - {x});
    }
  }

  ghost predicate NoFaults(f: Faults, count: nat) {
    && f.put.Accepted? && f.saveOk && f.writes >= 2 * count
    && forall i: nat :: f.ecWorks(i) && f.kemWorks(i)
  }

  /** With nothing going wrong, a needed top-up succeeds exactly while a whole batch of ids is
      left below MAX_ID. */
  lemma TopUpUntilExhausted(d: Device, minAvailable: int, batch: int, f: Faults)
    requires Inv(d) && Low(d, minAvailable) && NoFaults(f, BatchSize(batch))
    ensures TopUpOnce(d, minAvailable, batch, f).1 <==> d.acct.ec + BatchSize(batch) - 1 <= MAX_ID
  {
  }

  /** The store holds no id the counters have not passed. */
  ghost predicate Fresh(d: Device) {
    (forall id <- d.ec :: id < d.acct.ec) && (forall id <- d.kem :: id < d.acct.ec)
  }

  lemma GrowsBy(s: set<Id>, start: Id, k: nat)
    requires start + k <= 0x1_0000_0000 && forall id <- s :: id < start
    ensures |s + AsSet(Range(start, k))| == |s| + k
  {
    RangeSize(start, k);
    RangeMembers(start, k);
    assert s * AsSet(Range(start, k)) == {};
  }

  /** What a top-up that fails after generating its keys leaves: the records written before the
      failure, all of them if it was the PUT that failed, in counts. */
  lemma FailedTopUpCounts(d: Device, minAvailable: int, batch: int, f: Faults)
    requires Inv(d) && Fresh(d) && Low(d, minAvailable) && Generates(d.acct.ec, BatchSize(batch), f)
    requires f.writes < 2 * BatchSize(batch) || !f.put.Accepted?
    ensures var (t, ok) := TopUpOnce(d, minAvailable, batch, f);
            var n := BatchSize(batch);
            && !ok && t.acct == d.acct && t.saved == d.saved
            && |t.ec| == |d.ec| + Min(f.writes, n)
            && |Available(t)| == |Available(d)| + Min(f.writes - Min(f.writes, n), n)
  {
    hide Persisted, Range, AsSet, Tiles, Available;
    var n, start := BatchSize(batch), d.acct.ec;
    var t := TopUpOnce(d, minAvailable, batch, f).0;
    var e := Min(f.writes, n);
    var k := Min(f.writes - e, n);
    PersistedSets(d, start, n, f.writes);
    GrowsBy(d.ec, start, e);
    NewKeysAreAvailable(d, t, k);
  }

  lemma NewKeysAreAvailable(d: Device, t: Device, k: nat)
    requires Inv(d) && t.used == d.used && t.kem == d.kem + AsSet(Range(d.acct.ec, k)) && d.acct.ec + k <= MAX_ID + 1
    requires Fresh(d)
    ensures |Available(t)| == |Available(d)| + k
  {
    RangeMembers(d.acct.ec, k);
    GrowsBy(Available(d), d.acct.ec, k);
    assert Available(t) == Available(d) + AsSet(Range(d.acct.ec, k));
  }

  /** Whether the next top-up retries a failed one: exactly if the records it left do not reach the
      threshold. If they do, it reports success and publishes nothing; if not, it uploads the very
      same ids. */
  lemma RetryAfterFailedTopUp(d: Device, minAvailable: int, batch: int, f: Faults, later: Faults)
    requires Inv(d) && Fresh(d) && Low(d, minAvailable) && Generates(d.acct.ec, BatchSize(batch), f)
    requires f.writes < 2 * BatchSize(batch) || !f.put.Accepted?
    ensures var (t, n, wanted) := (TopUpOnce(d, minAvailable, batch, f).0, BatchSize(batch), Threshold(minAvailable));
            var (u, ok) := TopUpOnce(t, minAvailable, batch, later);
            && (Low(t, minAvailable) <==>
                  |d.ec| + Min(f.writes, n) < wanted || |Available(d)| + Min(f.writes - Min(f.writes, n), n) < wanted)
            && (f.writes >= 2 * n ==>
                  (Low(t, minAvailable) <==> |d.ec| + n < wanted || |Available(d)| + n < wanted))
            && (!Low(t, minAvailable) ==> ok && u == t)
            && (Low(t, minAvailable) && NoFaults(later, n) ==>
                  ok && u.published == t.published + [Batch(Range(d.acct.ec, n), Range(d.acct.ec, n))])
  {
    FailedTopUpCounts(d, minAvailable, batch, f);
  }

  /** Once a whole batch is stored, failing to publish it changes nothing any more: a retried
      top-up is retried with the same ids until a PUT gets through. */
  lemma FailingAgainChangesNothing(d: Device, minAvailable: int, batch: int, f: Faults, later: Faults)
    requires Inv(d) && Low(d, minAvailable) && Generates(d.acct.ec, BatchSize(batch), f)
    requires f.writes >= 2 * BatchSize(batch) && f.put.Refused? && !later.put.ReplyLost?
    ensures var t := TopUpOnce(d, minAvailable, batch, f).0;
            var u := TopUpOnce(t, minAvailable, batch, later).0;
            u == t || u.published == t.published + [NextBatch(d, BatchSize(batch))]
  {
    var n := BatchSize(batch);
    InvCounters(d);
    hide Persisted, Range, AsSet, Inv;
    PersistedSets(d, d.acct.ec, n, f.writes);
    StoredTwice(d, d.acct.ec, n, f.writes, later.writes);
  }

  lemma InvCounters(d: Device)
    requires Inv(d)
    ensures d.acct.ec == d.acct.kem
  {}

  lemma StoredTwice(d: Device, start: Id, n: nat, first: nat, second: nat)
    requires first >= 2 * n && start + n <= MAX_ID + 1
    ensures var b := Batch(Range(start, n), Range(start, n));
            Persisted(Persisted(d, b, first), b, second) == Persisted(d, b, first)
  {
    hide Persisted, Range, AsSet;
    var b := Batch(Range(start, n), Range(start, n));
    var t := Persisted(d, b, first);
    PersistedSets(d, start, n, first);
    PersistedSets(t, start, n, second);
    var e := Min(second, n);
    var k := Min(second - e, n);
    RangeMembers(start, n);
    RangeMembers(start, e);
    RangeMembers(start, k);
    assert t.ec + AsSet(Range(start, e)) == t.ec;
    assert t.kem + AsSet(Range(start, k)) == t.kem;
  }

  // ----- Retries over whole runs

  /** Keys in the local inventory that nobody else knows, so that nobody can use them up */
  ghost function UnpublishedEc(d: Device): set<Id> {
    set id | id in d.ec && !Published(d, id)
  }

  ghost function UnpublishedKem(d: Device): set<Id> {
    set id | id in Available(d) && !Published(d, id)
  }

  /** The unpublished keys alone reach the threshold in both namespaces. */
  ghost predicate Stuck(d: Device, threshold: nat) {
    |UnpublishedEc(d)| >= threshold && |UnpublishedKem(d)| >= threshold
  }

  ghost predicate Within(events: seq<Event>, threshold: nat) {
    forall i :: 0 <= i < |events| && events[i].TopUp? ==> Threshold(events[i].minAvailable) <= threshold
  }

  lemma StuckStays(d: Device, threshold: nat, e: Event)
    requires Stuck(d, threshold) && Within([e], threshold) && Apply(d, e).Some?
    ensures Apply(d, e).value.published == d.published && Stuck(Apply(d, e).value, threshold)
  {
    var t := Apply(d, e).value;
    match e {
      case TopUp(m, _, _) =>
        assert [e][0] == e;
        SubsetSize(UnpublishedEc(d), d.ec);
        SubsetSize(UnpublishedKem(d), Available(d));
      case _ =>
        assert UnpublishedEc(t) == UnpublishedEc(d) && UnpublishedKem(t) == UnpublishedKem(d);
    }
  }

  /** From then on no run publishes anything, restarts and failures of any kind included. */
  lemma {:induction false} StuckForGood(d: Device, threshold: nat, events: seq<Event>)
    requires Stuck(d, threshold) && Within(events, threshold) && Run(d, events).Some?
    ensures Run(d, events).value.published == d.published
    decreases events
  {
    if events != [] {
      hide Stuck, Apply;
      StuckStays(d, threshold, events[0]);
      StuckForGood(Apply(d, events[0]).value, threshold, events[1..]);
    }
  }

  lemma {:induction false} RunAppend(d: Device, xs: seq<Event>, ys: seq<Event>)
    requires Run(d, xs).Some?
    ensures Run(d, xs + ys) == Run(Run(d, xs).value, ys)
    decreases xs
  {
    hide Apply;
    if xs == [] {
      assert xs + ys == ys;
    } else {
      assert (xs + ys)[1..] == xs[1..] + ys;
      RunAppend(Apply(d, xs[0]).value, xs[1..], ys);
    }
  }

  lemma {:induction false} UseUpEc(d: Device, ids: set<Id>) returns (events: seq<Event>)
    requires forall id <- ids :: Published(d, id)
    ensures Run(d, events) == Some(d.(ec := d.ec - ids)) && Within(events, 0)
    decreases ids
  {
    if ids == {} {
      events := [];
      assert d.ec - ids == d.ec;
    } else {
      var id :| id in ids;
      var t := d.(ec := d.ec - {id});
      assert forall i :: Published(t, i) <==> Published(d, i);
      var rest := UseUpEc(t, ids - {id});
      events := [ConsumeEc(id)] + rest;
      assert events[1..] == rest;
      assert d.ec - ids == t.ec - (ids - {id});
    }
  }

  lemma {:induction false} UseUpKem(d: Device, ids: set<Id>) returns (events: seq<Event>)
    requires forall id <- ids :: Published(d, id)
    ensures Run(d, events) == Some(d.(used := d.used + ids)) && Within(events, 0)
    decreases ids
  {
    if ids == {} {
      events := [];
      assert d.used + ids == d.used;
    } else {
      var id :| id in ids;
      var t := d.(used := d.used + {id});
      assert forall i :: Published(t, i) <==> Published(d, i);
      var rest := UseUpKem(t, ids - {id});
      events := [ConsumeKem(id)] + rest;
      assert events[1..] == rest;
      assert d.used + ids == t.used + (ids - {id});
    }
  }

  /** Peers can use up every published key, which leaves the unpublished ones. */
  lemma UseUpPublished(d: Device) returns (events: seq<Event>, t: Device)
    ensures Run(d, events) == Some(t) && Within(events, 0)
    ensures t == d.(ec := UnpublishedEc(d), used := t.used) && Available(t) == UnpublishedKem(d)
  {
    var ecIds := set id | id in d.ec && Published(d, id);
    var kemIds := set id | id in Available(d) && Published(d, id);
    var first := UseUpEc(d, ecIds);
    var u := d.(ec := d.ec - ecIds);
    assert forall i :: Published(u, i) <==> Published(d, i);
    var second := UseUpKem(u, kemIds);
    t := u.(used := u.used + kemIds);
    RunAppend(d, first, second);
    events := first + second;
    assert d.ec - ecIds == UnpublishedEc(d);
    assert Available(t) == UnpublishedKem(d);
  }

  /** From any state that is not stuck, peers using up keys leads to a top-up that publishes. */
  lemma LeadsToTopUp(d: Device, minAvailable: int, batch: int, f: Faults) returns (events: seq<Event>)
    requires Inv(d) && !Stuck(d, Threshold(minAvailable))
    requires NoFaults(f, BatchSize(batch)) && d.acct.ec + BatchSize(batch) - 1 <= MAX_ID
    ensures Within(events, Threshold(minAvailable)) && Run(d, events).Some?
    ensures Run(d, events).value.published == d.published + [NextBatch(d, BatchSize(batch))]
  {
    var use, t := UseUpPublished(d);
    var e := TopUp(minAvailable, batch, f);
    RunAppend(d, use, [e]);
    events := use + [e];
    assert Low(t, minAvailable);
    PublishesNext(t, minAvailable, batch, f);
    assert Run(t, [e]) == Some(TopUpOnce(t, minAvailable, batch, f).0) by {
      assert [e][1..] == [];
    }
  }

  lemma PublishesNext(d: Device, minAvailable: int, batch: int, f: Faults)
    requires Low(d, minAvailable) && NoFaults(f, BatchSize(batch))
    requires d.acct.ec == d.acct.kem && 1 <= d.acct.ec && d.acct.ec + BatchSize(batch) - 1 <= MAX_ID
    ensures TopUpOnce(d, minAvailable, batch, f).0.published == d.published + [NextBatch(d, BatchSize(batch))]
  {}

  lemma PublishedBelow(d: Device)
    requires Inv(d)
    ensures forall id: Id :: Published(d, id) <==> 2 <= id < d.acct.ec
  {
    forall id: Id ensures Published(d, id) <==> 2 <= id < d.acct.ec {
      TileMembers(d.published, 2, d.acct.ec, id);
    }
  }

  lemma UnpublishedAre(d: Device, t: Device, e: nat, k: nat)
    requires Inv(d) && Fresh(d) && d.acct.ec + e <= MAX_ID + 1 && d.acct.ec + k <= MAX_ID + 1
    requires t == d.(ec := d.ec + AsSet(Range(d.acct.ec, e)), kem := d.kem + AsSet(Range(d.acct.ec, k)))
    ensures UnpublishedEc(t) == AsSet(Range(d.acct.ec, e))
    ensures UnpublishedKem(t) == AsSet(Range(d.acct.ec, k))
  {
    PublishedBelow(d);
    assert forall id :: Published(t, id) <==> Published(d, id);
    hide Range, AsSet, Published, Tiles;
    RangeMembers(d.acct.ec, e);
    RangeMembers(d.acct.ec, k);
  }

  /** What a top-up that fails before anything is published leaves unpublished: the records written,
      if the store held none before. */
  lemma FailedTopUpUnpublished(d: Device, minAvailable: int, batch: int, f: Faults)
    requires Inv(d) && Fresh(d) && Low(d, minAvailable) && Generates(d.acct.ec, BatchSize(batch), f)
    requires f.writes < 2 * BatchSize(batch) || f.put.Refused?
    ensures var (t, n) := (TopUpOnce(d, minAvailable, batch, f).0, BatchSize(batch));
            && Inv(t) && t.acct == d.acct && t.published == d.published
            && |UnpublishedEc(t)| == Min(f.writes, n)
            && |UnpublishedKem(t)| == Min(f.writes - Min(f.writes, n), n)
  {
    var n, start := BatchSize(batch), d.acct.ec;
    InvCounters(d);
    hide Inv, Persisted, Range, AsSet, UnpublishedEc, UnpublishedKem, Fresh, Low;
    var t := TopUpOnce(d, minAvailable, batch, f).0;
    assert t == Persisted(d, NextBatch(d, n), f.writes);
    StoringKeepsInv(d, n, f.writes);
    PersistedSets(d, start, n, f.writes);
    UnpublishedAre(d, t, Min(f.writes, n), Min(f.writes - Min(f.writes, n), n));
    RangeSize(start, Min(f.writes, n));
    RangeSize(start, Min(f.writes - Min(f.writes, n), n));
  }

  /** Whether a failed top-up is ever retried, over all later runs whose thresholds are at most the
      present one: if the records written reach the threshold in both namespaces by themselves, no
      run ever publishes anything again; otherwise there is one that publishes the very ids of the
      failed top-up. */
  lemma RetriedEverOrNever(d: Device, minAvailable: int, batch: int, f: Faults, later: Faults) returns (events: seq<Event>)
    requires Inv(d) && Fresh(d) && Low(d, minAvailable) && Generates(d.acct.ec, BatchSize(batch), f)
    requires f.writes < 2 * BatchSize(batch) || f.put.Refused?
    requires NoFaults(later, BatchSize(batch))
    ensures var (t, n, wanted) := (TopUpOnce(d, minAvailable, batch, f).0, BatchSize(batch), Threshold(minAvailable));
            if Min(f.writes, n) >= wanted && Min(f.writes - Min(f.writes, n), n) >= wanted then
              forall es :: Within(es, wanted) && Run(t, es).Some? ==> Run(t, es).value.published == t.published
            else
              && Within(events, wanted) && Run(t, events).Some?
              && Run(t, events).value.published == t.published + [NextBatch(d, n)]
  {
    FailedTopUpUnpublished(d, minAvailable, batch, f);
    var t := TopUpOnce(d, minAvailable, batch, f).0;
    events := [];
    hide TopUpOnce, Run, Inv;
    if Stuck(t, Threshold(minAvailable)) {
      forall es | Within(es, Threshold(minAvailable)) && Run(t, es).Some?
        ensures Run(t, es).value.published == t.published
      {
        StuckForGood(t, Threshold(minAvailable), es);
      }
    } else {
      events := LeadsToTopUp(t, minAvailable, batch, later);
    }
  }

  /** A refused PUT with all records written, from whatever the store held before: no later run
      whose thresholds are at most the batch publishes anything again. */
  lemma RefusedForGood(d: Device, minAvailable: int, batch: int, f: Faults, events: seq<Event>)
    requires Inv(d) && Low(d, minAvailable) && Generates(d.acct.ec, BatchSize(batch), f)
    requires f.writes >= 2 * BatchSize(batch) && f.put.Refused?
    requires var t := TopUpOnce(d, minAvailable, batch, f).0; Within(events, BatchSize(batch)) && Run(t, events).Some?
    ensures var t := TopUpOnce(d, minAvailable, batch, f).0;
            t.published == d.published && Run(t, events).value.published == d.published
  {
    var n, start := BatchSize(batch), d.acct.ec;
    var t := TopUpOnce(d, minAvailable, batch, f).0;
    InvCounters(d);
    StoringKeepsInv(d, n, f.writes);
    PublishedBelow(d);
    hide Persisted, Range, AsSet, Run;
    assert t == Persisted(d, NextBatch(d, n), f.writes);
    RangeMembers(start, n);
    RangeSize(start, n);
    assert forall id :: Published(t, id) <==> Published(d, id);
    SubsetSize(AsSet(Range(start, n)), UnpublishedEc(t));
    SubsetSize(AsSet(Range(start, n)), UnpublishedKem(t));
    StuckForGood(t, n, events);
  }

  /** Both counters that the next upload can start from are published already. */
  ghost predicate AtPublished(d: Device) {
    Published(d, d.acct.ec) && Published(d, d.saved.ec)
  }

  lemma StepPublishes(d: Device, e: Event)
    requires Apply(d, e).Some?
    ensures var t := Apply(d, e).value;
            && |d.published| <= |t.published| <= |d.published| + 1 && t.published[..|d.published|] == d.published
            && (|t.published| > |d.published| ==> d.acct.ec in t.published[|d.published|].ec)
            && (|t.published| == |d.published| ==> t.acct in {d.acct, d.saved} && t.saved == d.saved)
  {
    if e.TopUp? && Generates(d.acct.ec, BatchSize(e.batch), e.faults) {
      RangeMembers(d.acct.ec, BatchSize(e.batch));
    }
  }

  lemma {:induction false} PublishedGrows(d: Device, events: seq<Event>)
    requires Run(d, events).Some?
    ensures d.published <= Run(d, events).value.published
    decreases events
  {
    if events != [] {
      hide Apply;
      StepPublishes(d, events[0]);
      PublishedGrows(Apply(d, events[0]).value, events[1..]);
    }
  }

  /** From such a state, whatever happens up to the next publication, that one repeats an id. */
  lemma {:induction false} NextPublicationReissues(d: Device, events: seq<Event>, e: Event)
    requires AtPublished(d)
    requires Run(d, events).Some? && Run(d, events).value.published == d.published
    requires Apply(Run(d, events).value, e).Some? && Apply(Run(d, events).value, e).value.published != d.published
    ensures var after, n := Apply(Run(d, events).value, e).value.published, |d.published|;
            && |after| == n + 1 && after[..n] == d.published
            && exists id :: id in after[n].ec && Published(d, id)
    decreases events
  {
    hide Apply;
    if events == [] {
      StepPublishes(d, e);
    } else {
      var t := Apply(d, events[0]).value;
      StepPublishes(d, events[0]);
      PublishedGrows(t, events[1..]);
      assert t.published == d.published;
      NextPublicationReissues(t, events[1..], e);
      var id :| id in Apply(Run(d, events).value, e).value.published[|d.published|].ec && Published(t, id);
      assert Published(d, id);
    }
  }

  /** Why Restart needs the saved account: from any unsaved one, whatever happens up to the next
      publication, that one publishes an id a second time. */
  lemma UnsavedRestartReissues(d: Device, events: seq<Event>, e: Event)
    requires Inv(d) && d.saved != d.acct
    requires Run(d, [Restart] + events).Some? && Run(d, [Restart] + events).value.published == d.published
    requires var t := Run(d, [Restart] + events).value; Apply(t, e).Some? && Apply(t, e).value.published != d.published
    ensures var after, n := Apply(Run(d, [Restart] + events).value, e).value.published, |d.published|;
            && |after| == n + 1 && after[..n] == d.published
            && exists id :: id in after[n].ec && Published(d, id)
  {
    var r := Apply(d, Restart).value;
    assert ([Restart] + events)[1..] == events;
    TileMembers(d.published, 2, d.acct.ec, d.saved.ec);
    assert Published(r, d.saved.ec);
    NextPublicationReissues(r, events, e);
    var id :| id in Apply(Run(d, [Restart] + events).value, e).value.published[|d.published|].ec && Published(r, id);
    assert Published(d, id);
  }

  /** Why a top-up needs the reply to its PUT: when it is lost the counters stay, and whatever
      happens up to the next publication, that one publishes an id a second time. */
  lemma LostReplyReissues(d: Device, lost: Event, events: seq<Event>, e: Event)
    requires Inv(d) && lost.TopUp? && !SafeEvent(d, lost)
    requires var t := Apply(d, lost).value;
             && Run(t, events).Some? && Run(t, events).value.published == t.published
             && Apply(Run(t, events).value, e).Some? && Apply(Run(t, events).value, e).value.published != t.published
    ensures var t := Apply(d, lost).value;
            var after, n := Apply(Run(t, events).value, e).value.published, |t.published|;
            && |after| == n + 1 && after[..n] == t.published
            && exists id :: id in after[n].ec && Published(t, id)
  {
    var t := Apply(d, lost).value;
    RangeMembers(d.acct.ec, BatchSize(lost.batch));
    assert t.published[|d.published|].ec == Range(d.acct.ec, BatchSize(lost.batch));
    assert d.acct.ec in t.published[|d.published|].ec;
    assert Published(t, t.acct.ec);
    if d.saved.ec != d.acct.ec {
      TileMembers(d.published, 2, d.acct.ec, d.saved.ec);
      var i :| 0 <= i < |d.published| && d.saved.ec in d.published[i].ec;
      assert t.published[i] == d.published[i];
    }
    assert Published(t, t.saved.ec);
    NextPublicationReissues(t, events, e);
  }

  // ----- The store and the maintainer

  class Phone {
    var acct: Counters
    var saved: Counters
    var ec: set<Id>
    var kem: set<Id>
    var used: set<Id>
    var published: seq<Batch>

    ghost function Now(): Device
      reads this
    {
      Device(acct, saved, ec, kem, used, published)
    }

    constructor (d: Device)
      ensures Now() == d
    {
      acct, saved, ec, kem, used, published := d.acct, d.saved, d.ec, d.kem, d.used, d.published;
    }

    /** CountAvailableOneTimePreKeys */
    method CountAvailable(lastResort: Id) returns (ecCount: nat, kemCount: nat)
      ensures ecCount == |ec|
      ensures lastResort == LAST_RESORT ==> kemCount == |Available(Now())|
    {
      ecCount := |ec|;
      kemCount := CountUnused(kem, used, lastResort);
    }

    method PersistOneTimePreKeys(b: Batch, writes: nat) returns (ok: bool)
      modifies this`ec, this`kem
      ensures Now() == Persisted(old(Now()), b, writes)
      ensures ok <==> writes >= |b.ec| + |b.kem|
    {
      var done := 0;
      for i := 0 to |b.ec|
        invariant done == i <= writes
        invariant Now() == old(Now()).(ec := old(ec) + AsSet(b.ec[..i]))
      {
        if done == writes {
          assert b.kem[..0] == [];
          return false;
        }
        ec := ec + {b.ec[i]};
        done := done + 1;
        assert b.ec[..i + 1] == b.ec[..i] + [b.ec[i]];
      }
      for i := 0 to |b.kem|
        invariant done == |b.ec| + i <= writes
        invariant Now() == old(Now()).(ec := old(ec) + AsSet(b.ec[..|b.ec|]), kem := old(kem) + AsSet(b.kem[..i]))
      {
        if done == writes {
          return false;
        }
        kem := kem + {b.kem[i]};
        done := done + 1;
        assert b.kem[..i + 1] == b.kem[..i] + [b.kem[i]];
      }
      return true;
    }

    method UploadOneTimeBatch(count: int, f: Faults) returns (ok: bool)
      modifies this
      ensures (Now(), ok) == Upload(old(Now()), count, f)
    {
      if count <= 0 {
        return false;
      }
      var ecBatch := GenerateOneTimePreKeys(acct.ec, count, f.ecWorks);
      if ecBatch.None? {
        return false;
      }
      var kemBatch := GenerateOneTimeKyberWithPairs(acct.kem, count, f.kemWorks);
      if kemBatch.None? {
        return false;
      }
      var b := Batch(ecBatch.value, kemBatch.value);
      var stored := PersistOneTimePreKeys(b, f.writes);
      if !stored || f.put.Refused? {
        return false;
      }
      published := published + [b];
      if f.put.ReplyLost? {
        return false;
      }
      acct := Counters(Add32(acct.ec, count), Add32(acct.kem, count));
      return true;
    }

    method MaybeTopUp(minAvailable: int, batch: int, f: Faults) returns (ok: bool)
      modifies this
      ensures (Now(), ok) == TopUpOnce(old(Now()), minAvailable, batch, f)
      ensures var wanted := if minAvailable > 0 then minAvailable else 10;
              var size := if batch > 0 then batch else 100;
              if |old(ec)| >= wanted && |Available(old(Now()))| >= wanted then ok && Now() == old(Now())
              else
                && (ok ==> f.saveOk && saved == acct && acct.ec == Add32(old(acct.ec), size))
                && (ok ==> published == old(published) + [Batch(Range(old(acct.ec), size), Range(old(acct.kem), size))])
                && (!ok ==> saved == old(saved))
    {
      var ecCount, kemCount := CountAvailable(LAST_RESORT);
      var threshold := Threshold(minAvailable);
      if ecCount >= threshold && kemCount >= threshold {
        return true;
      }
      var uploaded := UploadOneTimeBatch(BatchSize(batch), f);
      if !uploaded || !f.saveOk {
        return false;
      }
      saved := acct;
      return true;
    }
  }
}
