/** The two implementations of libsignal's local stores: the maps of internal/store/memstore and
    the tables of internal/store/sqlstore. Both file peers under Address.String(). */
module SignalStores {
  import opened Inventory
  import opened Wrappers
  import opened Decimal

  /** Serialized records and keys, which are never empty in use: what a SQL driver reads back for
      an empty one is not modelled. */
  type Record = seq<bv8>

  datatype Address = Address(serviceId: string, device: Id)

  /** Address.String() */
  function Key(a: Address): string {
    a.serviceId + "." + Itoa(a.device)
  }

  /** Distinct addresses never share a record, whatever dots a service id contains. */
  lemma KeyIsInjective(a: Address, b: Address)
    requires Key(a) == Key(b)
    ensures a == b
  {
    var x, y := Itoa(a.device), Itoa(b.device);
    var k := Key(a);
    assert k[|k| - |x| - 1] == '.' && k[|k| - |y| - 1] == '.';
    assert |x| == |y|;
    assert x == k[|k| - |x|..] == y;
    assert a.serviceId == k[..|k| - |x| - 1] == b.serviceId;
    ItoaRoundTrip(a.device);
    ItoaRoundTrip(b.device);
  }

  datatype Op =
    | SetLocalIdentity(pub: Record, priv: Record, regId: Id)
    | LocalIdentityKey
    | LocalRegistrationId
    | LoadIdentity(addr: Address)
    | SaveIdentity(addr: Address, pub: Record)
    | IsTrustedIdentity(addr: Address, pub: Record)
    | LoadSession(addr: Address)
    | StoreSession(addr: Address, record: Record)
    | DeleteSession(addr: Address)
    | LoadPreKey(id: Id)
    | StorePreKey(id: Id, record: Record)
    | RemovePreKey(id: Id)
    | LoadSignedPreKey(id: Id)
    | StoreSignedPreKey(id: Id, record: Record)
    | LoadKyberPreKey(id: Id)
    | StoreKyberPreKey(id: Id, record: Record)
    | MarkKyberPreKeyUsed(id: Id)
    | LoadSenderKey(addr: Address, distId: string)
    | StoreSenderKey(addr: Address, distId: string, record: Record)
    | CountAvailable(lastResort: Id)

  datatype Reply =
    | Done
    | NotFound
    | Found(record: Record)
    | KeyPair(pub: Record, priv: Record)
    | RegistrationId(regId: Id)
    | Saved(replaced: bool)
    | Trusted(trusted: bool)
    | Counts(ec: nat, kem: nat)

  function Lookup<K(==)>(m: map<K, Record>, k: K): Reply {
    if k in m then Found(m[k]) else NotFound
  }

  datatype Mem = Mem(
    identity: Option<(Record, Record)>,
    regId: Id,
    sessions: map<string, Record>,
    identities: map<string, Record>,
    preKeys: map<Id, Record>,
    signedKeys: map<Id, Record>,
    kyberKeys: map<Id, Record>,
    usedKyber: set<Id>,
    senderKeys: map<(string, string), Record>)

  datatype KyberRow = KyberRow(record: Record, used: bool)

  datatype IdentityRow = IdentityRow(pub: Record, priv: Record, regId: Id)

  datatype Sql = Sql(
    localIdentity: Option<IdentityRow>,
    sessions: map<string, Record>,
    identities: map<string, Record>,
    preKeys: map<Id, Record>,
    signedPreKeys: map<Id, Record>,
    kyberPreKeys: map<Id, KyberRow>,
    senderKeys: map<(string, string), Record>)

  const EMPTY_MEM := Mem(None, 0, map[], map[], map[], map[], map[], {}, map[])
  const EMPTY_SQL := Sql(None, map[], map[], map[], map[], map[], map[])

  function MemKem(m: Mem, lastResort: Id): set<Id> {
    Unused(m.kyberKeys.Keys, m.usedKyber, lastResort)
  }

  /** SELECT COUNT(*) ... WHERE id != ? AND used = 0 */
  function SqlKem(s: Sql, lastResort: Id): set<Id> {
    set id | id in s.kyberPreKeys && id != lastResort && !s.kyberPreKeys[id].used
  }

  function MemNext(m: Mem, op: Op): Mem {
    match op
    case SetLocalIdentity(pub, priv, regId) => m.(identity := Some((pub, priv)), regId := regId)
    case SaveIdentity(a, pub) => m.(identities := m.identities[Key(a) := pub])
    case StoreSession(a, rec) => m.(sessions := m.sessions[Key(a) := rec])
    case DeleteSession(a) => m.(sessions := m.sessions - {Key(a)})
    case StorePreKey(id, rec) => m.(preKeys := m.preKeys[id := rec])
    case RemovePreKey(id) => m.(preKeys := m.preKeys - {id})
    case StoreSignedPreKey(id, rec) => m.(signedKeys := m.signedKeys[id := rec])
    case StoreKyberPreKey(id, rec) => m.(kyberKeys := m.kyberKeys[id := rec])
    case MarkKyberPreKeyUsed(id) => m.(usedKyber := m.usedKyber + {id})
    case StoreSenderKey(a, dist, rec) => m.(senderKeys := m.senderKeys[(Key(a), dist) := rec])
    case _ => m
  }

  function MemReply(m: Mem, op: Op): Reply {
    match op
    case LocalIdentityKey => if m.identity.None? then NotFound else KeyPair(m.identity.value.0, m.identity.value.1)
    case LocalRegistrationId => RegistrationId(m.regId)
    case LoadIdentity(a) => Lookup(m.identities, Key(a))
    case SaveIdentity(a, pub) => Saved(Key(a) in m.identities && m.identities[Key(a)] != pub)
    case IsTrustedIdentity(a, pub) => Trusted(Key(a) in m.identities ==> m.identities[Key(a)] == pub)
    case LoadSession(a) => Lookup(m.sessions, Key(a))
    case LoadPreKey(id) => Lookup(m.preKeys, id)
    case LoadSignedPreKey(id) => Lookup(m.signedKeys, id)
    case LoadKyberPreKey(id) => Lookup(m.kyberKeys, id)
    case LoadSenderKey(a, dist) => Lookup(m.senderKeys, (Key(a), dist))
    case CountAvailable(last) => Counts(|m.preKeys|, |MemKem(m, last)|)
    case _ => Done
  }

  function MemApply(m: Mem, op: Op): (Mem, Reply) {
    (MemNext(m, op), MemReply(m, op))
  }

  function SqlNext(s: Sql, op: Op): Sql {
    match op
    case SetLocalIdentity(pub, priv, regId) => s.(localIdentity := Some(IdentityRow(pub, priv, regId)))
    case SaveIdentity(a, pub) => s.(identities := s.identities[Key(a) := pub])
    case StoreSession(a, rec) => s.(sessions := s.sessions[Key(a) := rec])
    case DeleteSession(a) => s.(sessions := s.sessions - {Key(a)})
    case StorePreKey(id, rec) => s.(preKeys := s.preKeys[id := rec])
    case RemovePreKey(id) => s.(preKeys := s.preKeys - {id})
    case StoreSignedPreKey(id, rec) => s.(signedPreKeys := s.signedPreKeys[id := rec])
    case StoreKyberPreKey(id, rec) => s.(kyberPreKeys := s.kyberPreKeys[id := KyberRow(rec, false)])
    case MarkKyberPreKeyUsed(id) =>
      if id in s.kyberPreKeys
      then s.(kyberPreKeys := s.kyberPreKeys[id := s.kyberPreKeys[id].(used := true)])
      else s
    case StoreSenderKey(a, dist, rec) => s.(senderKeys := s.senderKeys[(Key(a), dist) := rec])
    case _ => s
  }

  function SqlReply(s: Sql, op: Op): Reply {
    match op
    case LocalIdentityKey =>
      if s.localIdentity.None? then NotFound else KeyPair(s.localIdentity.value.pub, s.localIdentity.value.priv)
    case LocalRegistrationId => if s.localIdentity.None? then NotFound else RegistrationId(s.localIdentity.value.regId)
    case LoadIdentity(a) => Lookup(s.identities, Key(a))
    case SaveIdentity(a, pub) => Saved(Key(a) in s.identities && s.identities[Key(a)] != pub)
    case IsTrustedIdentity(a, pub) =>
      Trusted(Lookup(s.identities, Key(a)).NotFound? || s.identities[Key(a)] == pub)
    case LoadSession(a) => Lookup(s.sessions, Key(a))
    case LoadPreKey(id) => Lookup(s.preKeys, id)
    case LoadSignedPreKey(id) => Lookup(s.signedPreKeys, id)
    case LoadKyberPreKey(id) => if id in s.kyberPreKeys then Found(s.kyberPreKeys[id].record) else NotFound
    case LoadSenderKey(a, dist) => Lookup(s.senderKeys, (Key(a), dist))
    case CountAvailable(last) => Counts(|s.preKeys|, |SqlKem(s, last)|)
    case _ => Done
  }

  function SqlApply(s: Sql, op: Op): (Sql, Reply) {
    (SqlNext(s, op), SqlReply(s, op))
  }

  function MemReplies(m: Mem, ops: seq<Op>): (rs: seq<Reply>)
    ensures |rs| == |ops|
    decreases ops
  {
    if ops == [] then []
    else var (m', r) := MemApply(m, ops[0]); [r] + MemReplies(m', ops[1..])
  }

  function SqlReplies(s: Sql, ops: seq<Op>): (rs: seq<Reply>)
    ensures |rs| == |ops|
    decreases ops
  {
    if ops == [] then []
    else var (s', r) := SqlApply(s, ops[0]); [r] + SqlReplies(s', ops[1..])
  }

  // ----- What a load returns, from the history of writes alone

  function MemAfter(ops: seq<Op>): Mem {
    if ops == [] then EMPTY_MEM else MemNext(MemAfter(ops[..|ops| - 1]), ops[|ops| - 1])
  }

  function SqlAfter(ops: seq<Op>): Sql {
    if ops == [] then EMPTY_SQL else SqlNext(SqlAfter(ops[..|ops| - 1]), ops[|ops| - 1])
  }

  predicate IsLoad(q: Op) {
    q.LocalIdentityKey? || q.LocalRegistrationId? || q.LoadIdentity? || q.LoadSession? || q.LoadPreKey? ||
    q.LoadSignedPreKey? || q.LoadKyberPreKey? || q.LoadSenderKey?
  }

  /** What a write makes the load return, if it concerns it: addresses are compared, not keys. */
  function Sets(op: Op, q: Op): Option<Reply> {
    match (op, q)
    case (SetLocalIdentity(pub, priv, _), LocalIdentityKey) => Some(KeyPair(pub, priv))
    case (SetLocalIdentity(_, _, regId), LocalRegistrationId) => Some(RegistrationId(regId))
    case (SaveIdentity(a, pub), LoadIdentity(b)) => if a == b then Some(Found(pub)) else None
    case (StoreSession(a, rec), LoadSession(b)) => if a == b then Some(Found(rec)) else None
    case (DeleteSession(a), LoadSession(b)) => if a == b then Some(NotFound) else None
    case (StorePreKey(i, rec), LoadPreKey(j)) => if i == j then Some(Found(rec)) else None
    case (RemovePreKey(i), LoadPreKey(j)) => if i == j then Some(NotFound) else None
    case (StoreSignedPreKey(i, rec), LoadSignedPreKey(j)) => if i == j then Some(Found(rec)) else None
    case (StoreKyberPreKey(i, rec), LoadKyberPreKey(j)) => if i == j then Some(Found(rec)) else None
    case (StoreSenderKey(a, d, rec), LoadSenderKey(b, e)) => if a == b && d == e then Some(Found(rec)) else None
    case _ => None
  }

  /** The reply of the last write that concerns the load */
  function LastSet(ops: seq<Op>, q: Op, unset: Reply): Reply {
    if ops == [] then unset
    else if Sets(ops[|ops| - 1], q).Some? then Sets(ops[|ops| - 1], q).value
    else LastSet(ops[..|ops| - 1], q, unset)
  }

  lemma KeysDiffer(a: Address, b: Address)
    ensures Key(a) == Key(b) <==> a == b
  {
    if Key(a) == Key(b) {
      KeyIsInjective(a, b);
    }
  }

  // What each field of the two stores is after one operation

  lemma PeerFields(m: Mem, s: Sql, op: Op)
    ensures MemNext(m, op).sessions ==
      if op.StoreSession? then m.sessions[Key(op.addr) := op.record]
      else if op.DeleteSession? then m.sessions - {Key(op.addr)} else m.sessions
    ensures SqlNext(s, op).sessions ==
      if op.StoreSession? then s.sessions[Key(op.addr) := op.record]
      else if op.DeleteSession? then s.sessions - {Key(op.addr)} else s.sessions
    ensures MemNext(m, op).identities == if op.SaveIdentity? then m.identities[Key(op.addr) := op.pub] else m.identities
    ensures SqlNext(s, op).identities == if op.SaveIdentity? then s.identities[Key(op.addr) := op.pub] else s.identities
  {
    hide Key;
  }

  lemma SenderKeyFields(m: Mem, s: Sql, op: Op)
    ensures MemNext(m, op).senderKeys ==
      if op.StoreSenderKey? then m.senderKeys[(Key(op.addr), op.distId) := op.record] else m.senderKeys
    ensures SqlNext(s, op).senderKeys ==
      if op.StoreSenderKey? then s.senderKeys[(Key(op.addr), op.distId) := op.record] else s.senderKeys
  {
    hide Key;
  }

  lemma KeyFields(m: Mem, s: Sql, op: Op)
    ensures MemNext(m, op).preKeys ==
      if op.StorePreKey? then m.preKeys[op.id := op.record]
      else if op.RemovePreKey? then m.preKeys - {op.id} else m.preKeys
    ensures SqlNext(s, op).preKeys ==
      if op.StorePreKey? then s.preKeys[op.id := op.record]
      else if op.RemovePreKey? then s.preKeys - {op.id} else s.preKeys
    ensures MemNext(m, op).signedKeys == if op.StoreSignedPreKey? then m.signedKeys[op.id := op.record] else m.signedKeys
    ensures SqlNext(s, op).signedPreKeys ==
      if op.StoreSignedPreKey? then s.signedPreKeys[op.id := op.record] else s.signedPreKeys
  {
    hide Key;
  }

  lemma KyberFields(m: Mem, s: Sql, op: Op)
    ensures MemNext(m, op).kyberKeys == if op.StoreKyberPreKey? then m.kyberKeys[op.id := op.record] else m.kyberKeys
    ensures MemNext(m, op).usedKyber == if op.MarkKyberPreKeyUsed? then m.usedKyber + {op.id} else m.usedKyber
    ensures SqlNext(s, op).kyberPreKeys ==
      if op.StoreKyberPreKey? then s.kyberPreKeys[op.id := KyberRow(op.record, false)]
      else if op.MarkKyberPreKeyUsed? && op.id in s.kyberPreKeys
      then s.kyberPreKeys[op.id := s.kyberPreKeys[op.id].(used := true)]
      else s.kyberPreKeys
  {
    hide Key;
  }

  lemma LocalFields(m: Mem, s: Sql, op: Op)
    ensures MemNext(m, op).identity == if op.SetLocalIdentity? then Some((op.pub, op.priv)) else m.identity
    ensures MemNext(m, op).regId == if op.SetLocalIdentity? then op.regId else m.regId
    ensures SqlNext(s, op).localIdentity ==
      if op.SetLocalIdentity? then Some(IdentityRow(op.pub, op.priv, op.regId)) else s.localIdentity
  {
    hide Key;
  }

  /** After one operation a load returns what the operation sets, or what it returned before. */
  ghost predicate Explains(m: Mem, s: Sql, op: Op, q: Op) {
    && MemReply(MemNext(m, op), q) == (if Sets(op, q).Some? then Sets(op, q).value else MemReply(m, q))
    && SqlReply(SqlNext(s, op), q) == (if Sets(op, q).Some? then Sets(op, q).value else SqlReply(s, q))
  }

  lemma SessionExplained(m: Mem, s: Sql, op: Op, q: Op)
    requires q.LoadSession?
    ensures Explains(m, s, op, q)
  {
    hide Key, MemNext, SqlNext;
    PeerFields(m, s, op);
    if op.StoreSession? || op.DeleteSession? {
      KeysDiffer(op.addr, q.addr);
    }
  }

  lemma IdentityExplained(m: Mem, s: Sql, op: Op, q: Op)
    requires q.LoadIdentity?
    ensures Explains(m, s, op, q)
  {
    hide Key, MemNext, SqlNext;
    PeerFields(m, s, op);
    if op.SaveIdentity? {
      KeysDiffer(op.addr, q.addr);
    }
  }

  lemma SenderKeyExplained(m: Mem, s: Sql, op: Op, q: Op)
    requires q.LoadSenderKey?
    ensures Explains(m, s, op, q)
  {
    hide Key, MemNext, SqlNext;
    SenderKeyFields(m, s, op);
    if op.StoreSenderKey? {
      KeysDiffer(op.addr, q.addr);
    }
  }

  lemma KeyExplained(m: Mem, s: Sql, op: Op, q: Op)
    requires q.LoadPreKey? || q.LoadSignedPreKey?
    ensures Explains(m, s, op, q)
  {
    hide Key, MemNext, SqlNext;
    KeyFields(m, s, op);
  }

  lemma KyberExplained(m: Mem, s: Sql, op: Op, q: Op)
    requires q.LoadKyberPreKey?
    ensures Explains(m, s, op, q)
  {
    hide Key, MemNext, SqlNext;
    KyberFields(m, s, op);
  }

  lemma LocalExplained(m: Mem, s: Sql, op: Op, q: Op)
    requires q.LocalIdentityKey? || q.LocalRegistrationId?
    ensures Explains(m, s, op, q)
  {
    hide Key, MemNext, SqlNext;
    LocalFields(m, s, op);
  }

  lemma LoadExplained(m: Mem, s: Sql, op: Op, q: Op)
    requires IsLoad(q)
    ensures Explains(m, s, op, q)
  {
    hide Explains;
    if q.LoadSession? {
      SessionExplained(m, s, op, q);
    } else if q.LoadIdentity? {
      IdentityExplained(m, s, op, q);
    } else if q.LoadSenderKey? {
      SenderKeyExplained(m, s, op, q);
    } else if q.LoadKyberPreKey? {
      KyberExplained(m, s, op, q);
    } else if q.LoadPreKey? || q.LoadSignedPreKey? {
      KeyExplained(m, s, op, q);
    } else {
      LocalExplained(m, s, op, q);
    }
  }

  /** After any operations at all, both stores answer every load with the last write that concerns
      it; they differ only in the registration id before an identity was ever set. */
  lemma {:induction false} LoadsReturnLastWrite(ops: seq<Op>, q: Op)
    requires IsLoad(q)
    ensures MemReply(MemAfter(ops), q) == LastSet(ops, q, if q.LocalRegistrationId? then RegistrationId(0) else NotFound)
    ensures SqlReply(SqlAfter(ops), q) == LastSet(ops, q, NotFound)
  {
    if ops != [] {
      hide MemNext, SqlNext, MemReply, SqlReply, Sets;
      var n := |ops| - 1;
      LoadsReturnLastWrite(ops[..n], q);
      LoadExplained(MemAfter(ops[..n]), SqlAfter(ops[..n]), ops[n], q);
    }
  }

  /** Trust on first use, in both stores: a key is trusted exactly if none or the same one was saved
      last for the address, and saving one reports a replacement exactly if it is not. */
  lemma TrustOnFirstUse(ops: seq<Op>, a: Address, pub: Record)
    ensures var trusted := LastSet(ops, LoadIdentity(a), NotFound) in {NotFound, Found(pub)};
            && MemReply(MemAfter(ops), IsTrustedIdentity(a, pub)) == Trusted(trusted)
            && SqlReply(SqlAfter(ops), IsTrustedIdentity(a, pub)) == Trusted(trusted)
            && MemReply(MemAfter(ops), SaveIdentity(a, pub)) == Saved(!trusted)
            && SqlReply(SqlAfter(ops), SaveIdentity(a, pub)) == Saved(!trusted)
  {
    hide Key, MemAfter, SqlAfter, LastSet;
    LoadsReturnLastWrite(ops, LoadIdentity(a));
  }

  /** Whether the id was marked used since it was last stored */
  function MarkedSinceStored(ops: seq<Op>, id: Id): bool {
    ops != [] &&
    match ops[|ops| - 1]
    case MarkKyberPreKeyUsed(i) => i == id || MarkedSinceStored(ops[..|ops| - 1], id)
    case StoreKyberPreKey(i, _) => i != id && MarkedSinceStored(ops[..|ops| - 1], id)
    case _ => MarkedSinceStored(ops[..|ops| - 1], id)
  }

  lemma {:induction false} UsedFromHistory(ops: seq<Op>, id: Id)
    ensures id in MemAfter(ops).usedKyber <==> MarkKyberPreKeyUsed(id) in ops
    ensures id in SqlAfter(ops).kyberPreKeys ==> (SqlAfter(ops).kyberPreKeys[id].used <==> MarkedSinceStored(ops, id))
  {
    if ops != [] {
      hide MemNext, SqlNext;
      var n := |ops| - 1;
      UsedFromHistory(ops[..n], id);
      KyberFields(MemAfter(ops[..n]), SqlAfter(ops[..n]), ops[n]);
      assert ops == ops[..n] + [ops[n]];
    }
  }

  /** Which Kyber keys the two inventories count: stored, not the last resort, and never marked
      used in the one, not marked since stored in the other. */
  lemma InventoriesFromHistory(ops: seq<Op>, last: Id, id: Id)
    ensures var stored := LastSet(ops, LoadKyberPreKey(id), NotFound).Found?;
            && (id in MemKem(MemAfter(ops), last) <==> stored && id != last && MarkKyberPreKeyUsed(id) !in ops)
            && (id in SqlKem(SqlAfter(ops), last) <==> stored && id != last && !MarkedSinceStored(ops, id))
  {
    hide MemAfter, SqlAfter, MarkedSinceStored, LastSet;
    LoadsReturnLastWrite(ops, LoadKyberPreKey(id));
    UsedFromHistory(ops, id);
  }

  lemma {:induction false} FoundWasStored(ops: seq<Op>, id: Id)
    ensures LastSet(ops, LoadPreKey(id), NotFound).Found? ==> exists op :: op in ops && op.StorePreKey? && op.id == id
    ensures LastSet(ops, LoadKyberPreKey(id), NotFound).Found? <==>
      exists op :: op in ops && op.StoreKyberPreKey? && op.id == id
  {
    if ops != [] {
      var n := |ops| - 1;
      FoundWasStored(ops[..n], id);
      assert ops == ops[..n] + [ops[n]];
    }
  }

  /** The EC prekeys stored and not removed since */
  ghost function EcInStock(ops: seq<Op>): set<Id> {
    set op | op in ops && op.StorePreKey? && LastSet(ops, LoadPreKey(op.id), NotFound).Found? :: op.id
  }

  /** The Kyber prekeys stored and never marked used, without the last resort */
  ghost function KemNeverUsed(ops: seq<Op>, last: Id): set<Id> {
    set op | op in ops && op.StoreKyberPreKey? && op.id != last && MarkKyberPreKeyUsed(op.id) !in ops :: op.id
  }

  /** The Kyber prekeys not marked used since they were last stored, without the last resort */
  ghost function KemUnusedSinceStored(ops: seq<Op>, last: Id): set<Id> {
    set op | op in ops && op.StoreKyberPreKey? && op.id != last && !MarkedSinceStored(ops, op.id) :: op.id
  }

  lemma InStock(ops: seq<Op>, last: Id, id: Id)
    ensures id in EcInStock(ops) <==> id in MemAfter(ops).preKeys
    ensures id in EcInStock(ops) <==> id in SqlAfter(ops).preKeys
    ensures id in KemNeverUsed(ops, last) <==> id in MemKem(MemAfter(ops), last)
    ensures id in KemUnusedSinceStored(ops, last) <==> id in SqlKem(SqlAfter(ops), last)
  {
    hide MemAfter, SqlAfter, LastSet, MarkedSinceStored, MemKem, SqlKem;
    FoundWasStored(ops, id);
    LoadsReturnLastWrite(ops, LoadPreKey(id));
    InventoriesFromHistory(ops, last, id);
  }

  /** What the two inventories count, from the history */
  lemma CountsFromHistory(ops: seq<Op>, last: Id)
    ensures MemReply(MemAfter(ops), CountAvailable(last)) == Counts(|EcInStock(ops)|, |KemNeverUsed(ops, last)|)
    ensures SqlReply(SqlAfter(ops), CountAvailable(last)) == Counts(|EcInStock(ops)|, |KemUnusedSinceStored(ops, last)|)
  {
    hide MemAfter, SqlAfter, EcInStock, KemNeverUsed, KemUnusedSinceStored, MemKem, SqlKem;
    forall id: Id {
      InStock(ops, last, id);
    }
    assert EcInStock(ops) == MemAfter(ops).preKeys.Keys == SqlAfter(ops).preKeys.Keys;
    assert KemNeverUsed(ops, last) == MemKem(MemAfter(ops), last);
    assert KemUnusedSinceStored(ops, last) == SqlKem(SqlAfter(ops), last);
  }

  // ----- Simulation

  /** The two hold the same records, and agree which stored Kyber keys are used. */
  ghost predicate Same(m: Mem, s: Sql) {
    && m.sessions == s.sessions && m.identities == s.identities
    && m.preKeys == s.preKeys && m.signedKeys == s.signedPreKeys && m.senderKeys == s.senderKeys
    && m.kyberKeys.Keys == s.kyberPreKeys.Keys
    && (forall id <- m.kyberKeys ::
          s.kyberPreKeys[id] == KyberRow(m.kyberKeys[id], id in m.usedKyber))
    && m.usedKyber <= m.kyberKeys.Keys
    && (m.identity.Some? <==> s.localIdentity.Some?)
    && (m.identity.Some? ==> s.localIdentity.value == IdentityRow(m.identity.value.0, m.identity.value.1, m.regId))
  }

  /** The uses of the interface on which the two agree: the registration id is read only once
      the local identity is set, only stored Kyber ids are marked used, and no used id is
      stored again. */
  predicate Agreeable(m: Mem, op: Op) {
    match op
    case LocalRegistrationId => m.identity.Some?
    case MarkKyberPreKeyUsed(id) => id in m.kyberKeys
    case StoreKyberPreKey(id, _) => id !in m.usedKyber
    case _ => true
  }

  lemma KyberOpSimulates(m: Mem, s: Sql, op: Op)
    requires Same(m, s) && Agreeable(m, op)
    requires op.StoreKyberPreKey? || op.MarkKyberPreKeyUsed? || op.CountAvailable? || op.LoadKyberPreKey?
    ensures MemApply(m, op).1 == SqlApply(s, op).1
    ensures Same(MemApply(m, op).0, SqlApply(s, op).0)
  {
    if op.CountAvailable? {
      assert MemKem(m, op.lastResort) == SqlKem(s, op.lastResort);
    }
  }

  lemma OpSimulates(m: Mem, s: Sql, op: Op)
    requires Same(m, s) && Agreeable(m, op)
    ensures MemApply(m, op).1 == SqlApply(s, op).1
    ensures Same(MemApply(m, op).0, SqlApply(s, op).0)
  {
    if op.StoreKyberPreKey? || op.MarkKyberPreKeyUsed? || op.CountAvailable? || op.LoadKyberPreKey? {
      KyberOpSimulates(m, s, op);
    }
  }

  predicate AllAgreeable(m: Mem, ops: seq<Op>)
    decreases ops
  {
    ops == [] || (Agreeable(m, ops[0]) && AllAgreeable(MemApply(m, ops[0]).0, ops[1..]))
  }

  /** Every agreeable sequence of operations gets the same replies from both stores. */
  lemma {:induction false} StoresSimulate(m: Mem, s: Sql, ops: seq<Op>)
    requires Same(m, s) && AllAgreeable(m, ops)
    ensures MemReplies(m, ops) == SqlReplies(s, ops)
    decreases ops
  {
    if ops != [] {
      OpSimulates(m, s, ops[0]);
      StoresSimulate(MemApply(m, ops[0]).0, SqlApply(s, ops[0]).0, ops[1..]);
    }
  }

  lemma EmptyStoresSimulate(ops: seq<Op>)
    requires AllAgreeable(EMPTY_MEM, ops)
    ensures MemReplies(EMPTY_MEM, ops) == SqlReplies(EMPTY_SQL, ops)
  {
    StoresSimulate(EMPTY_MEM, EMPTY_SQL, ops);
  }

  lemma MemCountDrops(m: Mem, id: Id, last: Id)
    requires id in m.kyberKeys && id in m.usedKyber && id != last
    ensures |MemKem(m, last)| + 1 == |MemKem(m.(usedKyber := m.usedKyber - {id}), last)|
  {
    assert MemKem(m.(usedKyber := m.usedKyber - {id}), last) == MemKem(m, last) + {id};
  }

  lemma RepliesCons(m: Mem, s: Sql, op: Op, rest: seq<Op>)
    ensures MemReplies(m, [op] + rest) == [MemApply(m, op).1] + MemReplies(MemApply(m, op).0, rest)
    ensures SqlReplies(s, [op] + rest) == [SqlApply(s, op).1] + SqlReplies(SqlApply(s, op).0, rest)
  {
    assert ([op] + rest)[1..] == rest;
  }

  /** Different replies after an operation are different replies to the whole sequence. */
  lemma LaterDifference(m: Mem, s: Sql, op: Op, rest: seq<Op>)
    requires MemReplies(MemApply(m, op).0, rest) != SqlReplies(SqlApply(s, op).0, rest)
    ensures MemReplies(m, [op] + rest) != SqlReplies(s, [op] + rest)
  {
    hide MemNext, SqlNext, MemReply, SqlReply;
    RepliesCons(m, s, op, rest);
    assert MemReplies(m, [op] + rest)[1..] == MemReplies(MemApply(m, op).0, rest);
    assert SqlReplies(s, [op] + rest)[1..] == SqlReplies(SqlApply(s, op).0, rest);
  }

  lemma CountsDiffer(m: Mem, s: Sql, last: Id)
    requires |MemKem(m, last)| != |SqlKem(s, last)|
    ensures MemReplies(m, [CountAvailable(last)]) != SqlReplies(s, [CountAvailable(last)])
  {
    var count := CountAvailable(last);
    assert MemReplies(m, [count])[0] == MemApply(m, count).1;
    assert SqlReplies(s, [count])[0] == SqlApply(s, count).1;
  }

  /** The conditions are exact: from any pair of equal stores, an operation outside them has a
      continuation on which the replies differ. */
  lemma OtherwiseTheyDiffer(m: Mem, s: Sql, op: Op) returns (rest: seq<Op>)
    requires Same(m, s) && !Agreeable(m, op)
    ensures MemReplies(m, [op] + rest) != SqlReplies(s, [op] + rest)
  {
    hide MemReplies, SqlReplies, MemKem, SqlKem;
    match op {
      case LocalRegistrationId =>
        rest := [];
        RepliesCons(m, s, op, []);
        assert MemReplies(m, [op] + rest)[0] != SqlReplies(s, [op] + rest)[0];
      case StoreKyberPreKey(id, rec) =>
        var last: Id := if id == 0 then 1 else 0;
        rest := [CountAvailable(last)];
        UsedAgainDiffers(m, s, id, rec, last);
        CountsDiffer(MemApply(m, op).0, SqlApply(s, op).0, last);
        LaterDifference(m, s, op, rest);
      case MarkKyberPreKeyUsed(id) =>
        var last: Id := if id == 0 then 1 else 0;
        var store := StoreKyberPreKey(id, [0]);
        var m1, s1 := MemApply(m, op).0, SqlApply(s, op).0;
        UnknownUsedDiffers(m, s, id, last);
        CountsDiffer(MemApply(m1, store).0, SqlApply(s1, store).0, last);
        LaterDifference(m1, s1, store, [CountAvailable(last)]);
        rest := [store] + [CountAvailable(last)];
        LaterDifference(m, s, op, rest);
    }
  }

  lemma UsedAgainDiffers(m: Mem, s: Sql, id: Id, rec: Record, last: Id)
    requires Same(m, s) && id in m.usedKyber && id != last
    ensures var op := StoreKyberPreKey(id, rec);
            |MemKem(MemApply(m, op).0, last)| != |SqlKem(SqlApply(s, op).0, last)|
  {
    var m1, s1 := MemApply(m, StoreKyberPreKey(id, rec)).0, SqlApply(s, StoreKyberPreKey(id, rec)).0;
    assert SqlKem(s1, last) == MemKem(m1.(usedKyber := m1.usedKyber - {id}), last);
    MemCountDrops(m1, id, last);
  }

  lemma UnknownUsedDiffers(m: Mem, s: Sql, id: Id, last: Id)
    requires Same(m, s) && id !in m.kyberKeys && id != last
    ensures var mark, store := MarkKyberPreKeyUsed(id), StoreKyberPreKey(id, [0]);
            |MemKem(MemApply(MemApply(m, mark).0, store).0, last)| != |SqlKem(SqlApply(SqlApply(s, mark).0, store).0, last)|
  {
    var mark, store := MarkKyberPreKeyUsed(id), StoreKyberPreKey(id, [0]);
    var m2, s2 := MemApply(MemApply(m, mark).0, store).0, SqlApply(SqlApply(s, mark).0, store).0;
    assert SqlKem(s2, last) == MemKem(m2.(usedKyber := m2.usedKyber - {id}), last);
    MemCountDrops(m2, id, last);
  }

  /** internal/store/memstore/signal_stores.go. Every method is specified by the history of operations alone. */
  class MemStores {
    var identity: Option<(Record, Record)>
    var regId: Id
    var sessions: map<string, Record>
    var identities: map<string, Record>
    var preKeys: map<Id, Record>
    var signedKeys: map<Id, Record>
    var kyberKeys: map<Id, Record>
    var usedKyber: set<Id>
    var senderKeys: map<(string, string), Record>
    /** The operations that changed the store, in order */
    ghost var history: seq<Op>

    ghost function Now(): Mem
      reads this
    {
      Mem(identity, regId, sessions, identities, preKeys, signedKeys, kyberKeys, usedKyber, senderKeys)
    }

    ghost predicate Valid()
      reads this
    {
      Now() == MemAfter(history)
    }

    constructor ()
      ensures Valid() && history == []
    {
      identity := None;
      regId := 0;
      sessions := map[];
      identities := map[];
      preKeys := map[];
      signedKeys := map[];
      kyberKeys := map[];
      usedKyber := {};
      senderKeys := map[];
      history := [];
    }

    ghost method Note(op: Op)
      modifies this`history
      ensures history == old(history) + [op]
      ensures MemAfter(history) == MemNext(MemAfter(old(history)), op)
    {
      history := history + [op];
      assert history[..|history| - 1] == old(history);
    }

    method SetLocalIdentity(pub: Record, priv: Record, regId: Id)
      requires Valid()
      modifies this
      ensures Valid() && history == old(history) + [Op.SetLocalIdentity(pub, priv, regId)]
    {
      Note(Op.SetLocalIdentity(pub, priv, regId));
      identity := Some((pub, priv));
      this.regId := regId;
    }

    method StoreSession(a: Address, rec: Record)
      requires Valid()
      modifies this
      ensures Valid() && history == old(history) + [Op.StoreSession(a, rec)]
    {
      Note(Op.StoreSession(a, rec));
      sessions := sessions[Key(a) := rec];
    }

    method DeleteSession(a: Address)
      requires Valid()
      modifies this
      ensures Valid() && history == old(history) + [Op.DeleteSession(a)]
    {
      Note(Op.DeleteSession(a));
      sessions := sessions - {Key(a)};
    }

    method StorePreKey(id: Id, rec: Record)
      requires Valid()
      modifies this
      ensures Valid() && history == old(history) + [Op.StorePreKey(id, rec)]
    {
      Note(Op.StorePreKey(id, rec));
      preKeys := preKeys[id := rec];
    }

    method RemovePreKey(id: Id)
      requires Valid()
      modifies this
      ensures Valid() && history == old(history) + [Op.RemovePreKey(id)]
    {
      Note(Op.RemovePreKey(id));
      preKeys := preKeys - {id};
    }

    method StoreSignedPreKey(id: Id, rec: Record)
      requires Valid()
      modifies this
      ensures Valid() && history == old(history) + [Op.StoreSignedPreKey(id, rec)]
    {
      Note(Op.StoreSignedPreKey(id, rec));
      signedKeys := signedKeys[id := rec];
    }

    method StoreKyberPreKey(id: Id, rec: Record)
      requires Valid()
      modifies this
      ensures Valid() && history == old(history) + [Op.StoreKyberPreKey(id, rec)]
    {
      Note(Op.StoreKyberPreKey(id, rec));
      kyberKeys := kyberKeys[id := rec];
    }

    method MarkKyberPreKeyUsed(id: Id)
      requires Valid()
      modifies this
      ensures Valid() && history == old(history) + [Op.MarkKyberPreKeyUsed(id)]
    {
      Note(Op.MarkKyberPreKeyUsed(id));
      usedKyber := usedKyber + {id};
    }

    method StoreSenderKey(a: Address, distId: string, rec: Record)
      requires Valid()
      modifies this
      ensures Valid() && history == old(history) + [Op.StoreSenderKey(a, distId, rec)]
    {
      Note(Op.StoreSenderKey(a, distId, rec));
      senderKeys := senderKeys[(Key(a), distId) := rec];
    }

    /** Whether another key was replaced */
    method SaveIdentity(a: Address, pub: Record) returns (replaced: bool)
      requires Valid()
      modifies this
      ensures Valid() && history == old(history) + [Op.SaveIdentity(a, pub)]
      ensures replaced <==> LastSet(old(history), Op.LoadIdentity(a), NotFound) !in {NotFound, Found(pub)}
    {
      TrustOnFirstUse(history, a, pub);
      Note(Op.SaveIdentity(a, pub));
      var prev := Lookup(identities, Key(a));
      identities := identities[Key(a) := pub];
      replaced := !(prev.NotFound? || prev.record == pub);
    }

    method IsTrustedIdentity(a: Address, pub: Record) returns (trusted: bool)
      requires Valid()
      ensures trusted <==> LastSet(history, Op.LoadIdentity(a), NotFound) in {NotFound, Found(pub)}
    {
      TrustOnFirstUse(history, a, pub);
      var stored := Lookup(identities, Key(a));
      trusted := stored.NotFound? || stored.record == pub;
    }

    method LocalIdentityKey() returns (r: Reply)
      requires Valid()
      ensures r == LastSet(history, Op.LocalIdentityKey, NotFound)
    {
      LoadsReturnLastWrite(history, Op.LocalIdentityKey);
      r := if identity.None? then NotFound else KeyPair(identity.value.0, identity.value.1);
    }

    method LocalRegistrationId() returns (r: Reply)
      requires Valid()
      ensures r == LastSet(history, Op.LocalRegistrationId, RegistrationId(0))
    {
      LoadsReturnLastWrite(history, Op.LocalRegistrationId);
      r := RegistrationId(regId);
    }

    method LoadIdentity(a: Address) returns (r: Reply)
      requires Valid()
      ensures r == LastSet(history, Op.LoadIdentity(a), NotFound)
    {
      LoadsReturnLastWrite(history, Op.LoadIdentity(a));
      r := Lookup(identities, Key(a));
    }

    method LoadSession(a: Address) returns (r: Reply)
      requires Valid()
      ensures r == LastSet(history, Op.LoadSession(a), NotFound)
    {
      LoadsReturnLastWrite(history, Op.LoadSession(a));
      r := Lookup(sessions, Key(a));
    }

    method LoadPreKey(id: Id) returns (r: Reply)
      requires Valid()
      ensures r == LastSet(history, Op.LoadPreKey(id), NotFound)
    {
      LoadsReturnLastWrite(history, Op.LoadPreKey(id));
      r := Lookup(preKeys, id);
    }

    method LoadSignedPreKey(id: Id) returns (r: Reply)
      requires Valid()
      ensures r == LastSet(history, Op.LoadSignedPreKey(id), NotFound)
    {
      LoadsReturnLastWrite(history, Op.LoadSignedPreKey(id));
      r := Lookup(signedKeys, id);
    }

    method LoadKyberPreKey(id: Id) returns (r: Reply)
      requires Valid()
      ensures r == LastSet(history, Op.LoadKyberPreKey(id), NotFound)
    {
      LoadsReturnLastWrite(history, Op.LoadKyberPreKey(id));
      r := Lookup(kyberKeys, id);
    }

    method LoadSenderKey(a: Address, distId: string) returns (r: Reply)
      requires Valid()
      ensures r == LastSet(history, Op.LoadSenderKey(a, distId), NotFound)
    {
      LoadsReturnLastWrite(history, Op.LoadSenderKey(a, distId));
      r := Lookup(senderKeys, (Key(a), distId));
    }

    method CountAvailableOneTimePreKeys(lastResort: Id) returns (ec: nat, kem: nat)
      requires Valid()
      ensures ec == |EcInStock(history)| && kem == |KemNeverUsed(history, lastResort)|
    {
      CountsFromHistory(history, lastResort);
      ec := |preKeys|;
      kem := CountUnused(kyberKeys.Keys, usedKyber, lastResort);
    }
  }

  /** internal/store/sqlstore/signal_stores.go, a table being a map from its primary key */
  class SqlStores {
    var localIdentity: Option<IdentityRow>
    var sessions: map<string, Record>
    var identities: map<string, Record>
    var preKeys: map<Id, Record>
    var signedPreKeys: map<Id, Record>
    var kyberPreKeys: map<Id, KyberRow>
    var senderKeys: map<(string, string), Record>
    /** The operations that changed the store, in order */
    ghost var history: seq<Op>

    ghost function Now(): Sql
      reads this
    {
      Sql(localIdentity, sessions, identities, preKeys, signedPreKeys, kyberPreKeys, senderKeys)
    }

    ghost predicate Valid()
      reads this
    {
      Now() == SqlAfter(history)
    }

    constructor ()
      ensures Valid() && history == []
    {
      localIdentity := None;
      sessions := map[];
      identities := map[];
      preKeys := map[];
      signedPreKeys := map[];
      kyberPreKeys := map[];
      senderKeys := map[];
      history := [];
    }

    ghost method Note(op: Op)
      modifies this`history
      ensures history == old(history) + [op]
      ensures SqlAfter(history) == SqlNext(SqlAfter(old(history)), op)
    {
      history := history + [op];
      assert history[..|history| - 1] == old(history);
    }

    method SetLocalIdentity(pub: Record, priv: Record, regId: Id)
      requires Valid()
      modifies this
      ensures Valid() && history == old(history) + [Op.SetLocalIdentity(pub, priv, regId)]
    {
      Note(Op.SetLocalIdentity(pub, priv, regId));
      localIdentity := Some(IdentityRow(pub, priv, regId));
    }

    method StoreSession(a: Address, rec: Record)
      requires Valid()
      modifies this
      ensures Valid() && history == old(history) + [Op.StoreSession(a, rec)]
    {
      Note(Op.StoreSession(a, rec));
      sessions := sessions[Key(a) := rec];
    }

    method DeleteSession(a: Address)
      requires Valid()
      modifies this
      ensures Valid() && history == old(history) + [Op.DeleteSession(a)]
    {
      Note(Op.DeleteSession(a));
      sessions := sessions - {Key(a)};
    }

    method StorePreKey(id: Id, rec: Record)
      requires Valid()
      modifies this
      ensures Valid() && history == old(history) + [Op.StorePreKey(id, rec)]
    {
      Note(Op.StorePreKey(id, rec));
      preKeys := preKeys[id := rec];
    }

    method RemovePreKey(id: Id)
      requires Valid()
      modifies this
      ensures Valid() && history == old(history) + [Op.RemovePreKey(id)]
    {
      Note(Op.RemovePreKey(id));
      preKeys := preKeys - {id};
    }

    method StoreSignedPreKey(id: Id, rec: Record)
      requires Valid()
      modifies this
      ensures Valid() && history == old(history) + [Op.StoreSignedPreKey(id, rec)]
    {
      Note(Op.StoreSignedPreKey(id, rec));
      signedPreKeys := signedPreKeys[id := rec];
    }

    method StoreKyberPreKey(id: Id, rec: Record)
      requires Valid()
      modifies this
      ensures Valid() && history == old(history) + [Op.StoreKyberPreKey(id, rec)]
    {
      Note(Op.StoreKyberPreKey(id, rec));
      kyberPreKeys := kyberPreKeys[id := KyberRow(rec, false)];
    }

    method MarkKyberPreKeyUsed(id: Id)
      requires Valid()
      modifies this
      ensures Valid() && history == old(history) + [Op.MarkKyberPreKeyUsed(id)]
    {
      Note(Op.MarkKyberPreKeyUsed(id));
      if id in kyberPreKeys {
        kyberPreKeys := kyberPreKeys[id := kyberPreKeys[id].(used := true)];
      }
    }

    method StoreSenderKey(a: Address, distId: string, rec: Record)
      requires Valid()
      modifies this
      ensures Valid() && history == old(history) + [Op.StoreSenderKey(a, distId, rec)]
    {
      Note(Op.StoreSenderKey(a, distId, rec));
      senderKeys := senderKeys[(Key(a), distId) := rec];
    }

    /** Whether another key was replaced */
    method SaveIdentity(a: Address, pub: Record) returns (replaced: bool)
      requires Valid()
      modifies this
      ensures Valid() && history == old(history) + [Op.SaveIdentity(a, pub)]
      ensures replaced <==> LastSet(old(history), Op.LoadIdentity(a), NotFound) !in {NotFound, Found(pub)}
    {
      TrustOnFirstUse(history, a, pub);
      Note(Op.SaveIdentity(a, pub));
      var prev := Lookup(identities, Key(a));
      identities := identities[Key(a) := pub];
      replaced := !(prev.NotFound? || prev.record == pub);
    }

    method IsTrustedIdentity(a: Address, pub: Record) returns (trusted: bool)
      requires Valid()
      ensures trusted <==> LastSet(history, Op.LoadIdentity(a), NotFound) in {NotFound, Found(pub)}
    {
      TrustOnFirstUse(history, a, pub);
      var stored := Lookup(identities, Key(a));
      trusted := stored.NotFound? || stored.record == pub;
    }

    method LocalIdentityKey() returns (r: Reply)
      requires Valid()
      ensures r == LastSet(history, Op.LocalIdentityKey, NotFound)
    {
      LoadsReturnLastWrite(history, Op.LocalIdentityKey);
      r := if localIdentity.None? then NotFound else KeyPair(localIdentity.value.pub, localIdentity.value.priv);
    }

    method LocalRegistrationId() returns (r: Reply)
      requires Valid()
      ensures r == LastSet(history, Op.LocalRegistrationId, NotFound)
    {
      LoadsReturnLastWrite(history, Op.LocalRegistrationId);
      r := if localIdentity.None? then NotFound else RegistrationId(localIdentity.value.regId);
    }

    method LoadIdentity(a: Address) returns (r: Reply)
      requires Valid()
      ensures r == LastSet(history, Op.LoadIdentity(a), NotFound)
    {
      LoadsReturnLastWrite(history, Op.LoadIdentity(a));
      r := Lookup(identities, Key(a));
    }

    method LoadSession(a: Address) returns (r: Reply)
      requires Valid()
      ensures r == LastSet(history, Op.LoadSession(a), NotFound)
    {
      LoadsReturnLastWrite(history, Op.LoadSession(a));
      r := Lookup(sessions, Key(a));
    }

    method LoadPreKey(id: Id) returns (r: Reply)
      requires Valid()
      ensures r == LastSet(history, Op.LoadPreKey(id), NotFound)
    {
      LoadsReturnLastWrite(history, Op.LoadPreKey(id));
      r := Lookup(preKeys, id);
    }

    method LoadSignedPreKey(id: Id) returns (r: Reply)
      requires Valid()
      ensures r == LastSet(history, Op.LoadSignedPreKey(id), NotFound)
    {
      LoadsReturnLastWrite(history, Op.LoadSignedPreKey(id));
      r := Lookup(signedPreKeys, id);
    }

    method LoadKyberPreKey(id: Id) returns (r: Reply)
      requires Valid()
      ensures r == LastSet(history, Op.LoadKyberPreKey(id), NotFound)
    {
      LoadsReturnLastWrite(history, Op.LoadKyberPreKey(id));
      r := if id in kyberPreKeys then Found(kyberPreKeys[id].record) else NotFound;
    }

    method LoadSenderKey(a: Address, distId: string) returns (r: Reply)
      requires Valid()
      ensures r == LastSet(history, Op.LoadSenderKey(a, distId), NotFound)
    {
      LoadsReturnLastWrite(history, Op.LoadSenderKey(a, distId));
      r := Lookup(senderKeys, (Key(a), distId));
    }

    method CountAvailableOneTimePreKeys(lastResort: Id) returns (ec: nat, kem: nat)
      requires Valid()
      ensures ec == |EcInStock(history)| && kem == |KemUnusedSinceStored(history, lastResort)|
    {
      CountsFromHistory(history, lastResort);
      var unused := set id | id in kyberPreKeys && id != lastResort && !kyberPreKeys[id].used;
      ec, kem := |preKeys|, |unused|;
      assert unused == SqlKem(Now(), lastResort);
    }
  }
}
