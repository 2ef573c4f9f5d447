/** Enrolments from several coordinators interleaving with revocation, deletion, purging and
    reservations, as runs of guarded atomic steps. An enrolment is three steps: it stamps
    releases and reads the blocked hosts, inserts a lease conditionally, and commits the lease
    with the device row. A row written by an open transaction stays locked until it ends. */
module AddressRuns {
  import opened AddressPool
  import opened Options

  type TxId = nat

  /** An open enrolment. `stamps` are the lease rows its own stamping wrote; `reserved` and
      `blocked` are what it read; `bound` is the reservation that names the device. */
  datatype Txn = Txn(node: NodeId, name: string, key: string, at: int, stamps: map<nat, Lease>,
                     reserved: set<nat>, blocked: set<nat>, bound: Option<nat>, held: Option<nat>)

  /** `freedAt` records when the last active holder of an address stopped being active, and
      `used` which device ids were ever drawn. Neither is read by a step. */
  datatype State = State(t: Tables, clock: int, txns: map<TxId, Txn>, locks: map<nat, TxId>,
                         freedAt: map<nat, int>, used: set<NodeId>)

  datatype Event =
    | Tick(now: int)
    | Begin(tx: TxId, node: NodeId, name: string, key: string, bound: Option<nat>)
    | Take(tx: TxId, address: nat)
    | Commit(tx: TxId)
    | Abort(tx: TxId)
    | Revoke(id: NodeId)
    | Tombstone(id: NodeId, tombstoneName: string, tombstoneKey: string)
    | Purge(cutoff: int)
    | Reserve(address: nat, reservation: Reservation)
    | Unreserve(address: nat, revision: nat)

  // ----- stamping inside a transaction -----

  /** The lease rows that stamping would write. */
  function Stamps(t: Tables, at: int): map<nat, Lease> {
    map a | a in t.leases && StampOne(t.nodes, t.leases[a], at) != t.leases[a] :: StampOne(t.nodes, t.leases[a], at)
  }

  lemma StampsAreStamped(t: Tables, at: int)
    ensures t.leases + Stamps(t, at) == Stamped(t.nodes, t.leases, at)
  {
  }

  /** `bound` is a reservation that names the device, or there is none. */
  predicate BoundTo(t: Tables, name: string, key: string, bound: Option<nat>) {
    match bound
    case None => forall a :: a in t.reservations ==> !Binds(t.reservations[a], name, key)
    case Some(a) => a in t.reservations && Binds(t.reservations[a], name, key)
  }

  function ReadTxn(t: Tables, at: int, node: NodeId, name: string, key: string, bound: Option<nat>): Txn {
    var stamps := Stamps(t, at);
    Txn(node, name, key, at, stamps, t.reservations.Keys,
        Blocked(t.(leases := t.leases + stamps), at), bound, None)
  }

  // ----- steps -----

  predicate Unlocked(s: State, rows: set<nat>, tx: Option<TxId>) {
    forall a :: a in rows && a in s.locks ==> tx == Some(s.locks[a])
  }

  /** The lease rows as the transaction sees them. */
  function Seen(s: State, txn: Txn): map<nat, Lease> {
    s.t.leases + txn.stamps
  }

  predicate HeldByActive(t: Tables, a: nat) {
    exists n :: n in t.nodes && Active(t.nodes[n]) && a in t.nodes[n].addresses
  }

  /** The device stops being active at the clock: its addresses are freed. */
  function Freed(s: State, id: NodeId): map<nat, int>
    requires id in s.t.nodes
  {
    if Active(s.t.nodes[id]) then s.freedAt + map a | a in s.t.nodes[id].addresses :: s.clock else s.freedAt
  }

  function Ended(s: State, tx: TxId): State {
    s.(txns := s.txns - {tx}, locks := map a | a in s.locks && s.locks[a] != tx :: s.locks[a])
  }

  predicate MayBegin(s: State, tx: TxId, node: NodeId, name: string, key: string, bound: Option<nat>) {
    tx !in s.txns && node !in s.used && Unlocked(s, Stamps(s.t, s.clock).Keys, None)
    && BoundTo(s.t, name, key, bound) && (bound.Some? ==> !HeldByActive(s.t, bound.value))
  }

  /** `stamp_releases` and the reads of `allocate`, inside a new transaction. */
  function Begun(s: State, tx: TxId, node: NodeId, name: string, key: string, bound: Option<nat>): State {
    var txn := ReadTxn(s.t, s.clock, node, name, key, bound);
    s.(txns := s.txns[tx := txn], locks := s.locks + (map a | a in txn.stamps :: tx), used := s.used + {node})
  }

  predicate MayTakeRow(s: State, tx: TxId, a: nat) {
    tx in s.txns && s.txns[tx].held.None? && Unlocked(s, {a}, Some(tx))
    && (if s.txns[tx].bound.Some? then a == s.txns[tx].bound.value
        else a in s.t.hosts && a !in s.txns[tx].blocked)
    && MayTake(Seen(s, s.txns[tx]), a, s.txns[tx].at, s.txns[tx].bound.Some?)
  }

  /** `take_lease` changed a row: the transaction now holds it. */
  function TookRow(s: State, tx: TxId, a: nat): State
    requires tx in s.txns
  {
    s.(txns := s.txns[tx := s.txns[tx].(held := Some(a))], locks := s.locks[a := tx])
  }

  predicate MayCommit(s: State, tx: TxId) {
    tx in s.txns && s.txns[tx].held.Some?
  }

  /** The lease, the stamps and the device row become visible together. */
  function Committed(s: State, tx: TxId): State
    requires MayCommit(s, tx)
  {
    var txn := s.txns[tx];
    var a := txn.held.value;
    Ended(s, tx).(t := s.t.(leases := (s.t.leases + txn.stamps)[a := Lease(Some(txn.node), txn.at, None)],
                            nodes := s.t.nodes[txn.node := Node(txn.name, txn.key, {a}, None, None)]))
  }

  /** Revocation (`tombstone` absent) or deletion, which also renames the row. */
  function Left(s: State, id: NodeId, tombstone: Option<(string, string)>): State
    requires id in s.t.nodes
  {
    var n := s.t.nodes[id];
    var n' := match tombstone
              case None => n.(revokedAt := Some(s.clock))
              case Some((name, key)) =>
                n.(deletedAt := Some(s.clock), revokedAt := if n.revokedAt.Some? then n.revokedAt else Some(s.clock),
                   name := name, key := key);
    s.(t := s.t.(nodes := s.t.nodes[id := n']), freedAt := Freed(s, id))
  }

  function Purged(s: State, cutoff: int): State {
    var kept := map n | n in s.t.nodes && !(s.t.nodes[n].deletedAt.Some? && s.t.nodes[n].deletedAt.value < cutoff)
      :: s.t.nodes[n];
    s.(t := s.t.(nodes := kept))
  }

  predicate MayReserve(s: State, a: nat, r: Reservation) {
    a in s.t.hosts && a !in s.t.reservations
    && Unlocked(s, Stamps(s.t, s.clock).Keys, None)
    && (forall b :: b in s.t.reservations ==>
          !(r.boundName.Some? && s.t.reservations[b].boundName == r.boundName)
          && !(r.boundKey.Some? && s.t.reservations[b].boundKey == r.boundKey))
    && forall n :: n in s.t.nodes && Active(s.t.nodes[n]) && a in s.t.nodes[n].addresses ==>
         Binds(r, s.t.nodes[n].name, s.t.nodes[n].key)
  }

  function Reserved(s: State, a: nat, r: Reservation): State {
    s.(t := s.t.(leases := Stamped(s.t.nodes, s.t.leases, s.clock), reservations := s.t.reservations[a := r]))
  }

  predicate Enabled(s: State, e: Event) {
    match e
    case Tick(now) => s.clock <= now
    case Begin(tx, node, name, key, bound) => MayBegin(s, tx, node, name, key, bound)
    case Take(tx, a) => MayTakeRow(s, tx, a)
    case Commit(tx) => MayCommit(s, tx)
    case Abort(tx) => tx in s.txns
    case Revoke(id) => id in s.t.nodes && s.t.nodes[id].revokedAt.None?
    case Tombstone(id, _, _) => id in s.t.nodes && s.t.nodes[id].deletedAt.None?
    case Purge(cutoff) => cutoff <= s.clock
    case Reserve(a, r) => MayReserve(s, a, r)
    case Unreserve(a, revision) => a in s.t.reservations && s.t.reservations[a].revision == revision
  }

  function Apply(s: State, e: Event): State
    requires Enabled(s, e)
  {
    match e
    case Tick(now) => s.(clock := now)
    case Begin(tx, node, name, key, bound) => Begun(s, tx, node, name, key, bound)
    case Take(tx, a) => TookRow(s, tx, a)
    case Commit(tx) => Committed(s, tx)
    case Abort(tx) => Ended(s, tx)
    case Revoke(id) => Left(s, id, None)
    case Tombstone(id, name, key) => Left(s, id, Some((name, key)))
    case Purge(cutoff) => Purged(s, cutoff)
    case Reserve(a, r) => Reserved(s, a, r)
    case Unreserve(a, _) => s.(t := s.t.(reservations := s.t.reservations - {a}))
  }

  // ----- what every step keeps -----

  /** An active device's addresses are leased to it, and the leases are not released. */
  ghost predicate ActiveAreLeased(t: Tables) {
    forall n, a :: n in t.nodes && Active(t.nodes[n]) && a in t.nodes[n].addresses ==>
                     a in t.leases && t.leases[a].node == Some(n) && t.leases[a].releasedAt.None?
  }

  /** A freed address has a lease row whose grace, once started, starts no earlier. */
  ghost predicate ReleasesAreLate(s: State) {
    forall a :: a in s.freedAt ==>
      s.freedAt[a] <= s.clock && a in s.t.leases && NotBefore(s.t.nodes, s.t.leases[a], s.freedAt[a])
  }

  /** Stamping the lease now or later releases it at `from` or after, as long as the clock is
      not before `from`. */
  ghost predicate NotBefore(nodes: map<NodeId, Node>, lease: Lease, from: int) {
    if lease.releasedAt.Some? then lease.releasedAt.value >= from
    else lease.node.Some? && lease.node.value in nodes && !Active(nodes[lease.node.value]) ==>
           LeftAt(nodes[lease.node.value]) >= from
  }

  ghost predicate TxnOk(s: State, tx: TxId)
    requires tx in s.txns
  {
    var txn := s.txns[tx];
    txn.at <= s.clock && txn.node in s.used && txn.node !in s.t.nodes
    && (forall a :: a in s.t.leases ==> s.t.leases[a].node != Some(txn.node))
    && (forall a :: a in txn.stamps ==> StampOk(s, tx, a))
    && (txn.held.Some? ==> HeldOk(s, tx))
    && txn.reserved <= txn.blocked
  }

  /** A row stamped by an open transaction is locked by it, is not an active device's, and
      its stamp is not before the address was freed. */
  ghost predicate StampOk(s: State, tx: TxId, a: nat)
    requires tx in s.txns && a in s.txns[tx].stamps
  {
    a in s.locks && s.locks[a] == tx && a in s.t.leases && s.t.leases[a].releasedAt.None?
    && !HeldByActive(s.t, a)
    && s.txns[tx].stamps[a].node == s.t.leases[a].node
    && s.txns[tx].stamps[a].releasedAt.Some?
    && (a in s.freedAt ==> s.txns[tx].stamps[a].releasedAt.value >= s.freedAt[a])
  }

  /** A row taken by an open transaction is locked by it and is not an active device's;
      unless a reservation named it, its last holder left a grace period before. */
  ghost predicate HeldOk(s: State, tx: TxId)
    requires tx in s.txns && s.txns[tx].held.Some?
  {
    var txn := s.txns[tx];
    var a := txn.held.value;
    a in s.locks && s.locks[a] == tx && !HeldByActive(s.t, a)
    && (if txn.bound.Some? then a == txn.bound.value
        else a in s.t.hosts && a !in txn.reserved && AgedBy(s, a, txn.at))
  }

  /** No device was active with the address after `at - GRACE`. */
  ghost predicate AgedBy(s: State, a: nat, at: int) {
    !HeldByActive(s.t, a) && (a in s.freedAt ==> s.freedAt[a] <= at - GRACE)
  }

  ghost predicate IdsOk(s: State) {
    s.t.nodes.Keys <= s.used
    && (forall a :: a in s.t.leases && s.t.leases[a].node.Some? ==> s.t.leases[a].node.value in s.used)
    && (forall x, y :: x in s.txns && y in s.txns && s.txns[x].node == s.txns[y].node ==> x == y)
  }

  ghost predicate TxnsOk(s: State) {
    (forall a :: a in s.locks ==> s.locks[a] in s.txns) && forall tx :: tx in s.txns ==> TxnOk(s, tx)
  }

  ghost predicate Inv(s: State) {
    ActiveAreLeased(s.t) && ReleasesAreLate(s) && IdsOk(s) && TxnsOk(s)
  }

  ghost predicate Init(s: State) {
    s.t.nodes == map[] && s.t.leases == map[] && s.t.reservations == map[]
    && s.txns == map[] && s.locks == map[] && s.freedAt == map[] && s.used == {}
  }

  ghost predicate ValidRun(s: State, events: seq<Event>)
    decreases |events|
  {
    events == [] || (Enabled(s, events[0]) && ValidRun(Apply(s, events[0]), events[1..]))
  }

  ghost function Final(s: State, events: seq<Event>): State
    requires ValidRun(s, events)
    decreases |events|
  {
    if events == [] then s else Final(Apply(s, events[0]), events[1..])
  }

  // ----- each step keeps the invariant -----

  /** The rows a transaction wrote. */
  ghost predicate Wrote(txn: Txn, a: nat) {
    a in txn.stamps || txn.held == Some(a)
  }

  /** Another step left a locked row, its lock and its history alone. */
  ghost predicate RowFramed(s: State, s': State, tx: TxId, a: nat) {
    a in s'.locks && s'.locks[a] == tx && (HeldByActive(s'.t, a) ==> HeldByActive(s.t, a))
    && (a in s'.freedAt ==> a in s.freedAt && s'.freedAt[a] == s.freedAt[a])
    && (a in s.t.leases ==> a in s'.t.leases && s'.t.leases[a] == s.t.leases[a])
  }

  ghost predicate Framed(s: State, s': State, tx: TxId)
    requires tx in s.txns
  {
    tx in s'.txns && s'.txns[tx] == s.txns[tx] && s.clock <= s'.clock && s.used <= s'.used && s'.t.hosts == s.t.hosts
    && s.txns[tx].node !in s'.t.nodes
    && (forall a :: a in s'.t.leases ==> s'.t.leases[a].node != Some(s.txns[tx].node))
    && forall a :: Wrote(s.txns[tx], a) ==> RowFramed(s, s', tx, a)
  }

  lemma FramedKeeps(s: State, s': State, tx: TxId)
    requires tx in s.txns && TxnOk(s, tx) && Framed(s, s', tx)
    ensures TxnOk(s', tx)
  {
    forall a | a in s'.txns[tx].stamps ensures StampOk(s', tx, a) {
      assert StampOk(s, tx, a) && Wrote(s.txns[tx], a);
    }
    if s'.txns[tx].held.Some? {
      assert HeldOk(s, tx) && Wrote(s.txns[tx], s.txns[tx].held.value);
    }
  }

  /** What a transaction wrote is locked by it, and no active device has it. */
  lemma WroteIsLocked(s: State, tx: TxId, a: nat)
    requires tx in s.txns && TxnOk(s, tx) && Wrote(s.txns[tx], a)
    ensures a in s.locks && s.locks[a] == tx && !HeldByActive(s.t, a)
  {
    if a in s.txns[tx].stamps { assert StampOk(s, tx, a); }
  }

  /** A step that changes neither the tables' rows nor the history keeps the transactions
      whose locks it keeps. */
  lemma QuietStepFrames(s: State, s': State, tx: TxId)
    requires tx in s.txns && TxnOk(s, tx) && tx in s'.txns && s'.txns[tx] == s.txns[tx]
    requires s'.t.nodes == s.t.nodes && s'.t.leases == s.t.leases && s'.t.hosts == s.t.hosts
    requires s'.freedAt == s.freedAt && s.clock <= s'.clock && s.used <= s'.used
    requires forall a :: a in s.locks && s.locks[a] == tx ==> a in s'.locks && s'.locks[a] == tx
    ensures TxnOk(s', tx)
  {
    forall a | Wrote(s.txns[tx], a) ensures RowFramed(s, s', tx, a) { WroteIsLocked(s, tx, a); }
    FramedKeeps(s, s', tx);
  }

  lemma TickKeeps(s: State, now: int)
    requires Inv(s) && s.clock <= now
    ensures Inv(s.(clock := now))
  {
    forall tx | tx in s.txns ensures TxnOk(s.(clock := now), tx) { QuietStepFrames(s, s.(clock := now), tx); }
  }

  lemma StampIsLate(s: State, a: nat)
    requires ActiveAreLeased(s.t) && ReleasesAreLate(s) && a in Stamps(s.t, s.clock)
    ensures !HeldByActive(s.t, a) && s.t.leases[a].releasedAt.None?
    ensures a in s.freedAt ==> Stamps(s.t, s.clock)[a].releasedAt.value >= s.freedAt[a]
  {
    if a in s.freedAt { assert NotBefore(s.t.nodes, s.t.leases[a], s.freedAt[a]); }
  }

  lemma BegunTxnOk(s: State, tx: TxId, node: NodeId, name: string, key: string, bound: Option<nat>)
    requires ActiveAreLeased(s.t) && ReleasesAreLate(s) && IdsOk(s) && MayBegin(s, tx, node, name, key, bound)
    ensures TxnOk(Begun(s, tx, node, name, key, bound), tx)
  {
    var s' := Begun(s, tx, node, name, key, bound);
    forall a | a in s'.txns[tx].stamps ensures StampOk(s', tx, a) { StampIsLate(s, a); }
  }

  lemma BeginKeepsIds(s: State, tx: TxId, node: NodeId, name: string, key: string, bound: Option<nat>)
    requires IdsOk(s) && TxnsOk(s) && MayBegin(s, tx, node, name, key, bound)
    ensures IdsOk(Begun(s, tx, node, name, key, bound))
  {
    var s' := Begun(s, tx, node, name, key, bound);
    forall x | x in s.txns ensures s'.txns[x] == s.txns[x] && s.txns[x].node != node { assert TxnOk(s, x); }
  }

  lemma BeginKeeps(s: State, tx: TxId, node: NodeId, name: string, key: string, bound: Option<nat>)
    requires Inv(s) && MayBegin(s, tx, node, name, key, bound)
    ensures Inv(Begun(s, tx, node, name, key, bound))
  {
    var s' := Begun(s, tx, node, name, key, bound);
    BegunTxnOk(s, tx, node, name, key, bound);
    BeginKeepsIds(s, tx, node, name, key, bound);
    forall y | y in s.txns ensures TxnOk(s', y) { BeginFrames(s, tx, node, name, key, bound, y); }
  }

  lemma BeginFrames(s: State, tx: TxId, node: NodeId, name: string, key: string, bound: Option<nat>, y: TxId)
    requires y in s.txns && TxnOk(s, y) && MayBegin(s, tx, node, name, key, bound)
    ensures TxnOk(Begun(s, tx, node, name, key, bound), y)
  {
    QuietStepFrames(s, Begun(s, tx, node, name, key, bound), y);
  }

  /** A row the conditional insert accepts is not an active device's; without a reservation
      its last holder left a grace period before the transaction's time. */
  lemma TakenRowIsFree(s: State, tx: TxId, a: nat)
    requires ActiveAreLeased(s.t) && ReleasesAreLate(s) && MayTakeRow(s, tx, a) && TxnOk(s, tx)
    ensures !HeldByActive(s.t, a)
    ensures s.txns[tx].bound.None? ==> AgedBy(s, a, s.txns[tx].at)
  {
    if a in s.txns[tx].stamps {
      assert StampOk(s, tx, a);
    } else if a in s.freedAt {
      assert NotBefore(s.t.nodes, s.t.leases[a], s.freedAt[a]);
    }
  }

  lemma TookTxnOk(s: State, tx: TxId, a: nat)
    requires ActiveAreLeased(s.t) && ReleasesAreLate(s) && MayTakeRow(s, tx, a) && TxnOk(s, tx)
    ensures TxnOk(TookRow(s, tx, a), tx)
  {
    var s' := TookRow(s, tx, a);
    TakenRowIsFree(s, tx, a);
    forall b | b in s'.txns[tx].stamps ensures StampOk(s', tx, b) { assert StampOk(s, tx, b); }
    assert HeldOk(s', tx);
  }

  lemma TakeKeeps(s: State, tx: TxId, a: nat)
    requires Inv(s) && MayTakeRow(s, tx, a)
    ensures Inv(TookRow(s, tx, a))
  {
    var s' := TookRow(s, tx, a);
    TookTxnOk(s, tx, a);
    forall y | y in s'.txns && y != tx ensures TxnOk(s', y) { QuietStepFrames(s, s', y); }
  }

  lemma AbortKeeps(s: State, tx: TxId)
    requires Inv(s) && tx in s.txns
    ensures Inv(Ended(s, tx))
  {
    forall y | y in Ended(s, tx).txns ensures TxnOk(Ended(s, tx), y) { QuietStepFrames(s, Ended(s, tx), y); }
  }

  /** The rows a commit writes are not those of a device that was active before it. */
  lemma CommitKeepsLeases(s: State, tx: TxId)
    requires ActiveAreLeased(s.t) && MayCommit(s, tx) && TxnOk(s, tx)
    ensures ActiveAreLeased(Committed(s, tx).t)
  {
    var s', txn := Committed(s, tx), s.txns[tx];
    forall n, b | n in s'.t.nodes && Active(s'.t.nodes[n]) && b in s'.t.nodes[n].addresses
      ensures b in s'.t.leases && s'.t.leases[b].node == Some(n) && s'.t.leases[b].releasedAt.None?
    {
      if n != txn.node {
        assert HeldByActive(s.t, b);
        assert !Wrote(txn, b) by { if Wrote(txn, b) { WroteIsLocked(s, tx, b); } }
        assert s'.t.leases[b] == s.t.leases[b];
      }
    }
  }

  lemma CommitKeepsReleases(s: State, tx: TxId)
    requires ReleasesAreLate(s) && MayCommit(s, tx) && TxnOk(s, tx)
    ensures ReleasesAreLate(Committed(s, tx))
  {
    var s', txn := Committed(s, tx), s.txns[tx];
    forall b | b in s'.freedAt
      ensures b in s'.t.leases && NotBefore(s'.t.nodes, s'.t.leases[b], s'.freedAt[b])
    {
      assert NotBefore(s.t.nodes, s.t.leases[b], s.freedAt[b]);
      if b != txn.held.value && b in txn.stamps { assert StampOk(s, tx, b); }
    }
  }

  lemma CommitKeepsIds(s: State, tx: TxId)
    requires IdsOk(s) && MayCommit(s, tx) && TxnOk(s, tx)
    ensures IdsOk(Committed(s, tx))
  {
    var s', txn := Committed(s, tx), s.txns[tx];
    forall a | a in s'.t.leases && s'.t.leases[a].node.Some? ensures s'.t.leases[a].node.value in s'.used {
      if a != txn.held.value && a in txn.stamps { assert StampOk(s, tx, a); }
    }
  }

  lemma CommitFrames(s: State, tx: TxId, y: TxId)
    requires IdsOk(s) && MayCommit(s, tx) && TxnOk(s, tx) && y in s.txns && y != tx && TxnOk(s, y)
    ensures Framed(s, Committed(s, tx), y)
  {
    var s', txn := Committed(s, tx), s.txns[tx];
    forall a | Wrote(s.txns[y], a) ensures RowFramed(s, s', y, a) {
      WroteIsLocked(s, y, a);
      assert !Wrote(txn, a) by { if Wrote(txn, a) { WroteIsLocked(s, tx, a); } }
    }
    forall a | a in s'.t.leases ensures s'.t.leases[a].node != Some(s.txns[y].node) {
      if a != txn.held.value && a in txn.stamps { assert StampOk(s, tx, a); }
    }
  }

  lemma CommitKeeps(s: State, tx: TxId)
    requires Inv(s) && MayCommit(s, tx)
    ensures Inv(Committed(s, tx))
  {
    CommitKeepsLeases(s, tx);
    CommitKeepsReleases(s, tx);
    CommitKeepsIds(s, tx);
    forall y | y in Committed(s, tx).txns ensures TxnOk(Committed(s, tx), y) {
      CommitFrames(s, tx, y);
      FramedKeeps(s, Committed(s, tx), y);
    }
  }

  lemma LeaveShrinksActive(s: State, id: NodeId, tombstone: Option<(string, string)>, a: nat)
    requires id in s.t.nodes
    ensures HeldByActive(Left(s, id, tombstone).t, a) ==> HeldByActive(s.t, a)
    ensures s.t.nodes.Keys == Left(s, id, tombstone).t.nodes.Keys && !Active(Left(s, id, tombstone).t.nodes[id])
    ensures forall n :: n in s.t.nodes && n != id ==> Left(s, id, tombstone).t.nodes[n] == s.t.nodes[n]
  {
  }

  lemma LeaveKeepsReleases(s: State, id: NodeId, tombstone: Option<(string, string)>)
    requires ActiveAreLeased(s.t) && ReleasesAreLate(s) && id in s.t.nodes
    requires if tombstone.None? then s.t.nodes[id].revokedAt.None? else s.t.nodes[id].deletedAt.None?
    ensures ReleasesAreLate(Left(s, id, tombstone))
  {
    var s' := Left(s, id, tombstone);
    forall a | a in s'.freedAt
      ensures a in s'.t.leases && s'.freedAt[a] <= s'.clock && NotBefore(s'.t.nodes, s'.t.leases[a], s'.freedAt[a])
    {
      if a in s.freedAt { assert NotBefore(s.t.nodes, s.t.leases[a], s.freedAt[a]); }
    }
  }

  lemma LeaveKeeps(s: State, id: NodeId, tombstone: Option<(string, string)>)
    requires Inv(s) && id in s.t.nodes
    requires if tombstone.None? then s.t.nodes[id].revokedAt.None? else s.t.nodes[id].deletedAt.None?
    ensures Inv(Left(s, id, tombstone))
  {
    var s' := Left(s, id, tombstone);
    LeaveKeepsReleases(s, id, tombstone);
    LeaveShrinksActive(s, id, tombstone, 0);
    forall tx | tx in s.txns ensures TxnOk(s', tx) {
      forall a | Wrote(s.txns[tx], a) ensures RowFramed(s, s', tx, a) {
        WroteIsLocked(s, tx, a);
        assert Active(s.t.nodes[id]) ==> a !in s.t.nodes[id].addresses;
        LeaveShrinksActive(s, id, tombstone, a);
      }
      FramedKeeps(s, s', tx);
    }
  }

  lemma PurgeKeeps(s: State, cutoff: int)
    requires Inv(s)
    ensures Inv(Purged(s, cutoff))
  {
    var s' := Purged(s, cutoff);
    forall a | a in s'.freedAt ensures NotBefore(s'.t.nodes, s'.t.leases[a], s'.freedAt[a]) {
      assert NotBefore(s.t.nodes, s.t.leases[a], s.freedAt[a]);
    }
    forall tx | tx in s'.txns ensures TxnOk(s', tx) {
      forall a | Wrote(s.txns[tx], a) ensures RowFramed(s, s', tx, a) { WroteIsLocked(s, tx, a); }
      FramedKeeps(s, s', tx);
    }
  }

  lemma StampedKeepsTables(s: State, s': State)
    requires ActiveAreLeased(s.t) && ReleasesAreLate(s)
    requires s'.t.nodes == s.t.nodes && s'.t.leases == Stamped(s.t.nodes, s.t.leases, s.clock)
    requires s'.freedAt == s.freedAt && s'.clock == s.clock
    ensures ActiveAreLeased(s'.t) && ReleasesAreLate(s')
  {
    forall a | a in s.freedAt ensures NotBefore(s'.t.nodes, s'.t.leases[a], s.freedAt[a]) {
      assert NotBefore(s.t.nodes, s.t.leases[a], s.freedAt[a]);
    }
    forall n, a | n in s.t.nodes && Active(s.t.nodes[n]) && a in s.t.nodes[n].addresses
      ensures a in s'.t.leases && s'.t.leases[a] == s.t.leases[a]
    {
    }
  }

  lemma ReserveFrames(s: State, a: nat, r: Reservation, tx: TxId)
    requires MayReserve(s, a, r) && tx in s.txns && TxnOk(s, tx)
    ensures Framed(s, Reserved(s, a, r), tx)
  {
    var s' := Reserved(s, a, r);
    forall b | Wrote(s.txns[tx], b) ensures RowFramed(s, s', tx, b) {
      WroteIsLocked(s, tx, b);
      assert b !in Stamps(s.t, s.clock);
    }
    forall b | b in s'.t.leases ensures s'.t.leases[b].node != Some(s.txns[tx].node) {
      assert s'.t.leases[b].node == s.t.leases[b].node;
    }
  }

  lemma ReserveKeeps(s: State, a: nat, r: Reservation)
    requires Inv(s) && MayReserve(s, a, r)
    ensures Inv(Reserved(s, a, r))
  {
    var s' := Reserved(s, a, r);
    StampedKeepsTables(s, s');
    forall tx | tx in s'.txns ensures TxnOk(s', tx) {
      ReserveFrames(s, a, r, tx);
      FramedKeeps(s, s', tx);
    }
    assert forall b :: b in s'.t.leases ==> s'.t.leases[b].node == s.t.leases[b].node;
  }

  lemma UnreserveKeeps(s: State, a: nat)
    requires Inv(s)
    ensures Inv(s.(t := s.t.(reservations := s.t.reservations - {a})))
  {
    var s' := s.(t := s.t.(reservations := s.t.reservations - {a}));
    forall tx | tx in s'.txns ensures TxnOk(s', tx) { QuietStepFrames(s, s', tx); }
  }

  lemma StepKeeps(s: State, e: Event)
    requires Inv(s) && Enabled(s, e)
    ensures Inv(Apply(s, e))
  {
    match e
    case Tick(now) => TickKeeps(s, now);
    case Begin(tx, node, name, key, bound) => BeginKeeps(s, tx, node, name, key, bound);
    case Take(tx, a) => TakeKeeps(s, tx, a);
    case Commit(tx) => CommitKeeps(s, tx);
    case Abort(tx) => AbortKeeps(s, tx);
    case Revoke(id) => LeaveKeeps(s, id, None);
    case Tombstone(id, name, key) => LeaveKeeps(s, id, Some((name, key)));
    case Purge(cutoff) => PurgeKeeps(s, cutoff);
    case Reserve(a, r) => ReserveKeeps(s, a, r);
    case Unreserve(a, _) => UnreserveKeeps(s, a);
  }

  lemma {:induction false} RunKeeps(s: State, events: seq<Event>)
    requires Inv(s) && ValidRun(s, events)
    ensures Inv(Final(s, events))
    decreases |events|
  {
    if events != [] {
      StepKeeps(s, events[0]);
      RunKeeps(Apply(s, events[0]), events[1..]);
    }
  }

  // ----- safety over whole runs -----

  /** In every reachable state each active device's addresses are leased to it alone, so no
      two active devices share an address. */
  lemma {:induction false} NoSharedAddress(s: State, events: seq<Event>, m: NodeId, n: NodeId)
    requires Init(s) && ValidRun(s, events)
    ensures ActiveAreLeased(Final(s, events).t)
    ensures var t := Final(s, events).t;
            (m in t.nodes && n in t.nodes && Active(t.nodes[m]) && Active(t.nodes[n])
             && t.nodes[m].addresses * t.nodes[n].addresses != {}) ==> m == n
  {
    RunKeeps(s, events);
    var t := Final(s, events).t;
    if m in t.nodes && n in t.nodes && Active(t.nodes[m]) && Active(t.nodes[n])
       && t.nodes[m].addresses * t.nodes[n].addresses != {} {
      var a :| a in t.nodes[m].addresses * t.nodes[n].addresses;
      assert t.leases[a].node == Some(m) && t.leases[a].node == Some(n);
    }
  }

  /** In every run, an address committed without a reservation is a host of the pool, was not
      reserved when the enrolment read the tables, and had no active holder in the grace
      period before that read. */
  lemma {:induction false} AutomaticAddressIsAged(s: State, events: seq<Event>, tx: TxId)
    requires Init(s) && ValidRun(s, events)
    requires Enabled(Final(s, events), Commit(tx)) && Final(s, events).txns[tx].bound.None?
    ensures var f := Final(s, events);
            var txn := f.txns[tx];
            var a := txn.held.value;
            a in f.t.hosts && a !in txn.reserved && txn.at <= f.clock
            && !HeldByActive(f.t, a) && (a in f.freedAt ==> f.freedAt[a] <= txn.at - GRACE)
            && Apply(f, Commit(tx)).t.nodes[txn.node].addresses == {a}
  {
    RunKeeps(s, events);
    assert TxnOk(Final(s, events), tx);
  }

  /** A reservation may hand out an address inside its grace, but never one in use. */
  lemma {:induction false} ReservedAddressIsFree(s: State, events: seq<Event>, tx: TxId)
    requires Init(s) && ValidRun(s, events)
    requires Enabled(Final(s, events), Commit(tx)) && Final(s, events).txns[tx].bound.Some?
    ensures var f := Final(s, events);
            f.txns[tx].held == f.txns[tx].bound && !HeldByActive(f.t, f.txns[tx].held.value)
  {
    RunKeeps(s, events);
    assert TxnOk(Final(s, events), tx);
  }

  /** With no other transaction open, the three steps lease the host that the tables promise
      the next enrolment, and stamp every release due. */
  lemma EnrolAlone(s: State, tx: TxId, node: NodeId, name: string, key: string)
    requires s.txns == map[] && s.locks == map[] && node !in s.used && BoundTo(s.t, name, key, None)
    requires NextHost(s.t, s.clock).Some?
    ensures var h := NextHost(s.t, s.clock).value;
            var run := [Begin(tx, node, name, key, None), Take(tx, h), Commit(tx)];
            ValidRun(s, run)
            && Final(s, run).t.leases == Stamped(s.t.nodes, s.t.leases, s.clock)[h := Lease(Some(node), s.clock, None)]
            && Final(s, run).t.nodes == s.t.nodes[node := Node(name, key, {h}, None, None)]
  {
    var h := NextHost(s.t, s.clock).value;
    StampsAreStamped(s.t, s.clock);
    FirstOutsideMeaning(s.t.hosts, Blocked(s.t.(leases := Stamped(s.t.nodes, s.t.leases, s.clock)), s.clock));
    var s1 := Apply(s, Begin(tx, node, name, key, None));
    assert Enabled(s1, Take(tx, h));
    var s2 := Apply(s1, Take(tx, h));
    var s3 := Apply(s2, Commit(tx));
    var run := [Begin(tx, node, name, key, None), Take(tx, h), Commit(tx)];
    assert run[1..] == [Take(tx, h), Commit(tx)] && run[1..][1..] == [Commit(tx)] && run[1..][1..][1..] == [];
    assert ValidRun(s2, [Commit(tx)]) && Final(s2, [Commit(tx)]) == s3;
    assert ValidRun(s1, [Take(tx, h), Commit(tx)]) && Final(s1, [Take(tx, h), Commit(tx)]) == s3;
  }

  lemma {:induction false} CommitKeepsListed(s: State, tx: TxId)
    requires Inv(s) && MayCommit(s, tx) && LeasesAreListed(s.t)
    ensures LeasesAreListed(Committed(s, tx).t)
  {
    assert TxnOk(s, tx);
    var txn := s.txns[tx];
    forall a | a in txn.stamps ensures txn.stamps[a].releasedAt.Some? { assert StampOk(s, tx, a); }
  }

  lemma {:induction false} StepKeepsListed(s: State, e: Event)
    requires Inv(s) && Enabled(s, e) && LeasesAreListed(s.t)
    ensures LeasesAreListed(Apply(s, e).t)
  {
    match e
    case Commit(tx) => CommitKeepsListed(s, tx);
    case Revoke(id) => LeaveKeepsListed(s, id, None);
    case Tombstone(id, name, key) => LeaveKeepsListed(s, id, Some((name, key)));
    case Purge(cutoff) => PurgeKeepsListed(s, cutoff);
    case Reserve(a, r) => ReserveKeepsListed(s, a, r);
    case _ =>
  }

  lemma {:induction false} LeaveKeepsListed(s: State, id: NodeId, tombstone: Option<(string, string)>)
    requires id in s.t.nodes && LeasesAreListed(s.t)
    ensures LeasesAreListed(Left(s, id, tombstone).t)
  {
  }

  lemma {:induction false} PurgeKeepsListed(s: State, cutoff: int)
    requires LeasesAreListed(s.t)
    ensures LeasesAreListed(Purged(s, cutoff).t)
  {
  }

  lemma {:induction false} ReserveKeepsListed(s: State, a: nat, r: Reservation)
    requires LeasesAreListed(s.t)
    ensures LeasesAreListed(Reserved(s, a, r).t)
  {
  }

  lemma {:induction false} RunKeepsListed(s: State, events: seq<Event>)
    requires Inv(s) && ValidRun(s, events) && LeasesAreListed(s.t)
    ensures LeasesAreListed(Final(s, events).t)
    decreases |events|
  {
    if events != [] {
      StepKeeps(s, events[0]);
      StepKeepsListed(s, events[0]);
      RunKeepsListed(Apply(s, events[0]), events[1..]);
    }
  }

  /** In every run, at every time, the operator view offers exactly the address the next
      enrolment without a reservation would receive, and none exactly at exhaustion. */
  lemma {:induction false} ViewIsExactInRuns(s: State, events: seq<Event>, at: int)
    requires Init(s) && ValidRun(s, events)
    ensures NextFree(Final(s, events).t, at) == NextHost(Final(s, events).t, at)
  {
    RunKeepsListed(s, events);
    ListedLeasesAgree(Final(s, events).t, at);
  }
}
