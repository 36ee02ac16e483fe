/** The composer draft lease registry of `composer_draft_lifecycle.rs` as a state
    machine: generation-fenced leases plus reference-counted permits. The
    registry only stores counts; `World` adds the guards that are actually alive,
    so that the counts can be compared with them. */
module ComposerLeases {
  import opened Basics

  type Account(==, !new)
  type Target(==, !new)

  datatype Scope = Scope(account: Account, target: Target)

  datatype Failure = CounterExhausted | RendererGenerationRetired | LeaseMismatch

  datatype PermitKind = Command | Persistence

  datatype Lease = Lease(generation: nat, scope: Scope)

  type Counts = map<Scope, nat>

  datatype State = State(
    nextGeneration: nat,
    nextLeaseId: nat,
    live: Option<nat>,
    leases: map<nat, Lease>,
    command: Counts,
    persistence: Counts)

  const INITIAL: State := State(0, 0, None, map[], map[], map[])

  // --------------------------------------------------------- permit counts --

  function CountOf(m: Counts, scope: Scope): nat {
    if scope in m then m[scope] else 0
  }

  ghost predicate NoZero(m: Counts) {
    forall scope :: scope in m ==> 0 < m[scope] <= USIZE_MAX
  }

  /** `increment_permit` */
  function Increment(m: Counts, scope: Scope): Result<Counts, Failure> {
    if CountOf(m, scope) + 1 <= USIZE_MAX then Ok(m[scope := CountOf(m, scope) + 1]) else Err(CounterExhausted)
  }

  /** `decrement_permit` */
  function Decrement(m: Counts, scope: Scope): Counts {
    if scope !in m then m
    else if m[scope] <= 1 then m - {scope}
    else m[scope := m[scope] - 1]
  }

  /** The counts with every listed scope granted once per occurrence. */
  function Added(m: Counts, scopes: seq<Scope>): Counts {
    map scope | scope in m.Keys + ToSet(scopes) :: CountOf(m, scope) + multiset(scopes)[scope]
  }

  lemma AddedCounts(m: Counts, scopes: seq<Scope>)
    requires NoZero(m)
    ensures forall scope :: CountOf(Added(m, scopes), scope) == CountOf(m, scope) + multiset(scopes)[scope]
    ensures forall scope :: scope in Added(m, scopes) ==> Added(m, scopes)[scope] > 0
  {
  }

  predicate Fits(m: Counts, scopes: seq<Scope>) {
    forall scope :: scope in scopes ==> CountOf(m, scope) + multiset(scopes)[scope] <= USIZE_MAX
  }

  lemma AddedNothing(m: Counts)
    requires NoZero(m)
    ensures Added(m, []) == m
  {
  }

  /** Granting one more scope extends the list by it. */
  lemma IncrementExtends(m: Counts, scopes: seq<Scope>, scope: Scope)
    requires NoZero(m) && Increment(Added(m, scopes), scope).Ok?
    ensures Increment(Added(m, scopes), scope).value == Added(m, scopes + [scope])
  {
    AddedCounts(m, scopes);
    AddedCounts(m, scopes + [scope]);
    hide Added;
    EqualCounts(Increment(Added(m, scopes), scope).value, Added(m, scopes + [scope]));
  }

  /** Taking back the first granted scope leaves the rest of the list granted,
      even when the scope occurs in it again. */
  lemma DecrementUndoes(m: Counts, scope: Scope, rest: seq<Scope>)
    requires NoZero(m)
    ensures Decrement(Added(m, [scope] + rest), scope) == Added(m, rest)
  {
    AddedCounts(m, [scope] + rest);
    AddedCounts(m, rest);
    hide Added;
    assert multiset([scope] + rest) == multiset{scope} + multiset(rest);
    EqualCounts(Decrement(Added(m, [scope] + rest), scope), Added(m, rest));
  }

  lemma EqualCounts(a: Counts, b: Counts)
    requires forall scope :: scope in a ==> a[scope] > 0
    requires forall scope :: scope in b ==> b[scope] > 0
    requires forall scope :: CountOf(a, scope) == CountOf(b, scope)
    ensures a == b
  {
    assert forall scope :: scope in a <==> CountOf(a, scope) > 0;
    assert forall scope :: scope in b <==> CountOf(b, scope) > 0;
  }

  // ----------------------------------------------------------------- steps --

  function Purge(leases: map<nat, Lease>, generation: nat): map<nat, Lease> {
    map id | id in leases && leases[id].generation != generation :: leases[id]
  }

  function Retain(leases: map<nat, Lease>, generation: nat): map<nat, Lease> {
    map id | id in leases && leases[id].generation == generation :: leases[id]
  }

  function BeginGeneration(s: State): (State, Result<nat, Failure>) {
    var next := s.nextGeneration + 1;
    if next > U64_MAX then (s, Err(CounterExhausted))
    else (s.(nextGeneration := next, live := Some(next), leases := Retain(s.leases, next)), Ok(next))
  }

  function Acquire(s: State, generation: nat, scope: Scope): (State, Result<nat, Failure>) {
    if s.live != Some(generation) then (s, Err(RendererGenerationRetired))
    else if s.nextLeaseId + 1 > U64_MAX then (s, Err(CounterExhausted))
    else
      var id := s.nextLeaseId + 1;
      (s.(nextLeaseId := id, leases := s.leases[id := Lease(generation, scope)]), Ok(id))
  }

  function TryCommand(s: State, generation: nat, leaseId: nat, scope: Scope): (State, Result<(), Failure>) {
    if s.live != Some(generation) then (s, Err(RendererGenerationRetired))
    else if leaseId !in s.leases || s.leases[leaseId] != Lease(generation, scope) then (s, Err(LeaseMismatch))
    else
      match Increment(s.command, scope)
      case Err(e) => (s, Err(e))
      case Ok(m) => (s.(command := m), Ok(()))
  }

  function ReleaseLease(s: State, generation: nat, leaseId: nat): (State, Result<(), Failure>) {
    if leaseId !in s.leases || s.leases[leaseId].generation != generation then (s, Err(LeaseMismatch))
    else (s.(leases := s.leases - {leaseId}), Ok(()))
  }

  function Revoke(s: State, generation: nat): State {
    s.(live := if s.live == Some(generation) then None else s.live, leases := Purge(s.leases, generation))
  }

  function RevokeLive(s: State): State {
    if s.live.None? then s else s.(live := None, leases := Purge(s.leases, s.live.value))
  }

  function Scopes(account: Account, targets: seq<Target>): seq<Scope> {
    seq(|targets|, i requires 0 <= i < |targets| => Scope(account, targets[i]))
  }

  /** `persistence_permits`, stated without its loop: all targets or none. */
  function Persist(s: State, scopes: seq<Scope>): (State, Result<(), Failure>) {
    if Fits(s.persistence, scopes) then (s.(persistence := Added(s.persistence, scopes)), Ok(()))
    else (s, Err(CounterExhausted))
  }

  /** `release_permit`, run when the last clone of a permit is dropped. */
  function Drop(s: State, scope: Scope, kind: PermitKind): State {
    match kind
    case Command => s.(command := Decrement(s.command, scope))
    case Persistence => s.(persistence := Decrement(s.persistence, scope))
  }

  // ----------------------------------------------------------- live guards --

  datatype Guard = Guard(scope: Scope, kind: PermitKind)

  /** The registry and every permit guard that is still alive, by address. */
  datatype World = World(registry: State, guards: map<nat, Guard>)

  ghost function Held(guards: map<nat, Guard>, scope: Scope, kind: PermitKind): set<nat> {
    set g | g in guards && guards[g] == Guard(scope, kind)
  }

  ghost predicate CountsAgree(m: Counts, guards: map<nat, Guard>, kind: PermitKind) {
    NoZero(m) && forall scope :: CountOf(m, scope) == |Held(guards, scope, kind)|
  }

  ghost predicate Inv(w: World) {
    var s := w.registry;
    && CountsAgree(s.command, w.guards, Command)
    && CountsAgree(s.persistence, w.guards, Persistence)
    && (s.live.Some? ==> s.live.value <= s.nextGeneration)
    && (forall id :: id in s.leases ==> s.live == Some(s.leases[id].generation) && id <= s.nextLeaseId)
  }

  /** Guards allocated for a list of scopes, at the listed addresses. */
  function Allocate(guards: map<nat, Guard>, scopes: seq<Scope>, at: seq<nat>): map<nat, Guard>
    requires |scopes| == |at|
  {
    if scopes == [] then guards
    else
      var n := |scopes| - 1;
      Allocate(guards, scopes[..n], at[..n])[at[n] := Guard(scopes[n], Persistence)]
  }

  datatype Op =
    | OpBegin
    | OpAcquire(generation: nat, scope: Scope)
    | OpCommand(generation: nat, leaseId: nat, scope: Scope, at: nat)
    | OpRelease(generation: nat, leaseId: nat)
    | OpRevoke(generation: nat)
    | OpRevokeLive
    | OpPersist(scopes: seq<Scope>, addresses: seq<nat>)
    | OpDrop(at: nat)

  /** A new guard gets an unused address; only a live guard can be dropped. */
  ghost predicate Enabled(w: World, op: Op) {
    match op
    case OpCommand(_, _, _, at) => at !in w.guards
    case OpPersist(scopes, at) => |at| == |scopes| && NoDup(at) && forall a :: a in at ==> a !in w.guards
    case OpDrop(at) => at in w.guards
    case _ => true
  }

  ghost function Step(w: World, op: Op): World
    requires Enabled(w, op)
  {
    var s, guards := w.registry, w.guards;
    match op
    case OpBegin => w.(registry := BeginGeneration(s).0)
    case OpAcquire(g, scope) => w.(registry := Acquire(s, g, scope).0)
    case OpCommand(g, id, scope, at) =>
      var r := TryCommand(s, g, id, scope);
      World(r.0, if r.1.Ok? then guards[at := Guard(scope, Command)] else guards)
    case OpRelease(g, id) => w.(registry := ReleaseLease(s, g, id).0)
    case OpRevoke(g) => w.(registry := Revoke(s, g))
    case OpRevokeLive => w.(registry := RevokeLive(s))
    case OpPersist(scopes, at) =>
      var r := Persist(s, scopes);
      World(r.0, if r.1.Ok? then Allocate(guards, scopes, at) else guards)
    case OpDrop(at) => World(Drop(s, guards[at].scope, guards[at].kind), guards - {at})
  }
}
