/** What the lease registry guarantees over every interleaving of grants,
    releases, revocations and guard drops. */
module ComposerRuns {
  import opened Basics
  import opened ComposerLeases

  // ------------------------------------------------------- counts = guards --

  lemma HeldAfterPut(guards: map<nat, Guard>, at: nat, guard: Guard, scope: Scope, kind: PermitKind)
    requires at !in guards
    ensures |Held(guards[at := guard], scope, kind)|
         == |Held(guards, scope, kind)| + if guard == Guard(scope, kind) then 1 else 0
  {
    var before, after := Held(guards, scope, kind), Held(guards[at := guard], scope, kind);
    assert after == if guard == Guard(scope, kind) then before + {at} else before;
  }

  lemma HeldAfterDrop(guards: map<nat, Guard>, at: nat, scope: Scope, kind: PermitKind)
    requires at in guards
    ensures |Held(guards - {at}, scope, kind)|
         == |Held(guards, scope, kind)| - if guards[at] == Guard(scope, kind) then 1 else 0
  {
    var before, after := Held(guards, scope, kind), Held(guards - {at}, scope, kind);
    assert after == if guards[at] == Guard(scope, kind) then before - {at} else before;
  }

  lemma {:induction false} HeldAfterAllocate(guards: map<nat, Guard>, scopes: seq<Scope>, at: seq<nat>,
                                             scope: Scope, kind: PermitKind)
    requires |scopes| == |at| && NoDup(at) && forall a :: a in at ==> a !in guards
    ensures var after := Allocate(guards, scopes, at);
            && (forall a :: a in after <==> a in guards || a in at)
            && (forall a :: a in guards ==> after[a] == guards[a])
            && |Held(after, scope, kind)|
               == |Held(guards, scope, kind)| + if kind == Persistence then multiset(scopes)[scope] else 0
    decreases |scopes|
  {
    if scopes != [] {
      var n := |scopes| - 1;
      HeldAfterAllocate(guards, scopes[..n], at[..n], scope, kind);
      HeldAfterPut(Allocate(guards, scopes[..n], at[..n]), at[n], Guard(scopes[n], Persistence), scope, kind);
      assert scopes == scopes[..n] + [scopes[n]];
      assert at == at[..n] + [at[n]];
    }
  }

  lemma CommandKeepsCounts(w: World, scope: Scope, at: nat)
    requires Inv(w) && at !in w.guards && Increment(w.registry.command, scope).Ok?
    ensures var guards := w.guards[at := Guard(scope, Command)];
            && CountsAgree(Increment(w.registry.command, scope).value, guards, Command)
            && CountsAgree(w.registry.persistence, guards, Persistence)
  {
    var guards := w.guards[at := Guard(scope, Command)];
    var counts := Increment(w.registry.command, scope).value;
    forall other ensures CountOf(counts, other) == |Held(guards, other, Command)|
                      && CountOf(w.registry.persistence, other) == |Held(guards, other, Persistence)|
    {
      HeldAfterPut(w.guards, at, Guard(scope, Command), other, Command);
      HeldAfterPut(w.guards, at, Guard(scope, Command), other, Persistence);
    }
  }

  lemma FitsEverywhere(m: Counts, scopes: seq<Scope>)
    requires NoZero(m) && Fits(m, scopes)
    ensures NoZero(Added(m, scopes))
  {
  }

  lemma PersistKeepsCounts(w: World, scopes: seq<Scope>, at: seq<nat>)
    requires Inv(w) && Enabled(w, OpPersist(scopes, at)) && Fits(w.registry.persistence, scopes)
    ensures var guards := Allocate(w.guards, scopes, at);
            && CountsAgree(w.registry.command, guards, Command)
            && CountsAgree(Added(w.registry.persistence, scopes), guards, Persistence)
  {
    var guards := Allocate(w.guards, scopes, at);
    forall other ensures && |Held(guards, other, Command)| == |Held(w.guards, other, Command)|
                         && |Held(guards, other, Persistence)|
                            == |Held(w.guards, other, Persistence)| + multiset(scopes)[other]
    {
      HeldAfterAllocate(w.guards, scopes, at, other, Command);
      HeldAfterAllocate(w.guards, scopes, at, other, Persistence);
    }
    AddedCounts(w.registry.persistence, scopes);
    FitsEverywhere(w.registry.persistence, scopes);
  }

  lemma DropKeepsCounts(m: Counts, guards: map<nat, Guard>, at: nat, kind: PermitKind)
    requires at in guards && CountsAgree(m, guards, kind)
    ensures CountsAgree(if guards[at].kind == kind then Decrement(m, guards[at].scope) else m, guards - {at}, kind)
  {
    forall other ensures |Held(guards - {at}, other, kind)|
                      == |Held(guards, other, kind)| - if guards[at] == Guard(other, kind) then 1 else 0
    {
      HeldAfterDrop(guards, at, other, kind);
    }
    if guards[at].kind == kind {
      assert at in Held(guards, guards[at].scope, kind);
    }
  }

  /** Every step keeps the registry honest: each permit count is the number of
      live guards of its scope, no count is zero, and every lease belongs to the
      live generation. */
  lemma StepKeepsInv(w: World, op: Op)
    requires Inv(w) && Enabled(w, op)
    ensures Inv(Step(w, op))
  {
    match op
    case OpBegin =>
    case OpAcquire(g, scope) =>
    case OpCommand(g, id, scope, at) =>
      if TryCommand(w.registry, g, id, scope).1.Ok? {
        CommandKeepsCounts(w, scope, at);
      }
    case OpRelease(g, id) =>
    case OpRevoke(g) =>
    case OpRevokeLive =>
    case OpPersist(scopes, at) =>
      if Fits(w.registry.persistence, scopes) {
        PersistKeepsCounts(w, scopes, at);
      }
    case OpDrop(at) =>
      DropKeepsCounts(w.registry.command, w.guards, at, Command);
      DropKeepsCounts(w.registry.persistence, w.guards, at, Persistence);
  }

  /** The persistence grant, stated on the registry and its guards. */
  lemma PersistKeepsInv(w: World, scopes: seq<Scope>, at: seq<nat>)
    requires Inv(w) && Enabled(w, OpPersist(scopes, at))
    ensures Inv(World(Persist(w.registry, scopes).0,
                      if Persist(w.registry, scopes).1.Ok? then Allocate(w.guards, scopes, at) else w.guards))
  {
    StepKeepsInv(w, OpPersist(scopes, at));
  }

  // ----------------------------------------------------- protected targets --

  function LeasedTargets(s: State, account: Account): set<Target> {
    set id | id in s.leases && s.leases[id].scope.account == account :: s.leases[id].scope.target
  }

  function CountedTargets(m: Counts, account: Account): set<Target> {
    set scope | scope in m && scope.account == account :: scope.target
  }

  function ProtectedTargets(s: State, account: Account): set<Target> {
    LeasedTargets(s, account) + CountedTargets(s.command, account) + CountedTargets(s.persistence, account)
  }

  ghost predicate Leased(s: State, scope: Scope) {
    exists id :: id in s.leases && s.leases[id].scope == scope
  }

  ghost predicate Guarded(w: World, scope: Scope, kind: PermitKind) {
    exists g :: g in w.guards && w.guards[g] == Guard(scope, kind)
  }

  lemma CountedIffGuarded(w: World, scope: Scope)
    requires Inv(w)
    ensures scope in w.registry.command <==> Guarded(w, scope, Command)
    ensures scope in w.registry.persistence <==> Guarded(w, scope, Persistence)
  {
    CountedIffHeld(w.registry.command, w.guards, scope, Command);
    CountedIffHeld(w.registry.persistence, w.guards, scope, Persistence);
  }

  lemma CountedIffHeld(m: Counts, guards: map<nat, Guard>, scope: Scope, kind: PermitKind)
    requires CountsAgree(m, guards, kind)
    ensures scope in m <==> exists g :: g in guards && guards[g] == Guard(scope, kind)
  {
    var held := Held(guards, scope, kind);
    assert scope in m <==> |held| > 0;
    if |held| > 0 {
      var g :| g in held;
    }
    if g :| g in guards && guards[g] == Guard(scope, kind) {
      assert g in held;
    }
  }

  /** A target is protected exactly while some lease names it or some permit
      guard for it is alive. */
  lemma ProtectedExact(w: World, scope: Scope)
    requires Inv(w)
    ensures scope.target in ProtectedTargets(w.registry, scope.account) <==>
              Leased(w.registry, scope) || Guarded(w, scope, Command) || Guarded(w, scope, Persistence)
  {
    CountedIffGuarded(w, scope);
    assert scope == Scope(scope.account, scope.target);
    if Leased(w.registry, scope) {
      var id :| id in w.registry.leases && w.registry.leases[id].scope == scope;
      assert scope.target in LeasedTargets(w.registry, scope.account);
    }
  }

  // ------------------------------------------------------------ whole runs --

  ghost predicate Legal(w: World, ops: seq<Op>)
    decreases |ops|
  {
    ops == [] || (Enabled(w, ops[0]) && Legal(Step(w, ops[0]), ops[1..]))
  }

  ghost function Exec(w: World, ops: seq<Op>): World
    requires Legal(w, ops)
    decreases |ops|
  {
    if ops == [] then w else Exec(Step(w, ops[0]), ops[1..])
  }

  const START: World := World(INITIAL, map[])

  lemma {:induction false} RunKeepsInv(w: World, ops: seq<Op>)
    requires Inv(w) && Legal(w, ops)
    ensures Inv(Exec(w, ops))
    decreases |ops|
  {
    hide Inv, Enabled, Step;
    if ops != [] {
      StepKeepsInv(w, ops[0]);
      RunKeepsInv(Step(w, ops[0]), ops[1..]);
    }
  }

  /** After every interleaving of calls and drops from start-up, each count is
      the number of guards alive, a target is protected exactly while a lease or
      a guard names it, and every lease belongs to the live generation. */
  lemma ReachableWorldsAreGood(ops: seq<Op>, scope: Scope, id: nat)
    requires Legal(START, ops)
    ensures var w := Exec(START, ops);
            && CountOf(w.registry.command, scope) == |Held(w.guards, scope, Command)|
            && CountOf(w.registry.persistence, scope) == |Held(w.guards, scope, Persistence)|
            && (scope.target in ProtectedTargets(w.registry, scope.account) <==>
                  Leased(w.registry, scope) || Guarded(w, scope, Command) || Guarded(w, scope, Persistence))
            && (id in w.registry.leases ==> w.registry.live == Some(w.registry.leases[id].generation))
  {
    StartIsGood();
    RunKeepsInv(START, ops);
    hide Exec;
    ProtectedExact(Exec(START, ops), scope);
  }

  lemma StartIsGood()
    ensures Inv(START)
  {
    assert forall scope, kind :: Held(START.guards, scope, kind) == {};
  }

  /** A guard keeps its target protected until it is dropped itself: no
      revocation, release or new generation in between can unprotect it. */
  lemma {:induction false} GuardProtectsUntilDropped(w: World, ops: seq<Op>, at: nat)
    requires Inv(w) && Legal(w, ops) && at in w.guards && OpDrop(at) !in ops
    ensures var end := Exec(w, ops);
            && Inv(end) && at in end.guards && end.guards[at] == w.guards[at]
            && w.guards[at].scope.target in ProtectedTargets(end.registry, w.guards[at].scope.account)
    decreases |ops|
  {
    if ops == [] {
      var guard := w.guards[at];
      assert Guarded(w, guard.scope, guard.kind) && (guard.kind == Command || guard.kind == Persistence);
      ProtectedExact(w, guard.scope);
    } else {
      StepKeepsInv(w, ops[0]);
      StepKeepsGuard(w, ops[0], at);
      GuardProtectsUntilDropped(Step(w, ops[0]), ops[1..], at);
    }
  }

  lemma StepKeepsGuard(w: World, op: Op, at: nat)
    requires Enabled(w, op) && at in w.guards && op != OpDrop(at)
    ensures at in Step(w, op).guards && Step(w, op).guards[at] == w.guards[at]
  {
    if op.OpPersist? && Persist(w.registry, op.scopes).1.Ok? && op.scopes != [] {
      HeldAfterAllocate(w.guards, op.scopes, op.addresses, op.scopes[0], Persistence);
    }
  }

  /** `generation` has been issued and is not the live one any more. */
  predicate Retired(s: State, generation: nat) {
    generation <= s.nextGeneration && s.live != Some(generation)
  }

  /** A retired generation stays retired in every run: it never becomes live
      again, and it never obtains a lease or a command permit again. */
  lemma {:induction false} RetiredForever(w: World, ops: seq<Op>, generation: nat, leaseId: nat, scope: Scope)
    requires Legal(w, ops) && Retired(w.registry, generation)
    ensures var end := Exec(w, ops).registry;
            && Retired(end, generation)
            && Acquire(end, generation, scope) == (end, Err(RendererGenerationRetired))
            && TryCommand(end, generation, leaseId, scope) == (end, Err(RendererGenerationRetired))
    decreases |ops|
  {
    if ops != [] {
      RetiredForever(Step(w, ops[0]), ops[1..], generation, leaseId, scope);
    }
  }

  /** A new generation is one never seen before; it is the live one, every
      earlier generation is retired, and all earlier leases are gone. */
  lemma NewGenerationFencesOld(w: World, older: nat)
    requires Inv(w) && BeginGeneration(w.registry).1.Ok? && older <= w.registry.nextGeneration
    ensures var (s, r) := BeginGeneration(w.registry);
            && r.value == w.registry.nextGeneration + 1 && s.nextGeneration == r.value && s.live == Some(r.value)
            && Retired(s, older) && s.leases == map[]
            && s.command == w.registry.command && s.persistence == w.registry.persistence
  {
  }

  /** A granted lease is new, protects its target, and admits commands of its
      own generation and scope and of no other, until the count is exhausted. */
  lemma LeaseAdmitsExactly(w: World, generation: nat, scope: Scope, other: Scope, later: nat)
    requires Inv(w) && Acquire(w.registry, generation, scope).1.Ok?
    ensures var (s, r) := Acquire(w.registry, generation, scope);
            && r.value !in w.registry.leases && Leased(s, scope)
            && (TryCommand(s, later, r.value, other).1.Ok? <==>
                  later == generation && other == scope && CountOf(s.command, scope) < USIZE_MAX)
            && (TryCommand(s, later, r.value, other).1.Err? ==> TryCommand(s, later, r.value, other).0 == s)
  {
    var (s, r) := Acquire(w.registry, generation, scope);
    assert r.value in s.leases && s.leases[r.value] == Lease(generation, scope);
  }

  /** Revocation retires the named generation for good, and only that one. */
  lemma RevocationRetires(w: World, generation: nat)
    requires Inv(w) && generation <= w.registry.nextGeneration
    ensures Retired(Revoke(w.registry, generation), generation)
    ensures forall scope :: !Leased(Revoke(w.registry, generation), scope) || w.registry.live != Some(generation)
    ensures w.registry.live != Some(generation) ==> Revoke(w.registry, generation) == w.registry
    ensures w.registry.live == Some(generation) ==> RevokeLive(w.registry) == Revoke(w.registry, generation)
  {
  }

  /** Generations and lease ids run out only at the end of their counters, and a
      lease is refused to every generation but the live one; a refusal changes
      nothing. */
  lemma RefusalsAreExact(s: State, generation: nat, scope: Scope)
    ensures var (n, r) := BeginGeneration(s);
            (r.Ok? <==> s.nextGeneration < U64_MAX) && (r.Err? ==> n == s && r == Err(CounterExhausted))
    ensures var (n, r) := Acquire(s, generation, scope);
            && (r.Ok? <==> s.live == Some(generation) && s.nextLeaseId < U64_MAX)
            && (r.Err? ==> n == s)
            && (r == Err(RendererGenerationRetired) <==> s.live != Some(generation))
            && (r.Ok? ==> n == s.(nextLeaseId := r.value, leases := n.leases) && r.value == s.nextLeaseId + 1)
            && (forall id :: id in n.leases <==> id in s.leases || r == Ok(id))
            && (forall id :: id in s.leases && r != Ok(id) ==> n.leases[id] == s.leases[id])
  {
  }

  /** A command is admitted exactly for a lease of the live generation and this
      very scope while its count has room; it then counts one more for that scope
      alone, and a refusal names the first cause and changes nothing. */
  lemma CommandIsExact(s: State, generation: nat, leaseId: nat, scope: Scope, other: Scope)
    ensures var (n, r) := TryCommand(s, generation, leaseId, scope);
            var leased := && leaseId in s.leases && s.leases[leaseId].generation == generation
                          && s.leases[leaseId].scope == scope;
            && (r == Err(RendererGenerationRetired) <==> s.live != Some(generation))
            && (r == Err(LeaseMismatch) <==> s.live == Some(generation) && !leased)
            && (r == Err(CounterExhausted) <==>
                  s.live == Some(generation) && leased && CountOf(s.command, scope) >= USIZE_MAX)
            && n == s.(command := n.command)
            && CountOf(n.command, other) == CountOf(s.command, other) + if r.Ok? && other == scope then 1 else 0
  {
  }

  /** Releasing takes away exactly the named lease, exactly when the generation it
      belongs to names it. */
  lemma ReleaseIsExact(s: State, generation: nat, leaseId: nat, id: nat)
    ensures var (n, r) := ReleaseLease(s, generation, leaseId);
            && (r.Ok? <==> leaseId in s.leases && s.leases[leaseId].generation == generation)
            && (r.Err? ==> n == s && r == Err(LeaseMismatch))
            && n == s.(leases := n.leases)
            && (r.Ok? ==> (id in n.leases <==> id in s.leases && id != leaseId))
            && (id in n.leases ==> id in s.leases && n.leases[id] == s.leases[id])
  {
  }

  /** Dropping a guard takes back one count of its own scope and kind. */
  lemma DropIsExact(s: State, scope: Scope, kind: PermitKind, other: Scope)
    requires NoZero(s.command) && NoZero(s.persistence)
    ensures var n := Drop(s, scope, kind);
            && n == s.(command := n.command, persistence := n.persistence)
            && CountOf(n.command, other)
               == CountOf(s.command, other) - (if kind == Command && other == scope && scope in s.command then 1 else 0)
            && CountOf(n.persistence, other)
               == CountOf(s.persistence, other)
                  - (if kind == Persistence && other == scope && scope in s.persistence then 1 else 0)
  {
  }

  // --------------------------------------------------- persistence, by target --

  lemma {:induction false} ScopesCount(account: Account, targets: seq<Target>, scope: Scope)
    ensures multiset(Scopes(account, targets))[scope]
         == if scope.account == account then multiset(targets)[scope.target] else 0
  {
    if targets != [] {
      var n := |targets| - 1;
      ScopesCount(account, targets[..n], scope);
      assert Scopes(account, targets) == Scopes(account, targets[..n]) + [Scope(account, targets[n])];
      assert targets == targets[..n] + [targets[n]];
    }
  }

  lemma {:induction false} AllocatedKeys(guards: map<nat, Guard>, scopes: seq<Scope>, at: seq<nat>)
    requires |scopes| == |at| && forall a :: a in at ==> a !in guards
    ensures var after := Allocate(guards, scopes, at);
            (forall a :: a in after <==> a in guards || a in at) && (forall a :: a in guards ==> after[a] == guards[a])
    decreases |scopes|
  {
    if scopes != [] {
      var n := |scopes| - 1;
      AllocatedKeys(guards, scopes[..n], at[..n]);
      assert at == at[..n] + [at[n]];
    }
  }

  lemma {:induction false} AllocatedAt(guards: map<nat, Guard>, scopes: seq<Scope>, at: seq<nat>, i: nat)
    requires |scopes| == |at| && NoDup(at) && i < |at|
    ensures var after := Allocate(guards, scopes, at);
            at[i] in after && after[at[i]] == Guard(scopes[i], Persistence)
    decreases |scopes|
  {
    var n := |scopes| - 1;
    if i < n {
      AllocatedAt(guards, scopes[..n], at[..n], i);
      assert at[i] != at[n];
    }
  }

  /** There is room for every target as often as it is listed. */
  ghost predicate HasRoom(counts: Counts, account: Account, targets: seq<Target>) {
    forall t :: t in targets ==> CountOf(counts, Scope(account, t)) + multiset(targets)[t] <= USIZE_MAX
  }

  /** A list of targets is persisted as a whole, exactly when there is room for
      each of them as often as it is listed. */
  lemma PersistAllOrNothing(s: State, account: Account, targets: seq<Target>)
    ensures var (n, r) := Persist(s, Scopes(account, targets));
            && (r.Ok? <==> HasRoom(s.persistence, account, targets))
            && (r.Err? ==> n == s && r == Err(CounterExhausted))
            && n == s.(persistence := n.persistence)
  {
    FitsIsRoom(s.persistence, account, targets);
  }

  /** Each target then counts as many more as it is listed, and no other account's
      does. */
  lemma PersistByTarget(s: State, account: Account, targets: seq<Target>, scope: Scope)
    requires NoZero(s.persistence) && HasRoom(s.persistence, account, targets)
    ensures CountOf(Persist(s, Scopes(account, targets)).0.persistence, scope)
         == CountOf(s.persistence, scope) + if scope.account == account then multiset(targets)[scope.target] else 0
  {
    AddedCounts(s.persistence, Scopes(account, targets));
    ScopesCount(account, targets, scope);
    FitsIsRoom(s.persistence, account, targets);
  }

  lemma FitsIsRoom(counts: Counts, account: Account, targets: seq<Target>)
    ensures Fits(counts, Scopes(account, targets)) <==> HasRoom(counts, account, targets)
  {
    var scopes := Scopes(account, targets);
    forall t ensures multiset(scopes)[Scope(account, t)] == multiset(targets)[t] {
      ScopesCount(account, targets, Scope(account, t));
    }
    forall i | 0 <= i < |targets| ensures Scope(account, targets[i]) in scopes {
      assert scopes[i] == Scope(account, targets[i]);
    }
  }
}
