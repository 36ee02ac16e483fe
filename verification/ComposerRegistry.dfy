/** `ComposerDraftLeaseRegistry` with its fields updated in place, including the
    grant loop that rolls back. The ghost field `guards` holds the permit guards
    that are alive; it is what the counts are checked against. */
module ComposerRegistry {
  import opened Basics
  import opened ComposerLeases
  import opened ComposerRuns

  /** One handle in a caller's list: clones share the guard address. */
  datatype Permit = Permit(registry: nat, guard: nat, scope: Scope, kind: PermitKind)

  class Registry {
    const address: nat
    var nextGeneration: nat
    var nextLeaseId: nat
    var liveGeneration: Option<nat>
    var leases: map<nat, Lease>
    var commandPermits: Counts
    var persistencePermits: Counts
    ghost var guards: map<nat, Guard>

    ghost function View(): State
      reads this
    {
      State(nextGeneration, nextLeaseId, liveGeneration, leases, commandPermits, persistencePermits)
    }

    ghost function Here(): World
      reads this
    {
      World(View(), guards)
    }

    ghost predicate Valid()
      reads this
    {
      Inv(Here())
    }

    constructor (address: nat)
      ensures Valid() && View() == INITIAL && guards == map[] && this.address == address
    {
      this.address := address;
      nextGeneration, nextLeaseId, liveGeneration := 0, 0, None;
      leases, commandPermits, persistencePermits := map[], map[], map[];
      guards := map[];
    }

    method BeginRendererGeneration() returns (r: Result<nat, Failure>)
      requires Valid()
      modifies this
      ensures Here() == Step(old(Here()), OpBegin)
      ensures Valid() && guards == old(guards)
      ensures (View(), r) == BeginGeneration(old(View()))
    {
      StepKeepsInv(Here(), OpBegin);
      if nextGeneration + 1 > U64_MAX {
        return Err(CounterExhausted);
      }
      nextGeneration := nextGeneration + 1;
      liveGeneration := Some(nextGeneration);
      leases := Retain(leases, nextGeneration);
      r := Ok(nextGeneration);
    }

    method AcquireLease(generation: nat, scope: Scope) returns (r: Result<nat, Failure>)
      requires Valid()
      modifies this
      ensures Here() == Step(old(Here()), OpAcquire(generation, scope))
      ensures Valid() && guards == old(guards)
      ensures (View(), r) == Acquire(old(View()), generation, scope)
    {
      StepKeepsInv(Here(), OpAcquire(generation, scope));
      if liveGeneration != Some(generation) {
        return Err(RendererGenerationRetired);
      }
      if nextLeaseId + 1 > U64_MAX {
        return Err(CounterExhausted);
      }
      nextLeaseId := nextLeaseId + 1;
      leases := leases[nextLeaseId := Lease(generation, scope)];
      r := Ok(nextLeaseId);
    }

    /** On success the caller owns the new guard at address `at`. */
    method TryCommandPermit(generation: nat, leaseId: nat, scope: Scope, at: nat) returns (r: Result<(), Failure>)
      requires Valid() && at !in guards
      modifies this
      ensures Here() == Step(old(Here()), OpCommand(generation, leaseId, scope, at))
      ensures Valid()
      ensures (View(), r) == TryCommand(old(View()), generation, leaseId, scope)
      ensures guards == if r.Ok? then old(guards)[at := Guard(scope, Command)] else old(guards)
    {
      StepKeepsInv(Here(), OpCommand(generation, leaseId, scope, at));
      if liveGeneration != Some(generation) {
        return Err(RendererGenerationRetired);
      }
      if leaseId !in leases {
        return Err(LeaseMismatch);
      }
      if leases[leaseId].generation != generation || leases[leaseId].scope != scope {
        return Err(LeaseMismatch);
      }
      match Increment(commandPermits, scope) {
        case Err(e) => r := Err(e);
        case Ok(counts) =>
          commandPermits := counts;
          guards := guards[at := Guard(scope, Command)];
          r := Ok(());
      }
    }

    method Release(generation: nat, leaseId: nat) returns (r: Result<(), Failure>)
      requires Valid()
      modifies this
      ensures Here() == Step(old(Here()), OpRelease(generation, leaseId))
      ensures Valid() && guards == old(guards)
      ensures (View(), r) == ReleaseLease(old(View()), generation, leaseId)
    {
      StepKeepsInv(Here(), OpRelease(generation, leaseId));
      if leaseId !in leases {
        return Err(LeaseMismatch);
      }
      if leases[leaseId].generation != generation {
        return Err(LeaseMismatch);
      }
      leases := leases - {leaseId};
      r := Ok(());
    }

    method RevokeGeneration(generation: nat)
      requires Valid()
      modifies this
      ensures Here() == Step(old(Here()), OpRevoke(generation))
      ensures Valid() && guards == old(guards)
      ensures View() == Revoke(old(View()), generation)
    {
      StepKeepsInv(Here(), OpRevoke(generation));
      if liveGeneration == Some(generation) {
        liveGeneration := None;
      }
      leases := Purge(leases, generation);
    }

    method RevokeLiveGeneration()
      requires Valid()
      modifies this
      ensures Here() == Step(old(Here()), OpRevokeLive)
      ensures Valid() && guards == old(guards)
      ensures View() == RevokeLive(old(View()))
    {
      StepKeepsInv(Here(), OpRevokeLive);
      if liveGeneration.None? {
        return;
      }
      var generation := liveGeneration.value;
      liveGeneration := None;
      leases := Purge(leases, generation);
    }

    /** All-or-nothing grant. On overflow at any index, duplicates allowed, the
        rollback leaves exactly the original counts; otherwise every scope grows
        by its number of occurrences. It overflows only if some scope has no
        room for all of its occurrences. */
    method PersistencePermits(account: Account, targets: seq<Target>, ghost addresses: seq<nat>)
      returns (r: Result<(), Failure>)
      requires Valid()
      requires |addresses| == |targets| && NoDup(addresses) && forall a :: a in addresses ==> a !in guards
      modifies this
      ensures Here() == Step(old(Here()), OpPersist(Scopes(account, targets), addresses))
      ensures Valid()
      ensures r.Ok? <==> HasRoom(old(persistencePermits), account, targets)
      ensures r.Err? ==> r == Err(CounterExhausted) && View() == old(View()) && guards == old(guards)
      ensures r.Ok? ==> Granted(old(Here()), Here(), account, targets, addresses)
    {
      var scopes := Scopes(account, targets);
      PersistKeepsInv(Here(), scopes, addresses);
      PermitsByTarget(Here(), account, targets, addresses);
      assert NoZero(persistencePermits);
      hide Inv, Enabled, Allocate, Added, Fits, NoZero, HasRoom, Scopes, Granted;
      r := GrantAll(scopes);
      if r.Ok? {
        guards := Allocate(guards, scopes, addresses);
      }
    }

    method GrantAll(scopes: seq<Scope>) returns (r: Result<(), Failure>)
      requires NoZero(persistencePermits)
      modifies this`persistencePermits
      ensures r == if Fits(old(persistencePermits), scopes) then Ok(()) else Err(CounterExhausted)
      ensures persistencePermits == if r.Ok? then Added(old(persistencePermits), scopes) else old(persistencePermits)
    {
      hide Added, Increment, Fits;
      ghost var was := persistencePermits;
      AddedNothing(was);
      for index := 0 to |scopes|
        invariant persistencePermits == Added(was, scopes[..index]) && NoZero(persistencePermits)
      {
        match Increment(persistencePermits, scopes[index]) {
          case Ok(counts) =>
            IncrementExtends(was, scopes[..index], scopes[index]);
            IncrementBounded(persistencePermits, scopes[index]);
            assert scopes[..index] + [scopes[index]] == scopes[..index + 1];
            persistencePermits := counts;
          case Err(e) =>
            IncrementBounded(persistencePermits, scopes[index]);
            Overflows(was, scopes, index);
            RollBack(was, scopes[..index]);
            return Err(e);
        }
      }
      assert scopes[..|scopes|] == scopes;
      BoundedFits(was, scopes);
      r := Ok(());
    }

    /** Undo a partly granted list, in the order it was granted. */
    method RollBack(ghost was: Counts, granted: seq<Scope>)
      requires NoZero(was) && persistencePermits == Added(was, granted)
      modifies this`persistencePermits
      ensures persistencePermits == was
    {
      assert granted[0..] == granted;
      for undone := 0 to |granted|
        invariant persistencePermits == Added(was, granted[undone..])
      {
        assert granted[undone..] == [granted[undone]] + granted[undone + 1..];
        DecrementUndoes(was, granted[undone], granted[undone + 1..]);
        persistencePermits := Decrement(persistencePermits, granted[undone]);
      }
      AddedNothing(was);
    }

    /** Runs when the last clone of a permit goes away. */
    method ReleasePermit(ghost at: nat, scope: Scope, kind: PermitKind)
      requires Valid() && at in guards && guards[at] == Guard(scope, kind)
      modifies this
      ensures Here() == Step(old(Here()), OpDrop(at))
      ensures Valid() && guards == old(guards) - {at}
      ensures View() == Drop(old(View()), scope, kind)
    {
      StepKeepsInv(Here(), OpDrop(at));
      match kind {
        case Command => commandPermits := Decrement(commandPermits, scope);
        case Persistence => persistencePermits := Decrement(persistencePermits, scope);
      }
      guards := guards - {at};
    }

    /** A permit handle of this registry keeps its guard alive. */
    ghost predicate Owned(permits: seq<Permit>)
      reads this
    {
      forall p :: p in permits && p.registry == address ==>
        p.guard in guards && guards[p.guard] == Guard(p.scope, p.kind)
    }

    /** The guards a caller's list excludes: its distinct persistence guards of
        this very registry. */
    ghost function Excluded(permits: seq<Permit>): set<nat>
    {
      set p | p in permits && p.registry == address && p.kind == Persistence :: p.guard
    }

    /** Exactly the account's targets that some persistence guard outside the
        list still holds, whatever clones and foreign permits the list has. */
    method PersistenceHeldTargetsExcluding(account: Account, permits: seq<Permit>) returns (targets: set<Target>)
      requires Valid() && Owned(permits)
      ensures forall t :: t in targets <==> HeldOutside(guards, Scope(account, t), Excluded(permits))
    {
      var excludedCounts := CountExcluded(permits);
      targets := set scope | scope in persistencePermits && persistencePermits[scope] > CountOf(excludedCounts, scope)
                             && scope.account == account :: scope.target;
      forall t ensures t in targets <==> HeldOutside(guards, Scope(account, t), Excluded(permits)) {
        HeldBeyond(Here(), Scope(account, t), Excluded(permits));
        assert t in targets <==>
                 CountOf(persistencePermits, Scope(account, t)) > CountOf(excludedCounts, Scope(account, t));
      }
    }

    /** Excluded guards per scope; clones of one guard count once. */
    method CountExcluded(permits: seq<Permit>) returns (counts: Counts)
      requires Valid() && Owned(permits)
      ensures CountsExcluded(guards, counts, Excluded(permits))
    {
      hide Inv, CountsExcluded, CountOf, Excluded;
      var excludedGuards: set<nat> := {};
      counts := map[];
      NothingExcluded();
      ghost var w := Here();
      for i := 0 to |permits|
        invariant excludedGuards == Excluded(permits[..i])
        invariant CountsExcluded(guards, counts, excludedGuards)
      {
        var p := permits[i];
        assert p in permits;
        ExcludedGrows(permits, i);
        if p.kind == Persistence && p.registry == address && p.guard !in excludedGuards {
          CountOneMore(w, counts, excludedGuards, p.guard);
          assert w.guards[p.guard].scope == p.scope;
          excludedGuards := excludedGuards + {p.guard};
          var count := CountOf(counts, p.scope);
          counts := counts[p.scope := if count < USIZE_MAX then count + 1 else count];
        }
      }
      assert permits[..|permits|] == permits;
    }

    lemma NothingExcluded()
      ensures CountsExcluded(guards, map[], {}) && Excluded([]) == {}
    {
    }

    lemma ExcludedGrows(permits: seq<Permit>, i: nat)
      requires i < |permits|
      ensures var p := permits[i];
              Excluded(permits[..i + 1])
              == Excluded(permits[..i]) + if p.registry == address && p.kind == Persistence then {p.guard} else {}
    {
    }
  }

  ghost predicate CountsExcluded(guards: map<nat, Guard>, counts: Counts, excluded: set<nat>) {
    forall scope :: CountOf(counts, scope) == |Held(guards, scope, Persistence) * excluded|
  }

  /** Some persistence guard of `scope` is alive outside `excluded`. */
  ghost predicate HeldOutside(guards: map<nat, Guard>, scope: Scope, excluded: set<nat>) {
    exists g :: g in guards && guards[g] == Guard(scope, Persistence) && g !in excluded
  }

  lemma CountsAreSound(w: World)
    requires Inv(w)
    ensures NoZero(w.registry.persistence)
  {
  }

  /** From `w` to `n` the account's targets were granted: each counts as many more
      as it is listed, every other account's scope as many as before, the guard at
      each listed address protects the target listed there, and nothing else
      changed. */
  ghost predicate Granted(w: World, n: World, account: Account, targets: seq<Target>, at: seq<nat>) {
    && |at| == |targets|
    && n.registry == w.registry.(persistence := n.registry.persistence)
    && (forall t :: CountOf(n.registry.persistence, Scope(account, t))
                    == CountOf(w.registry.persistence, Scope(account, t)) + multiset(targets)[t])
    && (forall scope: Scope :: scope.account != account ==>
          CountOf(n.registry.persistence, scope) == CountOf(w.registry.persistence, scope))
    && (forall i :: 0 <= i < |targets| ==>
          at[i] in n.guards && n.guards[at[i]] == Guard(Scope(account, targets[i]), Persistence))
    && (forall g :: g in n.guards <==> g in w.guards || g in at)
    && (forall g :: g in w.guards ==> n.guards[g] == w.guards[g])
  }

  lemma PermitsByTarget(w: World, account: Account, targets: seq<Target>, at: seq<nat>)
    requires Inv(w) && |at| == |targets| && NoDup(at) && forall a :: a in at ==> a !in w.guards
    ensures var (n, r) := Persist(w.registry, Scopes(account, targets));
            && (r.Ok? <==> HasRoom(w.registry.persistence, account, targets))
            && (r.Err? ==> n == w.registry && r == Err(CounterExhausted))
            && (r.Ok? ==> Granted(w, World(n, Allocate(w.guards, Scopes(account, targets), at)), account, targets, at))
  {
    var scopes := Scopes(account, targets);
    hide Persist, Allocate, Inv, HasRoom;
    CountsAreSound(w);
    PersistAllOrNothing(w.registry, account, targets);
    AllocatedKeys(w.guards, scopes, at);
    if HasRoom(w.registry.persistence, account, targets) {
      forall scope: Scope
        ensures CountOf(Persist(w.registry, scopes).0.persistence, scope) == CountOf(w.registry.persistence, scope)
                + if scope.account == account then multiset(targets)[scope.target] else 0
      {
        PersistByTarget(w.registry, account, targets, scope);
      }
    }
    forall i | 0 <= i < |targets|
      ensures at[i] in Allocate(w.guards, scopes, at)
           && Allocate(w.guards, scopes, at)[at[i]] == Guard(Scope(account, targets[i]), Persistence)
    {
      AllocatedAt(w.guards, scopes, at, i);
    }
  }

  lemma IncrementBounded(m: Counts, scope: Scope)
    requires NoZero(m)
    ensures match Increment(m, scope)
            case Ok(counts) => NoZero(counts)
            case Err(e) => e == CounterExhausted
  {
  }

  lemma BoundedFits(was: Counts, scopes: seq<Scope>)
    requires forall scope :: scope in Added(was, scopes) ==> Added(was, scopes)[scope] <= USIZE_MAX
    ensures Fits(was, scopes)
  {
    forall scope | scope in scopes ensures CountOf(was, scope) + multiset(scopes)[scope] <= USIZE_MAX {
      assert scope in Added(was, scopes);
    }
  }

  /** The grant that failed had no room for all of its occurrences. */
  lemma Overflows(was: Counts, scopes: seq<Scope>, index: nat)
    requires NoZero(was) && index < |scopes| && Increment(Added(was, scopes[..index]), scopes[index]).Err?
    ensures !Fits(was, scopes)
  {
    AddedCounts(was, scopes[..index]);
    hide Added;
    var scope := scopes[index];
    assert scopes == scopes[..index] + [scope] + scopes[index + 1..];
    assert multiset(scopes) == multiset(scopes[..index]) + multiset{scope} + multiset(scopes[index + 1..]);
  }

  /** Counting one more excluded guard of its scope; the counter cannot
      saturate because guards are counted within `usize`. */
  lemma CountOneMore(w: World, counts: Counts, excluded: set<nat>, g: nat)
    requires Inv(w) && g in w.guards && w.guards[g].kind == Persistence && g !in excluded
    requires CountsExcluded(w.guards, counts, excluded)
    ensures CountOf(counts, w.guards[g].scope) < USIZE_MAX
    ensures var scope := w.guards[g].scope;
            CountsExcluded(w.guards, counts[scope := CountOf(counts, scope) + 1], excluded + {g})
  {
    var at := w.guards[g].scope;
    var more := counts[at := CountOf(counts, at) + 1];
    forall scope ensures CountOf(more, scope) == |Held(w.guards, scope, Persistence) * (excluded + {g})| {
      OneMoreHeld(w.guards, scope, excluded, g);
    }
    SubsetSize(Held(w.guards, at, Persistence) * (excluded + {g}), Held(w.guards, at, Persistence));
  }

  lemma OneMoreHeld(guards: map<nat, Guard>, scope: Scope, excluded: set<nat>, g: nat)
    requires g in guards && guards[g].kind == Persistence && g !in excluded
    ensures |Held(guards, scope, Persistence) * (excluded + {g})|
         == |Held(guards, scope, Persistence) * excluded| + if guards[g].scope == scope then 1 else 0
  {
    var held := Held(guards, scope, Persistence);
    assert held * (excluded + {g}) == if guards[g].scope == scope then held * excluded + {g} else held * excluded;
  }

  /** The cardinality argument: more guards than excluded ones means one left. */
  lemma HeldBeyond(w: World, scope: Scope, excluded: set<nat>)
    requires Inv(w)
    ensures CountOf(w.registry.persistence, scope) > |Held(w.guards, scope, Persistence) * excluded| <==>
              HeldOutside(w.guards, scope, excluded)
  {
    var held := Held(w.guards, scope, Persistence);
    SubsetSize(held * excluded, held);
    if |held| > |held * excluded| {
      assert held != held * excluded;
      var g :| g in held && g !in held * excluded;
    }
    if g :| g in w.guards && w.guards[g] == Guard(scope, Persistence) && g !in excluded {
      assert g in held && g !in held * excluded;
    }
  }
}
