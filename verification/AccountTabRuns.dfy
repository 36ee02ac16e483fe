/** What holds at every gate boundary of the account tab manager, and over whole
    runs. */
module AccountTabRuns {
  import opened Basics
  import opened AccountTabs

  // -------------------------------------------------------------- tab lists --

  lemma RemoveAtKeeps(tabs: seq<Tab>, p: nat)
    requires p < |tabs| && UniqueIds(tabs) && UniqueAccounts(tabs)
    ensures var rest := RemoveAt(tabs, p);
            && UniqueIds(rest) && UniqueAccounts(rest)
            && (forall t :: t in rest <==> t in tabs && t != tabs[p])
  {
  }

  lemma BindKeeps(tabs: seq<Tab>, p: nat, key: AccountKey)
    requires p < |tabs| && UniqueIds(tabs) && UniqueAccounts(tabs)
    requires forall t :: t in tabs && t.account == Some(key) ==> t.id == tabs[p].id
    ensures var bound := tabs[p := tabs[p].(account := Some(key))];
            UniqueIds(bound) && UniqueAccounts(bound)
  {
  }

  lemma BindKeepsIds(tabs: seq<Tab>, p: nat, key: AccountKey, id: TabId)
    requires p < |tabs| && HasTab(tabs, id)
    ensures HasTab(tabs[p := tabs[p].(account := Some(key))], id)
  {
    var t :| t in tabs && t.id == id;
    var i :| 0 <= i < |tabs| && tabs[i] == t;
    var bound := tabs[p := tabs[p].(account := Some(key))];
    assert bound[i].id == id && bound[i] in bound;
  }

  /** Kept unbound tab and restored tabs never collide; what decides is whether
      the index repeats an account. */
  lemma RestoredUnique(kept: seq<Tab>, keys: seq<AccountKey>, runtime: nat)
    requires |kept| <= 1 && forall t :: t in kept ==> t.account.None? && !t.id.AccountTab?
    ensures var tabs := kept + Restored(keys, runtime);
            && (NoDup(keys) ==> UniqueIds(tabs) && UniqueAccounts(tabs))
            && (!NoDup(keys) ==> !UniqueIds(tabs))
  {
    var tabs := kept + Restored(keys, runtime);
    if !NoDup(keys) {
      var i, j :| 0 <= i < j < |keys| && keys[i] == keys[j];
      assert tabs[|kept| + i].id == tabs[|kept| + j].id;
    }
  }

  // -------------------------------------------------------------- invariant --

  lemma OpenKeeps(m: Manager)
    requires m.shutdown.None? && UniqueIds(m.tabs) && UniqueAccounts(m.tabs) && FirstUnbound(m.tabs).None?
    ensures Consistent(OpenTab(m)) <==> !HasTab(m.tabs, AddTab(m.nextAddId))
  {
    var n := OpenTab(m);
    var last := n.tabs[|m.tabs|];
    assert last in n.tabs;
    if HasTab(m.tabs, AddTab(m.nextAddId)) {
      var i :| 0 <= i < |m.tabs| && m.tabs[i].id == AddTab(m.nextAddId);
      assert n.tabs[i].id == last.id;
    }
  }

  /** Closing tab `p` leaves a tab at the same place or the last one. */
  lemma NeighbourExists(tabs: seq<Tab>, p: nat)
    requires p < |tabs| && |tabs| >= 2
    ensures var rest := RemoveAt(tabs, p);
            rest != [] && HasTab(rest, rest[if p < |rest| then p else |rest| - 1].id)
  {
    var rest := RemoveAt(tabs, p);
    assert rest[if p < |rest| then p else |rest| - 1] in rest;
  }

  lemma OtherTabsStay(tabs: seq<Tab>, p: nat, id: TabId)
    requires p < |tabs| && UniqueIds(tabs) && UniqueAccounts(tabs) && HasTab(tabs, id) && tabs[p].id != id
    ensures HasTab(RemoveAt(tabs, p), id)
  {
    RemoveAtKeeps(tabs, p);
  }

  lemma CancelKeeps(m: Manager, id: TabId, signedOut: bool)
    requires Consistent(m)
    ensures Consistent(CancelAddAccountTab(m, id, signedOut).0)
  {
    hide UniqueIds, UniqueAccounts, RemoveAt;
    var p := PositionOf(m.tabs, id);
    if p.Some? && m.tabs[p.value].account.None? && signedOut && |m.tabs| >= 2 {
      RemoveAtKeeps(m.tabs, p.value);
      NeighbourExists(m.tabs, p.value);
      if m.selected != id {
        OtherTabsStay(m.tabs, p.value, m.selected);
      } else if m.addReturnTo.Some? {
        Positioned(RemoveAt(m.tabs, p.value), m.addReturnTo.value);
      }
    }
  }

  lemma Positioned(tabs: seq<Tab>, id: TabId)
    ensures PositionOf(tabs, id).Some? <==> HasTab(tabs, id)
  {
    var p := PositionOf(tabs, id);
    assert p.Some? ==> tabs[p.value] in tabs;
  }

  lemma RemoveKeeps(m: Manager, id: TabId, signedOut: bool, removed: Result<bool, Failure>)
    requires Consistent(m)
    ensures Consistent(RemoveSignedOutTab(m, id, signedOut, removed).0)
  {
    hide UniqueIds, UniqueAccounts, RemoveAt, OpenTab;
    var p := PositionOf(m.tabs, id);
    if p.Some? && m.tabs[p.value].account.Some? && signedOut && removed == Ok(true) {
      RemoveAtKeeps(m.tabs, p.value);
      var rest := RemoveAt(m.tabs, p.value);
      if rest == [] {
        var left := SelectNow(m.(tabs := rest, retiring := m.retiring + [m.tabs[p.value].runtime]), m.selected);
        OpenKeeps(left.(addReturnTo := Some(left.selected)));
      } else {
        RemovedOne(m.tabs, p.value);
        NeighbourExists(m.tabs, p.value);
        if m.selected != id {
          OtherTabsStay(m.tabs, p.value, m.selected);
        }
      }
    }
  }

  lemma RemovedOne(tabs: seq<Tab>, p: nat)
    requires p < |tabs|
    ensures |RemoveAt(tabs, p)| == |tabs| - 1
  {
  }

  lemma RestoreKeeps(m: Manager, keys: seq<AccountKey>, key: Option<AccountKey>, addInUse: bool)
    requires m.shutdown.None? && UniqueIds(m.tabs) && Explained(m)
    ensures Consistent(Reselected(Replaced(m, addInUse, keys), key)) <==> NoDup(keys)
  {
    var keep := KeptTab(m, addInUse);
    var kept := if keep.Some? then [m.tabs[keep.value]] else [];
    KeptIsUnbound(m, addInUse);
    RestoredUnique(kept, keys, m.started);
    hide NoDup, UniqueIds, UniqueAccounts, Restored, Runtimes, RemoveAt, Explained;
    var r := Replaced(m, addInUse, keys);
    assert r.tabs == kept + Restored(keys, m.started);
    ReselectedKeeps(r, key);
  }

  /** The kept tab carries a sign-in id, and is itself unbound unless ids repeat. */
  lemma KeptIsUnbound(m: Manager, addInUse: bool)
    requires Explained(m)
    ensures var keep := KeptTab(m, addInUse);
            keep.Some? ==>
              && m.tabs[keep.value].id.AddTab?
              && (UniqueIds(m.tabs) ==> m.tabs[keep.value].account.None?)
  {
    var p := FirstUnbound(m.tabs);
    assert p.Some? ==> m.tabs[p.value] in m.tabs;
  }

  lemma ReselectedKeeps(m: Manager, key: Option<AccountKey>)
    requires m.shutdown.None?
    ensures Consistent(Reselected(m, key)) <==> UniqueIds(m.tabs) && UniqueAccounts(m.tabs)
  {
    if m.tabs == [] {
      OpenKeeps(m);
    } else {
      assert m.tabs[0] in m.tabs;
    }
  }

  lemma StepExplains(m: Manager, op: Op)
    requires Explained(m)
    ensures Explained(Step(m, op))
  {
    if op.OpBind? {
      BindExplains(m, op.id, op.key, op.storeOk);
    } else {
      CounterGrows(m, op);
      hide Step;
      forall t | t in Step(m, op).tabs ensures IdsExplained([t], Step(m, op).nextAddId) {
        StepInherits(m, op, t);
      }
      assert forall t :: t in Step(m, op).tabs ==> t in [t];
    }
  }

  lemma BindExplains(m: Manager, id: TabId, key: AccountKey, storeOk: bool)
    requires Explained(m)
    ensures Explained(BindSession(m, id, key, storeOk).0)
  {
    var p := PositionOf(m.tabs, id);
    assert p.Some? ==> m.tabs[p.value] in m.tabs;
  }

  /** At every gate boundary before shutdown there is a tab, the selected id
      names one and is the scheduler's account, tab ids and accounts are unique
      and at most one tab is unbound. One step keeps all of this if and only if
      it is neither a new sign-in tab whose number is taken, which only the end
      of the counter allows, nor a restore from an index that repeats an
      account. */
  lemma ConsistencyKeptExactly(m: Manager, op: Op)
    requires Inv(m)
    ensures Explained(Step(m, op))
    ensures Consistent(Step(m, op)) <==> !Clashes(m, op)
    ensures Clashes(m, op) && op.OpAdd? ==> m.nextAddId == U64_MAX
  {
    StepExplains(m, op);
    match op
    case OpSelect(id, storeOk) =>
      var p := PositionOf(m.tabs, id);
      assert p.Some? ==> m.tabs[p.value] in m.tabs;
    case OpAdd =>
      AddKeeps(m);
    case OpCancel(id, signedOut) => CancelKeeps(m, id, signedOut);
    case OpBind(id, key, storeOk) =>
      var p := PositionOf(m.tabs, id);
      if BoundElsewhere(m.tabs, key, id).None? && p.Some? {
        BindKeeps(m.tabs, p.value, key);
        BindKeepsIds(m.tabs, p.value, key, m.selected);
      }
    case OpRemove(id, signedOut, removed) => RemoveKeeps(m, id, signedOut, removed);
    case OpRestore(index, addInUse, stopOk) =>
      if m.shutdown.None? && index.Ok? {
        RestoreKeeps(m, index.value.0, index.value.1, addInUse);
      }
    case OpShutdown(ok) =>
  }

  lemma AddKeeps(m: Manager)
    requires Inv(m)
    ensures Consistent(Step(m, OpAdd)) <==> !Clashes(m, OpAdd)
    ensures Clashes(m, OpAdd) ==> m.nextAddId == U64_MAX
  {
    if m.shutdown.None? {
      var p := FirstUnbound(m.tabs);
      if p.Some? {
        assert m.tabs[p.value] in m.tabs;
      } else {
        OpenKeeps(m.(addReturnTo := Some(m.selected)));
      }
    }
  }

  /** How ids come to repeat at the end of the counter: open a sign-in tab,
      sign in there, and open the next one. */
  lemma SaturatedCounterReusesId(m: Manager, key: AccountKey)
    requires Inv(m) && m.shutdown.None? && m.nextAddId == U64_MAX && FirstUnbound(m.tabs).None?
    requires forall t :: t in m.tabs ==> t.account != Some(key) && t.id != AddTab(U64_MAX)
    ensures var id := AddTab(U64_MAX);
            var end := Step(Step(Step(m, OpAdd), OpBind(id, key, true)), OpAdd);
            !UniqueIds(end.tabs)
  {
    var id := AddTab(U64_MAX);
    var n := |m.tabs|;
    var a := Step(m, OpAdd);
    assert forall i :: 0 <= i < n ==> m.tabs[i] in m.tabs;
    assert a.tabs == m.tabs + [Tab(id, None, m.started)];
    assert forall t :: t in a.tabs ==> t.account != Some(key);
    var p := PositionOf(a.tabs, id);
    assert a.tabs[n] in a.tabs;
    assert p == Some(n);
    var b := Step(a, OpBind(id, key, true));
    assert b.tabs == a.tabs[n := Tab(id, Some(key), m.started)];
    assert forall t :: t in b.tabs ==> t.account.Some?;
    var end := Step(b, OpAdd);
    assert end.tabs == b.tabs + [Tab(id, None, b.started)];
    assert end.tabs[n].id == end.tabs[n + 1].id;
  }

  // ----------------------------------------------------------- conservation --

  /** Every runtime ever started belongs to a tab, is retiring, or was stopped;
      each of them exactly once. */
  ghost predicate Accounted(m: Manager) {
    multiset(Runtimes(m.tabs)) + multiset(m.retiring) + multiset(m.stopped) == multiset(seq(m.started, i => i))
  }

  lemma RuntimesConcat(a: seq<Tab>, b: seq<Tab>)
    ensures Runtimes(a + b) == Runtimes(a) + Runtimes(b)
  {
  }

  lemma RuntimesRemove(tabs: seq<Tab>, p: nat)
    requires p < |tabs|
    ensures multiset(Runtimes(tabs)) == multiset(Runtimes(RemoveAt(tabs, p))) + multiset{tabs[p].runtime}
  {
    assert tabs == tabs[..p] + ([tabs[p]] + tabs[p + 1..]);
    RuntimesConcat(tabs[..p], [tabs[p]] + tabs[p + 1..]);
    RuntimesConcat([tabs[p]], tabs[p + 1..]);
    RuntimesConcat(tabs[..p], tabs[p + 1..]);
  }

  lemma StartedSplits(n: nat, k: nat)
    ensures multiset(seq(n + k, i => i)) == multiset(seq(n, i => i)) + multiset(seq(k, i => n + i))
  {
    assert seq(n + k, i => i) == seq(n, i => i) + seq(k, i => n + i);
  }

  lemma OpenKeepsAccounts(m: Manager)
    requires Accounted(m)
    ensures Accounted(OpenTab(m))
  {
    var t := Tab(AddTab(m.nextAddId), None, m.started);
    RuntimesConcat(m.tabs, [t]);
    assert Runtimes([t]) == [m.started];
    StartedSplits(m.started, 1);
    assert seq(1, i => m.started + i) == [m.started];
  }

  lemma RetireOne(m: Manager, p: nat)
    requires Accounted(m) && p < |m.tabs|
    ensures Accounted(m.(tabs := RemoveAt(m.tabs, p), retiring := m.retiring + [m.tabs[p].runtime]))
  {
    RuntimesRemove(m.tabs, p);
  }

  /** Keeping `kept`, stopping `dropped` and starting `keys` loses nothing. */
  lemma ReplacingKeepsAccounts(m: Manager, kept: seq<Tab>, dropped: seq<Tab>, keys: seq<AccountKey>)
    requires Accounted(m) && multiset(Runtimes(m.tabs)) == multiset(Runtimes(kept)) + multiset(Runtimes(dropped))
    ensures Accounted(m.(tabs := kept + Restored(keys, m.started), started := m.started + |keys|,
                         stopped := m.stopped + Runtimes(dropped)))
  {
    RuntimesConcat(kept, Restored(keys, m.started));
    assert Runtimes(Restored(keys, m.started)) == seq(|keys|, i => m.started + i);
    StartedSplits(m.started, |keys|);
    hide Restored, Runtimes;
  }

  lemma ReplacedKeepsAccounts(m: Manager, addInUse: bool, keys: seq<AccountKey>)
    requires Accounted(m)
    ensures Accounted(Replaced(m, addInUse, keys))
  {
    hide Accounted, Restored, FirstUnbound;
    var keep := KeptTab(m, addInUse);
    var kept := if keep.Some? then [m.tabs[keep.value]] else [];
    var dropped := if keep.Some? then RemoveAt(m.tabs, keep.value) else m.tabs;
    if keep.Some? {
      RuntimesRemove(m.tabs, keep.value);
      assert Runtimes(kept) == [m.tabs[keep.value].runtime];
    } else {
      assert Runtimes(kept) == [];
    }
    ReplacingKeepsAccounts(m, kept, dropped, keys);
  }

  lemma RestoreKeepsAccounts(m: Manager, index: Result<(seq<AccountKey>, Option<AccountKey>), Failure>,
                             addInUse: bool, stopOk: bool)
    requires Accounted(m)
    ensures Accounted(RestoreSavedAccounts(m, index, addInUse, stopOk).0)
  {
    hide Accounted, Replaced, FirstBoundTo, Reselected;
    if m.shutdown.None? && index.Ok? {
      ReplacedKeepsAccounts(m, addInUse, index.value.0);
      ReselectedKeepsAccounts(Replaced(m, addInUse, index.value.0), index.value.1);
    }
  }

  lemma ReselectedKeepsAccounts(m: Manager, key: Option<AccountKey>)
    requires Accounted(m)
    ensures Accounted(Reselected(m, key))
  {
    hide Accounted, FirstBoundTo;
    if m.tabs == [] {
      OpenKeepsAccounts(m);
    } else {
      SelectingKeepsAccounts(m, Reselected(m, key));
    }
  }

  lemma SelectingKeepsAccounts(m: Manager, n: Manager)
    requires Accounted(m) && n.tabs == m.tabs && n.retiring == m.retiring
    requires n.stopped == m.stopped && n.started == m.started
    ensures Accounted(n)
  {
  }

  lemma AddKeepsAccounts(m: Manager)
    requires Accounted(m)
    ensures Accounted(AddAccountTab(m).0)
  {
    if m.shutdown.None? && FirstUnbound(m.tabs).None? {
      var from := m.(addReturnTo := Some(m.selected));
      SelectingKeepsAccounts(m, from);
      OpenKeepsAccounts(from);
    } else {
      SelectingKeepsAccounts(m, AddAccountTab(m).0);
    }
  }

  lemma BindKeepsAccounts(m: Manager, p: nat, key: AccountKey)
    requires Accounted(m) && p < |m.tabs|
    ensures Accounted(m.(tabs := m.tabs[p := m.tabs[p].(account := Some(key))]))
  {
    assert Runtimes(m.tabs[p := m.tabs[p].(account := Some(key))]) == Runtimes(m.tabs);
  }

  lemma ShutdownKeepsAccounts(m: Manager, ok: bool)
    requires Accounted(m)
    ensures Accounted(ShutdownAll(m, ok).0)
  {
  }

  lemma RemoveKeepsAccounts(m: Manager, p: nat, selected: TabId)
    requires Accounted(m) && p < |m.tabs|
    ensures var retired := m.(tabs := RemoveAt(m.tabs, p), retiring := m.retiring + [m.tabs[p].runtime]);
            var left := SelectNow(retired, selected);
            Accounted(left) && Accounted(AddAccountTab(left).0)
  {
    var left := SelectNow(m.(tabs := RemoveAt(m.tabs, p), retiring := m.retiring + [m.tabs[p].runtime]), selected);
    RetireOne(m, p);
    hide Accounted;
    SelectingKeepsAccounts(m.(tabs := RemoveAt(m.tabs, p), retiring := m.retiring + [m.tabs[p].runtime]), left);
    AddKeepsAccounts(left);
  }

  lemma CancelKeepsAccounts(m: Manager, id: TabId, signedOut: bool)
    requires Accounted(m)
    ensures Accounted(Step(m, OpCancel(id, signedOut)))
  {
    var p := PositionOf(m.tabs, id);
    if p.Some? {
      RetireOne(m, p.value);
      hide Accounted;
      var n := Step(m, OpCancel(id, signedOut));
      var retired := m.(tabs := RemoveAt(m.tabs, p.value), retiring := m.retiring + [m.tabs[p.value].runtime]);
      if n != m {
        SelectingKeepsAccounts(retired, n);
      }
    }
  }

  /** No step loses or duplicates a runtime. */
  lemma StepKeepsAccounts(m: Manager, op: Op)
    requires Accounted(m)
    ensures Accounted(Step(m, op))
  {
    hide Accounted;
    match op
    case OpSelect(id, storeOk) => SelectingKeepsAccounts(m, Step(m, op));
    case OpAdd => AddKeepsAccounts(m);
    case OpCancel(id, signedOut) => CancelKeepsAccounts(m, id, signedOut);
    case OpBind(id, key, storeOk) =>
      var p := PositionOf(m.tabs, id);
      if p.Some? {
        BindKeepsAccounts(m, p.value, key);
      }
    case OpRemove(id, signedOut, removed) =>
      var p := PositionOf(m.tabs, id);
      if p.Some? {
        var rest := RemoveAt(m.tabs, p.value);
        var neighbour := if p.value < |rest| then p.value else |rest| - 1;
        RemoveKeepsAccounts(m, p.value, if m.selected == id && rest != [] then rest[neighbour].id else m.selected);
      }
    case OpRestore(index, addInUse, stopOk) => RestoreKeepsAccounts(m, index, addInUse, stopOk);
    case OpShutdown(ok) => ShutdownKeepsAccounts(m, ok);
  }

  // ------------------------------------------------------------- whole runs --

  function Exec(m: Manager, ops: seq<Op>): Manager
    decreases |ops|
  {
    if ops == [] then m else Exec(Step(m, ops[0]), ops[1..])
  }

  lemma InitialOk()
    ensures Inv(INITIAL) && Accounted(INITIAL)
  {
  }

  ghost predicate NeverClashes(m: Manager, ops: seq<Op>)
    decreases |ops|
  {
    ops == [] || (!Clashes(m, ops[0]) && NeverClashes(Step(m, ops[0]), ops[1..]))
  }

  ghost predicate AlwaysConsistent(m: Manager, ops: seq<Op>)
    decreases |ops|
  {
    Consistent(m) && (ops == [] || AlwaysConsistent(Step(m, ops[0]), ops[1..]))
  }

  /** Over a whole run the tab list is consistent at every gate boundary if and
      only if no call of the run clashes where it is made. */
  lemma {:induction false} RunConsistentExactly(m: Manager, ops: seq<Op>)
    requires Inv(m)
    ensures AlwaysConsistent(m, ops) <==> NeverClashes(m, ops)
    decreases |ops|
  {
    hide Consistent, Explained, Clashes, Step;
    if ops != [] {
      ConsistencyKeptExactly(m, ops[0]);
      if !Clashes(m, ops[0]) {
        RunConsistentExactly(Step(m, ops[0]), ops[1..]);
      }
    }
  }

  /** A run shorter than the sign-in tab counter never clashes, whatever it
      does, unless it restores from an index that repeats an account. */
  lemma {:induction false} ShortRunsAreConsistent(m: Manager, ops: seq<Op>)
    requires Inv(m) && m.nextAddId + |ops| <= U64_MAX
    requires forall op :: op in ops && op.OpRestore? && op.index.Ok? ==> NoDup(op.index.value.0)
    ensures AlwaysConsistent(m, ops)
    decreases |ops|
  {
    hide Consistent, Explained, Step;
    if ops != [] {
      assert ops[0] in ops;
      ConsistencyKeptExactly(m, ops[0]);
      CounterGrows(m, ops[0]);
      ShortRunsAreConsistent(Step(m, ops[0]), ops[1..]);
    }
  }

  /** After shutdown nothing is left to stop. */
  ghost predicate Conserved(m: Manager) {
    Accounted(m) && (m.shutdown.Some? ==> m.tabs == [] && m.retiring == [])
  }

  lemma StepConserves(m: Manager, op: Op)
    requires Conserved(m)
    ensures Conserved(Step(m, op))
  {
    StepKeepsAccounts(m, op);
    hide Accounted;
  }

  lemma {:induction false} RunConserves(m: Manager, ops: seq<Op>)
    requires Conserved(m)
    ensures Conserved(Exec(m, ops))
    decreases |ops|
  {
    hide Conserved, Step;
    if ops != [] {
      StepConserves(m, ops[0]);
      RunConserves(Step(m, ops[0]), ops[1..]);
    }
  }

  /** Shutting down after any run stops every runtime the run ever started,
      each exactly once. */
  lemma ShutdownStopsEverything(ops: seq<Op>, ok: bool)
    ensures var end := Step(Exec(INITIAL, ops), OpShutdown(ok));
            multiset(end.stopped) == multiset(seq(end.started, i => i)) && end.tabs == []
  {
    InitialOk();
    RunConserves(INITIAL, ops);
    hide Conserved, Exec, Step;
    StoppedAfterShutdown(Exec(INITIAL, ops), ok);
  }

  lemma StoppedAfterShutdown(m: Manager, ok: bool)
    requires Conserved(m)
    ensures var end := Step(m, OpShutdown(ok));
            multiset(end.stopped) == multiset(seq(end.started, i => i)) && end.tabs == []
  {
  }

  /** Any tab that ever carries `id` is bound to `key`. */
  ghost predicate Pinned(m: Manager, id: TabId, key: AccountKey) {
    && (forall t :: t in m.tabs && t.id == id ==> t.account == Some(key))
    && match id
       case AddTab(n) => n < m.nextAddId
       case AccountTab(k) => k == key
       case Foreign(_) => true
  }

  /** Where the tabs of the next state come from, binding aside. */
  ghost predicate Inherited(m: Manager, t: Tab) {
    t in m.tabs || t.id == AddTab(m.nextAddId) || (t.id.AccountTab? && t.account == Some(t.id.key))
  }

  lemma StepInherits(m: Manager, op: Op, t: Tab)
    requires !op.OpBind? && t in Step(m, op).tabs
    ensures Inherited(m, t)
    ensures t in m.tabs || t.id.AccountTab? || Step(m, op).nextAddId == SaturatingNext(m.nextAddId)
  {
  }

  lemma StepKeepsPin(m: Manager, op: Op, id: TabId, key: AccountKey)
    requires Pinned(m, id, key)
    ensures Pinned(Step(m, op), id, key)
  {
    if op.OpBind? {
      var p := PositionOf(m.tabs, op.id);
      assert p.Some? ==> m.tabs[p.value] in m.tabs;
    } else {
      CounterGrows(m, op);
      hide Step;
      forall t | t in Step(m, op).tabs && t.id == id ensures t.account == Some(key) {
        StepInherits(m, op, t);
      }
    }
  }

  lemma CounterGrows(m: Manager, op: Op)
    ensures m.nextAddId <= Step(m, op).nextAddId <= m.nextAddId + 1
    ensures m.nextAddId <= U64_MAX ==> Step(m, op).nextAddId <= U64_MAX
  {
  }

  lemma {:induction false} PinSurvives(m: Manager, ops: seq<Op>, id: TabId, key: AccountKey)
    requires Pinned(m, id, key)
    ensures Pinned(Exec(m, ops), id, key)
    decreases |ops|
  {
    hide Pinned, Step;
    if ops != [] {
      StepKeepsPin(m, ops[0], id, key);
      PinSurvives(Step(m, ops[0]), ops[1..], id, key);
    }
  }

  /** In every later state of every run, a tab with the id of `t` is bound to
      the account of `t`. */
  ghost predicate KeepsAccount(m: Manager, t: Tab) {
    forall ops: seq<Op>, u :: u in Exec(m, ops).tabs && u.id == t.id ==> u.account == t.account
  }

  /** A bound tab never changes account, even across clashes, restores and new
      sign-in tabs, if and only if its number is not the one to be handed out
      next; only the end of the counter allows that. */
  lemma BoundTabKeepsAccount(m: Manager, t: Tab)
    requires Inv(m) && t in m.tabs && t.account.Some?
    ensures KeepsAccount(m, t) <==> t.id != AddTab(m.nextAddId)
    ensures t.id == AddTab(m.nextAddId) ==> m.nextAddId == U64_MAX
  {
    if t.id != AddTab(m.nextAddId) {
      assert Pinned(m, t.id, t.account.value) by {
        assert forall v :: v in m.tabs && v.id == t.id ==> v == t;
      }
      hide Inv, Pinned, Exec;
      forall ops: seq<Op>, u | u in Exec(m, ops).tabs && u.id == t.id ensures u.account == t.account {
        PinSurvives(m, ops, t.id, t.account.value);
        PinBinds(Exec(m, ops), t.id, t.account.value, u);
      }
    } else {
      var ops, u := RebindingRun(m, t);
    }
  }

  lemma PinBinds(m: Manager, id: TabId, key: AccountKey, u: Tab)
    requires Pinned(m, id, key) && u in m.tabs && u.id == id
    ensures u.account == Some(key)
  {
  }

  /** At the end of the counter: close the unbound tab if there is one and open
      a new one; it takes the id of `t`. */
  lemma RebindingRun(m: Manager, t: Tab) returns (ops: seq<Op>, u: Tab)
    requires Inv(m) && t in m.tabs && t.account.Some? && t.id == AddTab(m.nextAddId)
    ensures u in Exec(m, ops).tabs && u.id == t.id && u.account.None?
  {
    var p := FirstUnbound(m.tabs);
    if p.None? {
      ops := [OpAdd];
      u := OpensUnbound(m);
      ExecOne(m, OpAdd);
    } else {
      var cancel := OpCancel(m.tabs[p.value].id, true);
      CancelsUnbound(m, t);
      ops := [cancel, OpAdd];
      assert ops[1..] == [OpAdd];
      ExecOne(Step(m, cancel), OpAdd);
      u := OpensUnbound(Step(m, cancel));
    }
  }

  lemma ExecOne(m: Manager, op: Op)
    ensures Exec(m, [op]) == Step(m, op)
  {
    assert [op][1..] == [];
    assert Exec(Step(m, op), []) == Step(m, op);
  }

  lemma OpensUnbound(m: Manager) returns (u: Tab)
    requires m.shutdown.None? && FirstUnbound(m.tabs).None?
    ensures u in Step(m, OpAdd).tabs && u.id == AddTab(m.nextAddId) && u.account.None?
  {
    u := Tab(AddTab(m.nextAddId), None, m.started);
  }

  lemma CancelsUnbound(m: Manager, t: Tab)
    requires Inv(m) && t in m.tabs && t.account.Some? && FirstUnbound(m.tabs).Some?
    ensures var n := Step(m, OpCancel(m.tabs[FirstUnbound(m.tabs).value].id, true));
            n.shutdown.None? && FirstUnbound(n.tabs).None? && n.nextAddId == m.nextAddId
  {
    var p := FirstUnbound(m.tabs).value;
    assert PositionOf(m.tabs, m.tabs[p].id) == Some(p);
    RemoveAtKeeps(m.tabs, p);
    var rest := RemoveAt(m.tabs, p);
    var i :| 0 <= i < |m.tabs| && m.tabs[i] == t;
    forall u | u in rest ensures u.account.Some? {
      var j :| 0 <= j < |m.tabs| && m.tabs[j] == u;
      assert m.tabs[j].account != m.tabs[p].account;
    }
    assert i != p;
    AllBoundMeansNoUnbound(rest);
  }

  lemma AllBoundMeansNoUnbound(tabs: seq<Tab>)
    requires forall t :: t in tabs ==> t.account.Some?
    ensures FirstUnbound(tabs).None?
  {
  }

  /** Closing a tab, by cancelling a sign-in or after a sign-out, takes away
      exactly that tab; a tab that was not selected leaves the selection alone,
      and the last account tab gives way to one fresh sign-in tab. */
  lemma ClosingIsExact(m: Manager, id: TabId, signedOut: bool, removed: Result<bool, Failure>, t: Tab)
    requires Inv(m)
    ensures var (n, r) := CancelAddAccountTab(m, id, signedOut);
            if r == Ok(true) then
              && (t in n.tabs <==> t in m.tabs && t.id != id)
              && (m.selected != id ==> n.selected == m.selected)
            else n == m
    ensures var (n, r) := RemoveSignedOutTab(m, id, signedOut, removed);
            if r == Ok(true) then
              && (m.selected != id ==> n.selected == m.selected)
              && if |m.tabs| == 1 then n.tabs == [Tab(AddTab(m.nextAddId), None, m.started)]
                 else t in n.tabs <==> t in m.tabs && t.id != id
            else n == m
  {
  }

  ghost predicate HeldElsewhere(tabs: seq<Tab>, key: AccountKey, id: TabId) {
    exists u :: u in tabs && u.id != id && u.account == Some(key)
  }

  ghost predicate HeldByOther(tabs: seq<Tab>, id: TabId, key: AccountKey) {
    exists u :: u in tabs && u.id == id && u.account.Some? && u.account != Some(key)
  }

  /** Signing in binds exactly the named tab, and does so exactly when no other
      tab holds the account, the tab exists, is not bound to another account,
      and the store agrees; each refusal has its own cause and changes nothing. */
  lemma BindingIsExact(m: Manager, id: TabId, key: AccountKey, storeOk: bool, t: Tab)
    requires Inv(m)
    ensures var (n, r) := BindSession(m, id, key, storeOk);
            var elsewhere, other := HeldElsewhere(m.tabs, key, id), HeldByOther(m.tabs, id, key);
            && (r.Ok? && r.value.Duplicate? <==> elsewhere)
            && (r.Ok? && r.value.IdentityMismatch? <==> !elsewhere && other)
            && (r == Ok(Bound(id)) <==> !elsewhere && !other && HasTab(m.tabs, id) && storeOk)
            && (r.Ok? && r.value.Bound? ==> r.value.id == id)
            && (if r == Ok(Bound(id)) then
                  && (t in n.tabs && t.id != id <==> t in m.tabs && t.id != id)
                  && (t in n.tabs && t.id == id ==> t.account == Some(key))
                  && HasTab(n.tabs, id) && n.selected == m.selected
                else n == m)
  {
    var p := PositionOf(m.tabs, id);
    if p.Some? {
      assert m.tabs[p.value] in m.tabs;
      OnlyTabWithId(m.tabs, p.value);
      BoundTabs(m.tabs, p.value, key, t);
    }
    hide UniqueAccounts, Explained;
  }

  lemma OnlyTabWithId(tabs: seq<Tab>, p: nat)
    requires p < |tabs| && UniqueIds(tabs)
    ensures forall u :: u in tabs && u.id == tabs[p].id ==> u == tabs[p]
  {
  }

  lemma BoundTabs(tabs: seq<Tab>, p: nat, key: AccountKey, t: Tab)
    requires p < |tabs| && UniqueIds(tabs)
    ensures var id, bound := tabs[p].id, tabs[p := tabs[p].(account := Some(key))];
            && HasTab(bound, id)
            && (t.id != id ==> (t in bound <==> t in tabs))
            && (t in bound && t.id == id ==> t.account == Some(key))
  {
    var bound := tabs[p := tabs[p].(account := Some(key))];
    assert bound[p] in bound;
    if t in tabs && t.id != tabs[p].id {
      var i :| 0 <= i < |tabs| && tabs[i] == t;
      assert bound[i] == t;
    }
  }

  /** A restore shows exactly the saved accounts, whether or not the index
      repeats one and the old runtimes stop, and selects a tab bound to the saved
      selection when it is among them: its own tab, unless ids repeated before. */
  lemma RestoreIsExact(m: Manager, keys: seq<AccountKey>, selectedKey: Option<AccountKey>, addInUse: bool, stopOk: bool,
                       key: AccountKey)
    requires Explained(m) && m.shutdown.None?
    ensures var n := RestoreSavedAccounts(m, Ok((keys, selectedKey)), addInUse, stopOk).0;
            && (HasTab(n.tabs, AccountTab(key)) <==> key in keys)
            && (key in keys && selectedKey == Some(key) ==>
                  && (exists t :: t in n.tabs && t.id == n.selected && t.account == Some(key))
                  && (UniqueIds(m.tabs) ==> n.selected == AccountTab(key)))
  {
    var keep := KeptTab(m, addInUse);
    var kept := if keep.Some? then [m.tabs[keep.value]] else [];
    KeptIsUnbound(m, addInUse);
    RestoredHas(kept, keys, m.started, key);
    hide Explained, Restored, Runtimes, RemoveAt, KeptTab, UniqueIds;
    var tabs := kept + Restored(keys, m.started);
    assert Replaced(m, addInUse, keys).tabs == tabs;
    if key in keys {
      FindsBound(tabs, key);
      if UniqueIds(m.tabs) {
        FindsRestored(tabs, key);
      }
    }
  }

  lemma RestoredHas(kept: seq<Tab>, keys: seq<AccountKey>, runtime: nat, key: AccountKey)
    requires forall t :: t in kept ==> !t.id.AccountTab?
    ensures var tabs := kept + Restored(keys, runtime);
            && (HasTab(tabs, AccountTab(key)) <==> key in keys)
            && (key in keys ==> exists t :: t in tabs && t.account == Some(key))
            && ((forall t :: t in kept ==> t.account.None?) ==>
                  forall t :: t in tabs && t.account == Some(key) ==> t.id == AccountTab(key))
  {
    var tabs := kept + Restored(keys, runtime);
    if key in keys {
      var i :| 0 <= i < |keys| && keys[i] == key;
      assert tabs[|kept| + i] == Restored(keys, runtime)[i];
      assert tabs[|kept| + i] in tabs;
    }
  }

  lemma {:induction false} FindsBound(tabs: seq<Tab>, key: AccountKey)
    requires exists t :: t in tabs && t.account == Some(key)
    ensures var id := FirstBoundTo(tabs, key);
            id.Some? && exists t :: t in tabs && t.id == id.value && t.account == Some(key)
  {
    assert tabs == [tabs[0]] + tabs[1..];
    if tabs[0].account != Some(key) {
      FindsBound(tabs[1..], key);
    }
  }

  lemma {:induction false} FindsRestored(tabs: seq<Tab>, key: AccountKey)
    requires exists t :: t in tabs && t.account == Some(key)
    requires forall t :: t in tabs && t.account == Some(key) ==> t.id == AccountTab(key)
    ensures FirstBoundTo(tabs, key) == Some(AccountTab(key))
  {
    assert tabs == [tabs[0]] + tabs[1..];
    if tabs[0].account != Some(key) {
      FindsRestored(tabs[1..], key);
    }
  }

  /** Opening a sign-in tab and cancelling it brings the user back: the same
      tabs, the same selection, and one more retiring runtime; unless the number
      was taken, when the cancellation refuses. */
  lemma AddThenCancelReturns(m: Manager)
    requires Inv(m) && m.shutdown.None? && FirstUnbound(m.tabs).None?
    ensures var added := AddAccountTab(m);
            var back := CancelAddAccountTab(added.0, added.1.value, true);
            if HasTab(m.tabs, AddTab(m.nextAddId)) then back == (added.0, Ok(false))
            else
              && back.1 == Ok(true)
              && back.0 == m.(nextAddId := SaturatingNext(m.nextAddId), addReturnTo := None,
                              started := m.started + 1, retiring := m.retiring + [m.started])
  {
    var id := AddTab(m.nextAddId);
    var added := AddAccountTab(m).0;
    assert added.tabs == m.tabs + [Tab(id, None, m.started)];
    FoundInPrefix(m.tabs, Tab(id, None, m.started));
    if !HasTab(m.tabs, id) {
      assert RemoveAt(added.tabs, |m.tabs|) == m.tabs;
    }
  }

  lemma {:induction false} FoundInPrefix(tabs: seq<Tab>, t: Tab)
    ensures PositionOf(tabs + [t], t.id) == if HasTab(tabs, t.id) then PositionOf(tabs, t.id) else Some(|tabs|)
  {
    if tabs != [] && tabs[0].id != t.id {
      assert (tabs + [t])[1..] == tabs[1..] + [t];
      assert tabs == [tabs[0]] + tabs[1..];
      FoundInPrefix(tabs[1..], t);
    }
  }
}
