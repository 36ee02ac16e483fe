/** `AccountRuntimeManager` with its locked state updated in place; each method
    is one section under the operation gate and is proved to take the matching
    step of `AccountTabs`. */
module AccountTabManager {
  import opened Basics
  import opened AccountTabs
  import opened AccountTabRuns

  class TabManager {
    var tabs: seq<Tab>
    var selected: TabId
    var nextAddId: nat
    var addReturnTo: Option<TabId>
    var retiring: seq<nat>
    var shutdownResult: Option<bool>
    /** The scheduler's selected account. */
    var scheduled: Option<TabId>
    /** Number of runtimes started; the next one gets this number. */
    var started: nat
    ghost var stopped: seq<nat>

    ghost function View(): Manager
      reads this
    {
      Manager(tabs, selected, nextAddId, addReturnTo, retiring, shutdownResult, scheduled, started, stopped)
    }

    /** No runtime is lost. This holds after every call. */
    ghost predicate Valid()
      reads this
    {
      Conserved(View())
    }

    /** The tab list is consistent. This survives exactly the calls that do not
        clash. */
    ghost predicate Sound()
      reads this
    {
      Inv(View())
    }

    constructor ()
      ensures Valid() && Sound() && View() == INITIAL
    {
      InitialOk();
      tabs, selected, nextAddId := [Tab(AddTab(1), None, 0)], AddTab(1), 2;
      addReturnTo, retiring, shutdownResult := None, [], None;
      scheduled, started, stopped := Some(AddTab(1)), 1, [];
    }

    /** What carries over to the state a step leads to. */
    lemma Keep(op: Op)
      requires Valid()
      ensures Conserved(Step(View(), op))
      ensures Sound() ==> (Inv(Step(View(), op)) <==> !Clashes(View(), op))
    {
      StepConserves(View(), op);
      if Sound() {
        ConsistencyKeptExactly(View(), op);
      }
    }

    method Choose(id: TabId)
      modifies this`selected, this`scheduled
      ensures View() == SelectNow(old(View()), id)
    {
      selected := id;
      scheduled := Some(id);
    }

    method Open()
      modifies this
      ensures View() == OpenTab(old(View()))
    {
      var id := AddTab(nextAddId);
      nextAddId := SaturatingNext(nextAddId);
      tabs := tabs + [Tab(id, None, started)];
      started := started + 1;
      Choose(id);
    }

    method SelectTab(id: TabId, storeOk: bool) returns (r: Result<bool, Failure>)
      requires Valid()
      modifies this
      ensures Valid() && (View(), r) == AccountTabs.SelectTab(old(View()), id, storeOk)
      ensures old(Sound()) ==> Sound()
    {
      hide Inv, Conserved;
      Keep(OpSelect(id, storeOk));
      var p := PositionOf(tabs, id);
      if p.None? {
        return Ok(false);
      }
      if tabs[p.value].account.Some? && !storeOk {
        return Err(StoreUnavailable);
      }
      Choose(id);
      r := Ok(true);
    }

    method AddAccountTabLocked() returns (r: Result<TabId, Failure>)
      modifies this
      ensures (View(), r) == AccountTabs.AddAccountTab(old(View()))
    {
      if shutdownResult.Some? {
        return Err(ShutdownFailed);
      }
      var p := FirstUnbound(tabs);
      if p.Some? {
        var id := tabs[p.value].id;
        if selected != id {
          addReturnTo := Some(selected);
        }
        Choose(id);
        return Ok(id);
      }
      r := Ok(AddTab(nextAddId));
      addReturnTo := Some(selected);
      Open();
    }

    method AddAccountTab() returns (r: Result<TabId, Failure>)
      requires Valid()
      modifies this
      ensures Valid() && (View(), r) == AccountTabs.AddAccountTab(old(View()))
      ensures old(Sound()) ==> (Sound() <==> !old(Clashes(View(), OpAdd)))
    {
      hide Inv, Conserved, Clashes;
      Keep(OpAdd);
      r := AddAccountTabLocked();
    }

    method CancelAddAccountTab(id: TabId, signedOut: bool) returns (r: Result<bool, Failure>)
      requires Valid()
      modifies this
      ensures Valid() && (View(), r) == AccountTabs.CancelAddAccountTab(old(View()), id, signedOut)
      ensures old(Sound()) ==> Sound()
    {
      hide Inv, Conserved, AccountTabs.CancelAddAccountTab;
      Keep(OpCancel(id, signedOut));
      r := CancelLocked(id, signedOut);
    }

    method Retire(position: nat)
      requires position < |tabs|
      modifies this`tabs, this`retiring
      ensures tabs == RemoveAt(old(tabs), position) && retiring == old(retiring) + [old(tabs)[position].runtime]
    {
      retiring := retiring + [tabs[position].runtime];
      tabs := RemoveAt(tabs, position);
    }

    method CancelLocked(id: TabId, signedOut: bool) returns (r: Result<bool, Failure>)
      modifies this
      ensures (View(), r) == AccountTabs.CancelAddAccountTab(old(View()), id, signedOut)
    {
      var p := PositionOf(tabs, id);
      if p.None? {
        return Ok(false);
      }
      var position := p.value;
      if tabs[position].account.Some? || !signedOut || |tabs| < 2 {
        return Ok(false);
      }
      Retire(position);
      var returnTo := addReturnTo;
      addReturnTo := None;
      if selected == id {
        if returnTo.Some? && PositionOf(tabs, returnTo.value).Some? {
          selected := returnTo.value;
        } else {
          selected := tabs[if position < |tabs| then position else |tabs| - 1].id;
        }
      }
      scheduled := Some(selected);
      r := Ok(true);
    }

    method BindAuthenticatedSession(id: TabId, key: AccountKey, storeOk: bool) returns (r: Result<BindOutcome, Failure>)
      requires Valid()
      modifies this
      ensures Valid() && (View(), r) == BindSession(old(View()), id, key, storeOk)
      ensures old(Sound()) ==> Sound()
    {
      hide Inv, Conserved;
      Keep(OpBind(id, key, storeOk));
      var other := BoundElsewhere(tabs, key, id);
      if other.Some? {
        return Ok(Duplicate(other.value));
      }
      var p := PositionOf(tabs, id);
      if p.None? {
        return Err(StoreUnavailable);
      }
      var tab := tabs[p.value];
      if tab.account.Some? && tab.account != Some(key) {
        return Ok(IdentityMismatch(tab.account.value, key));
      }
      if !storeOk {
        return Err(StoreUnavailable);
      }
      tabs := tabs[p.value := tab.(account := Some(key))];
      r := Ok(Bound(id));
    }

    method RemoveSignedOutTab(id: TabId, signedOut: bool, removed: Result<bool, Failure>)
      returns (r: Result<bool, Failure>)
      requires Valid()
      modifies this
      ensures Valid() && (View(), r) == AccountTabs.RemoveSignedOutTab(old(View()), id, signedOut, removed)
      ensures old(Sound()) ==> Sound()
    {
      hide Inv, Conserved, AccountTabs.RemoveSignedOutTab;
      Keep(OpRemove(id, signedOut, removed));
      r := RemoveLocked(id, signedOut, removed);
    }

    method RemoveLocked(id: TabId, signedOut: bool, removed: Result<bool, Failure>) returns (r: Result<bool, Failure>)
      modifies this
      ensures (View(), r) == AccountTabs.RemoveSignedOutTab(old(View()), id, signedOut, removed)
    {
      hide OpenTab;
      var p := PositionOf(tabs, id);
      if p.None? {
        return Ok(false);
      }
      var position := p.value;
      if tabs[position].account.None? || !signedOut {
        return Ok(false);
      }
      if removed.Err? {
        return Err(removed.error);
      }
      if !removed.value {
        return Ok(false);
      }
      Retire(position);
      if selected == id && tabs != [] {
        selected := tabs[if position < |tabs| then position else |tabs| - 1].id;
      }
      scheduled := Some(selected);
      if tabs == [] {
        var added := AddAccountTabLocked();
        if added.Err? {
          return Err(added.error);
        }
      }
      r := Ok(true);
    }

    method RestoreSavedAccounts(index: Result<(seq<AccountKey>, Option<AccountKey>), Failure>,
                                addInUse: bool, stopOk: bool)
      returns (r: Result<(), Failure>)
      requires Valid()
      modifies this
      ensures Valid() && (View(), r) == AccountTabs.RestoreSavedAccounts(old(View()), index, addInUse, stopOk)
      ensures old(Sound()) ==> (Sound() <==> !old(Clashes(View(), OpRestore(index, addInUse, stopOk))))
    {
      hide Inv, Conserved, Clashes, AccountTabs.RestoreSavedAccounts;
      Keep(OpRestore(index, addInUse, stopOk));
      r := RestoreLocked(index, addInUse, stopOk);
    }

    method RestoreLocked(index: Result<(seq<AccountKey>, Option<AccountKey>), Failure>,
                         addInUse: bool, stopOk: bool)
      returns (r: Result<(), Failure>)
      modifies this
      ensures (View(), r) == AccountTabs.RestoreSavedAccounts(old(View()), index, addInUse, stopOk)
    {
      hide Restored, Runtimes, RemoveAt, FirstUnbound, PositionOf, FirstBoundTo;
      if shutdownResult.Some? {
        return Err(ShutdownFailed);
      }
      if index.Err? {
        return Err(index.error);
      }
      var (keys, selectedKey) := index.value;
      if selectedKey.Some? {
        scheduled := Some(AccountTab(selectedKey.value));
      }
      SwapTabs(addInUse, keys);
      Reselect(selectedKey);
      r := if stopOk then Ok(()) else Err(StoreUnavailable);
    }

    method SwapTabs(addInUse: bool, keys: seq<AccountKey>)
      modifies this
      ensures View() == Replaced(old(View()), addInUse, keys)
    {
      hide Restored, Runtimes, RemoveAt;
      var keep: Option<nat> := None;
      var unbound := FirstUnbound(tabs);
      if unbound.Some? && addInUse {
        keep := PositionOf(tabs, tabs[unbound.value].id);
      }
      ReplaceTabs(keep, keys);
    }

    method Reselect(key: Option<AccountKey>)
      modifies this
      ensures View() == Reselected(old(View()), key)
    {
      if tabs == [] {
        Open();
      } else {
        var chosen := if key.Some? then FirstBoundTo(tabs, key.value) else None;
        Choose(if chosen.Some? then chosen.value else tabs[0].id);
      }
    }

    method ReplaceTabs(keep: Option<nat>, keys: seq<AccountKey>)
      requires keep.Some? ==> keep.value < |tabs|
      modifies this`tabs, this`started, this`stopped
      ensures tabs == (if keep.Some? then [old(tabs)[keep.value]] else []) + Restored(keys, old(started))
      ensures started == old(started) + |keys|
      ensures stopped == old(stopped) + Runtimes(if keep.Some? then RemoveAt(old(tabs), keep.value) else old(tabs))
    {
      var kept: seq<Tab> := [];
      if keep.Some? {
        kept := [tabs[keep.value]];
        tabs := RemoveAt(tabs, keep.value);
      }
      stopped := stopped + Runtimes(tabs);
      tabs := kept;
      ghost var first, gone := started, stopped;
      for i := 0 to |keys|
        invariant started == first + i && stopped == gone && tabs == kept + Restored(keys, first)[..i]
      {
        tabs := tabs + [Tab(AccountTab(keys[i]), Some(keys[i]), started)];
        started := started + 1;
        assert Restored(keys, first)[..i + 1] == Restored(keys, first)[..i] + [Restored(keys, first)[i]];
      }
      assert Restored(keys, first)[..|keys|] == Restored(keys, first);
    }

    method ShutdownAllChecked(ok: bool) returns (result: bool)
      requires Valid()
      modifies this
      ensures Valid() && (View(), result) == ShutdownAll(old(View()), ok)
      ensures old(Sound()) ==> Sound()
    {
      hide Inv, Conserved;
      Keep(OpShutdown(ok));
      scheduled := None;
      if shutdownResult.Some? {
        return shutdownResult.value;
      }
      stopped := stopped + Runtimes(tabs) + retiring;
      tabs, retiring := [], [];
      shutdownResult := Some(ok);
      result := ok;
    }
  }
}
