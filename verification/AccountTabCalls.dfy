/** What each call of the account tab manager answers, and what exactly it
    changes. */
module AccountTabCalls {
  import opened Basics
  import opened AccountTabs
  import opened AccountTabRuns

  /** Selecting answers yes exactly when a tab carries the id and is unbound or
      the store agrees, and then selection and scheduler change to that id and
      nothing else does; it answers no exactly when no tab carries the id; and
      every other answer changes nothing. */
  lemma SelectingIsExact(m: Manager, id: TabId, storeOk: bool)
    requires Inv(m)
    ensures var (n, r) := SelectTab(m, id, storeOk);
            && (r == Ok(true) <==> exists t :: t in m.tabs && t.id == id && (t.account.None? || storeOk))
            && (r == Ok(false) <==> !HasTab(m.tabs, id))
            && n == if r == Ok(true) then m.(selected := id, scheduled := Some(id)) else m
  {
    var p := PositionOf(m.tabs, id);
    if p.Some? {
      assert m.tabs[p.value] in m.tabs;
      if m.shutdown.None? {
        OnlyTabWithId(m.tabs, p.value);
      }
    }
  }

  /** Adding refuses after shutdown, returns to the unbound tab if there is one,
      and otherwise opens the next sign-in tab behind the others. */
  lemma AddingIsExact(m: Manager)
    requires Inv(m)
    ensures var (n, r) := AddAccountTab(m);
            if m.shutdown.Some? then (n, r) == (m, Err(ShutdownFailed))
            else if exists t :: t in m.tabs && t.account.None? then
              && r.Ok? && (exists t :: t in m.tabs && t.account.None? && t.id == r.value)
              && n == m.(selected := r.value, scheduled := Some(r.value),
                         addReturnTo := if m.selected == r.value then m.addReturnTo else Some(m.selected))
            else
              var id := AddTab(m.nextAddId);
              && r == Ok(id)
              && n == m.(tabs := m.tabs + [Tab(id, None, m.started)], selected := id, scheduled := Some(id),
                         addReturnTo := Some(m.selected), started := m.started + 1,
                         nextAddId := if m.nextAddId == U64_MAX then U64_MAX else m.nextAddId + 1)
  {
    var p := FirstUnbound(m.tabs);
    assert p.Some? ==> m.tabs[p.value] in m.tabs;
  }

  /** The tab next to position `p`: the one behind it, or the one before the last. */
  function Neighbour(tabs: seq<Tab>, p: nat): TabId
    requires p < |tabs| && |tabs| >= 2
  {
    if p + 1 < |tabs| then tabs[p + 1].id else tabs[p - 1].id
  }

  /** `tabs` without its element at `p`, order kept. */
  ghost predicate OneLess(tabs: seq<Tab>, p: nat, rest: seq<Tab>) {
    && p < |tabs| && |rest| == |tabs| - 1
    && (forall i :: 0 <= i < p ==> rest[i] == tabs[i])
    && (forall i :: p < i < |tabs| ==> rest[i - 1] == tabs[i])
  }

  lemma RemoveAtExact(tabs: seq<Tab>, p: nat)
    requires p < |tabs|
    ensures OneLess(tabs, p, RemoveAt(tabs, p))
    ensures |tabs| >= 2 ==>
              var rest := RemoveAt(tabs, p);
              rest[if p < |rest| then p else |rest| - 1].id == Neighbour(tabs, p)
  {
  }

  /** Cancelling closes the tab exactly when it is unbound, signed out and not the
      only one; its runtime retires. If it was selected, the tab the user came
      from is, if it is still there, and its neighbour otherwise. */
  lemma CancellingIsExact(m: Manager, p: nat, signedOut: bool)
    requires Inv(m) && p < |m.tabs|
    ensures var t := m.tabs[p];
            var (n, r) := CancelAddAccountTab(m, t.id, signedOut);
            if t.account.None? && signedOut && |m.tabs| >= 2 then
              && r == Ok(true) && OneLess(m.tabs, p, n.tabs)
              && n.retiring == m.retiring + [t.runtime] && n.addReturnTo == None
              && n.selected == (if m.selected != t.id then m.selected
                                else if m.addReturnTo.Some? && HasTab(n.tabs, m.addReturnTo.value) then
                                  m.addReturnTo.value
                                else Neighbour(m.tabs, p))
              && n == m.(tabs := n.tabs, retiring := n.retiring, addReturnTo := None,
                         selected := n.selected, scheduled := Some(n.selected))
            else (n, r) == (m, Ok(false))
  {
    FirstWithId(m.tabs, p);
    RemoveAtExact(m.tabs, p);
    hide RemoveAt, Inv, UniqueIds;
    if m.addReturnTo.Some? {
      Positioned(RemoveAt(m.tabs, p), m.addReturnTo.value);
    }
  }

  lemma FirstWithId(tabs: seq<Tab>, p: nat)
    requires p < |tabs| && UniqueIds(tabs)
    ensures PositionOf(tabs, tabs[p].id) == Some(p)
  {
    assert tabs[p] in tabs;
  }

  /** Removing a signed-out account closes its tab exactly when the store removed
      it; its neighbour takes over the selection, and the last tab makes room for
      a new sign-in tab. */
  lemma RemovingIsExact(m: Manager, p: nat, signedOut: bool, removed: Result<bool, Failure>)
    requires Inv(m) && p < |m.tabs|
    ensures var t := m.tabs[p];
            var (n, r) := RemoveSignedOutTab(m, t.id, signedOut, removed);
            if t.account.None? || !signedOut || removed == Ok(false) then (n, r) == (m, Ok(false))
            else if removed.Err? then (n, r) == (m, removed)
            else
              && r == Ok(true) && n.retiring == m.retiring + [t.runtime]
              && if |m.tabs| >= 2 then
                   && OneLess(m.tabs, p, n.tabs)
                   && n.selected == (if m.selected != t.id then m.selected else Neighbour(m.tabs, p))
                   && n == m.(tabs := n.tabs, retiring := n.retiring,
                              selected := n.selected, scheduled := Some(n.selected))
                 else
                   var id := AddTab(m.nextAddId);
                   && n.tabs == [Tab(id, None, m.started)] && n.selected == id && n.scheduled == Some(id)
                   && n.started == m.started + 1 && n.stopped == m.stopped
  {
    FirstWithId(m.tabs, p);
    RemoveAtExact(m.tabs, p);
    assert m.shutdown.None?;
    hide RemoveAt, Inv, UniqueIds;
    var rest := RemoveAt(m.tabs, p);
    if rest == [] {
      assert rest + [Tab(AddTab(m.nextAddId), None, m.started)] == [Tab(AddTab(m.nextAddId), None, m.started)];
    }
  }

  /** Calls that name no tab change nothing and say so. */
  lemma UnknownTabs(m: Manager, id: TabId, key: AccountKey, flag: bool, removed: Result<bool, Failure>)
    requires !HasTab(m.tabs, id)
    ensures SelectTab(m, id, flag) == (m, Ok(false))
    ensures CancelAddAccountTab(m, id, flag) == (m, Ok(false))
    ensures RemoveSignedOutTab(m, id, flag, removed) == (m, Ok(false))
    ensures BindSession(m, id, key, flag).0 == m
  {
    Positioned(m.tabs, id);
  }

  /** A refused sign-in names its cause: another tab that holds the account, or
      the account the tab is bound to already. */
  lemma RefusalsAreNamed(m: Manager, id: TabId, key: AccountKey, storeOk: bool)
    requires Inv(m)
    ensures var r := BindSession(m, id, key, storeOk).1;
            && (r.Ok? && r.value.Duplicate? ==>
                  exists t :: t in m.tabs && t.id == r.value.id && r.value.id != id && t.account == Some(key))
            && (r.Ok? && r.value.IdentityMismatch? ==>
                  && r.value.actual == key
                  && exists t :: t in m.tabs && t.id == id && t.account == Some(r.value.expected))
            && (r.Err? ==> r == Err(StoreUnavailable))
  {
    var p := PositionOf(m.tabs, id);
    assert p.Some? ==> m.tabs[p.value] in m.tabs;
  }

  /** A restore lists the tab that is signing in, if it keeps one, and then the
      saved accounts in their saved order, each with a new runtime. It selects the
      first tab when the saved selection is not among them, and opens a sign-in
      tab when there is none at all. */
  lemma RestoringIsExact(m: Manager, keys: seq<AccountKey>, selectedKey: Option<AccountKey>,
                         addInUse: bool, stopOk: bool)
    requires Inv(m) && m.shutdown.None?
    ensures var (n, r) := RestoreSavedAccounts(m, Ok((keys, selectedKey)), addInUse, stopOk);
            var kept := if addInUse && exists t :: t in m.tabs && t.account.None? then 1 else 0;
            && (r.Ok? <==> stopOk)
            && if kept + |keys| == 0 then
                 && n.tabs == [Tab(AddTab(m.nextAddId), None, m.started)] && n.selected == AddTab(m.nextAddId)
                 && n.nextAddId == SaturatingNext(m.nextAddId)
               else
                 && n.nextAddId == m.nextAddId && Restocked(m, n.tabs, kept, keys)
                 && (selectedKey.None? || selectedKey.value !in keys ==> n.selected == n.tabs[0].id)
  {
    hide Replaced, Inv, Reselected, Restocked;
    SwappedExactly(m, addInUse, keys);
    var r := Replaced(m, addInUse, keys);
    var kept := if addInUse && exists t :: t in m.tabs && t.account.None? then 1 else 0;
    RestockedSize(m, r.tabs, kept, keys);
    ReselectedExactly(r, selectedKey);
    if selectedKey.Some? && selectedKey.value !in keys {
      NotRestocked(m, r.tabs, kept, keys, selectedKey.value);
      NothingBound(r.tabs, selectedKey.value);
    }
  }

  lemma RestockedSize(m: Manager, tabs: seq<Tab>, kept: nat, keys: seq<AccountKey>)
    requires Restocked(m, tabs, kept, keys)
    ensures |tabs| == kept + |keys|
  {
  }

  lemma NotRestocked(m: Manager, tabs: seq<Tab>, kept: nat, keys: seq<AccountKey>, key: AccountKey)
    requires Restocked(m, tabs, kept, keys) && key !in keys
    ensures forall i :: 0 <= i < |tabs| ==> tabs[i].account != Some(key)
  {
  }

  /** The old unbound tab if one is kept, then the saved accounts in order. */
  ghost predicate Restocked(m: Manager, tabs: seq<Tab>, kept: nat, keys: seq<AccountKey>) {
    && |tabs| == kept + |keys|
    && (forall i :: 0 <= i < kept ==> tabs[i] in m.tabs && tabs[i].account.None?)
    && (forall i :: kept <= i < |tabs| ==>
          tabs[i] == Tab(AccountTab(keys[i - kept]), Some(keys[i - kept]), m.started + i - kept))
  }

  lemma SwappedExactly(m: Manager, addInUse: bool, keys: seq<AccountKey>)
    requires Inv(m) && m.shutdown.None?
    ensures var r := Replaced(m, addInUse, keys);
            var kept := if addInUse && exists t :: t in m.tabs && t.account.None? then 1 else 0;
            && r.nextAddId == m.nextAddId && r.started == m.started + |keys| && Restocked(m, r.tabs, kept, keys)
  {
    hide KeptTab, Inv, RemoveAt, Runtimes, Restored, Restocked;
    KeptExactly(m, addInUse);
    var keep := KeptTab(m, addInUse);
    RestockedBy(m, if keep.Some? then [m.tabs[keep.value]] else [], keys);
  }

  lemma RestockedBy(m: Manager, kept: seq<Tab>, keys: seq<AccountKey>)
    requires forall i :: 0 <= i < |kept| ==> kept[i] in m.tabs && kept[i].account.None?
    ensures Restocked(m, kept + Restored(keys, m.started), |kept|, keys)
  {
  }

  lemma ReselectedExactly(m: Manager, key: Option<AccountKey>)
    ensures var n := Reselected(m, key);
            if m.tabs == [] then
              && n.tabs == [Tab(AddTab(m.nextAddId), None, m.started)] && n.selected == AddTab(m.nextAddId)
              && n.nextAddId == SaturatingNext(m.nextAddId)
            else
              && n.tabs == m.tabs && n.nextAddId == m.nextAddId
              && (key.None? || FirstBoundTo(m.tabs, key.value).None? ==> n.selected == m.tabs[0].id)
  {
  }

  lemma KeptExactly(m: Manager, addInUse: bool)
    requires Inv(m) && m.shutdown.None?
    ensures var keep := KeptTab(m, addInUse);
            && (keep.Some? ==> addInUse && m.tabs[keep.value].account.None? && m.tabs[keep.value] in m.tabs)
            && (keep.None? && addInUse ==> forall t :: t in m.tabs ==> t.account.Some?)
  {
    KeptIsUnbound(m, addInUse);
    var p := FirstUnbound(m.tabs);
    if p.Some? {
      FirstWithId(m.tabs, p.value);
    }
  }

  lemma {:induction false} NothingBound(tabs: seq<Tab>, key: AccountKey)
    requires forall i :: 0 <= i < |tabs| ==> tabs[i].account != Some(key)
    ensures FirstBoundTo(tabs, key).None?
  {
    if tabs != [] {
      NothingBound(tabs[1..], key);
    }
  }

  /** The first shutdown stops everything and remembers its result; every later
      one repeats it. A restore is refused from then on. */
  lemma ShutdownIsFinal(m: Manager, ok: bool, again: bool,
                        index: Result<(seq<AccountKey>, Option<AccountKey>), Failure>, flag: bool)
    requires Inv(m)
    ensures var (n, r) := ShutdownAll(m, ok);
            && r == (if m.shutdown.Some? then m.shutdown.value else ok)
            && n.shutdown == Some(r) && n.tabs == [] && n.retiring == [] && n.scheduled == None
            && ShutdownAll(n, again) == (n, r)
            && RestoreSavedAccounts(n, index, flag, flag) == (n, Err(ShutdownFailed))
            && AddAccountTab(n) == (n, Err(ShutdownFailed))
  {
  }
}
