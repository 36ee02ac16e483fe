/** The account tab manager of `account_runtime_manager.rs`. Every section under
    the operation gate is one step. The saved-session store, the session state of
    a runtime and the outcome of a runtime's shutdown are parameters. Runtimes
    are numbered as they are started, so that none can be lost unnoticed. */
module AccountTabs {
  import opened Basics

  type AccountKey(==, !new)

  datatype TabId =
    | AddTab(sequence: nat)
    | AccountTab(key: AccountKey)
    | Foreign(text: string)

  datatype Tab = Tab(id: TabId, account: Option<AccountKey>, runtime: nat)

  datatype Failure = ShutdownFailed | StoreUnavailable

  datatype BindOutcome =
    | Bound(id: TabId)
    | Duplicate(id: TabId)
    | IdentityMismatch(expected: AccountKey, actual: AccountKey)

  datatype Manager = Manager(
    tabs: seq<Tab>,
    selected: TabId,
    nextAddId: nat,
    addReturnTo: Option<TabId>,
    retiring: seq<nat>,
    shutdown: Option<bool>,
    /** The account the work scheduler treats as selected. */
    scheduled: Option<TabId>,
    /** Runtimes started so far, and those already stopped. */
    started: nat,
    stopped: seq<nat>)

  const INITIAL: Manager := Manager([Tab(AddTab(1), None, 0)], AddTab(1), 2, None, [], None, Some(AddTab(1)), 1, [])

  // ---------------------------------------------------------------- lookups --

  function PositionOf(tabs: seq<Tab>, id: TabId): (r: Option<nat>)
    ensures r.Some? ==> r.value < |tabs| && tabs[r.value].id == id
    ensures r.None? ==> forall t :: t in tabs ==> t.id != id
  {
    if tabs == [] then None
    else if tabs[0].id == id then Some(0)
    else
      var r := PositionOf(tabs[1..], id);
      assert tabs == [tabs[0]] + tabs[1..];
      if r.Some? then Some(r.value + 1) else None
  }

  function FirstUnbound(tabs: seq<Tab>): (r: Option<nat>)
    ensures r.Some? ==> r.value < |tabs| && tabs[r.value].account.None?
    ensures r.None? ==> forall t :: t in tabs ==> t.account.Some?
  {
    if tabs == [] then None
    else if tabs[0].account.None? then Some(0)
    else
      var r := FirstUnbound(tabs[1..]);
      assert tabs == [tabs[0]] + tabs[1..];
      if r.Some? then Some(r.value + 1) else None
  }

  /** The first tab other than `id` that is bound to `key`. */
  function BoundElsewhere(tabs: seq<Tab>, key: AccountKey, id: TabId): (r: Option<TabId>)
    ensures r.Some? ==> r.value != id && exists t :: t in tabs && t.id == r.value && t.account == Some(key)
    ensures r.None? ==> forall t :: t in tabs && t.account == Some(key) ==> t.id == id
  {
    if tabs == [] then None
    else if tabs[0].account == Some(key) && tabs[0].id != id then
      assert tabs[0] in tabs;
      Some(tabs[0].id)
    else
      assert tabs == [tabs[0]] + tabs[1..];
      BoundElsewhere(tabs[1..], key, id)
  }

  function FirstBoundTo(tabs: seq<Tab>, key: AccountKey): (r: Option<TabId>)
    ensures r.Some? ==> exists t :: t in tabs && t.id == r.value
  {
    if tabs == [] then None
    else if tabs[0].account == Some(key) then
      assert tabs[0] in tabs;
      Some(tabs[0].id)
    else
      assert tabs == [tabs[0]] + tabs[1..];
      FirstBoundTo(tabs[1..], key)
  }

  function RemoveAt<T>(s: seq<T>, p: nat): seq<T>
    requires p < |s|
  {
    s[..p] + s[p + 1..]
  }

  function Runtimes(tabs: seq<Tab>): seq<nat> {
    seq(|tabs|, i requires 0 <= i < |tabs| => tabs[i].runtime)
  }

  function SaturatingNext(n: nat): nat { if n < U64_MAX then n + 1 else n }

  // ------------------------------------------------------------------ steps --

  function SelectNow(m: Manager, id: TabId): Manager {
    m.(selected := id, scheduled := Some(id))
  }

  /** Start a sign-in tab under the next number and select it. */
  function OpenTab(m: Manager): Manager {
    var id := AddTab(m.nextAddId);
    SelectNow(m.(nextAddId := SaturatingNext(m.nextAddId),
                 tabs := m.tabs + [Tab(id, None, m.started)],
                 started := m.started + 1), id)
  }

  function SelectTab(m: Manager, id: TabId, storeOk: bool): (Manager, Result<bool, Failure>) {
    match PositionOf(m.tabs, id)
    case None => (m, Ok(false))
    case Some(p) =>
      if m.tabs[p].account.Some? && !storeOk then (m, Err(StoreUnavailable))
      else (SelectNow(m, id), Ok(true))
  }

  function AddAccountTab(m: Manager): (Manager, Result<TabId, Failure>) {
    if m.shutdown.Some? then (m, Err(ShutdownFailed))
    else
      match FirstUnbound(m.tabs)
      case Some(p) =>
        var id := m.tabs[p].id;
        (SelectNow(m.(addReturnTo := if m.selected != id then Some(m.selected) else m.addReturnTo), id), Ok(id))
      case None => (OpenTab(m.(addReturnTo := Some(m.selected))), Ok(AddTab(m.nextAddId)))
  }

  function CancelAddAccountTab(m: Manager, id: TabId, signedOut: bool): (Manager, Result<bool, Failure>) {
    match PositionOf(m.tabs, id)
    case None => (m, Ok(false))
    case Some(p) =>
      if m.tabs[p].account.Some? || !signedOut || |m.tabs| < 2 then (m, Ok(false))
      else
        var rest := RemoveAt(m.tabs, p);
        var fallback := rest[if p < |rest| then p else |rest| - 1].id;
        var selected :=
          if m.selected != id then m.selected
          else if m.addReturnTo.Some? && PositionOf(rest, m.addReturnTo.value).Some? then m.addReturnTo.value
          else fallback;
        (SelectNow(m.(tabs := rest, addReturnTo := None, retiring := m.retiring + [m.tabs[p].runtime]), selected),
         Ok(true))
  }

  function BindSession(m: Manager, id: TabId, key: AccountKey, storeOk: bool): (Manager, Result<BindOutcome, Failure>) {
    match BoundElsewhere(m.tabs, key, id)
    case Some(other) => (m, Ok(Duplicate(other)))
    case None =>
      match PositionOf(m.tabs, id)
      case None => (m, Err(StoreUnavailable))
      case Some(p) =>
        if m.tabs[p].account.Some? && m.tabs[p].account != Some(key) then
          (m, Ok(IdentityMismatch(m.tabs[p].account.value, key)))
        else if !storeOk then (m, Err(StoreUnavailable))
        else (m.(tabs := m.tabs[p := m.tabs[p].(account := Some(key))]), Ok(Bound(id)))
  }

  /** `removed` is the store's answer: an error, nothing removed, or removed.
      When the last tab goes, a fresh sign-in tab takes its place. */
  function RemoveSignedOutTab(m: Manager, id: TabId, signedOut: bool, removed: Result<bool, Failure>)
    : (Manager, Result<bool, Failure>)
  {
    match PositionOf(m.tabs, id)
    case None => (m, Ok(false))
    case Some(p) =>
      if m.tabs[p].account.None? || !signedOut then (m, Ok(false))
      else
        match removed
        case Err(e) => (m, Err(e))
        case Ok(false) => (m, Ok(false))
        case Ok(true) =>
          var rest := RemoveAt(m.tabs, p);
          var selected :=
            if m.selected == id && rest != [] then rest[if p < |rest| then p else |rest| - 1].id else m.selected;
          var left := SelectNow(m.(tabs := rest, retiring := m.retiring + [m.tabs[p].runtime]), selected);
          if rest != [] then (left, Ok(true))
          else
            var added := AddAccountTab(left);
            match added.1
            case Err(e) => (added.0, Err(e))
            case Ok(_) => (added.0, Ok(true))
  }

  /** Saved tabs, each with a freshly started runtime. */
  function Restored(keys: seq<AccountKey>, firstRuntime: nat): seq<Tab> {
    seq(|keys|, i requires 0 <= i < |keys| => Tab(AccountTab(keys[i]), Some(keys[i]), firstRuntime + i))
  }

  /** The tab that a restore keeps because it is signing in: the unbound tab,
      looked up again by its id. */
  function KeptTab(m: Manager, addInUse: bool): (r: Option<nat>)
    ensures r.Some? ==> r.value < |m.tabs|
  {
    match FirstUnbound(m.tabs)
    case None => None
    case Some(p) => if addInUse then PositionOf(m.tabs, m.tabs[p].id) else None
  }

  /** Old tabs replaced by the saved ones; their runtimes are stopped. */
  function Replaced(m: Manager, addInUse: bool, keys: seq<AccountKey>): Manager {
    var keep := KeptTab(m, addInUse);
    var kept := if keep.Some? then [m.tabs[keep.value]] else [];
    var dropped := if keep.Some? then RemoveAt(m.tabs, keep.value) else m.tabs;
    m.(tabs := kept + Restored(keys, m.started), started := m.started + |keys|,
       stopped := m.stopped + Runtimes(dropped))
  }

  /** Select the saved account's tab, else the first one; never leave no tab. */
  function Reselected(m: Manager, key: Option<AccountKey>): Manager {
    if m.tabs == [] then OpenTab(m)
    else
      var chosen := if key.Some? then FirstBoundTo(m.tabs, key.value) else None;
      SelectNow(m, if chosen.Some? then chosen.value else m.tabs[0].id)
  }

  /** `index` is the loaded saved-session index: its tabs in order and its
      selected account. `addInUse` says whether the unbound tab is signing in. */
  function RestoreSavedAccounts(m: Manager, index: Result<(seq<AccountKey>, Option<AccountKey>), Failure>,
                                addInUse: bool, stopOk: bool): (Manager, Result<(), Failure>) {
    if m.shutdown.Some? then (m, Err(ShutdownFailed))
    else
      match index
      case Err(e) => (m, Err(e))
      case Ok((keys, selectedKey)) =>
        (Reselected(Replaced(m, addInUse, keys), selectedKey), if stopOk then Ok(()) else Err(StoreUnavailable))
  }

  function ShutdownAll(m: Manager, ok: bool): (Manager, bool) {
    if m.shutdown.Some? then (m.(scheduled := None), m.shutdown.value)
    else
      (m.(scheduled := None, shutdown := Some(ok), tabs := [], retiring := [],
          stopped := m.stopped + Runtimes(m.tabs) + m.retiring), ok)
  }

  datatype Op =
    | OpSelect(id: TabId, storeOk: bool)
    | OpAdd
    | OpCancel(id: TabId, signedOut: bool)
    | OpBind(id: TabId, key: AccountKey, storeOk: bool)
    | OpRemove(id: TabId, signedOut: bool, removed: Result<bool, Failure>)
    | OpRestore(index: Result<(seq<AccountKey>, Option<AccountKey>), Failure>, addInUse: bool, stopOk: bool)
    | OpShutdown(ok: bool)

  function Step(m: Manager, op: Op): Manager {
    match op
    case OpSelect(id, storeOk) => SelectTab(m, id, storeOk).0
    case OpAdd => AddAccountTab(m).0
    case OpCancel(id, signedOut) => CancelAddAccountTab(m, id, signedOut).0
    case OpBind(id, key, storeOk) => BindSession(m, id, key, storeOk).0
    case OpRemove(id, signedOut, removed) => RemoveSignedOutTab(m, id, signedOut, removed).0
    case OpRestore(index, addInUse, stopOk) => RestoreSavedAccounts(m, index, addInUse, stopOk).0
    case OpShutdown(ok) => ShutdownAll(m, ok).0
  }

  // -------------------------------------------------------------- invariant --

  ghost predicate HasTab(tabs: seq<Tab>, id: TabId) {
    exists t :: t in tabs && t.id == id
  }

  ghost predicate UniqueIds(tabs: seq<Tab>) {
    forall i, j :: 0 <= i < j < |tabs| ==> tabs[i].id != tabs[j].id
  }

  /** No account has two tabs, and at most one tab is signed in to none. */
  ghost predicate UniqueAccounts(tabs: seq<Tab>) {
    forall i, j :: 0 <= i < j < |tabs| ==> tabs[i].account != tabs[j].account
  }

  /** What the tab list promises at every gate boundary: before shutdown there
      is a tab, the selected id names one and is the scheduler's account, no id
      and no account occurs twice, and at most one tab is unbound; after it
      nothing is left. */
  ghost predicate Consistent(m: Manager) {
    if m.shutdown.Some? then m.tabs == [] && m.retiring == []
    else
      && m.tabs != []
      && HasTab(m.tabs, m.selected) && m.scheduled == Some(m.selected)
      && UniqueIds(m.tabs) && UniqueAccounts(m.tabs)
  }

  /** Where ids come from: a sign-in tab carries a number already handed out,
      which at the end of the counter is the one to be handed out again; a
      restored tab carries its account's own id. */
  ghost predicate IdsExplained(tabs: seq<Tab>, nextAddId: nat) {
    forall t :: t in tabs ==>
      match t.id
      case AddTab(n) => n < nextAddId || n == nextAddId == U64_MAX
      case AccountTab(k) => t.account == Some(k)
      case Foreign(_) => false
  }

  ghost predicate Explained(m: Manager) {
    m.nextAddId <= U64_MAX && IdsExplained(m.tabs, m.nextAddId)
  }

  ghost predicate Inv(m: Manager) {
    Consistent(m) && Explained(m)
  }

  /** The two calls that break the tab list: a new sign-in tab whose number is
      on screen already, and a saved index that lists an account twice. */
  ghost predicate Clashes(m: Manager, op: Op) {
    m.shutdown.None? &&
    match op
    case OpAdd => FirstUnbound(m.tabs).None? && HasTab(m.tabs, AddTab(m.nextAddId))
    case OpRestore(index, _, _) => index.Ok? && !NoDup(index.value.0)
    case _ => false
  }
}
