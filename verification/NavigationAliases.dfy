/** The navigation alias table of `navigation_diagnostics.rs`: a bounded map from
    private identities to numbers, cleared when it would overflow, with a serial
    that survives the clearing. */
module NavigationAliases {
  import opened Basics

  type Identity(==, !new)

  const ALIAS_CAPACITY: nat := 2048

  datatype AliasKey =
    | AccountKey(account: Identity)
    | SpaceKey(owner: Option<Identity>, space: string)
    | RoomKey(owner: Option<Identity>, room: string)

  datatype Table = Table(values: map<AliasKey, nat>, serial: nat)

  const EMPTY := Table(map[], 0)

  // ------------------------------------------------------------------ steps --

  function Reset(t: Table): Table {
    t.(values := map[])
  }

  function NewKeys(t: Table, keys: seq<AliasKey>): set<AliasKey> {
    set k | k in keys && k !in t.values
  }

  function Prepare(t: Table, keys: seq<AliasKey>): Table {
    if |t.values| + |NewKeys(t, keys)| > ALIAS_CAPACITY then Reset(t) else t
  }

  function Alias(t: Table, key: AliasKey): (Table, Option<nat>) {
    if key in t.values then (t, Some(t.values[key]))
    else
      var t := if |t.values| == ALIAS_CAPACITY then Reset(t) else t;
      if t.serial + 1 > U64_MAX then (t, None)
      else (Table(t.values[key := t.serial + 1], t.serial + 1), Some(t.serial + 1))
  }

  datatype Op = OpReset | OpPrepare(keys: seq<AliasKey>) | OpAlias(key: AliasKey)

  function Step(t: Table, op: Op): Table {
    match op
    case OpReset => Reset(t)
    case OpPrepare(keys) => Prepare(t, keys)
    case OpAlias(key) => Alias(t, key).0
  }

  /** Which identity a number has been shown for. */
  datatype Shown = Shown(key: AliasKey, number: nat)

  function Shows(t: Table, op: Op): seq<Shown> {
    if op.OpAlias? && Alias(t, op.key).1.Some? then [Shown(op.key, Alias(t, op.key).1.value)] else []
  }

  function Exec(t: Table, ops: seq<Op>): Table {
    if ops == [] then t else Step(Exec(t, ops[..|ops| - 1]), ops[|ops| - 1])
  }

  /** Everything a run has shown, in order. */
  function History(t: Table, ops: seq<Op>): seq<Shown> {
    if ops == [] then []
    else History(t, ops[..|ops| - 1]) + Shows(Exec(t, ops[..|ops| - 1]), ops[|ops| - 1])
  }

  // -------------------------------------------------------------- invariant --

  /** The table is bounded, its numbers are issued ones, and no number, shown or
      stored, stands for two identities. */
  ghost predicate Inv(t: Table, history: seq<Shown>) {
    && |t.values| <= ALIAS_CAPACITY && t.serial <= U64_MAX
    && (forall k :: k in t.values ==> 0 < t.values[k] <= t.serial && Shown(k, t.values[k]) in history)
    && (forall s :: s in history ==> 0 < s.number <= t.serial)
    && (forall r, s :: r in history && s in history && r.number == s.number ==> r.key == s.key)
  }

  lemma ResetKeepsInv(t: Table, history: seq<Shown>)
    requires Inv(t, history)
    ensures Inv(Reset(t), history)
  {
  }

  /** Issuing the next number. */
  lemma IssueKeepsInv(t: Table, history: seq<Shown>, key: AliasKey)
    requires Inv(t, history) && key !in t.values && |t.values| < ALIAS_CAPACITY && t.serial < U64_MAX
    ensures var n := t.serial + 1;
            Inv(Table(t.values[key := n], n), history + [Shown(key, n)])
  {
  }

  /** Showing a stored number again. */
  lemma RepeatKeepsInv(t: Table, history: seq<Shown>, key: AliasKey)
    requires Inv(t, history) && key in t.values
    ensures Inv(t, history + [Shown(key, t.values[key])])
  {
  }

  lemma SizeBound(t: Table, history: seq<Shown>)
    requires Inv(t, history)
    ensures |t.values| <= ALIAS_CAPACITY && t.serial <= U64_MAX
  {
  }

  lemma StepKeepsInv(t: Table, history: seq<Shown>, op: Op)
    requires Inv(t, history)
    ensures Inv(Step(t, op), history + Shows(t, op))
  {
    hide Inv;
    ResetKeepsInv(t, history);
    assert history + [] == history;
    SizeBound(t, history);
    if op.OpAlias? {
      if op.key in t.values {
        RepeatKeepsInv(t, history, op.key);
      } else {
        var u := if |t.values| == ALIAS_CAPACITY then Reset(t) else t;
        if u.serial < U64_MAX {
          IssueKeepsInv(u, history, op.key);
        }
      }
    }
  }

  /** Over any run, resets included, the table never exceeds its capacity and a
      number is never shown for two different identities. */
  lemma {:induction false} NumbersAreNeverReassigned(ops: seq<Op>)
    ensures Inv(Exec(EMPTY, ops), History(EMPTY, ops))
    ensures |Exec(EMPTY, ops).values| <= 2048
    ensures forall r, s :: r in History(EMPTY, ops) && s in History(EMPTY, ops) && r.number == s.number ==>
              r.key == s.key
  {
    if ops != [] {
      NumbersAreNeverReassigned(ops[..|ops| - 1]);
      StepKeepsInv(Exec(EMPTY, ops[..|ops| - 1]), History(EMPTY, ops[..|ops| - 1]), ops[|ops| - 1]);
    }
  }

  /** A known identity keeps its number; a new one gets the next serial while
      there is one, and empties the table first exactly when it is full. */
  lemma AliasExact(t: Table, key: AliasKey)
    requires t.serial <= U64_MAX
    ensures var (u, n) := Alias(t, key);
            if key in t.values then u == t && n == Some(t.values[key])
            else
              var kept := if |t.values| == 2048 then map[] else t.values;
              if t.serial == U64_MAX then u == Table(kept, t.serial) && n.None?
              else u == Table(kept[key := t.serial + 1], t.serial + 1) && n == Some(t.serial + 1)
  {
  }

  /** Preparing empties the table exactly when the record would not fit into it,
      and never gives up serials. */
  lemma PrepareExact(t: Table, keys: seq<AliasKey>)
    ensures Prepare(t, keys)
         == if |t.values.Keys + ToSet(keys)| <= 2048 then t else Table(map[], t.serial)
  {
    var added := NewKeys(t, keys);
    assert t.values.Keys + ToSet(keys) == t.values.Keys + added;
    assert |t.values.Keys + added| == |t.values.Keys| + |added|;
  }

  // ------------------------------------------------------------- one record --

  datatype Capture = Capture(account: Option<Identity>, space: Option<string>, room: Option<string>)

  /** The key of one cell: column 0 is the account, 1 the space, 2 the room. */
  function CellKey(c: Capture, column: nat): Option<AliasKey> {
    if column == 0 then (if c.account.Some? then Some(AccountKey(c.account.value)) else None)
    else if column == 1 then (if c.space.Some? then Some(SpaceKey(c.account, c.space.value)) else None)
    else if c.room.Some? then Some(RoomKey(c.account, c.room.value)) else None
  }

  function Keys(c: Capture): seq<AliasKey> {
    OneKey(c, 0) + OneKey(c, 1) + OneKey(c, 2)
  }

  function OneKey(c: Capture, column: nat): seq<AliasKey> {
    if CellKey(c, column).Some? then [CellKey(c, column).value] else []
  }

  /** Every key still to be shown fits beside what the table holds. */
  ghost predicate Room(t: Table, keys: set<AliasKey>) {
    |t.values.Keys + keys| <= ALIAS_CAPACITY
  }

  lemma {:induction false} FewKeys(keys: seq<AliasKey>)
    ensures |ToSet(keys)| <= |keys|
  {
    if keys != [] {
      FewKeys(keys[1..]);
      assert ToSet(keys) == {keys[0]} + ToSet(keys[1..]);
    }
  }

  /** Preparing makes room for the whole record. */
  lemma PrepareMakesRoom(t: Table, keys: seq<AliasKey>)
    requires |keys| <= ALIAS_CAPACITY
    ensures Room(Prepare(t, keys), ToSet(keys))
  {
    FewKeys(keys);
    var added := NewKeys(t, keys);
    assert t.values.Keys + ToSet(keys) == t.values.Keys + added;
    assert |t.values.Keys + added| == |t.values.Keys| + |added|;
    assert Reset(t).values.Keys + ToSet(keys) == ToSet(keys);
    hide ToSet, NewKeys;
  }

  /** While there is room, showing a key never resets: what the table holds
      stays, and at most that key is added. */
  lemma AliasWithRoom(t: Table, keys: set<AliasKey>, key: AliasKey)
    requires key in keys && Room(t, keys)
    ensures var (u, n) := Alias(t, key);
            && Room(u, keys) && Grown(t, u)
            && (n.Some? ==> key in u.values && u.values[key] == n.value)
            && (n.None? ==> key !in u.values && u.serial == t.serial && t.serial >= U64_MAX)
  {
    if key !in t.values {
      assert t.values.Keys + {key} <= t.values.Keys + keys;
      SubsetSize(t.values.Keys + {key}, t.values.Keys + keys);
      assert |t.values.Keys + {key}| == |t.values| + 1;
      var u := Alias(t, key).0;
      assert t.serial + 1 <= U64_MAX ==> u.values.Keys == t.values.Keys + {key};
      assert u.values.Keys + keys == t.values.Keys + keys;
    }
  }

  /** The cell shows what the table holds for its identity; it is empty only
      when there is none or the serial is used up. */
  predicate CellFilled(t: Table, capture: Capture, column: nat, cell: Option<nat>) {
    var key := CellKey(capture, column);
    if cell.Some? then key.Some? && key.value in t.values && t.values[key.value] == cell.value
    else key.None? || t.serial >= U64_MAX
  }

  predicate RowFilled(t: Table, capture: Capture, row: seq<Option<nat>>) {
    && |row| == 3
    && CellFilled(t, capture, 0, row[0]) && CellFilled(t, capture, 1, row[1]) && CellFilled(t, capture, 2, row[2])
  }

  /** Nothing was lost from `t` to `u`. */
  ghost predicate Grown(t: Table, u: Table) {
    t.serial <= u.serial && forall k :: k in t.values ==> k in u.values && u.values[k] == t.values[k]
  }

  /** The capture has an identity for the column: its account, space or room. */
  predicate Present(c: Capture, column: nat) {
    if column == 0 then c.account.Some? else if column == 1 then c.space.Some? else c.room.Some?
  }

  /** The cells stand for the same account, for the same space of the same account,
      or for the same room of the same account. */
  predicate SameIdentity(a: Capture, c: nat, b: Capture, d: nat) {
    && c == d && a.account == b.account
    && (c == 1 ==> a.space == b.space)
    && (c == 2 ==> a.room == b.room)
  }

  lemma CellKeysExact(a: Capture, c: nat, b: Capture, d: nat)
    requires c < 3 && d < 3
    ensures CellKey(a, c).Some? <==> Present(a, c)
    ensures Present(a, c) && Present(b, d) ==> (CellKey(a, c) == CellKey(b, d) <==> SameIdentity(a, c, b, d))
  {
  }

  /** Two filled cells carry the same number exactly when they stand for the
      same identity. */
  predicate CellsAgree(a: Capture, c: nat, x: Option<nat>, b: Capture, d: nat, y: Option<nat>) {
    x.Some? && y.Some? ==> Present(a, c) && Present(b, d) && (x == y <==> SameIdentity(a, c, b, d))
  }

  /** A filled cell was shown for its identity. */
  ghost predicate CellShown(history: seq<Shown>, capture: Capture, column: nat, cell: Option<nat>) {
    cell.Some? ==> CellKey(capture, column).Some? && Shown(CellKey(capture, column).value, cell.value) in history
  }

  ghost predicate AllFilled(t: Table, captures: seq<Capture>, rows: seq<seq<Option<nat>>>) {
    |rows| <= |captures| && forall i :: 0 <= i < |rows| ==> RowFilled(t, captures[i], rows[i])
  }

  lemma AllStayFilled(t: Table, u: Table, captures: seq<Capture>, rows: seq<seq<Option<nat>>>)
    requires AllFilled(t, captures, rows) && Grown(t, u)
    ensures AllFilled(u, captures, rows)
  {
  }

  /** One record's cells, taken together. */
  lemma RecordIsConsistent(t: Table, history: seq<Shown>, captures: seq<Capture>, rows: seq<seq<Option<nat>>>)
    requires Inv(t, history) && |captures| == 3 && |rows| == 3 && AllFilled(t, captures, rows)
    ensures forall i :: 0 <= i < 3 ==> |rows[i]| == 3
    ensures forall i, c :: 0 <= i < 3 && 0 <= c < 3 && rows[i][c].None? ==>
              !Present(captures[i], c) || t.serial == U64_MAX
    ensures forall i, c :: 0 <= i < 3 && 0 <= c < 3 ==> CellShown(history, captures[i], c, rows[i][c])
    ensures forall i, c, j, d :: 0 <= i < 3 && 0 <= c < 3 && 0 <= j < 3 && 0 <= d < 3 ==>
              CellsAgree(captures[i], c, rows[i][c], captures[j], d, rows[j][d])
  {
    hide Inv, CellKey, Present, SameIdentity, CellsAgree, CellShown, CellFilled;
    forall i, c | 0 <= i < 3 && 0 <= c < 3
      ensures |rows[i]| == 3 && CellFilled(t, captures[i], c, rows[i][c])
    {
      assert RowFilled(t, captures[i], rows[i]);
      assert c == 0 || c == 1 || c == 2;
    }
    forall i, c | 0 <= i < 3 && 0 <= c < 3
      ensures rows[i][c].None? ==> !Present(captures[i], c) || t.serial == U64_MAX
      ensures CellShown(history, captures[i], c, rows[i][c])
    {
      FilledIsShown(t, history, captures[i], c, rows[i][c]);
    }
    forall i, c, j, d | 0 <= i < 3 && 0 <= c < 3 && 0 <= j < 3 && 0 <= d < 3
      ensures CellsAgree(captures[i], c, rows[i][c], captures[j], d, rows[j][d])
    {
      FilledAgree(t, history, captures[i], c, rows[i][c], captures[j], d, rows[j][d]);
    }
  }

  lemma FilledIsShown(t: Table, history: seq<Shown>, a: Capture, c: nat, x: Option<nat>)
    requires Inv(t, history) && c < 3 && CellFilled(t, a, c, x)
    ensures x.None? ==> !Present(a, c) || t.serial == U64_MAX
    ensures CellShown(history, a, c, x)
  {
    CellKeysExact(a, c, a, c);
  }

  lemma FilledAgree(t: Table, history: seq<Shown>, a: Capture, c: nat, x: Option<nat>,
                    b: Capture, d: nat, y: Option<nat>)
    requires Inv(t, history) && c < 3 && d < 3 && CellFilled(t, a, c, x) && CellFilled(t, b, d, y)
    ensures CellsAgree(a, c, x, b, d, y)
  {
    hide CellKey, Present, SameIdentity;
    CellKeysExact(a, c, b, d);
    CellKeysExact(b, d, a, c);
  }

  lemma CaptureWanted(captures: seq<Capture>, i: nat)
    requires |captures| == 3 && i < 3
    ensures forall c :: 0 <= c < 3 && CellKey(captures[i], c).Some? ==>
              CellKey(captures[i], c).value in ToSet(AllKeys(captures))
  {
  }

  lemma AllKeysFew(captures: seq<Capture>)
    requires |captures| == 3
    ensures |AllKeys(captures)| <= ALIAS_CAPACITY
  {
  }

  // -------------------------------------------------------- runs of records --

  function ShowCell(t: Table, capture: Capture, column: nat): (Table, Option<nat>) {
    match CellKey(capture, column)
    case None => (t, None)
    case Some(key) => Alias(t, key)
  }

  function ShowRow(t: Table, capture: Capture): (Table, seq<Option<nat>>) {
    var account := ShowCell(t, capture, 0);
    var space := ShowCell(account.0, capture, 1);
    var room := ShowCell(space.0, capture, 2);
    (room.0, [account.1, space.1, room.1])
  }

  function ShowRows(t: Table, captures: seq<Capture>): (Table, seq<seq<Option<nat>>>) {
    if captures == [] then (t, [])
    else
      var n := |captures| - 1;
      var before := ShowRows(t, captures[..n]);
      var last := ShowRow(before.0, captures[n]);
      (last.0, before.1 + [last.1])
  }

  function AllKeys(captures: seq<Capture>): seq<AliasKey>
    requires |captures| == 3
  {
    Keys(captures[0]) + Keys(captures[1]) + Keys(captures[2])
  }

  /** One record: the aliases of its three captures, made room for first. */
  function Emit(t: Table, captures: seq<Capture>, reset: bool): (Table, seq<seq<Option<nat>>>)
    requires |captures| == 3
  {
    ShowRows(Prepare(if reset then Reset(t) else t, AllKeys(captures)), captures)
  }

  datatype Record = Record(before: Capture, requested: Capture, after: Capture, reset: bool)

  function Captures(r: Record): seq<Capture> {
    [r.before, r.requested, r.after]
  }

  /** The cells of every record of a run, in order. */
  function EmitAll(t: Table, records: seq<Record>): (Table, seq<seq<seq<Option<nat>>>>) {
    if records == [] then (t, [])
    else
      var n := |records| - 1;
      var before := EmitAll(t, records[..n]);
      var last := Emit(before.0, Captures(records[n]), records[n].reset);
      (last.0, before.1 + [last.1])
  }

  ghost predicate RowsShown(history: seq<Shown>, captures: seq<Capture>, rows: seq<seq<Option<nat>>>) {
    && |rows| == |captures|
    && forall i :: 0 <= i < |rows| ==> RowShown(history, captures[i], rows[i])
  }

  ghost predicate RowShown(history: seq<Shown>, capture: Capture, row: seq<Option<nat>>) {
    |row| == 3 && forall c :: 0 <= c < 3 ==> CellShown(history, capture, c, row[c])
  }

  lemma ShowCellShown(t: Table, history: seq<Shown>, capture: Capture, column: nat) returns (more: seq<Shown>)
    requires Inv(t, history)
    ensures var (u, cell) := ShowCell(t, capture, column);
            Inv(u, history + more) && CellShown(history + more, capture, column, cell)
  {
    var key := CellKey(capture, column);
    more := [];
    assert history + [] == history;
    if key.Some? {
      more := Shows(t, OpAlias(key.value));
      StepKeepsInv(t, history, OpAlias(key.value));
    }
  }

  lemma ShowRowShown(t: Table, history: seq<Shown>, capture: Capture) returns (more: seq<Shown>)
    requires Inv(t, history)
    ensures var (u, row) := ShowRow(t, capture);
            Inv(u, history + more) && RowShown(history + more, capture, row)
  {
    hide Inv, ShowCell, CellKey;
    var account := ShowCell(t, capture, 0);
    var space := ShowCell(account.0, capture, 1);
    var a := ShowCellShown(t, history, capture, 0);
    var b := ShowCellShown(account.0, history + a, capture, 1);
    var c := ShowCellShown(space.0, history + a + b, capture, 2);
    more := a + b + c;
    assert history + more == history + a + b + c;
  }

  lemma {:induction false} ShowRowsShown(t: Table, history: seq<Shown>, captures: seq<Capture>)
    returns (more: seq<Shown>)
    requires Inv(t, history)
    ensures var (u, rows) := ShowRows(t, captures);
            Inv(u, history + more) && RowsShown(history + more, captures, rows)
    decreases |captures|
  {
    hide Inv, ShowRow, CellShown;
    if captures == [] {
      more := [];
      assert history + [] == history;
    } else {
      var n := |captures| - 1;
      var a := ShowRowsShown(t, history, captures[..n]);
      var b := ShowRowShown(ShowRows(t, captures[..n]).0, history + a, captures[n]);
      more := a + b;
      assert history + more == history + a + b;
      RowsStayShown(history + a, b, captures[..n], ShowRows(t, captures[..n]).1);
    }
  }

  lemma RowsStayShown(history: seq<Shown>, more: seq<Shown>, captures: seq<Capture>, rows: seq<seq<Option<nat>>>)
    requires RowsShown(history, captures, rows)
    ensures RowsShown(history + more, captures, rows)
  {
    hide CellKey;
  }

  ghost predicate RecordsShown(history: seq<Shown>, records: seq<Record>, out: seq<seq<seq<Option<nat>>>>) {
    && |out| == |records|
    && forall i :: 0 <= i < |out| ==> RowsShown(history, Captures(records[i]), out[i])
  }

  lemma {:induction false} EmitAllShown(t: Table, history: seq<Shown>, records: seq<Record>) returns (more: seq<Shown>)
    requires Inv(t, history)
    ensures var (u, out) := EmitAll(t, records);
            Inv(u, history + more) && RecordsShown(history + more, records, out)
    decreases |records|
  {
    hide Inv, ShowRows, RowsShown, AllKeys, Prepare, Captures;
    if records == [] {
      more := [];
      assert history + [] == history;
    } else {
      var n := |records| - 1;
      var a := EmitAllShown(t, history, records[..n]);
      var u, captures := EmitAll(t, records[..n]).0, Captures(records[n]);
      assert |captures| == 3 by { ThreeCaptures(records[n]); }
      var v := if records[n].reset then Reset(u) else u;
      PreparedInv(u, history + a, records[n].reset, AllKeys(captures));
      var b := ShowRowsShown(Prepare(v, AllKeys(captures)), history + a, captures);
      more := a + b;
      assert history + more == history + a + b;
      forall i | 0 <= i < n ensures RowsShown(history + more, Captures(records[i]), EmitAll(t, records[..n]).1[i]) {
        RowsStayShown(history + a, b, Captures(records[..n][i]), EmitAll(t, records[..n]).1[i]);
      }
    }
  }

  lemma ThreeCaptures(r: Record)
    ensures |Captures(r)| == 3
  {
  }

  lemma PreparedInv(t: Table, history: seq<Shown>, reset: bool, keys: seq<AliasKey>)
    requires Inv(t, history)
    ensures Inv(Prepare(if reset then Reset(t) else t, keys), history)
  {
    ResetKeepsInv(t, history);
    ResetKeepsInv(Reset(t), history);
  }

  /** Over any run of records from the empty table, resets on demand and for lack
      of room included: wherever two cells of any two records carry the same
      number, they stand for the same identity. */
  lemma RecordsShareNoNumber(records: seq<Record>, i: nat, a: nat, c: nat, j: nat, b: nat, d: nat)
    requires i < |records| && j < |records| && a < 3 && b < 3 && c < 3 && d < 3
    ensures var out := EmitAll(EMPTY, records).1;
            && |out| == |records| && |out[i]| == |out[j]| == 3 && |out[i][a]| == |out[j][b]| == 3
            && (out[i][a][c].Some? && out[i][a][c] == out[j][b][d] ==>
                  SameIdentity(Captures(records[i])[a], c, Captures(records[j])[b], d))
  {
    var more := EmitAllShown(EMPTY, [], records);
    var out := EmitAll(EMPTY, records).1;
    hide EmitAll, CellKey;
    assert RowsShown([] + more, Captures(records[i]), out[i]) && RowsShown([] + more, Captures(records[j]), out[j]);
    assert RowShown([] + more, Captures(records[i])[a], out[i][a]);
    assert RowShown([] + more, Captures(records[j])[b], out[j][b]);
    CellKeysExact(Captures(records[i])[a], c, Captures(records[j])[b], d);
    CellKeysExact(Captures(records[j])[b], d, Captures(records[i])[a], c);
  }

  /** The process-wide table and its use by one diagnostic record. */
  class Aliases {
    var values: map<AliasKey, nat>
    var serial: nat
    ghost var history: seq<Shown>

    ghost function View(): Table
      reads this
    {
      Table(values, serial)
    }

    ghost predicate Valid()
      reads this
    {
      Inv(View(), history)
    }

    constructor ()
      ensures Valid() && View() == EMPTY && history == []
    {
      values, serial, history := map[], 0, [];
    }

    method ResetTable()
      requires Valid()
      modifies this
      ensures Valid() && View() == Reset(old(View())) && history == old(history)
    {
      hide Inv;
      ResetKeepsInv(View(), history);
      values := map[];
    }

    method PrepareFor(keys: seq<AliasKey>)
      requires Valid()
      modifies this
      ensures Valid() && View() == Prepare(old(View()), keys) && history == old(history)
    {
      hide Inv;
      var additional := |set k | k in keys && k !in values|;
      if |values| + additional > ALIAS_CAPACITY {
        ResetTable();
      }
    }

    method AliasOf(key: AliasKey) returns (number: Option<nat>)
      requires Valid()
      modifies this
      ensures Valid() && (View(), number) == Alias(old(View()), key)
      ensures history == old(history) + Shows(old(View()), OpAlias(key))
    {
      hide Inv;
      StepKeepsInv(View(), history, OpAlias(key));
      history := history + Shows(View(), OpAlias(key));
      if key in values {
        return Some(values[key]);
      }
      if |values| == ALIAS_CAPACITY {
        values := map[];
      }
      if serial + 1 > U64_MAX {
        return None;
      }
      serial := serial + 1;
      values := values[key := serial];
      number := Some(serial);
    }

    /** The aliases of one record, a row per capture. A cell is empty only when
        its identity is absent or the serial is used up; two filled cells carry
        the same number exactly when they stand for the same identity. */
    method EmitRecord(captures: seq<Capture>, reset: bool) returns (rows: seq<seq<Option<nat>>>)
      requires Valid() && |captures| == 3
      modifies this
      ensures Valid() && |rows| == 3 && (forall i :: 0 <= i < 3 ==> |rows[i]| == 3)
      ensures (View(), rows) == Emit(old(View()), captures, reset) && old(history) <= history
      ensures forall i, c :: 0 <= i < 3 && 0 <= c < 3 && rows[i][c].None? ==>
                !Present(captures[i], c) || serial == U64_MAX
      ensures forall i, c :: 0 <= i < 3 && 0 <= c < 3 ==> CellShown(history, captures[i], c, rows[i][c])
      ensures forall i, c, j, d :: 0 <= i < 3 && 0 <= c < 3 && 0 <= j < 3 && 0 <= d < 3 ==>
                CellsAgree(captures[i], c, rows[i][c], captures[j], d, rows[j][d])
    {
      hide Inv, CellKey, CellsAgree, CellShown, Present, RowFilled, ShowRows, AllKeys, Prepare;
      if reset {
        ResetTable();
      }
      rows := FillRows(captures);
      RecordIsConsistent(View(), history, captures, rows);
    }

    /** Make room for the whole record first, then show its identities. */
    method FillRows(captures: seq<Capture>) returns (rows: seq<seq<Option<nat>>>)
      requires Valid() && |captures| == 3
      modifies this
      ensures Valid() && |rows| == 3 && old(history) <= history && AllFilled(View(), captures, rows)
      ensures (View(), rows) == ShowRows(Prepare(old(View()), AllKeys(captures)), captures)
    {
      hide Inv, CellKey, Room, Prepare, RowFilled, Grown, ShowRow, AllKeys;
      var keys := AllKeys(captures);
      AllKeysFew(captures);
      PrepareMakesRoom(View(), keys);
      PrepareFor(keys);
      ghost var start := View();
      ghost var wanted := ToSet(keys);
      rows := [];
      for i := 0 to 3
        invariant |rows| == i && Valid() && Room(View(), wanted) && old(history) <= history
        invariant AllFilled(View(), captures, rows) && (View(), rows) == ShowRows(start, captures[..i])
      {
        assert captures[..i + 1][..i] == captures[..i];
        CaptureWanted(captures, i);
        ghost var before := View();
        var row := FillRow(captures[i], wanted);
        AllStayFilled(before, View(), captures, rows);
        rows := rows + [row];
      }
      assert captures[..3] == captures;
    }

    method FillCell(capture: Capture, column: nat, ghost wanted: set<AliasKey>) returns (cell: Option<nat>)
      requires Valid() && Room(View(), wanted)
      requires CellKey(capture, column).Some? ==> CellKey(capture, column).value in wanted
      modifies this
      ensures Valid() && Room(View(), wanted) && old(history) <= history
      ensures Grown(old(View()), View()) && CellFilled(View(), capture, column, cell)
      ensures (View(), cell) == ShowCell(old(View()), capture, column)
    {
      var key := CellKey(capture, column);
      if key.None? {
        return None;
      }
      AliasWithRoom(View(), wanted, key.value);
      hide Inv, Room, CellKey;
      cell := AliasOf(key.value);
    }

    method FillRow(capture: Capture, ghost wanted: set<AliasKey>) returns (row: seq<Option<nat>>)
      requires Valid() && Room(View(), wanted)
      requires forall c :: 0 <= c < 3 && CellKey(capture, c).Some? ==> CellKey(capture, c).value in wanted
      modifies this
      ensures Valid() && Room(View(), wanted) && old(history) <= history
      ensures Grown(old(View()), View()) && RowFilled(View(), capture, row)
      ensures (View(), row) == ShowRow(old(View()), capture)
    {
      hide Inv, Room, CellKey, ShowCell;
      var account := FillCell(capture, 0, wanted);
      var space := FillCell(capture, 1, wanted);
      var room := FillCell(capture, 2, wanted);
      row := [account, space, room];
    }
  }
}
