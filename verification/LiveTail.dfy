/** The live-tail refresh coordinator of `live_tail_freshness.rs` as a state
    machine: one network slot shared by unboundedly many timelines, the focused
    timeline preempting the delayed ones.

    The queue's membership set (`delayed_members`) is redundant here and exists
    only in the class `LiveTailCoordinator.Coordinator`, which is proved to
    refine this machine. */
module LiveTail {
  import opened Basics
  import opened CausalProjection

  type Key(==, !new)

  const REFRESH_LIMIT: nat := 128

  datatype Freshness =
    | Unproven(epoch: nat)
    | Refreshing(epoch: nat, generation: nat)
    | Fresh(epoch: nat)
    | Deferred(epoch: nat)
    | Retryable(epoch: nat)

  datatype Action =
    | Start(key: Key, epoch: nat, generation: nat, limit: nat)
    | CancelNetwork(key: Key, generation: nat)

  datatype Running = Running(key: Key, epoch: nat, generation: nat)

  datatype Outcome =
    | Unchanged
    | Advanced(events: nat)
    | Detached(events: nat, historicalGapRemaining: bool)
    | Cancelled
    | Stale
    | Failed

  datatype State = State(
    active: Option<Key>,
    states: map<Key, Freshness>,
    running: Option<Running>,
    delayed: seq<Key>,
    cancelled: Option<Key>,
    generation: nat)

  datatype Effect = Effect(state: State, actions: seq<Action>)

  const INITIAL: State := State(None, map[], None, [], None, 0)

  // ---------------------------------------------------------------- steps --

  predicate KnownEpochIsNewer(s: State, key: Key, epoch: nat) {
    key in s.states && s.states[key].epoch > epoch
  }

  function Clear(cancelled: Option<Key>, key: Key): Option<Key> {
    if cancelled == Some(key) then None else cancelled
  }

  predicate Exhausted(s: State) {
    NextSerial(s.generation).None?
  }

  /** Take the slot for `key`, or park it as retryable when serials ran out. */
  function Begin(s: State, key: Key, epoch: nat): Effect {
    var s := s.(delayed := Without(s.delayed, key), cancelled := Clear(s.cancelled, key));
    match NextSerial(s.generation)
    case None =>
      Effect(s.(states := s.states[key := Retryable(epoch)]), [])
    case Some(g) =>
      Effect(s.(states := s.states[key := Refreshing(epoch, g)],
                running := Some(Running(key, epoch, g)),
                generation := g),
             [Start(key, epoch, g, REFRESH_LIMIT)])
  }

  /** The focused timeline waits for a refresh nobody refused. */
  predicate ActiveIsDue(s: State) {
    && s.active.Some?
    && s.cancelled != s.active
    && s.active.value in s.states
    && s.states[s.active.value].Unproven?
  }

  /** The queue after the skipped key, if first, has been sent to the back. */
  function Rotated(q: seq<Key>, skip: Option<Key>): (r: seq<Key>)
    ensures forall x :: x in r <==> x in q
    ensures NoDup(q) ==> NoDup(r)
  {
    if q != [] && Some(q[0]) == skip then q[1..] + [q[0]] else q
  }

  /** Every delayed key waits in state Deferred and is not the focused one. */
  ghost predicate QueueOk(s: State) {
    && NoDup(s.delayed)
    && forall k :: k in s.delayed ==> k in s.states && s.states[k].Deferred? && s.active != Some(k)
  }

  /** What `schedule_next` amounts to on a well-formed queue: focused timeline
      first, then the oldest delayed key other than `skip`. */
  ghost function Dispatch(s: State, skip: Option<Key>): Effect
    requires QueueOk(s)
  {
    if s.running.Some? then Effect(s, [])
    else if ActiveIsDue(s) && s.active != skip then
      Begin(s, s.active.value, s.states[s.active.value].epoch)
    else
      var q := Rotated(s.delayed, skip);
      if q == [] || Some(q[0]) == skip then Effect(s.(delayed := q), [])
      else Begin(s.(delayed := q[1..]), q[0], s.states[q[0]].epoch)
  }

  /** Cancel whatever runs; a refresh of a still-current epoch is delayed. */
  function Preempt(s: State): Effect {
    if s.running.None? then Effect(s, [])
    else
      var r := s.running.value;
      var stopped := s.(running := None);
      var kept :=
        if r.key in s.states && s.states[r.key].epoch == r.epoch then
          stopped.(states := s.states[r.key := Deferred(r.epoch)],
                   cancelled := Clear(s.cancelled, r.key),
                   delayed := Enqueue(s.delayed, r.key))
        else stopped;
      Effect(kept, [CancelNetwork(r.key, r.generation)])
  }

  /** Cancel a refresh of `key` that another epoch replaces; nothing is delayed. */
  function Fence(s: State, key: Key, epoch: nat): Effect {
    if s.running.Some? && s.running.value.key == key && s.running.value.epoch != epoch then
      Effect(s.(running := None), [CancelNetwork(key, s.running.value.generation)])
    else Effect(s, [])
  }

  predicate Recoverable(f: Freshness) {
    f.Unproven? || f.Deferred? || f.Retryable?
  }

  function DeferIfPending(s: State, key: Key): State {
    if key in s.states && Recoverable(s.states[key]) then
      s.(states := s.states[key := Deferred(s.states[key].epoch)],
         cancelled := Clear(s.cancelled, key),
         delayed := Enqueue(s.delayed, key))
    else s
  }

  /** Focusing `key` at `epoch` needs no new proof. */
  predicate Settled(s: State, key: Key, epoch: nat) {
    && key in s.states
    && s.states[key].epoch == epoch
    && match s.states[key]
       case Unproven(_) | Refreshing(_, _) | Fresh(_) => true
       case Retryable(_) => Exhausted(s)
       case Deferred(_) => false
  }

  function Focus(s: State, key: Key, epoch: nat): State {
    s.(active := Some(key),
       delayed := Without(s.delayed, key),
       cancelled := Clear(s.cancelled, key),
       states := if Settled(s, key, epoch) then s.states else s.states[key := Unproven(epoch)])
  }

  predicate IsUnproven(s: State, key: Key) {
    key in s.states && s.states[key].Unproven?
  }

  predicate RunsOtherThan(running: Option<Running>, key: Key, epoch: nat) {
    running.Some? && (running.value.key != key || running.value.epoch != epoch)
  }

  /** Activation before its final scheduling pass. */
  function ActivatePrefix(s: State, key: Key, epoch: nat): Effect {
    var focused := Focus(s, key, epoch);
    var p := if IsUnproven(focused, key) && RunsOtherThan(focused.running, key, epoch) then Preempt(focused)
             else Effect(focused, []);
    var left := s.active;
    if left.Some? && left.value != key
       && !(p.state.running.Some? && p.state.running.value.key == left.value) then
      p.(state := DeferIfPending(p.state, left.value))
    else p
  }

  function MarkFreshPrefix(s: State, key: Key, epoch: nat): Effect {
    var s1 := s.(states := s.states[key := Fresh(epoch)],
                 delayed := Without(s.delayed, key),
                 cancelled := Clear(s.cancelled, key));
    if s.running.Some? && s.running.value.key == key && s.running.value.epoch <= epoch then
      Effect(s1.(running := None), [CancelNetwork(key, s.running.value.generation)])
    else Effect(s1, [])
  }

  predicate Matches(s: State, key: Key, epoch: nat, generation: nat) {
    s.running == Some(Running(key, epoch, generation))
  }

  function AfterFinish(epoch: nat, outcome: Outcome, isActive: bool): Freshness {
    match outcome
    case Unchanged | Advanced(_) | Detached(_, _) => Fresh(epoch)
    case Cancelled => if isActive then Unproven(epoch) else Deferred(epoch)
    case Stale | Failed => if isActive then Retryable(epoch) else Deferred(epoch)
  }

  function FinishPrefix(s: State, key: Key, epoch: nat, outcome: Outcome): State {
    var isActive := s.active == Some(key);
    s.(running := None,
       states := s.states[key := AfterFinish(epoch, outcome, isActive)],
       delayed := Without(s.delayed, key),
       cancelled := if outcome.Cancelled? && isActive then Some(key) else Clear(s.cancelled, key))
  }

  /** Replace the known epoch of `key`: shared by invalidation and by the
      unproven mark. */
  function Replaced(s: State, key: Key, epoch: nat): Effect {
    var f := Fence(s.(cancelled := Clear(s.cancelled, key)), key, epoch);
    if s.active == Some(key) then
      var p := Preempt(f.state.(states := s.states[key := Unproven(epoch)]));
      Effect(p.state.(delayed := Without(p.state.delayed, key)), f.actions + p.actions)
    else
      Effect(f.state.(states := s.states[key := Deferred(epoch)],
                      delayed := Enqueue(s.delayed, key)), f.actions)
  }

  predicate InvalidateIgnored(s: State, key: Key, epoch: nat) {
    key in s.states && s.states[key].epoch >= epoch
  }

  predicate MarkUnprovenIgnored(s: State, key: Key, epoch: nat) {
    key in s.states &&
    (s.states[key].epoch > epoch
     || (s.states[key].epoch == epoch
         && match s.states[key]
            case Fresh(_) | Refreshing(_, _) => true
            case Retryable(_) => Exhausted(s)
            case _ => false))
  }

  /** One call of the public interface. */
  datatype Op =
    | Activate(key: Key, epoch: nat)
    | MarkUnproven(key: Key, epoch: nat)
    | MarkFresh(key: Key, epoch: nat)
    | Finish(key: Key, epoch: nat, generation: nat, outcome: Outcome)
    | Invalidate(key: Key, epoch: nat)

  /** The call returns at once and changes nothing. */
  predicate Ignored(s: State, op: Op) {
    match op
    case Activate(k, e) => KnownEpochIsNewer(s, k, e)
    case MarkUnproven(k, e) => MarkUnprovenIgnored(s, k, e)
    case MarkFresh(k, e) => KnownEpochIsNewer(s, k, e)
    case Finish(k, e, g, _) => !Matches(s, k, e, g)
    case Invalidate(k, e) => InvalidateIgnored(s, k, e)
  }

  function Prefix(s: State, op: Op): Effect {
    match op
    case Activate(k, e) => ActivatePrefix(s, k, e)
    case MarkUnproven(k, e) => Replaced(s, k, e)
    case MarkFresh(k, e) => MarkFreshPrefix(s, k, e)
    case Finish(k, e, _, o) => Effect(FinishPrefix(s, k, e, o), [])
    case Invalidate(k, e) => Replaced(s, k, e)
  }

  /** The key the final scheduling pass must pass over. */
  function Skip(s: State, op: Op): Option<Key> {
    match op
    case Invalidate(k, _) => if s.active == Some(k) then None else Some(k)
    case MarkUnproven(k, e) =>
      if s.active != Some(k) && Fence(s, k, e).actions != [] then Some(k) else None
    case _ => None
  }

  // ------------------------------------------------------------ invariant --

  ghost predicate OnlySlotRefreshes(s: State) {
    && s.generation <= SERIAL_MAX
    && forall k :: k in s.states && s.states[k].Refreshing? ==> s.running.Some? && s.running.value.key == k
  }

  /** The slot, the freshness map and the counter agree. */
  ghost predicate SlotOk(s: State) {
    && OnlySlotRefreshes(s)
    && (s.running.Some? ==>
          && s.running.value.key in s.states
          && s.states[s.running.value.key] == Refreshing(s.running.value.epoch, s.running.value.generation)
          && s.running.value.generation == s.generation)
  }

  /** Only the focused timeline, or the one being `left`, may be unproven or
      hold the mark of a refused refresh. */
  ghost predicate FocusOkBut(s: State, left: Option<Key>) {
    && (s.active.Some? ==> s.active.value in s.states && !s.states[s.active.value].Deferred?)
    && (s.cancelled.Some? ==> (s.cancelled == s.active || s.cancelled == left) && IsUnproven(s, s.cancelled.value))
    && forall k :: IsUnproven(s, k) ==> s.active == Some(k) || left == Some(k)
  }

  ghost predicate FocusOk(s: State) {
    FocusOkBut(s, None)
  }

  /** What holds just before a scheduling pass. */
  ghost predicate MidInv(s: State) {
    SlotOk(s) && QueueOk(s) && FocusOk(s) && (s.running.Some? ==> !ActiveIsDue(s))
  }

  /** What holds between calls: in addition the focused timeline is never left
      waiting, and an idle coordinator with serials left has at most one
      delayed key. */
  ghost predicate Inv(s: State) {
    && MidInv(s)
    && !ActiveIsDue(s)
    && (s.running.None? && !Exhausted(s) ==> |s.delayed| <= 1)
  }

  /** One call. */
  ghost function Step(s: State, op: Op): Effect
    requires Inv(s)
  {
    if Ignored(s, op) then Effect(s, [])
    else
      PrefixKeepsMidInv(s, op);
      var p := Prefix(s, op);
      var d := Dispatch(p.state, Skip(s, op));
      Effect(d.state, p.actions + d.actions)
  }

  /** Each call leaves a well-formed state for its scheduling pass. */
  lemma PrefixKeepsMidInv(s: State, op: Op)
    requires Inv(s) && !Ignored(s, op)
    ensures MidInv(Prefix(s, op).state)
  {
    WithoutNoDup(s.delayed, op.key);
    match op
    case Activate(k, e) => ActivateKeepsMidInv(s, k, e);
    case MarkUnproven(k, e) => ReplacedKeepsMidInv(s, k, e);
    case MarkFresh(k, e) =>
    case Finish(k, e, _, o) =>
    case Invalidate(k, e) => ReplacedKeepsMidInv(s, k, e);
  }

  /** Preempting is harmless when the running timeline is not the focused one,
      or is the focused one but at a replaced epoch. */
  lemma PreemptKeeps(s: State, left: Option<Key>)
    requires OnlySlotRefreshes(s) && QueueOk(s) && FocusOkBut(s, left)
    requires s.running.Some? ==>
               var r := s.running.value;
               && r.key in s.states
               && if s.active == Some(r.key) then s.states[r.key].Unproven? && s.states[r.key].epoch != r.epoch
                  else s.states[r.key] == Refreshing(r.epoch, r.generation)
    ensures SlotOk(Preempt(s).state) && QueueOk(Preempt(s).state) && FocusOkBut(Preempt(s).state, left)
    ensures Preempt(s).state.running.None?
  {
  }

  lemma DeferKeeps(s: State, left: Key)
    requires SlotOk(s) && QueueOk(s) && FocusOkBut(s, Some(left)) && s.active != Some(left)
    ensures var d := DeferIfPending(s, left); SlotOk(d) && QueueOk(d) && FocusOk(d)
  {
  }

  lemma ActivateKeepsMidInv(s: State, key: Key, epoch: nat)
    requires Inv(s) && !KnownEpochIsNewer(s, key, epoch)
    ensures MidInv(ActivatePrefix(s, key, epoch).state)
  {
    WithoutNoDup(s.delayed, key);
    var f := Focus(s, key, epoch);
    var left := if s.active == Some(key) then None else s.active;
    assert QueueOk(f) && FocusOkBut(f, left);
    if IsUnproven(f, key) && RunsOtherThan(f.running, key, epoch) {
      PreemptKeeps(f, left);
      if left.Some? {
        DeferKeeps(Preempt(f).state, left.value);
      }
    } else if left.Some? {
      DeferKeeps(f, left.value);
    }
  }

  lemma ReplacedKeepsMidInv(s: State, key: Key, epoch: nat)
    requires Inv(s)
    requires key in s.states && s.states[key].Refreshing? ==> s.states[key].epoch != epoch
    ensures MidInv(Replaced(s, key, epoch).state)
  {
    var f := Fence(s.(cancelled := Clear(s.cancelled, key)), key, epoch).state;
    if s.active == Some(key) {
      var u := f.(states := s.states[key := Unproven(epoch)]);
      PreemptKeeps(u, None);
      WithoutNoDup(Preempt(u).state.delayed, key);
    }
  }
}
