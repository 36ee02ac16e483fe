/** Whole runs of the live-tail coordinator: what a network observer that only
    sees the emitted actions and the accepted completions can rely on. */
module LiveTailRuns {
  import opened Basics
  import opened CausalProjection
  import opened LiveTail

  // ------------------------------------------------------- one transition --

  /** Starting a waiting key keeps the invariant; the slot stays free only
      when serials ran out. */
  lemma BeginKeepsInv(s: State, key: Key)
    requires SlotOk(s) && QueueOk(s) && FocusOk(s) && s.running.None?
    requires key in s.states && key !in s.delayed && !s.states[key].Refreshing?
    requires ActiveIsDue(s) ==> s.active == Some(key)
    requires s.cancelled != Some(key)
    ensures Inv(Begin(s, key, s.states[key].epoch).state)
  {
    WithoutAbsent(s.delayed, key);
    var b := Begin(s, key, s.states[key].epoch).state;
    assert QueueOk(b);
    assert SlotOk(b);
  }

  /** The scheduling pass restores the full invariant. */
  lemma DispatchKeepsInv(s: State, skip: Option<Key>)
    requires MidInv(s) && (skip.Some? ==> skip != s.active)
    ensures Inv(Dispatch(s, skip).state)
  {
    if s.running.None? {
      if ActiveIsDue(s) {
        BeginKeepsInv(s, s.active.value);
      } else {
        var q := Rotated(s.delayed, skip);
        if q != [] && Some(q[0]) != skip {
          assert q[0] in s.delayed;
          BeginKeepsInv(s.(delayed := q[1..]), q[0]);
        }
      }
    }
  }

  lemma StepKeepsInv(s: State, op: Op)
    requires Inv(s)
    ensures Inv(Step(s, op).state)
  {
    if !Ignored(s, op) {
      PrefixKeepsMidInv(s, op);
      DispatchKeepsInv(Prefix(s, op).state, Skip(s, op));
    }
  }

  // ------------------------------------------------------- observable log --

  datatype Event =
    | Emitted(action: Action)
    | Completed(key: Key, generation: nat)

  function Emit(actions: seq<Action>): seq<Event> {
    seq(|actions|, i requires 0 <= i < |actions| => Emitted(actions[i]))
  }

  /** The events of one call: an accepted completion, then the actions. */
  ghost function Log(s: State, op: Op): seq<Event>
    requires Inv(s)
  {
    (if op.Finish? && !Ignored(s, op) then [Completed(op.key, op.generation)] else [])
    + Emit(Step(s, op).actions)
  }

  /** The network as an observer reconstructs it from the log alone. */
  datatype Wire = Idle | Busy(key: Key, generation: nat) | Broken

  function Observe(w: Wire, e: Event): Wire {
    match e
    case Emitted(Start(k, _, g, _)) => if w.Idle? then Busy(k, g) else Broken
    case Emitted(CancelNetwork(k, g)) => if w == Busy(k, g) then Idle else Broken
    case Completed(k, g) => if w == Busy(k, g) then Idle else Broken
  }

  function Replay(w: Wire, log: seq<Event>): Wire {
    if log == [] then w else Observe(Replay(w, log[..|log| - 1]), log[|log| - 1])
  }

  function Slot(s: State): Wire {
    if s.running.Some? then Busy(s.running.value.key, s.running.value.generation) else Idle
  }

  /** The generations of the refreshes a log starts, in order. */
  function Starts(log: seq<Event>): seq<nat> {
    if log == [] then []
    else
      var e := log[|log| - 1];
      Starts(log[..|log| - 1])
      + (if e.Emitted? && e.action.Start? then [e.action.generation] else [])
  }

  lemma {:induction false} ReplayConcat(w: Wire, a: seq<Event>, b: seq<Event>)
    ensures Replay(w, a + b) == Replay(Replay(w, a), b)
    ensures Starts(a + b) == Starts(a) + Starts(b)
  {
    hide Observe, Starts;
    StartsConcat(a, b);
    if b == [] {
      assert a + b == a;
    } else {
      var n := |b| - 1;
      ReplayConcat(w, a, b[..n]);
      assert (a + b)[..|a| + n] == a + b[..n];
      assert (a + b)[|a| + n] == b[n];
    }
  }

  lemma {:induction false} StartsConcat(a: seq<Event>, b: seq<Event>)
    ensures Starts(a + b) == Starts(a) + Starts(b)
  {
    if b == [] {
      assert a + b == a;
    } else {
      var n := |b| - 1;
      StartsConcat(a, b[..n]);
      assert (a + b)[..|a| + n] == a + b[..n];
      assert (a + b)[|a| + n] == b[n];
    }
  }

  /** The events before the scheduling pass close the slot, if it closes. */
  ghost function ClosingLog(s: State, op: Op): seq<Event> {
    if Ignored(s, op) then []
    else (if op.Finish? then [Completed(op.key, op.generation)] else []) + Emit(Prefix(s, op).actions)
  }

  lemma ReplayShort(w: Wire, log: seq<Event>)
    requires |log| <= 1
    ensures Replay(w, log) == if log == [] then w else Observe(w, log[0])
    ensures Starts(log) == if log != [] && log[0].Emitted? && log[0].action.Start?
                           then [log[0].action.generation] else []
  {
  }

  /** How a call may close the slot: not at all, or by cancelling its occupant. */
  ghost predicate ClosesBy(s: State, p: Effect) {
    if p.state.running == s.running then p.actions == []
    else && p.state.running.None? && s.running.Some?
         && p.actions == [CancelNetwork(s.running.value.key, s.running.value.generation)]
  }

  lemma ActivateCloses(s: State, key: Key, epoch: nat)
    ensures ClosesBy(s, ActivatePrefix(s, key, epoch)) && ActivatePrefix(s, key, epoch).state.generation == s.generation
  {
  }

  lemma ReplacedCloses(s: State, key: Key, epoch: nat)
    ensures ClosesBy(s, Replaced(s, key, epoch)) && Replaced(s, key, epoch).state.generation == s.generation
  {
  }

  lemma ClosingLogShape(s: State, op: Op)
    requires Inv(s) && !Ignored(s, op)
    ensures var p := Prefix(s, op).state;
            && p.generation == s.generation
            && if p.running == s.running then ClosingLog(s, op) == []
               else && p.running.None? && s.running.Some?
                    && var r := s.running.value;
                       ClosingLog(s, op) == [if op.Finish? then Completed(r.key, r.generation)
                                             else Emitted(CancelNetwork(r.key, r.generation))]
  {
    match op
    case Activate(k, e) => ActivateCloses(s, k, e);
    case MarkUnproven(k, e) => ReplacedCloses(s, k, e);
    case MarkFresh(k, e) =>
    case Finish(k, e, _, o) =>
    case Invalidate(k, e) => ReplacedCloses(s, k, e);
  }

  lemma ClosingLogExplained(s: State, op: Op)
    requires Inv(s) && !Ignored(s, op)
    ensures var p := Prefix(s, op).state;
            && p.generation == s.generation
            && Replay(Slot(s), ClosingLog(s, op)) == Slot(p)
            && Starts(ClosingLog(s, op)) == []
  {
    ClosingLogShape(s, op);
    hide ClosingLog, Prefix, Inv;
    ReplayShort(Slot(s), ClosingLog(s, op));
  }

  lemma DispatchShape(s: State, skip: Option<Key>)
    requires MidInv(s)
    ensures var d := Dispatch(s, skip);
            if d.state.generation == s.generation then d.actions == [] && d.state.running == s.running
            else && s.running.None?
                 && d.state.generation == s.generation + 1
                 && d.state.running.Some?
                 && var r := d.state.running.value;
                    && r.generation == d.state.generation
                    && d.actions == [Start(r.key, r.epoch, r.generation, REFRESH_LIMIT)]
  {
  }

  lemma DispatchExplained(s: State, skip: Option<Key>)
    requires MidInv(s)
    ensures var d := Dispatch(s, skip);
            && Replay(Slot(s), Emit(d.actions)) == Slot(d.state)
            && (|| (d.state.generation == s.generation && Starts(Emit(d.actions)) == [])
                || (d.state.generation == s.generation + 1 && Starts(Emit(d.actions)) == [d.state.generation]))
  {
  }

  lemma EmitConcat(log: seq<Event>, a: seq<Action>, b: seq<Action>)
    ensures log + Emit(a + b) == log + Emit(a) + Emit(b)
  {
  }

  lemma StepSplits(s: State, op: Op)
    requires Inv(s) && !Ignored(s, op)
    ensures MidInv(Prefix(s, op).state)
    ensures var d := Dispatch(Prefix(s, op).state, Skip(s, op));
            Step(s, op).state == d.state && Log(s, op) == ClosingLog(s, op) + Emit(d.actions)
  {
    PrefixKeepsMidInv(s, op);
    var p := Prefix(s, op);
    EmitConcat(if op.Finish? then [Completed(op.key, op.generation)] else [],
               p.actions, Dispatch(p.state, Skip(s, op)).actions);
  }

  /** After one call the log explains the slot, and it starts exactly the
      generations the counter moved through. */
  lemma StepExplained(s: State, op: Op)
    requires Inv(s)
    ensures Replay(Slot(s), Log(s, op)) == Slot(Step(s, op).state)
    ensures var g := Step(s, op).state.generation;
            || (g == s.generation && Starts(Log(s, op)) == [])
            || (g == s.generation + 1 && Starts(Log(s, op)) == [g])
  {
    if !Ignored(s, op) {
      StepSplits(s, op);
      ClosingLogExplained(s, op);
      var d := Dispatch(Prefix(s, op).state, Skip(s, op));
      DispatchExplained(Prefix(s, op).state, Skip(s, op));
      hide Step, Log, ClosingLog, Prefix, Dispatch, Inv, MidInv;
      ReplayConcat(Slot(s), ClosingLog(s, op), Emit(d.actions));
    }
  }

  // ----------------------------------------------------------- whole runs --

  ghost function Run(s: State, ops: seq<Op>): (r: State)
    requires Inv(s)
    ensures Inv(r)
  {
    if ops == [] then s
    else
      var before := Run(s, ops[..|ops| - 1]);
      StepKeepsInv(before, ops[|ops| - 1]);
      Step(before, ops[|ops| - 1]).state
  }

  ghost function RunLog(s: State, ops: seq<Op>): seq<Event>
    requires Inv(s)
  {
    if ops == [] then []
    else RunLog(s, ops[..|ops| - 1]) + Log(Run(s, ops[..|ops| - 1]), ops[|ops| - 1])
  }

  lemma {:induction false} RunConcat(s: State, a: seq<Op>, b: seq<Op>)
    requires Inv(s)
    ensures Run(s, a + b) == Run(Run(s, a), b)
  {
    hide Step, Inv;
    if b == [] {
      assert a + b == a;
    } else {
      var n := |b| - 1;
      RunConcat(s, a, b[..n]);
      assert (a + b)[..|a| + n] == a + b[..n];
    }
  }

  lemma GenerationBound(s: State)
    requires Inv(s)
    ensures s.generation <= SERIAL_MAX
  {
  }

  lemma InitialInv()
    ensures Inv(INITIAL)
  {
  }

  /** In every run the log is a correct account of a network that carries at
      most one refresh: no start while one is outstanding, and every
      cancellation or completion names exactly the outstanding one. The i-th
      start carries generation i + 1, and generations fit in 63 bits. */
  lemma {:induction false} NetworkSafety(ops: seq<Op>)
    ensures Inv(INITIAL)
    ensures Replay(Idle, RunLog(INITIAL, ops)) == Slot(Run(INITIAL, ops))
    ensures Starts(RunLog(INITIAL, ops)) == seq(Run(INITIAL, ops).generation, i => i + 1)
    ensures Run(INITIAL, ops).generation <= SERIAL_MAX
  {
    hide Step, Inv, Log, MidInv;
    InitialInv();
    if ops != [] {
      var n := |ops| - 1;
      NetworkSafety(ops[..n]);
      var s := Run(INITIAL, ops[..n]);
      StepExplained(s, ops[n]);
      ReplayConcat(Idle, RunLog(INITIAL, ops[..n]), Log(s, ops[n]));
    }
    GenerationBound(Run(INITIAL, ops));
  }

  function TransportId(generation: nat): nat {
    EncodeTransport(OperationId(CausalProjection.LiveTail, generation))
  }

  /** No two refreshes of a run share a transport word, none of them can be
      mistaken for a historical-gap repair, and each decodes to its own
      generation. */
  lemma TransportIdsNeverRepeat(ops: seq<Op>, i: nat, j: nat, gap: nat)
    requires Inv(INITIAL)
    requires i < |Starts(RunLog(INITIAL, ops))| && j < |Starts(RunLog(INITIAL, ops))|
    requires gap <= SERIAL_MAX
    ensures var g := Starts(RunLog(INITIAL, ops));
            && (TransportId(g[i]) == TransportId(g[j]) ==> i == j)
            && TransportId(g[i]) != EncodeTransport(OperationId(HistoricalGap, gap))
            && DecodeTransport(TransportId(g[i])) == OperationId(CausalProjection.LiveTail, g[i])
  {
    hide Step, Inv, Run, RunLog, Starts;
    NetworkSafety(ops);
    TransportRoundTrip(OperationId(CausalProjection.LiveTail, i + 1), 0);
  }

  /** The event ends the refresh of `generation`. */
  predicate Closes(e: Event, generation: nat) {
    match e
    case Emitted(Start(_, _, _, _)) => false
    case Emitted(CancelNetwork(_, g)) => g == generation
    case Completed(_, g) => g == generation
  }

  ghost predicate Closed(log: seq<Event>, generation: nat) {
    exists i :: 0 <= i < |log| && Closes(log[i], generation)
  }

  predicate Retired(s: State, generation: nat) {
    generation <= s.generation && (s.running.Some? ==> s.running.value.generation != generation)
  }

  lemma StepRetires(s: State, op: Op, generation: nat)
    requires Inv(s)
    requires Retired(s, generation) || Closed(Log(s, op), generation)
    ensures Retired(Step(s, op).state, generation)
  {
    if !Ignored(s, op) {
      StepSplits(s, op);
      ClosingLogShape(s, op);
      DispatchShape(Prefix(s, op).state, Skip(s, op));
      if Closed(Log(s, op), generation) {
        EventsOf(s, op, generation);
      }
    }
  }

  lemma EventsOf(s: State, op: Op, generation: nat)
    requires Inv(s) && !Ignored(s, op)
    requires Closed(Log(s, op), generation)
    ensures Closed(ClosingLog(s, op), generation)
  {
    StepSplits(s, op);
    DispatchShape(Prefix(s, op).state, Skip(s, op));
  }

  lemma {:induction false} ClosedStaysRetired(s: State, ops: seq<Op>, generation: nat)
    requires Inv(s)
    requires Retired(s, generation) || Closed(RunLog(s, ops), generation)
    ensures Retired(Run(s, ops), generation)
  {
    hide Step, Inv, Log, Retired;
    if ops != [] {
      var n := |ops| - 1;
      if Retired(s, generation) || Closed(RunLog(s, ops[..n]), generation) {
        ClosedStaysRetired(s, ops[..n], generation);
      }
      StepRetires(Run(s, ops[..n]), ops[n], generation);
    }
  }

  /** Once the log of a run has ended a generation, by cancellation or by an
      accepted completion, a late completion naming it is ignored at every
      later point, whatever key, epoch and outcome it carries. */
  lemma LateFinishIsIgnored(before: seq<Op>, after: seq<Op>, late: Op)
    requires Inv(INITIAL) && late.Finish?
    requires Closed(RunLog(INITIAL, before), late.generation)
    ensures Step(Run(INITIAL, before + after), late) == Effect(Run(INITIAL, before + after), [])
  {
    ClosedStaysRetired(INITIAL, before, late.generation);
    ClosedStaysRetired(Run(INITIAL, before), after, late.generation);
    RunConcat(INITIAL, before, after);
  }

  // ---------------------------------------------------------- knowledge --

  /** From `s` to `t` the epoch known for `key` did not decrease. */
  predicate EpochGrows(s: State, t: State, key: Key) {
    key in s.states ==> key in t.states && s.states[key].epoch <= t.states[key].epoch
  }

  predicate IsFresh(s: State, key: Key, epoch: nat) {
    key in s.states && s.states[key] == Fresh(epoch)
  }

  /** The call supplies a strictly newer epoch for a key. */
  predicate Renews(op: Op, key: Key, epoch: nat) {
    op.key == key && op.epoch > epoch
  }

  lemma ActivateKeepsKnowledge(s: State, key: Key, epoch: nat, other: Key)
    requires Inv(s) && !KnownEpochIsNewer(s, key, epoch)
    ensures var p := ActivatePrefix(s, key, epoch).state;
            && EpochGrows(s, p, other)
            && (other in s.states && s.states[other].Fresh? && (other == key ==> s.states[other].epoch == epoch)
                ==> p.states[other] == s.states[other])
  {
  }

  lemma ReplacedKeepsKnowledge(s: State, key: Key, epoch: nat, other: Key)
    requires Inv(s) && !KnownEpochIsNewer(s, key, epoch)
    ensures var p := Replaced(s, key, epoch).state;
            && EpochGrows(s, p, other)
            && (other in s.states && s.states[other].Fresh? && other != key ==> p.states[other] == s.states[other])
  {
  }

  lemma PrefixKeepsKnowledge(s: State, op: Op, key: Key, epoch: nat)
    requires Inv(s) && !Ignored(s, op)
    ensures EpochGrows(s, Prefix(s, op).state, key)
    ensures IsFresh(s, key, epoch) && !Renews(op, key, epoch) ==> IsFresh(Prefix(s, op).state, key, epoch)
  {
    match op
    case Activate(k, e) => ActivateKeepsKnowledge(s, k, e, key);
    case MarkUnproven(k, e) => ReplacedKeepsKnowledge(s, k, e, key);
    case MarkFresh(k, e) =>
    case Finish(k, e, _, o) =>
    case Invalidate(k, e) => ReplacedKeepsKnowledge(s, k, e, key);
  }

  lemma DispatchKeepsKnowledge(s: State, skip: Option<Key>, key: Key, epoch: nat)
    requires MidInv(s)
    ensures EpochGrows(s, Dispatch(s, skip).state, key)
    ensures IsFresh(s, key, epoch) ==> IsFresh(Dispatch(s, skip).state, key, epoch)
  {
  }

  lemma StepKeepsKnowledge(s: State, op: Op, key: Key, epoch: nat)
    requires Inv(s)
    ensures EpochGrows(s, Step(s, op).state, key)
    ensures IsFresh(s, key, epoch) && !Renews(op, key, epoch) ==> IsFresh(Step(s, op).state, key, epoch)
  {
    if !Ignored(s, op) {
      StepSplits(s, op);
      PrefixKeepsKnowledge(s, op, key, epoch);
      DispatchKeepsKnowledge(Prefix(s, op).state, Skip(s, op), key, epoch);
      hide Step, Prefix, Dispatch, IsFresh, Inv, MidInv;
    }
  }

  /** Over any run the known epoch of a timeline never decreases, and a proven
      timeline stays proven until some call supplies a newer epoch for it:
      no preemption, focus change or stale completion can lose it. */
  lemma {:induction false} KnowledgeSurvivesRuns(s: State, ops: seq<Op>, key: Key, epoch: nat)
    requires Inv(s)
    ensures EpochGrows(s, Run(s, ops), key)
    ensures IsFresh(s, key, epoch) && (forall op :: op in ops ==> !Renews(op, key, epoch))
            ==> IsFresh(Run(s, ops), key, epoch)
  {
    hide Step, Inv, IsFresh;
    if ops != [] {
      var n := |ops| - 1;
      KnowledgeSurvivesRuns(s, ops[..n], key, epoch);
      StepKeepsKnowledge(Run(s, ops[..n]), ops[n], key, epoch);
    }
  }

  // ------------------------------------------------ foreground and drain --

  /** The focused timeline is known at `epoch`, and is proven, being refreshed,
      or due for the free slot, unless serials ran out. */
  ghost predicate Attended(s: State, key: Key, epoch: nat) {
    && s.active == Some(key) && key in s.states && s.states[key].epoch == epoch
    && match s.states[key]
       case Unproven(_) => s.running.None? && s.cancelled != Some(key)
       case Refreshing(_, _) | Fresh(_) => true
       case Retryable(_) => Exhausted(s)
       case Deferred(_) => false
  }

  lemma ActivateAttends(s: State, key: Key, epoch: nat)
    requires Inv(s) && !KnownEpochIsNewer(s, key, epoch)
    ensures Attended(ActivatePrefix(s, key, epoch).state, key, epoch)
  {
  }

  lemma InvalidateAttends(s: State, key: Key, epoch: nat)
    requires Inv(s) && !InvalidateIgnored(s, key, epoch) && s.active == Some(key)
    ensures Attended(Replaced(s, key, epoch).state, key, epoch)
    ensures Replaced(s, key, epoch).state.states[key].Unproven?
  {
  }

  lemma DispatchServesFocus(s: State, key: Key, epoch: nat)
    requires MidInv(s) && Attended(s, key, epoch)
    ensures var t := Dispatch(s, None).state;
            && t.active == Some(key) && key in t.states
            && (|| (IsFresh(t, key, epoch) && IsFresh(s, key, epoch))
                || t.running == Some(Running(key, epoch, t.generation))
                || (Exhausted(s) && t.states[key] == Retryable(epoch)))
  {
  }

  /** An activation, or an invalidation of the focused timeline, that is not
      stale leaves the focused timeline proven or being refreshed at exactly
      the requested epoch; the only exception is a coordinator that has run
      out of serials. An invalidation always demands a new proof. */
  lemma ForegroundGuarantee(s: State, op: Op)
    requires Inv(s) && !Ignored(s, op)
    requires op.Activate? || (op.Invalidate? && s.active == Some(op.key))
    ensures var t := Step(s, op).state;
            && t.active == Some(op.key) && op.key in t.states
            && (|| IsFresh(t, op.key, op.epoch)
                || t.running == Some(Running(op.key, op.epoch, t.generation))
                || (Exhausted(s) && t.states[op.key] == Retryable(op.epoch)))
            && (op.Invalidate? ==> !IsFresh(t, op.key, op.epoch))
  {
    StepSplits(s, op);
    ClosingLogShape(s, op);
    if op.Activate? {
      ActivateAttends(s, op.key, op.epoch);
    } else {
      InvalidateAttends(s, op.key, op.epoch);
    }
    var p := Prefix(s, op).state;
    DispatchServesFocus(p, op.key, op.epoch);
    assert Step(s, op).state == Dispatch(p, None).state;
    hide Step, Dispatch, ActivatePrefix, Replaced, MidInv, Inv;
  }

  lemma DispatchSkips(s: State, skip: Option<Key>, key: Key)
    requires MidInv(s) && key in s.states && (s.running.Some? ==> s.running.value.key != key)
    requires || s.states[key].Fresh? || s.states[key].Retryable? || skip == Some(key)
             || (s.states[key].Unproven? && s.cancelled == Some(key))
             || (s.states[key].Deferred? && key !in s.delayed)
    requires skip.Some? ==> skip != s.active
    ensures var t := Dispatch(s, skip).state;
            && key in t.states && t.states[key] == s.states[key]
            && (t.running.Some? ==> t.running.value.key != key)
            && (key in t.delayed <==> key in s.delayed)
  {
  }

  /** An accepted completion records what its outcome proves, and the finished
      timeline neither keeps nor retakes the slot: there is no retry loop. */
  lemma CompletionSettles(s: State, outcome: Outcome)
    requires Inv(s) && s.running.Some?
    ensures var r := s.running.value;
            var t := Step(s, Finish(r.key, r.epoch, r.generation, outcome)).state;
            && r.key in t.states
            && (t.running.Some? ==> t.running.value.key != r.key) && r.key !in t.delayed
            && (IsFresh(t, r.key, r.epoch) <==> outcome.Unchanged? || outcome.Advanced? || outcome.Detached?)
            && (s.active == Some(r.key) && outcome.Cancelled? ==> t.states[r.key] == Unproven(r.epoch))
            && (s.active == Some(r.key) && (outcome.Stale? || outcome.Failed?) ==>
                  t.states[r.key] == Retryable(r.epoch))
            && (s.active != Some(r.key) && !IsFresh(t, r.key, r.epoch) ==> t.states[r.key] == Deferred(r.epoch))
  {
    var r := s.running.value;
    var op := Finish(r.key, r.epoch, r.generation, outcome);
    StepSplits(s, op);
    DispatchSkips(Prefix(s, op).state, None, r.key);
  }

  /** A proof from elsewhere settles the timeline and frees the slot it held. */
  lemma MarkFreshSettles(s: State, key: Key, epoch: nat)
    requires Inv(s) && !KnownEpochIsNewer(s, key, epoch)
    ensures var t := Step(s, MarkFresh(key, epoch)).state;
            && IsFresh(t, key, epoch) && key !in t.delayed
            && (t.running.Some? ==> t.running.value.key != key)
  {
    var op := MarkFresh(key, epoch);
    StepSplits(s, op);
    DispatchSkips(Prefix(s, op).state, None, key);
  }

  /** Invalidating a background timeline queues it once, at its new epoch, and
      never starts it in the same call; when the coordinator is then idle with
      serials left, that timeline is the only delayed one. */
  lemma BackgroundInvalidationWaits(s: State, key: Key, epoch: nat)
    requires Inv(s) && !InvalidateIgnored(s, key, epoch) && s.active != Some(key)
    ensures var t := Step(s, Invalidate(key, epoch)).state;
            && key in t.states && t.states[key] == Deferred(epoch) && key in t.delayed
            && (t.running.Some? ==> t.running.value.key != key)
            && (t.running.None? && !Exhausted(t) ==> t.delayed == [key])
  {
    var op := Invalidate(key, epoch);
    StepSplits(s, op);
    StepKeepsInv(s, op);
    DispatchSkips(Prefix(s, op).state, Some(key), key);
  }

  /** Any effective call that leaves the coordinator idle with serials left
      leaves nothing delayed but the timeline it had to pass over: one that was
      just invalidated, or whose refresh it just fenced, in the background. */
  lemma IdleMeansDrained(s: State, op: Op)
    requires Inv(s) && !Ignored(s, op)
    ensures var t := Step(s, op).state;
            t.running.None? && !Exhausted(t) ==> t.delayed == if Skip(s, op).None? then [] else [op.key]
  {
    StepSplits(s, op);
    if Skip(s, op).Some? {
      StepKeepsInv(s, op);
      DispatchSkips(Prefix(s, op).state, Skip(s, op), op.key);
    } else {
      DispatchDrains(Prefix(s, op).state);
    }
  }

  lemma DispatchDrains(s: State)
    requires MidInv(s)
    ensures var t := Dispatch(s, None).state;
            t.running.None? && !Exhausted(t) ==> t.delayed == []
  {
  }

  function Work(s: State): nat {
    |s.delayed| + if s.running.Some? then 1 else 0
  }

  /** With nothing to skip, a free slot goes to the head of the queue. */
  lemma DispatchTakesHead(s: State)
    requires MidInv(s) && s.running.None? && !ActiveIsDue(s)
    ensures var t := Dispatch(s, None).state;
            if s.delayed == [] then t == s
            else && t.delayed == s.delayed[1..] && t.active == s.active
                 && if Exhausted(s) then t.running.None? && t.generation == s.generation
                    else t.running.Some? && t.running.value.key == s.delayed[0] && t.generation == s.generation + 1
  {
    if s.delayed != [] {
      WithoutAbsent(s.delayed[1..], s.delayed[0]);
    }
  }

  /** An accepted completion, whatever its outcome, hands the slot to the head
      of the delayed queue; the finished timeline is not queued again. */
  lemma FinishTakesHead(s: State, outcome: Outcome)
    requires Inv(s) && s.running.Some?
    ensures var r := s.running.value;
            var t := Step(s, Finish(r.key, r.epoch, r.generation, outcome)).state;
            && Work(t) < Work(s)
            && if s.delayed == [] then t.delayed == [] && t.running.None? && t.generation == s.generation
               else && t.delayed == s.delayed[1..]
                    && if Exhausted(s) then t.running.None? && t.generation == s.generation
                       else t.running.Some? && t.running.value.key == s.delayed[0] && t.generation == s.generation + 1
  {
    var r := s.running.value;
    var op := Finish(r.key, r.epoch, r.generation, outcome);
    PrefixKeepsMidInv(s, op);
    WithoutAbsent(s.delayed, r.key);
    DispatchTakesHead(Prefix(s, op).state);
  }

  /** Complete whatever runs, once per listed outcome. */
  ghost function CompleteAll(s: State, outcomes: seq<Outcome>): (t: State)
    requires Inv(s)
    ensures Inv(t)
    decreases |outcomes|
  {
    if outcomes == [] || s.running.None? then s
    else
      var r := s.running.value;
      var op := Finish(r.key, r.epoch, r.generation, outcomes[0]);
      StepKeepsInv(s, op);
      CompleteAll(Step(s, op).state, outcomes[1..])
  }

  /** The keys that get the slot while everything running completes. */
  ghost function Served(s: State, outcomes: seq<Outcome>): seq<Key>
    requires Inv(s)
    decreases |outcomes|
  {
    if outcomes == [] || s.running.None? then []
    else
      var r := s.running.value;
      var op := Finish(r.key, r.epoch, r.generation, outcomes[0]);
      StepKeepsInv(s, op);
      var t := Step(s, op).state;
      (if t.running.Some? then [t.running.value.key] else []) + Served(t, outcomes[1..])
  }

  function Min(a: nat, b: nat): nat { if a < b then a else b }

  /** Completions alone drain the coordinator: whatever their outcomes, the
      delayed timelines are served once each in queue order, as far as the
      serials reach, and the slot ends up free. */
  lemma {:induction false} DrainsInQueueOrder(s: State, outcomes: seq<Outcome>)
    requires Inv(s) && s.running.Some? && |outcomes| == |s.delayed| + 1
    ensures Served(s, outcomes) == s.delayed[..Min(|s.delayed|, SERIAL_MAX - s.generation)]
    ensures CompleteAll(s, outcomes).running.None?
    ensures |s.delayed| <= SERIAL_MAX - s.generation ==> CompleteAll(s, outcomes).delayed == []
    decreases |outcomes|
  {
    hide Step, Inv;
    var r := s.running.value;
    var op := Finish(r.key, r.epoch, r.generation, outcomes[0]);
    StepKeepsInv(s, op);
    FinishTakesHead(s, outcomes[0]);
    GenerationBound(s);
    var t := Step(s, op).state;
    assert CompleteAll(s, outcomes) == CompleteAll(t, outcomes[1..]);
    if t.running.Some? {
      DrainsInQueueOrder(t, outcomes[1..]);
    } else {
      assert Served(t, outcomes[1..]) == [];
    }
  }
}
