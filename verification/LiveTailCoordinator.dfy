/** `LiveTailRefreshCoordinator` itself: the fields of the source, updated in
    place, with the queue and its membership set kept side by side. Every public
    method is proved to take exactly one step of the machine in `LiveTail`. */
module LiveTailCoordinator {
  import opened Basics
  import opened CausalProjection
  import opened LiveTail
  import opened LiveTailRuns

  function Collect(action: Option<Action>): seq<Action> {
    if action.Some? then [action.value] else []
  }

  /** The scan of `schedule_next` over the next `n` queue entries. */
  function Scan(s: State, skip: Option<Key>, n: nat): Effect
    requires n <= |s.delayed|
    decreases n
  {
    if n == 0 then Effect(s, [])
    else
      var key := s.delayed[0];
      var popped := s.(delayed := s.delayed[1..]);
      if skip == Some(key) then Scan(popped.(delayed := popped.delayed + [key]), skip, n - 1)
      else if s.active == Some(key) then Scan(popped, skip, n - 1)
      else if !(key in s.states && s.states[key].Deferred?) then Scan(popped, skip, n - 1)
      else Begin(popped, key, s.states[key].epoch)
  }

  function Schedule(s: State, skip: Option<Key>): Effect {
    if s.running.Some? then Effect(s, [])
    else if ActiveIsDue(s) && skip != s.active then Begin(s, s.active.value, s.states[s.active.value].epoch)
    else Scan(s, skip, |s.delayed|)
  }

  /** On a well-formed queue the scan stops at the first or second entry, and
      no entry is ever dropped. */
  lemma ScheduleIsDispatch(s: State, skip: Option<Key>)
    requires QueueOk(s)
    ensures Schedule(s, skip) == Dispatch(s, skip)
  {
    if s.running.None? && !(ActiveIsDue(s) && skip != s.active) && s.delayed != [] {
      var head := s.delayed[0];
      assert head in s.delayed;
      if skip == Some(head) {
        var turned := s.(delayed := s.delayed[1..] + [head]);
        if |s.delayed| == 1 {
          assert turned.delayed == s.delayed;
        } else {
          var next := s.delayed[1];
          assert turned.delayed[0] == next && next in s.delayed && next != head;
          assert Scan(turned, skip, |s.delayed| - 1)
              == Begin(turned.(delayed := turned.delayed[1..]), next, s.states[next].epoch);
          assert Scan(s, skip, |s.delayed|) == Scan(turned, skip, |s.delayed| - 1);
        }
      }
    }
  }

  lemma IgnoredStep(s: State, op: Op)
    requires Inv(s) && Ignored(s, op)
    ensures Step(s, op) == Effect(s, [])
  {
  }

  class Coordinator {
    var active: Option<Key>
    var states: map<Key, Freshness>
    var running: Option<Running>
    var delayed: seq<Key>
    var delayedMembers: set<Key>
    var cancelledActive: Option<Key>
    var operationGeneration: nat

    ghost function View(): State
      reads this
    {
      State(active, states, running, delayed, cancelledActive, operationGeneration)
    }

    /** The membership set is exactly the duplicate-free queue. */
    ghost predicate Tracked()
      reads this
    {
      NoDup(delayed) && delayedMembers == ToSet(delayed)
    }

    ghost predicate Valid()
      reads this
    {
      Tracked() && Inv(View())
    }

    constructor ()
      ensures Valid() && View() == INITIAL
    {
      active, states, running := None, map[], None;
      delayed, delayedMembers := [], {};
      cancelledActive, operationGeneration := None, 0;
    }

    method QueueDelayed(key: Key)
      requires Tracked()
      modifies this
      ensures Tracked() && View() == old(View()).(delayed := Enqueue(old(delayed), key))
    {
      if key !in delayedMembers {
        delayedMembers := delayedMembers + {key};
        delayed := delayed + [key];
      }
    }

    method RemoveDelayed(key: Key)
      requires Tracked()
      modifies this
      ensures Tracked() && View() == old(View()).(delayed := Without(old(delayed), key))
    {
      WithoutNoDup(delayed, key);
      if key in delayedMembers {
        delayedMembers := delayedMembers - {key};
        delayed := Without(delayed, key);
      } else {
        WithoutAbsent(delayed, key);
      }
    }

    method ClearCancelledActive(key: Key)
      requires Tracked()
      modifies this
      ensures Tracked() && View() == old(View()).(cancelled := Clear(old(cancelledActive), key))
    {
      if cancelledActive == Some(key) {
        cancelledActive := None;
      }
    }

    method BeginRefresh(key: Key, epoch: nat) returns (action: Option<Action>)
      requires Tracked()
      modifies this
      ensures Tracked() && Effect(View(), Collect(action)) == Begin(old(View()), key, epoch)
    {
      RemoveDelayed(key);
      ClearCancelledActive(key);
      match NextSerial(operationGeneration) {
        case None =>
          states := states[key := Retryable(epoch)];
          action := None;
        case Some(next) =>
          operationGeneration := next;
          states := states[key := Refreshing(epoch, next)];
          running := Some(Running(key, epoch, next));
          action := Some(Start(key, epoch, next, REFRESH_LIMIT));
      }
    }

    method ScheduleNext(skip: Option<Key>) returns (actions: seq<Action>)
      requires Tracked()
      modifies this
      ensures Tracked() && Effect(View(), actions) == Schedule(old(View()), skip)
    {
      if running.Some? {
        return [];
      }
      if active.Some? && skip != active && cancelledActive != active
         && active.value in states && states[active.value].Unproven? {
        var started := BeginRefresh(active.value, states[active.value].epoch);
        return Collect(started);
      }
      assert Schedule(old(View()), skip) == Scan(View(), skip, |delayed|);
      var remaining: nat := |delayed|;
      while remaining > 0
        invariant remaining <= |delayed| && Tracked() && running.None?
        invariant Scan(View(), skip, remaining) == old(Scan(View(), skip, |delayed|))
      {
        var key := delayed[0];
        delayed := delayed[1..];
        delayedMembers := delayedMembers - {key};
        remaining := remaining - 1;
        if skip == Some(key) {
          QueueDelayed(key);
        } else if active == Some(key) {
        } else if key in states && states[key].Deferred? {
          var started := BeginRefresh(key, states[key].epoch);
          return Collect(started);
        }
      }
      actions := [];
    }

    method PreemptRunning() returns (action: Option<Action>)
      requires Tracked()
      modifies this
      ensures Tracked() && Effect(View(), Collect(action)) == Preempt(old(View()))
    {
      if running.None? {
        return None;
      }
      var stopped := running.value;
      running := None;
      if stopped.key in states && states[stopped.key].epoch == stopped.epoch {
        states := states[stopped.key := Deferred(stopped.epoch)];
        ClearCancelledActive(stopped.key);
        QueueDelayed(stopped.key);
      }
      action := Some(CancelNetwork(stopped.key, stopped.generation));
    }

    method FenceReplacedRunning(key: Key, epoch: nat) returns (action: Option<Action>)
      requires Tracked()
      modifies this
      ensures Tracked() && Effect(View(), Collect(action)) == Fence(old(View()), key, epoch)
    {
      if running.Some? && running.value.key == key && running.value.epoch != epoch {
        action := Some(CancelNetwork(key, running.value.generation));
        running := None;
      } else {
        action := None;
      }
    }

    method DeferPending(key: Key)
      requires Tracked()
      modifies this
      ensures Tracked() && View() == DeferIfPending(old(View()), key)
    {
      if key in states && Recoverable(states[key]) {
        states := states[key := Deferred(states[key].epoch)];
        ClearCancelledActive(key);
        QueueDelayed(key);
      }
    }

    /** The final pass of a call whose earlier part reached the state `Prefix`
        describes. */
    method Complete(ghost before: State, ghost op: Op, skip: Option<Key>) returns (actions: seq<Action>)
      requires Tracked() && Inv(before) && !Ignored(before, op)
      requires View() == Prefix(before, op).state && skip == Skip(before, op)
      modifies this
      ensures Valid()
      ensures Effect(View(), Prefix(before, op).actions + actions) == Step(before, op)
    {
      PrefixKeepsMidInv(before, op);
      ScheduleIsDispatch(View(), skip);
      StepKeepsInv(before, op);
      actions := ScheduleNext(skip);
    }

    /** The part of `activate` that moves the focus and records the demand. */
    method FocusOn(key: Key, epoch: nat)
      requires Tracked()
      modifies this
      ensures Tracked() && View() == Focus(old(View()), key, epoch)
    {
      active := Some(key);
      RemoveDelayed(key);
      var preserveExhaustedRetryable :=
        NextSerial(operationGeneration).None? && key in states && states[key] == Retryable(epoch);
      if !preserveExhaustedRetryable
         && !(key in states && states[key].epoch == epoch
              && (states[key].Unproven? || states[key].Refreshing? || states[key].Fresh?)) {
        states := states[key := Unproven(epoch)];
      }
      ClearCancelledActive(key);
    }

    method Activate(key: Key, epoch: nat) returns (actions: seq<Action>)
      requires Valid()
      modifies this
      ensures Valid() && Effect(View(), actions) == Step(old(View()), LiveTail.Activate(key, epoch))
    {
      hide Step, Inv;
      if key in states && states[key].epoch > epoch {
        IgnoredStep(View(), LiveTail.Activate(key, epoch));
        return [];
      }
      var oldActive := active;
      FocusOn(key, epoch);
      actions := [];
      if key in states && states[key].Unproven? && RunsOtherThan(running, key, epoch) {
        var cancel := PreemptRunning();
        actions := Collect(cancel);
      }
      if oldActive.Some? && oldActive.value != key && !(running.Some? && running.value.key == oldActive.value) {
        DeferPending(oldActive.value);
      }
      var started := Complete(old(View()), LiveTail.Activate(key, epoch), None);
      actions := actions + started;
    }

    method MarkUnproven(key: Key, epoch: nat) returns (actions: seq<Action>)
      requires Valid()
      modifies this
      ensures Valid() && Effect(View(), actions) == Step(old(View()), LiveTail.MarkUnproven(key, epoch))
    {
      hide Step;
      ghost var op := LiveTail.MarkUnproven(key, epoch);
      if key in states {
        var known := states[key];
        if known.epoch > epoch
           || (known.epoch == epoch
               && (known.Fresh? || known.Refreshing?
                   || (known.Retryable? && NextSerial(operationGeneration).None?))) {
          IgnoredStep(View(), op);
          return [];
        }
      }
      var fenced := FenceReplacedRunning(key, epoch);
      actions := Collect(fenced);
      var isActive := active == Some(key);
      ClearCancelledActive(key);
      states := states[key := if isActive then Unproven(epoch) else Deferred(epoch)];
      if !isActive {
        QueueDelayed(key);
        var started := Complete(old(View()), op, if fenced.Some? then Some(key) else None);
        return actions + started;
      }
      if RunsOtherThan(running, key, epoch) {
        var cancel := PreemptRunning();
        actions := actions + Collect(cancel);
      }
      WithoutAbsent(delayed, key);
      var started := Complete(old(View()), op, None);
      actions := actions + started;
    }

    method MarkFresh(key: Key, epoch: nat) returns (actions: seq<Action>)
      requires Valid()
      modifies this
      ensures Valid() && Effect(View(), actions) == Step(old(View()), LiveTail.MarkFresh(key, epoch))
    {
      hide Step, Inv;
      if key in states && states[key].epoch > epoch {
        IgnoredStep(View(), LiveTail.MarkFresh(key, epoch));
        return [];
      }
      states := states[key := Fresh(epoch)];
      RemoveDelayed(key);
      ClearCancelledActive(key);
      actions := [];
      if running.Some? && running.value.key == key && running.value.epoch <= epoch {
        actions := [CancelNetwork(key, running.value.generation)];
        running := None;
      }
      var started := Complete(old(View()), LiveTail.MarkFresh(key, epoch), None);
      actions := actions + started;
    }

    method Finish(key: Key, epoch: nat, generation: nat, outcome: Outcome) returns (actions: seq<Action>)
      requires Valid()
      modifies this
      ensures Valid() && Effect(View(), actions) == Step(old(View()), LiveTail.Finish(key, epoch, generation, outcome))
    {
      hide Step, Inv;
      if running != Some(Running(key, epoch, generation)) {
        IgnoredStep(View(), LiveTail.Finish(key, epoch, generation, outcome));
        return [];
      }
      running := None;
      var isActive := active == Some(key);
      states := states[key := AfterFinish(epoch, outcome, isActive)];
      RemoveDelayed(key);
      ClearCancelledActive(key);
      if outcome == Cancelled && isActive {
        cancelledActive := Some(key);
      }
      actions := Complete(old(View()), LiveTail.Finish(key, epoch, generation, outcome), None);
    }

    method InvalidateEpoch(key: Key, epoch: nat) returns (actions: seq<Action>)
      requires Valid()
      modifies this
      ensures Valid() && Effect(View(), actions) == Step(old(View()), LiveTail.Invalidate(key, epoch))
    {
      hide Step;
      ghost var op := LiveTail.Invalidate(key, epoch);
      if key in states && (states[key].epoch > epoch || states[key].epoch == epoch) {
        IgnoredStep(View(), op);
        return [];
      }
      var isActive := active == Some(key);
      ClearCancelledActive(key);
      var fenced := FenceReplacedRunning(key, epoch);
      actions := Collect(fenced);
      states := states[key := if isActive then Unproven(epoch) else Deferred(epoch)];
      if isActive {
        if running.Some? {
          var cancel := PreemptRunning();
          actions := actions + Collect(cancel);
        }
        RemoveDelayed(key);
        var started := Complete(old(View()), op, None);
        actions := actions + started;
      } else {
        QueueDelayed(key);
        var started := Complete(old(View()), op, Some(key));
        actions := actions + started;
      }
    }
  }
}
