/** What one call does to every timeline: the one it names, the one it takes the
    slot from, the one it takes the focus from, those in the queue, and all
    others. */
module LiveTailCalls {
  import opened Basics
  import opened CausalProjection
  import opened LiveTail
  import opened LiveTailRuns

  // ------------------------------------------------------------ queue order --

  ghost predicate Precedes(q: seq<Key>, a: Key, b: Key) {
    exists i, j :: 0 <= i < j < |q| && q[i] == a && q[j] == b
  }

  /** Whoever of `q` is still in `r` stands there in the same order and before
      every newcomer, `but` left aside. */
  ghost predicate KeepsOrder(q: seq<Key>, r: seq<Key>, but: Key) {
    forall a, b :: a != but && b != but && a in q && a in r && b in r && (Precedes(q, a, b) || b !in q)
      ==> Precedes(r, a, b)
  }

  lemma {:induction false} WithoutOrder(q: seq<Key>, k: Key, a: Key, b: Key)
    requires a != k && b != k && Precedes(q, a, b)
    ensures Precedes(Without(q, k), a, b)
  {
    var i, j :| 0 <= i < j < |q| && q[i] == a && q[j] == b;
    assert q[1..][j - 1] == b;
    var rest := Without(q[1..], k);
    if i == 0 {
      assert b in rest;
      var m :| 0 <= m < |rest| && rest[m] == b;
      assert Without(q, k)[0] == a && Without(q, k)[m + 1] == b;
    } else {
      assert q[1..][i - 1] == a;
      WithoutOrder(q[1..], k, a, b);
      var m, n :| 0 <= m < n < |rest| && rest[m] == a && rest[n] == b;
      var shift := if q[0] == k then 0 else 1;
      assert Without(q, k)[m + shift] == a && Without(q, k)[n + shift] == b;
    }
  }

  lemma WithoutKeepsOrder(q: seq<Key>, k: Key, but: Key)
    ensures KeepsOrder(q, Without(q, k), but)
  {
    forall a, b | a in Without(q, k) && b in Without(q, k) && Precedes(q, a, b)
      ensures Precedes(Without(q, k), a, b)
    {
      WithoutOrder(q, k, a, b);
    }
  }

  lemma EnqueueKeepsOrder(q: seq<Key>, k: Key, but: Key)
    ensures KeepsOrder(q, Enqueue(q, k), but)
  {
    var r := Enqueue(q, k);
    forall a, b | a in q && b in r && (Precedes(q, a, b) || b !in q) ensures Precedes(r, a, b) {
      if Precedes(q, a, b) {
        var i, j :| 0 <= i < j < |q| && q[i] == a && q[j] == b;
        assert r[i] == a && r[j] == b;
      } else {
        var i :| 0 <= i < |q| && q[i] == a;
        assert r[i] == a && r[|q|] == b;
      }
    }
  }

  lemma TailKeepsOrder(q: seq<Key>, but: Key)
    requires q != [] && NoDup(q)
    ensures KeepsOrder(q, q[1..], but)
  {
    var r := q[1..];
    forall a, b | a in r && b in r && Precedes(q, a, b) ensures Precedes(r, a, b) {
      var i, j :| 0 <= i < j < |q| && q[i] == a && q[j] == b;
      assert i > 0;
      assert r[i - 1] == a && r[j - 1] == b;
    }
  }

  lemma RotatedKeepsOrder(q: seq<Key>, skip: Option<Key>, but: Key)
    requires NoDup(q) && (skip.Some? ==> skip.value == but)
    ensures KeepsOrder(q, Rotated(q, skip), but)
  {
    if q != [] && Some(q[0]) == skip {
      var r := Rotated(q, skip);
      forall a, b | a != but && b != but && a in q && b in r && Precedes(q, a, b) ensures Precedes(r, a, b) {
        var i, j :| 0 <= i < j < |q| && q[i] == a && q[j] == b;
        assert r[i - 1] == a && r[j - 1] == b;
      }
    }
  }

  lemma OrderChains(q: seq<Key>, r: seq<Key>, t: seq<Key>, but: Key)
    requires KeepsOrder(q, r, but) && KeepsOrder(r, t, but)
    requires forall k :: k in q && k in t && k != but ==> k in r
    ensures KeepsOrder(q, t, but)
  {
  }

  // ---------------------------------------------------------- before the pass --

  /** What the first part of a call does to queue and focus. */
  lemma PrefixQueue(s: State, op: Op)
    requires Inv(s) && !Ignored(s, op)
    ensures var p := Prefix(s, op).state;
            && KeepsOrder(s.delayed, p.delayed, op.key)
            && (forall k :: k in s.delayed && k != op.key ==> k in p.delayed)
  {
    WithoutKeepsOrder(s.delayed, op.key, op.key);
    match op
    case Activate(k, e) => ActivateQueue(s, k, e);
    case MarkUnproven(k, e) => ReplacedQueue(s, k, e);
    case MarkFresh(k, e) =>
    case Finish(k, e, _, o) =>
    case Invalidate(k, e) => ReplacedQueue(s, k, e);
  }

  lemma PreemptQueue(s: State, but: Key)
    ensures KeepsOrder(s.delayed, Preempt(s).state.delayed, but)
    ensures forall k :: k in s.delayed ==> k in Preempt(s).state.delayed
  {
    if s.running.Some? {
      EnqueueKeepsOrder(s.delayed, s.running.value.key, but);
    }
    SameKeepsOrder(s.delayed, but);
  }

  lemma SameKeepsOrder(q: seq<Key>, but: Key)
    ensures KeepsOrder(q, q, but)
  {
  }

  lemma DeferQueue(s: State, key: Key, but: Key)
    ensures KeepsOrder(s.delayed, DeferIfPending(s, key).delayed, but)
    ensures forall k :: k in s.delayed ==> k in DeferIfPending(s, key).delayed
  {
    EnqueueKeepsOrder(s.delayed, key, but);
    SameKeepsOrder(s.delayed, but);
  }

  lemma ActivateQueue(s: State, key: Key, epoch: nat)
    ensures var p := ActivatePrefix(s, key, epoch).state;
            && KeepsOrder(s.delayed, p.delayed, key)
            && (forall k :: k in s.delayed && k != key ==> k in p.delayed)
  {
    var f := Focus(s, key, epoch);
    WithoutKeepsOrder(s.delayed, key, key);
    PreemptQueue(f, key);
    SameKeepsOrder(f.delayed, key);
    var p := if IsUnproven(f, key) && RunsOtherThan(f.running, key, epoch) then Preempt(f).state else f;
    hide KeepsOrder, Preempt;
    OrderChains(s.delayed, f.delayed, p.delayed, key);
    if s.active.Some? {
      DeferQueue(p, s.active.value, key);
      OrderChains(s.delayed, p.delayed, DeferIfPending(p, s.active.value).delayed, key);
    }
  }

  lemma ReplacedQueue(s: State, key: Key, epoch: nat)
    ensures var p := Replaced(s, key, epoch).state;
            && KeepsOrder(s.delayed, p.delayed, key)
            && (forall k :: k in s.delayed && k != key ==> k in p.delayed)
  {
    EnqueueKeepsOrder(s.delayed, key, key);
    var f := Fence(s.(cancelled := Clear(s.cancelled, key)), key, epoch).state;
    if s.active == Some(key) {
      var u := f.(states := s.states[key := Unproven(epoch)]);
      var p := Preempt(u).state;
      PreemptQueue(u, key);
      WithoutKeepsOrder(p.delayed, key, key);
      OrderChains(s.delayed, p.delayed, Without(p.delayed, key), key);
    }
  }

  /** The call asks for a new proof of the focused timeline. */
  ghost predicate Demands(s: State, op: Op) {
    match op
    case Activate(k, e) =>
      !(&& k in s.states && s.states[k].epoch == e
        && (s.states[k].Fresh? || s.states[k].Refreshing?
            || (s.states[k].Retryable? && s.generation == SERIAL_MAX)))
    case Invalidate(k, _) => s.active == Some(k)
    case MarkUnproven(k, _) => s.active == Some(k)
    case _ => false
  }

  /** Another timeline that the call makes wait: the running one when the focus
      asks for a new proof, and the one that loses the focus unproven. */
  ghost predicate Displaced(s: State, op: Op, k: Key) {
    && k != op.key && k in s.states
    && (|| (s.running.Some? && s.running.value.key == k && Demands(s, op))
        || (op.Activate? && s.active == Some(k) && (s.states[k].Unproven? || s.states[k].Retryable?)))
  }

  lemma SerialsRunOut(s: State)
    requires Inv(s)
    ensures Exhausted(s) <==> s.generation == 0x7FFF_FFFF_FFFF_FFFF
    ensures SERIAL_MAX == 0x7FFF_FFFF_FFFF_FFFF
  {
  }

  /** Activation takes the slot away exactly when the focus asks for a proof. */
  lemma ActivatePreempts(s: State, key: Key, epoch: nat)
    requires Inv(s) && !KnownEpochIsNewer(s, key, epoch)
    ensures var f, op := Focus(s, key, epoch), Activate(key, epoch);
            && (IsUnproven(f, key) <==> Demands(s, op))
            && (Demands(s, op) ==> f.states[key] == Unproven(epoch))
            && (IsUnproven(f, key) && RunsOtherThan(f.running, key, epoch) <==> s.running.Some? && Demands(s, op))
  {
    SerialsRunOut(s);
  }

  /** Activation in three steps. */
  lemma ActivateInSteps(s: State, key: Key, epoch: nat)
    requires Inv(s) && !KnownEpochIsNewer(s, key, epoch)
    ensures var f := Focus(s, key, epoch);
            var e := if s.running.Some? && Demands(s, Activate(key, epoch)) then Preempt(f) else Effect(f, []);
            var left := s.active;
            ActivatePrefix(s, key, epoch)
            == if left.Some? && left.value != key && !(e.state.running.Some? && e.state.running.value.key == left.value)
               then e.(state := DeferIfPending(e.state, left.value)) else e
  {
    ActivatePreempts(s, key, epoch);
    hide Inv, Demands, Focus, Preempt, DeferIfPending, IsUnproven, RunsOtherThan;
  }

  lemma FocusOthers(s: State, key: Key, epoch: nat, k: Key)
    requires k != key
    ensures var f := Focus(s, key, epoch);
            && (k in f.states <==> k in s.states) && (k in s.states ==> f.states[k] == s.states[k])
            && (k in f.delayed <==> k in s.delayed)
            && f.running == s.running && f.active == Some(key) && f.generation == s.generation
            && (f.cancelled == Some(k) <==> s.cancelled == Some(k)) && f.cancelled != Some(key)
  {
  }

  lemma PreemptOthers(f: State, k: Key)
    requires f.running.Some? && k in f.states
    ensures var p, r := Preempt(f).state, f.running.value;
            && k in p.states && p.running.None? && p.active == f.active
            && (if k == r.key && f.states[k].epoch == r.epoch then p.states[k] == Deferred(r.epoch) && k in p.delayed
                else p.states[k] == f.states[k] && (k in p.delayed <==> k in f.delayed))
            && (k != r.key ==> (p.cancelled == Some(k) <==> f.cancelled == Some(k)))
  {
  }

  lemma PreemptKnows(f: State, k: Key)
    requires f.running.Some?
    ensures k in Preempt(f).state.states <==> k in f.states
    ensures k !in f.states ==> (k in Preempt(f).state.delayed <==> k in f.delayed)
  {
  }

  lemma DeferOthers(p: State, left: Key, k: Key)
    ensures var d := DeferIfPending(p, left);
            && (k in d.states <==> k in p.states) && d.running == p.running && d.active == p.active
            && (k in p.states ==>
                  if k == left && !p.states[k].Fresh? && !p.states[k].Refreshing? then
                    d.states[k] == Deferred(p.states[k].epoch) && k in d.delayed
                  else d.states[k] == p.states[k] && (k in d.delayed <==> k in p.delayed))
            && (k !in p.states ==> (k in d.delayed <==> k in p.delayed))
            && (k != left ==> (d.cancelled == Some(k) <==> p.cancelled == Some(k)))
  {
  }

  lemma InvFacts(s: State, k: Key)
    requires Inv(s)
    ensures k in s.delayed ==> k in s.states && s.states[k].Deferred? && s.active != Some(k)
    ensures s.active.Some? ==> s.active.value in s.states && !s.states[s.active.value].Deferred?
    ensures s.running.Some? ==>
              && s.running.value.key in s.states
              && s.states[s.running.value.key] == Refreshing(s.running.value.epoch, s.running.value.generation)
    ensures k in s.states && s.states[k].Refreshing? ==> s.running.Some? && s.running.value.key == k
    ensures !ActiveIsDue(s)
  {
  }

  lemma ActivateOthers(s: State, key: Key, epoch: nat, k: Key)
    requires Inv(s) && !KnownEpochIsNewer(s, key, epoch) && k != key
    ensures var p, op := ActivatePrefix(s, key, epoch).state, Activate(key, epoch);
            && (k in p.states <==> k in s.states)
            && (k in s.states ==>
                  p.states[k] == if Displaced(s, op, k) then Deferred(s.states[k].epoch) else s.states[k])
            && (k in p.delayed <==> k in s.delayed || Displaced(s, op, k))
            && p.active == Some(key)
            && ((p.running.Some? && p.running.value.key == k) <==>
                (s.running.Some? && s.running.value.key == k && !Displaced(s, op, k)))
  {
    hide Inv, Demands, Focus, Preempt, DeferIfPending, ActivatePrefix, ActiveIsDue;
    InvFacts(s, k);
    ActivateInSteps(s, key, epoch);
    FocusOthers(s, key, epoch, k);
    var f := Focus(s, key, epoch);
    var taken := s.running.Some? && Demands(s, Activate(key, epoch));
    var p := if taken then Preempt(f).state else f;
    if taken {
      PreemptKnows(f, k);
      if k in f.states {
        PreemptOthers(f, k);
      }
      NoneRuns(f);
    }
    if s.active.Some? {
      DeferOthers(p, s.active.value, k);
    }
  }

  lemma NoneRuns(f: State)
    ensures Preempt(f).state.running.None? && Preempt(f).state.active == f.active
  {
  }

  lemma ReplacedOthers(s: State, op: Op, k: Key)
    requires Inv(s) && !Ignored(s, op) && (op.Invalidate? || op.MarkUnproven?) && k != op.key
    ensures var p := Replaced(s, op.key, op.epoch).state;
            && (k in p.states <==> k in s.states)
            && (k in s.states ==>
                  p.states[k] == if Displaced(s, op, k) then Deferred(s.states[k].epoch) else s.states[k])
            && (k in p.delayed <==> k in s.delayed || Displaced(s, op, k))
  {
  }

  lemma PrefixOthers(s: State, op: Op, k: Key)
    requires Inv(s) && !Ignored(s, op) && k != op.key
    ensures var p := Prefix(s, op).state;
            && (k in p.states <==> k in s.states)
            && (k in s.states ==>
                  p.states[k] == if Displaced(s, op, k) then Deferred(s.states[k].epoch) else s.states[k])
            && (k in p.delayed <==> k in s.delayed || Displaced(s, op, k))
  {
    match op
    case Activate(key, e) => ActivateOthers(s, key, e, k);
    case MarkUnproven(key, e) => ReplacedOthers(s, op, k);
    case MarkFresh(key, e) =>
    case Finish(key, e, _, o) =>
    case Invalidate(key, e) => ReplacedOthers(s, op, k);
  }

  lemma PrefixCounter(s: State, op: Op)
    requires Inv(s)
    ensures Prefix(s, op).state.generation == s.generation
    ensures Prefix(s, op).state.active == if op.Activate? then Some(op.key) else s.active
  {
  }

  /** A timeline the call does not name is not made due, and loses the slot
      before the scheduling pass only by being displaced. */
  lemma PrefixSlot(s: State, op: Op, k: Key)
    requires Inv(s) && !Ignored(s, op) && k != op.key
    ensures var p := Prefix(s, op).state;
            && !(p.active == Some(k) && ActiveIsDue(p))
            && ((p.running.Some? && p.running.value.key == k) <==>
                (s.running.Some? && s.running.value.key == k && !Displaced(s, op, k)))
  {
    match op
    case Activate(key, e) =>
      hide Inv, Demands, ActivatePrefix, Displaced;
      ActivateOthers(s, key, e, k);
    case MarkUnproven(key, e) => ReplacedSlot(s, op, k);
    case MarkFresh(key, e) =>
    case Finish(key, e, _, o) =>
    case Invalidate(key, e) => ReplacedSlot(s, op, k);
  }

  lemma ReplacedSlot(s: State, op: Op, k: Key)
    requires Inv(s) && !Ignored(s, op) && (op.Invalidate? || op.MarkUnproven?) && k != op.key
    ensures var p := Replaced(s, op.key, op.epoch).state;
            && !(p.active == Some(k) && ActiveIsDue(p))
            && ((p.running.Some? && p.running.value.key == k) <==>
                (s.running.Some? && s.running.value.key == k && !Displaced(s, op, k)))
  {
  }

  // ------------------------------------------------------------ the whole call --

  /** `k` got the slot, or would have, had serials not run out. */
  ghost predicate Served(s: State, t: State, k: Key) {
    && k in s.states && k in t.states && k !in t.delayed
    && if s.generation == SERIAL_MAX then t.states[k] == Retryable(s.states[k].epoch)
       else t.running == Some(Running(k, s.states[k].epoch, s.generation + 1))
  }

  /** `k` waits in the queue at the epoch it had. */
  ghost predicate Waits(s: State, t: State, k: Key) {
    && k in s.states && k in t.states && k in t.delayed
    && t.states[k] == Deferred(s.states[k].epoch)
  }

  lemma DispatchOthers(p: State, skip: Option<Key>, k: Key)
    requires MidInv(p) && k in p.states && (skip.Some? ==> skip != p.active)
    ensures var t := Dispatch(p, skip).state;
            && k in t.states
            && (if k in p.delayed then Waits(p, t, k) || Served(p, t, k)
                else
                  && k !in t.delayed
                  && (p.active == Some(k) && ActiveIsDue(p) ==> p.running.Some? || Served(p, t, k))
                  && (!(p.active == Some(k) && ActiveIsDue(p)) ==>
                        t.states[k] == p.states[k] && ((t.running.Some? && t.running.value.key == k) <==>
                                                       (p.running.Some? && p.running.value.key == k))))
  {
  }

  /** What any effective call does to a timeline it does not name. One that was
      waiting, or is displaced by the call, waits at the same epoch or gets the
      slot; any other keeps its state, stays out of the queue, and holds the
      slot if and only if it held it before. */
  lemma EveryOtherTimeline(s: State, op: Op, k: Key)
    requires Inv(s) && !Ignored(s, op) && k != op.key && k in s.states
    ensures var t := Step(s, op).state;
            && k in t.states
            && if k in s.delayed || Displaced(s, op, k) then Waits(s, t, k) || Served(s, t, k)
               else && t.states[k] == s.states[k] && k !in t.delayed
                    && ((t.running.Some? && t.running.value.key == k) <==>
                        (s.running.Some? && s.running.value.key == k))
  {
    hide Step, Log, ClosingLog, Prefix, Dispatch, Skip, Inv, MidInv, Displaced, ActiveIsDue, Ignored;
    StepSplits(s, op);
    PrefixOthers(s, op, k);
    PrefixCounter(s, op);
    PrefixSlot(s, op, k);
    SkipIsNamed(s, op);
    DispatchOthers(Prefix(s, op).state, Skip(s, op), k);
  }

  lemma SkipIsNamed(s: State, op: Op)
    requires Inv(s)
    ensures Skip(s, op).Some? ==> Skip(s, op).value == op.key && Prefix(s, op).state.active != Some(op.key)
    ensures Skip(s, op).Some? ==> op.Invalidate? || op.MarkUnproven?
  {
  }

  lemma DispatchOrder(p: State, skip: Option<Key>, but: Key)
    requires MidInv(p) && (skip.Some? ==> skip.value == but && skip != p.active)
    ensures KeepsOrder(p.delayed, Dispatch(p, skip).state.delayed, but)
  {
    hide KeepsOrder;
    var q := Rotated(p.delayed, skip);
    SameKeepsOrder(p.delayed, but);
    RotatedKeepsOrder(p.delayed, skip, but);
    if ActiveIsDue(p) {
      WithoutKeepsOrder(p.delayed, p.active.value, but);
    } else if q != [] {
      TailKeepsOrder(q, but);
      WithoutAbsent(q[1..], q[0]);
      OrderChains(p.delayed, q, q[1..], but);
    }
  }

  /** No call reorders the queue: whoever stays keeps its place, and newcomers
      line up behind. Only the named timeline may be moved. */
  lemma QueueKeepsOrder(s: State, op: Op)
    requires Inv(s) && !Ignored(s, op)
    ensures KeepsOrder(s.delayed, Step(s, op).state.delayed, op.key)
  {
    hide Step, Log, ClosingLog, Prefix, Dispatch, Skip, Inv, KeepsOrder, Ignored;
    StepSplits(s, op);
    PrefixQueue(s, op);
    SkipIsNamed(s, op);
    DispatchOrder(Prefix(s, op).state, Skip(s, op), op.key);
    OrderChains(s.delayed, Prefix(s, op).state.delayed, Step(s, op).state.delayed, op.key);
  }

  lemma Asymmetric(q: seq<Key>, a: Key, b: Key)
    requires NoDup(q)
    ensures !(Precedes(q, a, b) && Precedes(q, b, a))
  {
  }

  lemma Comparable(q: seq<Key>, a: Key, b: Key)
    requires a in q && b in q && a != b
    ensures Precedes(q, a, b) || Precedes(q, b, a)
  {
    var i :| 0 <= i < |q| && q[i] == a;
    var j :| 0 <= j < |q| && q[j] == b;
    assert i < j || j < i;
  }

  lemma FirstBefore(q: seq<Key>, r: seq<Key>, but: Key, k: Key, j: Key)
    requires KeepsOrder(q, r, but) && NoDup(r) && Precedes(r, k, j) && k != j && k != but && j != but && j in q
    ensures k in q && Precedes(q, k, j)
  {
    assert k in r && j in r;
    Asymmetric(r, k, j);
    if k in q {
      Comparable(q, k, j);
    }
  }

  lemma DispatchServesFirst(p: State, skip: Option<Key>, k: Key, j: Key)
    requires MidInv(p) && (skip.Some? ==> skip != p.active)
    requires k in p.delayed && k !in Dispatch(p, skip).state.delayed
    requires j in p.delayed && j != k && skip != Some(j)
    ensures Precedes(p.delayed, k, j)
  {
    var q := Rotated(p.delayed, skip);
    assert k == q[0];
    var i :| 0 <= i < |p.delayed| && p.delayed[i] == j;
    var m :| 0 <= m < |p.delayed| && p.delayed[m] == k;
    if q == p.delayed {
      assert m == 0;
    } else {
      assert q[0] == p.delayed[1];
      assert m == 1 && i != 0;
    }
  }

  /** Who is served from the queue is the one that waited longest, the named
      timeline left aside; a displaced one only if nobody else waited. */
  lemma ServedInTurn(s: State, op: Op, k: Key, j: Key)
    requires Inv(s) && !Ignored(s, op) && k != op.key && j != op.key && j != k
    requires (k in s.delayed || Displaced(s, op, k)) && k !in Step(s, op).state.delayed
    requires j in s.delayed
    ensures k in s.delayed && Precedes(s.delayed, k, j)
  {
    hide Step, Log, ClosingLog, Prefix, Dispatch, Skip, Inv, KeepsOrder, Ignored, Displaced, Precedes;
    StepSplits(s, op);
    PrefixQueue(s, op);
    PrefixOthers(s, op, k) by { InvNames(s, op, k); }
    SkipIsNamed(s, op);
    DispatchServesFirst(Prefix(s, op).state, Skip(s, op), k, j);
    FirstBefore(s.delayed, Prefix(s, op).state.delayed, op.key, k, j);
  }

  lemma InvNames(s: State, op: Op, k: Key)
    requires Inv(s)
    ensures NoDup(s.delayed) && (k in s.delayed || Displaced(s, op, k) ==> k in s.states)
  {
  }

  // ------------------------------------------------------------------- the slot --

  /** Exactly when a call takes the slot away: it renews or settles the running
      timeline itself, or the focus asks for a new proof. Otherwise, and unless
      it is the completion, the refresh runs on and nothing is emitted. */
  lemma SlotKeptExactly(s: State, op: Op)
    requires Inv(s) && !Ignored(s, op) && s.running.Some?
    ensures var r := s.running.value;
            var cancel := CancelNetwork(r.key, r.generation);
            var e := Step(s, op);
            && (cancel in e.actions <==>
                  if op.key == r.key then !op.Finish? && (op.MarkFresh? || op.epoch != r.epoch) else Demands(s, op))
            && (cancel !in e.actions && !op.Finish? ==> e.state.running == s.running && e.actions == [])
  {
    PrefixCancels(s, op);
    PrefixKeepsMidInv(s, op);
    hide Inv, MidInv, Demands, Ignored, Prefix;
    DispatchEmits(Prefix(s, op).state, Skip(s, op));
  }

  lemma PrefixCancels(s: State, op: Op)
    requires Inv(s) && !Ignored(s, op) && s.running.Some?
    ensures var r := s.running.value;
            var lost := if op.key == r.key then !op.Finish? && (op.MarkFresh? || op.epoch != r.epoch)
                        else Demands(s, op);
            && Prefix(s, op).actions == (if lost then [CancelNetwork(r.key, r.generation)] else [])
            && Prefix(s, op).state.running == (if lost || op.Finish? then None else s.running)
  {
    SerialsRunOut(s);
  }

  /** The scheduling pass emits at most one start, which says exactly what runs. */
  lemma DispatchEmits(p: State, skip: Option<Key>)
    requires QueueOk(p)
    ensures var d := Dispatch(p, skip);
            if d.state.running == p.running then d.actions == []
            else && p.running.None? && d.state.running.Some?
                 && var r := d.state.running.value;
                    d.actions == [Start(r.key, r.epoch, r.generation, 128)]
  {
  }

  /** A refresh preempted for the focus loses nothing: it is cancelled by name and
      waits at its epoch, behind everybody who waited before. */
  lemma PreemptedWaits(s: State, op: Op, j: Key)
    requires Inv(s) && !Ignored(s, op) && s.running.Some? && s.running.value.key != op.key && Demands(s, op)
    ensures var r := s.running.value;
            var t := Step(s, op).state;
            && CancelNetwork(r.key, r.generation) in Step(s, op).actions
            && r.key in t.states && t.states[r.key] == Deferred(r.epoch) && r.key in t.delayed
            && (j in s.delayed && j in t.delayed && j != op.key ==> Precedes(t.delayed, j, r.key))
  {
    var r := s.running.value;
    assert r.key !in s.delayed && Displaced(s, op, r.key) && s.states[r.key].epoch == r.epoch;
    FocusTakesSlot(s, op);
    hide Inv, Step, Ignored, Demands, Displaced;
    SlotKeptExactly(s, op);
    EveryOtherTimeline(s, op, r.key);
    QueueKeepsOrder(s, op);
  }

  /** When the focus asks for a new proof, it gets the slot or, out of serials, is
      left retryable. */
  lemma FocusTakesSlot(s: State, op: Op)
    requires Inv(s) && !Ignored(s, op) && Demands(s, op)
    ensures var t := Step(s, op).state;
            && t.active == Some(op.key) && op.key in t.states && op.key !in t.delayed
            && if s.generation == SERIAL_MAX then t.states[op.key] == Retryable(op.epoch) && t.running.None?
               else t.running == Some(Running(op.key, op.epoch, s.generation + 1))
    ensures s.running.Some? && s.running.value.key != op.key ==> !Served(s, Step(s, op).state, s.running.value.key)
  {
    SerialsRunOut(s);
    StepSplits(s, op);
    FocusIsDue(s, op);
    SkipIsNamed(s, op);
    PrefixCounter(s, op);
    hide Inv, MidInv, Demands, Ignored, Prefix, Step, Log, ClosingLog;
  }

  lemma FocusIsDue(s: State, op: Op)
    requires Inv(s) && !Ignored(s, op) && Demands(s, op)
    ensures var p := Prefix(s, op).state;
            && p.active == Some(op.key) && ActiveIsDue(p) && p.running.None?
            && p.states[op.key] == Unproven(op.epoch)
            && (s.running.Some? && s.running.value.key != op.key ==>
                  s.running.value.key in p.states && p.states[s.running.value.key].Deferred?)
  {
    if op.Activate? {
      ActivatedIsDue(s, op.key, op.epoch);
    }
  }

  lemma ActivatedIsDue(s: State, key: Key, epoch: nat)
    requires Inv(s) && !KnownEpochIsNewer(s, key, epoch) && Demands(s, Activate(key, epoch))
    ensures var p := ActivatePrefix(s, key, epoch).state;
            && p.active == Some(key) && ActiveIsDue(p) && p.running.None?
            && p.states[key] == Unproven(epoch)
            && (s.running.Some? && s.running.value.key != key ==>
                  s.running.value.key in p.states && p.states[s.running.value.key].Deferred?)
  {
    hide Inv, Demands, Preempt, DeferIfPending, ActivatePrefix, IsUnproven;
    InvFacts(s, key);
    ActivatePreempts(s, key, epoch);
    ActivateInSteps(s, key, epoch);
    var f := Focus(s, key, epoch);
    var p := if s.running.Some? then Preempt(f).state else f;
    if s.running.Some? {
      NoneRuns(f);
      PreemptOthers(f, key);
      PreemptOthers(f, s.running.value.key);
      StillUncancelled(f, key);
    }
    if s.active.Some? {
      DeferOthers(p, s.active.value, key);
      if s.running.Some? {
        DeferOthers(p, s.active.value, s.running.value.key);
      }
    }
  }

  lemma StillUncancelled(f: State, key: Key)
    requires f.cancelled != Some(key)
    ensures Preempt(f).state.cancelled != Some(key)
  {
  }

  // --------------------------------------------------------- the named timeline --

  /** The call comes too late to say anything new. */
  predicate Outdated(s: State, op: Op) {
    match op
    case Finish(k, e, g, _) => s.running != Some(Running(k, e, g))
    case Activate(k, e) => k in s.states && e < s.states[k].epoch
    case MarkFresh(k, e) => k in s.states && e < s.states[k].epoch
    case Invalidate(k, e) => k in s.states && e <= s.states[k].epoch
    case MarkUnproven(k, e) =>
      && k in s.states
      && (|| e < s.states[k].epoch
          || (e == s.states[k].epoch
              && (s.states[k].Fresh? || s.states[k].Refreshing?
                  || (s.states[k].Retryable? && s.generation == SERIAL_MAX))))
  }

  /** An outdated call changes and emits nothing. Any other leaves the timeline it
      names as it should be: focused and served when the focus asks for a new
      proof, untouched when it needs none, proven, or waiting in the background
      at exactly the new epoch. */
  lemma NamedTimeline(s: State, op: Op)
    requires Inv(s)
    ensures var k, e := op.key, Step(s, op);
            var t := e.state;
            if Outdated(s, op) then e == Effect(s, [])
            else
              && k in t.states
              && t.active == (if op.Activate? then Some(k) else s.active)
              && match op
                 case Activate(_, epoch) => k !in t.delayed && (!Demands(s, op) ==> t.states[k] == s.states[k])
                 case MarkFresh(_, epoch) =>
                   t.states[k] == Fresh(epoch) && k !in t.delayed && (t.running.Some? ==> t.running.value.key != k)
                 case Invalidate(_, epoch) =>
                   Demands(s, op) || (t.states[k] == Deferred(epoch) && k in t.delayed)
                 case MarkUnproven(_, epoch) =>
                   || Demands(s, op)
                   || (t.states[k] == Deferred(epoch) && k in t.delayed)
                   || (&& k !in t.delayed && !(s.running.Some? && s.running.value.key == k)
                       && if s.generation == SERIAL_MAX then t.states[k] == Retryable(epoch)
                          else t.running == Some(Running(k, epoch, s.generation + 1)))
                 case Finish(_, epoch, _, _) => !t.states[k].Refreshing? && k !in t.delayed
  {
    OutdatedExactly(s, op);
    if !Ignored(s, op) {
      StepKeepsInv(s, op);
      if Demands(s, op) {
        FocusTakesSlot(s, op);
      } else {
        SettledTimeline(s, op);
      }
    }
  }

  lemma OutdatedExactly(s: State, op: Op)
    requires Inv(s)
    ensures Outdated(s, op) <==> Ignored(s, op)
  {
    SerialsRunOut(s);
  }

  lemma SettledTimeline(s: State, op: Op)
    requires Inv(s) && !Ignored(s, op) && !Demands(s, op)
    ensures var k, t := op.key, Step(s, op).state;
            && k in t.states
            && t.active == (if op.Activate? then Some(k) else s.active)
            && match op
               case Activate(_, epoch) => k !in t.delayed && t.states[k] == s.states[k]
               case MarkFresh(_, epoch) =>
                 t.states[k] == Fresh(epoch) && k !in t.delayed && (t.running.Some? ==> t.running.value.key != k)
               case Invalidate(_, epoch) => t.states[k] == Deferred(epoch) && k in t.delayed
               case MarkUnproven(_, epoch) =>
                 || (t.states[k] == Deferred(epoch) && k in t.delayed)
                 || (&& k !in t.delayed && !(s.running.Some? && s.running.value.key == k)
                     && if s.generation == SERIAL_MAX then t.states[k] == Retryable(epoch)
                        else t.running == Some(Running(k, epoch, s.generation + 1)))
               case Finish(_, epoch, _, _) => !t.states[k].Refreshing? && k !in t.delayed
  {
    hide Step, Prefix, Dispatch, Log, ClosingLog, Ignored, Inv, MidInv, Skip, Demands, ActiveIsDue;
    StepSplits(s, op);
    PrefixNamed(s, op);
    PrefixCounter(s, op);
    SkipIsNamed(s, op);
    var p := Prefix(s, op).state;
    if Skip(s, op) == Some(op.key) {
      DispatchSkipsNamed(p, op.key);
    } else {
      DispatchOthers(p, Skip(s, op), op.key);
    }
    DispatchFocus(p, Skip(s, op));
  }

  lemma DispatchFocus(p: State, skip: Option<Key>)
    requires MidInv(p)
    ensures Dispatch(p, skip).state.active == p.active
  {
  }

  lemma DispatchSkipsNamed(p: State, k: Key)
    requires MidInv(p) && k in p.delayed
    ensures var t := Dispatch(p, Some(k)).state;
            k in t.states && t.states[k] == p.states[k] && k in t.delayed
  {
  }

  lemma PrefixNamed(s: State, op: Op)
    requires Inv(s) && !Ignored(s, op) && !Demands(s, op)
    ensures var k, p := op.key, Prefix(s, op).state;
            && k in p.states && !(p.active == Some(k) && ActiveIsDue(p))
            && match op
               case Activate(_, epoch) => k !in p.delayed && p.states[k] == s.states[k]
               case MarkFresh(_, epoch) =>
                 p.states[k] == Fresh(epoch) && k !in p.delayed && (p.running.Some? ==> p.running.value.key != k)
               case Invalidate(_, epoch) =>
                 p.states[k] == Deferred(epoch) && k in p.delayed && Skip(s, op) == Some(k)
               case MarkUnproven(_, epoch) =>
                 && p.states[k] == Deferred(epoch) && k in p.delayed
                 && (s.running.Some? && s.running.value.key == k ==> Skip(s, op) == Some(k))
               case Finish(_, epoch, _, _) => !p.states[k].Refreshing? && k !in p.delayed && p.running.None?
  {
    SerialsRunOut(s);
  }
}
