/** What the scheduler guarantees in every reachable state and over whole runs. */
module AccountWorkRuns {
  import opened Basics
  import opened AccountWork

  // ------------------------------------------------------------ preemption --

  /** Something entitled to the slot strictly outranks the active work `a`. */
  ghost predicate Outranked(s: Sched, a: Active) {
    || (exists w :: w in s.waiting && !PausedKind(s, w.kind)
                    && RankLess(WaiterRank(s, w), RankOf(s, a.kind, a.account)))
    || (exists g :: g in s.interactive
                    && RankLess(RankOf(s, g.kind, g.account), RankOf(s, a.kind, a.account)))
  }

  ghost predicate IsPendingRank(s: Sched, waiting: seq<Waiter>, interactive: seq<Guard>, r: Rank) {
    || (exists w :: w in waiting && !PausedKind(s, w.kind) && WaiterRank(s, w) == r)
    || (exists g :: g in interactive && RankOf(s, g.kind, g.account) == r)
  }

  lemma {:induction false} PendingRanksExact(s: Sched, waiting: seq<Waiter>, interactive: seq<Guard>, r: Rank)
    ensures r in PendingRanks(s, waiting, interactive) <==> IsPendingRank(s, waiting, interactive, r)
    decreases |waiting|, |interactive|
  {
    if waiting != [] {
      assert waiting == [waiting[0]] + waiting[1..];
      PendingRanksExact(s, waiting[1..], interactive, r);
    } else if interactive != [] {
      assert interactive == [interactive[0]] + interactive[1..];
      PendingRanksExact(s, waiting, interactive[1..], r);
    }
  }

  /** `preempt_locked` flags exactly the preemptible work that something
      entitled to the slot strictly outranks, keeps earlier flags, and changes
      nothing else. */
  lemma PreemptExact(s: Sched)
    ensures Preempt(s) == s.(active := Preempt(s).active) && |Preempt(s).active| == |s.active|
    ensures forall i :: 0 <= i < |s.active| ==>
              Preempt(s).active[i]
              == s.active[i].(preempted := s.active[i].preempted
                                           || (s.active[i].preemptible && Outranked(s, s.active[i])))
  {
    forall i | 0 <= i < |s.active|
      ensures Preempt(s).active[i]
              == s.active[i].(preempted := s.active[i].preempted
                                           || (s.active[i].preemptible && Outranked(s, s.active[i])))
    {
      FlagExact(s, s.active[i]);
    }
  }

  lemma FlagExact(s: Sched, a: Active)
    ensures match BestPending(s)
            case None => !Outranked(s, a)
            case Some(best) => Outranked(s, a) <==> RankLess(best, RankOf(s, a.kind, a.account))
  {
    var ranks := PendingRanks(s, s.waiting, s.interactive);
    forall r ensures r in ranks <==> IsPendingRank(s, s.waiting, s.interactive, r) {
      PendingRanksExact(s, s.waiting, s.interactive, r);
    }
    if Outranked(s, a) {
      if w :| w in s.waiting && !PausedKind(s, w.kind) && RankLess(WaiterRank(s, w), RankOf(s, a.kind, a.account)) {
        assert WaiterRank(s, w) in ranks;
      } else {
        var g :| g in s.interactive && RankLess(RankOf(s, g.kind, g.account), RankOf(s, a.kind, a.account));
        assert RankOf(s, g.kind, g.account) in ranks;
      }
    }
  }

  // ------------------------------------------------------------- invariant --

  lemma PreemptKeepsInv(y: System)
    requires Inv(y)
    ensures Inv(y.(sched := Preempt(y.sched)))
  {
  }

  /** Every step of every caller keeps the invariant; in particular at most one
      permit is active across all accounts, and work whose policy forbids
      preemption (media prefetch) is never flagged. */
  lemma StepKeepsInv(y: System, op: Op)
    requires Inv(y) && Enabled(y, op)
    ensures Inv(Step(y, op))
    ensures |Step(y, op).sched.active| <= 1
    ensures forall a :: a in Step(y, op).sched.active && a.kind == MediaPrefetch ==> !a.preempted
  {
    var s := y.sched;
    match op
    case Enter(w) =>
      PreemptKeepsInv(y.(sched := s.(waiting := s.waiting + [w]),
                         ids := y.ids + {w.id}, tickets := y.tickets + {w.ticket}));
    case TryAdmit(w, now) =>
      PreemptKeepsInv(y.(clock := now));
    case Abandon(w) =>
    case Release(id, kind, now) =>
      PreemptKeepsInv(y.(clock := now,
                         sched := s.(active := DropActive(s.active, id),
                                     lastCompleted := if UsesBudget(kind) then Some(now) else s.lastCompleted)));
    case BeginInteractive(g) =>
      PreemptKeepsInv(y.(sched := s.(interactive := s.interactive + [g]), ids := y.ids + {g.id}));
    case EndInteractive(id) =>
    case Select(account) =>
      PreemptKeepsInv(y.(sched := s.(selected := account)));
    case SetSpeed(speed) =>
  }

  // ------------------------------------------------------------- admission --

  /** An unpaused waiter passes the admission test exactly when the slot is
      free, it comes before every other unpaused waiter, and, for background
      work, no interactive guard is held. */
  lemma AdmissionExact(y: System, w: Waiter)
    requires Inv(y) && w in y.sched.waiting
    ensures CanAdmit(y.sched, w) <==>
              && y.sched.active == []
              && (forall o :: o in y.sched.waiting && o != w && !PausedKind(y.sched, o.kind) ==> Before(y.sched, w, o))
              && (IsBackground(w.kind) ==> y.sched.interactive == [])
  {
    var s := y.sched;
    if s.interactive != [] {
      assert s.interactive[0] in s.interactive;
    }
    assert s.active == [] ==> CountKind(s.active, w.kind) == 0;
    forall o | o in s.waiting && o != w ensures Before(s, w, o) <==> !Before(s, o, w) {
      assert o.ticket != w.ticket;
    }
  }

  /** At most one unpaused waiter is admissible. */
  lemma AdmissibleIsUnique(y: System, v: Waiter, w: Waiter, now: nat)
    requires Inv(y) && v in y.sched.waiting && w in y.sched.waiting
    requires Admits(y.sched, v, now) && Admits(y.sched, w, now)
    ensures v == w
  {
  }

  // ---------------------------------------------------- pause transparency --

  function NonBudget(waiting: seq<Waiter>): seq<Waiter> {
    Keep(waiting, (w: Waiter) => !UsesBudget(w.kind))
  }

  /** The queue as it would be had no shared-budget caller arrived. */
  function WithoutBudgetWaiters(s: Sched): Sched {
    s.(waiting := NonBudget(s.waiting))
  }

  /** `t` differs from the paused `s` by lacking the shared-budget waiters, and
      perhaps in its permits. */
  ghost predicate Stripped(s: Sched, t: Sched) {
    s.speed == Paused && t == WithoutBudgetWaiters(s).(active := t.active)
  }

  lemma PausedOutranks(s: Sched, t: Sched, a: Active, b: Active)
    requires Stripped(s, t) && a.kind == b.kind && a.account == b.account
    ensures Outranked(s, a) <==> Outranked(t, b)
  {
    if Outranked(s, a) {
      if v :| v in s.waiting && !PausedKind(s, v.kind) && RankLess(WaiterRank(s, v), RankOf(s, a.kind, a.account)) {
        assert v in t.waiting && WaiterRank(t, v) == WaiterRank(s, v);
      }
    }
    if Outranked(t, b) {
      if v :| v in t.waiting && !PausedKind(t, v.kind) && RankLess(WaiterRank(t, v), RankOf(t, b.kind, b.account)) {
        assert v in s.waiting && WaiterRank(t, v) == WaiterRank(s, v);
      }
    }
  }

  lemma PausedAdmits(s: Sched, t: Sched, w: Waiter, now: nat)
    requires Stripped(s, t) && |s.active| == |t.active|
    ensures !UsesBudget(w.kind) ==> (Admits(s, w, now) <==> Admits(t, w, now))
    ensures UsesBudget(w.kind) ==> !Admits(s, w, now)
  {
    assert forall o :: o in t.waiting && !PausedKind(t, o.kind) <==> o in s.waiting && !PausedKind(s, o.kind);
    assert s.active == [] ==> CountKind(s.active, w.kind) == 0 == CountKind(t.active, w.kind);
  }

  /** While the budget is paused its waiters are invisible: removing all of
      them changes neither the admission of any other waiter nor which active
      work is asked to yield, and none of them is admitted. */
  lemma PauseIsTransparent(s: Sched, w: Waiter, now: nat)
    requires s.speed == Paused
    ensures !UsesBudget(w.kind) ==> (Admits(s, w, now) <==> Admits(WithoutBudgetWaiters(s), w, now))
    ensures UsesBudget(w.kind) ==> !Admits(s, w, now)
    ensures Preempt(s).active == Preempt(WithoutBudgetWaiters(s)).active
  {
    var t := WithoutBudgetWaiters(s);
    PausedAdmits(s, t, w, now);
    PreemptExact(s);
    PreemptExact(t);
    hide Preempt, Outranked, Stripped;
    forall i | 0 <= i < |s.active| ensures Preempt(s).active[i] == Preempt(t).active[i] {
      assert Stripped(s, t) by { StripExact(s); }
      PausedOutranks(s, t, s.active[i], t.active[i]);
    }
  }

  lemma StripExact(s: Sched)
    requires s.speed == Paused
    ensures Stripped(s, WithoutBudgetWaiters(s))
  {
  }

  // ------------------------------------------------- preemption along steps --

  /** Steps after which `preempt_locked` has just run. */
  predicate Reconsiders(s: Sched, op: Op) {
    match op
    case TryAdmit(w, now) => !Admits(s, w, now)
    case Enter(_) => true
    case Release(_, _, _) => true
    case BeginInteractive(_) => true
    case Select(_) => true
    case _ => false
  }

  /** Preemption is sound and complete: a permit that stays active keeps its
      flag; a new flag lands only on preemptible work that something entitled
      to the slot strictly outranks; and after every step that reconsiders,
      all such work is flagged. */
  lemma PreemptionSoundAndComplete(y: System, op: Op, a: Active)
    requires Inv(y) && Enabled(y, op) && a in Step(y, op).sched.active
    ensures var t := Step(y, op).sched;
            && (op.TryAdmit? && Admits(y.sched, op.waiter, op.now) ==> a == Permit(op.waiter))
            && (!(op.TryAdmit? && Admits(y.sched, op.waiter, op.now)) ==>
                  exists b :: b in y.sched.active && a == b.(preempted := a.preempted)
                              && (b.preempted ==> a.preempted)
                              && (a.preempted && !b.preempted ==> a.preemptible && Outranked(t, a)))
            && (Reconsiders(y.sched, op) && a.preemptible && Outranked(t, a) ==> a.preempted)
  {
    var s := y.sched;
    var u := match op
             case Enter(w) => s.(waiting := s.waiting + [w])
             case TryAdmit(w, now) => s
             case Abandon(w) => s
             case Release(id, kind, now) =>
               s.(active := DropActive(s.active, id),
                  lastCompleted := if UsesBudget(kind) then Some(now) else s.lastCompleted)
             case BeginInteractive(g) => s.(interactive := s.interactive + [g])
             case EndInteractive(_) => s
             case Select(account) => s.(selected := account)
             case SetSpeed(_) => s;
    if Reconsiders(s, op) {
      assert Step(y, op).sched == Preempt(u);
      PreemptExact(u);
      var i :| 0 <= i < |u.active| && a == Preempt(u).active[i];
      assert u.active[i] in u.active && u.active[i] in s.active;
      OutrankedIgnoresFlags(u, Preempt(u), u.active[i], a);
    }
  }

  lemma OutrankedIgnoresFlags(s: Sched, t: Sched, a: Active, b: Active)
    requires t == s.(active := t.active) && b == a.(preempted := b.preempted)
    ensures Outranked(s, a) <==> Outranked(t, b)
  {
  }

  // ------------------------------------------------------------ whole runs --

  predicate Legal(y: System, ops: seq<Op>)
    decreases |ops|
  {
    ops == [] || (Enabled(y, ops[0]) && Legal(Step(y, ops[0]), ops[1..]))
  }

  function Exec(y: System, ops: seq<Op>): System
    decreases |ops|
  {
    if ops == [] then y else Exec(Step(y, ops[0]), ops[1..])
  }

  lemma {:induction false} RunKeepsInv(y: System, ops: seq<Op>)
    requires Inv(y) && Legal(y, ops)
    ensures Inv(Exec(y, ops))
    decreases |ops|
  {
    if ops != [] {
      StepKeepsInv(y, ops[0]);
      RunKeepsInv(Step(y, ops[0]), ops[1..]);
    }
  }

  /** Every state reachable from start-up is good. */
  lemma ReachableStatesAreGood(ops: seq<Op>)
    requires Legal(START, ops)
    ensures Inv(Exec(START, ops)) && |Exec(START, ops).sched.active| <= 1
  {
    RunKeepsInv(START, ops);
  }

  predicate Grants(s: Sched, op: Op) {
    op.TryAdmit? && Admits(s, op.waiter, op.now)
  }

  /** The step takes `w` out of the queue: it is admitted or gives up. */
  predicate Departs(y: System, op: Op, w: Waiter) {
    w in y.sched.waiting && (op == Abandon(w) || (Grants(y.sched, op) && op.waiter == w))
  }

  lemma StepKeepsWaiters(y: System, op: Op, w: Waiter)
    requires Inv(y) && Enabled(y, op) && w in y.sched.waiting && !Departs(y, op, w)
    ensures w in Step(y, op).sched.waiting
  {
  }

  lemma {:induction false} LeavesOnlyByDeparting(y: System, ops: seq<Op>, w: Waiter)
    requires Inv(y) && Legal(y, ops) && w in y.sched.waiting && w !in Exec(y, ops).sched.waiting
    ensures exists j :: 0 <= j < |ops| && Departs(Exec(y, ops[..j]), ops[j], w)
    decreases |ops|
  {
    if Departs(y, ops[0], w) {
      assert ops[..0] == [] && Exec(y, ops[..0]) == y;
    } else {
      StepKeepsInv(y, ops[0]);
      StepKeepsWaiters(y, ops[0], w);
      var next := Step(y, ops[0]);
      LeavesOnlyByDeparting(next, ops[1..], w);
      var j :| 0 <= j < |ops[1..]| && Departs(Exec(next, ops[1..][..j]), ops[1..][j], w);
      assert ops[..j + 1][1..] == ops[1..][..j];
      assert Exec(y, ops[..j + 1]) == Exec(next, ops[1..][..j]);
    }
  }

  /** Two waiters of one kind and account are served in ticket order, however
      selection, speed and other callers interleave: when the later one is
      admitted, the earlier one has already been admitted or given up. */
  lemma FifoWithinKind(y: System, ops: seq<Op>, a: Waiter, b: Waiter, now: nat)
    requires Inv(y) && Legal(y, ops)
    requires a in y.sched.waiting && b in y.sched.waiting
    requires a.kind == b.kind && a.account == b.account && a.ticket < b.ticket
    requires b in Exec(y, ops).sched.waiting && Admits(Exec(y, ops).sched, b, now)
    ensures exists j :: 0 <= j < |ops| && Departs(Exec(y, ops[..j]), ops[j], a)
  {
    RunKeepsInv(y, ops);
    AdmissionExact(Exec(y, ops), b);
    LeavesOnlyByDeparting(y, ops, a);
  }

  /** From the moment an interactive guard is taken until it is dropped, no
      step starts background work. */
  lemma {:induction false} NoBackgroundDuringInteractive(y: System, ops: seq<Op>, g: Guard, j: nat)
    requires Inv(y) && Legal(y, ops) && g in y.sched.interactive
    requires EndInteractive(g.id) !in ops
    requires j < |ops| && Grants(Exec(y, ops[..j]).sched, ops[j])
    ensures !IsBackground(ops[j].waiter.kind)
    decreases |ops|
  {
    if j == 0 {
      AdmissionExact(y, ops[0].waiter);
    } else {
      StepKeepsInv(y, ops[0]);
      assert ops[..j][1..] == ops[1..][..j - 1];
      NoBackgroundDuringInteractive(Step(y, ops[0]), ops[1..], g, j - 1);
    }
  }

  lemma {:induction false} CompletionRemembered(y: System, ops: seq<Op>, since: nat)
    requires Inv(y) && Legal(y, ops)
    requires y.sched.lastCompleted.Some? && since <= y.sched.lastCompleted.value
    ensures var last := Exec(y, ops).sched.lastCompleted; last.Some? && since <= last.value
    decreases |ops|
  {
    if ops != [] {
      StepKeepsInv(y, ops[0]);
      CompletionRemembered(Step(y, ops[0]), ops[1..], since);
    }
  }

  /** Whenever a shared-budget permit starts, at least the interval in force at
      that moment has passed since every shared-budget permit released before
      it, and the budget is not paused. */
  lemma BudgetIsRateLimited(y: System, release: Op, ops: seq<Op>, w: Waiter, now: nat)
    requires Inv(y) && release.Release? && UsesBudget(release.kind)
    requires Legal(y, [release] + ops)
    requires UsesBudget(w.kind) && Admits(Exec(y, [release] + ops).sched, w, now)
    ensures var s := Exec(y, [release] + ops).sched;
            s.speed != Paused && release.now + BackgroundInterval(s.speed) <= now
  {
    assert ([release] + ops)[1..] == ops;
    StepKeepsInv(y, release);
    CompletionRemembered(Step(y, release), ops, release.now);
  }

  // ------------------------------------------------------------ drain order --

  ghost predicate InOrder(s: Sched, ws: seq<Waiter>) {
    forall i, j :: 0 <= i < j < |ws| ==> Before(s, ws[i], ws[j])
  }

  /** `ws` lists the waiters in order of service. */
  ghost predicate Ordered(s: Sched, ws: seq<Waiter>) {
    && InOrder(s, ws)
    && (forall w :: w in ws <==> w in s.waiting)
  }

  /** Nothing but the budget's clock stands between waiters and the slot. */
  predicate Quiet(s: Sched) { s.interactive == [] && s.speed != Paused }

  predicate Draining(op: Op) { op.TryAdmit? || op.Release? }

  /** The waiters a run admits, in order. */
  function Served(y: System, ops: seq<Op>): seq<Waiter>
    decreases |ops|
  {
    if ops == [] then []
    else (if Grants(y.sched, ops[0]) then [ops[0].waiter] else []) + Served(Step(y, ops[0]), ops[1..])
  }

  lemma HeadIsAdmissible(y: System, ws: seq<Waiter>, w: Waiter)
    requires Inv(y) && Quiet(y.sched) && Ordered(y.sched, ws) && w in y.sched.waiting
    ensures ws != [] && (CanAdmit(y.sched, w) <==> y.sched.active == [] && w == ws[0])
  {
  }

  lemma DrainingStep(y: System, op: Op, ws: seq<Waiter>)
    requires Inv(y) && Enabled(y, op) && Draining(op) && Quiet(y.sched) && Ordered(y.sched, ws)
    ensures Quiet(Step(y, op).sched)
    ensures if Grants(y.sched, op) then ws != [] && op.waiter == ws[0] && Ordered(Step(y, op).sched, ws[1..])
            else Ordered(Step(y, op).sched, ws)
  {
  }

  /** With no arrivals, guards, pause or selection changes, any interleaving of
      admission attempts and releases serves the waiters exactly in the order
      of (rank, ticket), one after the other. */
  lemma {:induction false} DrainsInRankOrder(y: System, ops: seq<Op>, ws: seq<Waiter>)
    requires Inv(y) && Legal(y, ops) && Quiet(y.sched) && Ordered(y.sched, ws)
    requires forall op :: op in ops ==> Draining(op)
    ensures var n := |Served(y, ops)|;
            n <= |ws| && Served(y, ops) == ws[..n] && Ordered(Exec(y, ops).sched, ws[n..])
    decreases |ops|
  {
    hide Step, Enabled, Grants, Ordered, Inv, Quiet;
    if ops != [] {
      StepKeepsInv(y, ops[0]);
      DrainingStep(y, ops[0], ws);
      var next := Step(y, ops[0]);
      if Grants(y.sched, ops[0]) {
        DrainsInRankOrder(next, ops[1..], ws[1..]);
        var n := |Served(next, ops[1..])|;
        assert ws[1..][..n] == ws[1..n + 1] && ws[1..][n..] == ws[n + 1..];
        assert [ws[0]] + ws[1..n + 1] == ws[..n + 1];
      } else {
        DrainsInRankOrder(next, ops[1..], ws);
      }
    }
  }

  /** Admit and release each listed waiter, half a second apart. */
  function AdmitAndRelease(ws: seq<Waiter>, clock: nat): seq<Op> {
    if ws == [] then []
    else [TryAdmit(ws[0], clock + 500), Release(ws[0].id, ws[0].kind, clock + 500)]
         + AdmitAndRelease(ws[1..], clock + 500)
  }

  /** One admission and release of the first waiter in the order. */
  lemma ServeHead(y: System, ws: seq<Waiter>)
    requires Inv(y) && Quiet(y.sched) && y.sched.active == [] && ws != [] && Ordered(y.sched, ws)
    ensures var t := y.clock + 500;
            var admit, release := TryAdmit(ws[0], t), Release(ws[0].id, ws[0].kind, t);
            var mid := Step(y, admit);
            var end := Step(mid, release);
            && Enabled(y, admit) && Grants(y.sched, admit) && Enabled(mid, release)
            && Inv(end) && Quiet(end.sched) && end.sched.active == [] && Ordered(end.sched, ws[1..])
            && end.clock == t
  {
    var t := y.clock + 500;
    var admit, release := TryAdmit(ws[0], t), Release(ws[0].id, ws[0].kind, t);
    assert ws[0] in ws;
    HeadIsAdmissible(y, ws, ws[0]);
    var mid := Step(y, admit);
    StepKeepsInv(y, admit);
    DrainingStep(y, admit, ws);
    assert mid.sched.active == [Permit(ws[0])];
    assert Permit(ws[0]) in mid.sched.active;
    StepKeepsInv(mid, release);
    DrainingStep(mid, release, ws[1..]);
    ReleaseEmpties(mid, release);
  }

  /** Such a run always exists and serves everybody. */
  lemma {:induction false} DrainCompletes(y: System, ws: seq<Waiter>)
    requires Inv(y) && Quiet(y.sched) && y.sched.active == [] && Ordered(y.sched, ws)
    ensures var ops := AdmitAndRelease(ws, y.clock);
            Legal(y, ops) && Served(y, ops) == ws && Exec(y, ops).sched.waiting == []
    decreases |ws|
  {
    hide Step, Enabled, Grants, Inv, InOrder, Quiet;
    if ws == [] {
      NonEmptyHasMember(y.sched.waiting);
    } else {
      ServeHead(y, ws);
      var t := y.clock + 500;
      var admit, release := TryAdmit(ws[0], t), Release(ws[0].id, ws[0].kind, t);
      DrainCompletes(Step(Step(y, admit), release), ws[1..]);
      RunsTwo(y, admit, release, AdmitAndRelease(ws[1..], t));
    }
  }

  lemma RunsTwo(y: System, a: Op, b: Op, rest: seq<Op>)
    requires b.Release?
    ensures var ops, end := [a, b] + rest, Step(Step(y, a), b);
            && (Legal(y, ops) <==> Enabled(y, a) && Enabled(Step(y, a), b) && Legal(end, rest))
            && Exec(y, ops) == Exec(end, rest)
            && Served(y, ops) == (if Grants(y.sched, a) then [a.waiter] else []) + Served(end, rest)
  {
    hide Step, Enabled;
    var ops := [a, b] + rest;
    assert ops[1..] == [b] + rest && ([b] + rest)[1..] == rest;
    assert Served(Step(y, a), [b] + rest) == Served(Step(Step(y, a), b), rest);
  }

  lemma ReleaseEmpties(y: System, release: Op)
    requires Inv(y) && release.Release? && Enabled(y, release)
    ensures Step(y, release).sched.active == []
  {
  }

  function Insert(s: Sched, w: Waiter, ws: seq<Waiter>): seq<Waiter> {
    if ws == [] || Before(s, w, ws[0]) then [w] + ws
    else if w == ws[0] then ws
    else [ws[0]] + Insert(s, w, ws[1..])
  }

  function Sorted(s: Sched, waiting: seq<Waiter>): seq<Waiter> {
    if waiting == [] then [] else Insert(s, waiting[0], Sorted(s, waiting[1..]))
  }

  lemma {:induction false} InsertInOrder(s: Sched, w: Waiter, ws: seq<Waiter>)
    requires InOrder(s, ws)
    requires forall v :: v in ws && v != w ==> v.ticket != w.ticket
    ensures InOrder(s, Insert(s, w, ws))
    ensures forall v :: v in Insert(s, w, ws) <==> v in ws || v == w
  {
    if ws != [] && !Before(s, w, ws[0]) && w != ws[0] {
      assert ws[0] in ws;
      InsertInOrder(s, w, ws[1..]);
      assert Before(s, ws[0], w);
      assert forall v :: v in ws[1..] ==> Before(s, ws[0], v);
      var rest := Insert(s, w, ws[1..]);
      assert forall j :: 0 <= j < |rest| ==> Before(s, ws[0], rest[j]);
      assert forall v :: v in ws <==> v == ws[0] || v in ws[1..];
    }
  }

  lemma {:induction false} SortedInOrder(s: Sched, waiting: seq<Waiter>)
    requires forall v, w :: v in waiting && w in waiting && v.ticket == w.ticket ==> v == w
    ensures InOrder(s, Sorted(s, waiting))
    ensures forall v :: v in Sorted(s, waiting) <==> v in waiting
  {
    hide InOrder, Before;
    if waiting == [] {
      assert InOrder(s, []) by { EmptyInOrder(s); }
    } else {
      var rest := waiting[1..];
      SortedInOrder(s, rest);
      InsertInOrder(s, waiting[0], Sorted(s, rest));
      assert waiting == [waiting[0]] + rest;
    }
  }

  lemma EmptyInOrder(s: Sched)
    ensures InOrder(s, [])
  {
  }

  /** Every reachable queue has an order of service. */
  lemma QueueHasOrder(y: System)
    requires Inv(y)
    ensures Ordered(y.sched, Sorted(y.sched, y.sched.waiting))
  {
    SortedInOrder(y.sched, y.sched.waiting);
  }

  // ----------------------------------------------------------- paused runs --

  /** A call made by or for a shared-budget waiter. */
  predicate BudgetCall(op: Op) {
    (op.Enter? || op.TryAdmit? || op.Abandon?) && UsesBudget(op.waiter.kind)
  }

  function WithoutBudgetCalls(ops: seq<Op>): seq<Op> {
    if ops == [] then []
    else (if BudgetCall(ops[0]) then [] else [ops[0]]) + WithoutBudgetCalls(ops[1..])
  }

  /** The same permits; `b` may have been asked to yield later than `a`. */
  predicate SamePermits(a: seq<Active>, b: seq<Active>) {
    && |a| == |b|
    && forall i :: 0 <= i < |a| ==> b[i] == a[i].(preempted := b[i].preempted) && (b[i].preempted ==> a[i].preempted)
  }

  /** `z` is `y` had no shared-budget waiter ever called. */
  ghost predicate Twin(y: System, z: System) {
    && Inv(y) && Inv(z)
    && Stripped(y.sched, z.sched) && SamePermits(y.sched.active, z.sched.active)
    && z.ids <= y.ids && z.tickets <= y.tickets && z.clock <= y.clock
  }

  lemma {:induction false} KeepConcat<T(!new)>(a: seq<T>, b: seq<T>, keep: T -> bool)
    ensures Keep(a + b, keep) == Keep(a, keep) + Keep(b, keep)
  {
    if a == [] {
      assert a + b == b;
    } else {
      assert (a + b)[1..] == a[1..] + b;
      KeepConcat(a[1..], b, keep);
    }
  }

  lemma {:induction false} KeepCommutes<T(!new)>(xs: seq<T>, f: T -> bool, g: T -> bool)
    ensures Keep(Keep(xs, f), g) == Keep(Keep(xs, g), f)
  {
    if xs != [] {
      KeepCommutes(xs[1..], f, g);
      KeepConcat(if f(xs[0]) then [xs[0]] else [], Keep(xs[1..], f), g);
      KeepConcat(if g(xs[0]) then [xs[0]] else [], Keep(xs[1..], g), f);
    }
  }

  lemma NonBudgetPush(waiting: seq<Waiter>, w: Waiter)
    ensures NonBudget(waiting + [w]) == NonBudget(waiting) + if UsesBudget(w.kind) then [] else [w]
  {
    KeepConcat(waiting, [w], (w: Waiter) => !UsesBudget(w.kind));
  }

  lemma NonBudgetDrop(waiting: seq<Waiter>, id: nat)
    ensures NonBudget(DropWaiter(waiting, id)) == DropWaiter(NonBudget(waiting), id)
  {
    KeepCommutes(waiting, (w: Waiter) => w.id != id, (w: Waiter) => !UsesBudget(w.kind));
  }

  lemma {:induction false} KeepAll<T(!new)>(xs: seq<T>, keep: T -> bool)
    requires forall x :: x in xs ==> keep(x)
    ensures Keep(xs, keep) == xs
  {
    if xs != [] {
      KeepAll(xs[1..], keep);
    }
  }

  lemma PreemptStripped(s: Sched, t: Sched)
    requires Stripped(s, t) && SamePermits(s.active, t.active)
    ensures Stripped(Preempt(s), Preempt(t)) && SamePermits(Preempt(s).active, Preempt(t).active)
    ensures Stripped(Preempt(s), t) && SamePermits(Preempt(s).active, t.active)
  {
    PreemptExact(s);
    PreemptExact(t);
    hide Preempt, Outranked;
    forall i | 0 <= i < |s.active| ensures Outranked(s, s.active[i]) <==> Outranked(t, t.active[i]) {
      PausedOutranks(s, t, s.active[i], t.active[i]);
    }
  }

  lemma DropSamePermits(a: seq<Active>, b: seq<Active>, id: nat)
    requires SamePermits(a, b) && |a| <= 1
    ensures SamePermits(DropActive(a, id), DropActive(b, id))
  {
  }

  /** The scheduler state a call prepares before it reconsiders preemption. */
  lemma PausedApply(s: Sched, t: Sched, op: Op)
    requires Stripped(s, t) && SamePermits(s.active, t.active) && |s.active| <= 1
    requires !BudgetCall(op) && (op.SetSpeed? ==> op.speed == Paused)
    ensures Stripped(Apply(s, op), Apply(t, op)) && SamePermits(Apply(s, op).active, Apply(t, op).active)
    ensures Grants(s, op) <==> Grants(t, op)
  {
    hide Preempt, Admits, UsesBudget;
    match op
    case Enter(w) =>
      NonBudgetPush(s.waiting, w);
      PreemptStripped(s.(waiting := s.waiting + [w]), t.(waiting := t.waiting + [w]));
    case TryAdmit(w, now) =>
      PausedAdmits(s, t, w, now);
      NonBudgetDrop(s.waiting, w.id);
      PreemptStripped(s, t);
    case Abandon(w) => NonBudgetDrop(s.waiting, w.id);
    case Release(id, kind, now) =>
      DropSamePermits(s.active, t.active, id);
      var last := if UsesBudget(kind) then Some(now) else s.lastCompleted;
      PreemptStripped(s.(active := DropActive(s.active, id), lastCompleted := last),
                      t.(active := DropActive(t.active, id), lastCompleted := last));
    case BeginInteractive(g) =>
      PreemptStripped(s.(interactive := s.interactive + [g]), t.(interactive := t.interactive + [g]));
    case EndInteractive(id) =>
    case Select(account) => PreemptStripped(s.(selected := account), t.(selected := account));
    case SetSpeed(speed) =>
  }

  /** A call for a shared-budget waiter leaves no trace but the waiter. */
  lemma PausedBudgetApply(y: System, t: Sched, op: Op)
    requires Inv(y) && Enabled(y, op) && BudgetCall(op)
    requires Stripped(y.sched, t) && SamePermits(y.sched.active, t.active)
    ensures Stripped(Apply(y.sched, op), t) && SamePermits(Apply(y.sched, op).active, t.active)
    ensures !Grants(y.sched, op)
  {
    var s := y.sched;
    hide Preempt, Admits;
    match op
    case Enter(w) =>
      NonBudgetPush(s.waiting, w);
      assert NonBudget(s.waiting) + [] == NonBudget(s.waiting);
      PreemptStripped(s.(waiting := s.waiting + [w]), t);
    case TryAdmit(w, now) =>
      PausedAdmits(s, t, w, now);
      PreemptStripped(s, t);
    case Abandon(w) =>
      NonBudgetDrop(s.waiting, w.id);
      KeepAll(NonBudget(s.waiting), (v: Waiter) => v.id != w.id);
  }

  lemma PausedEnabled(y: System, z: System, op: Op)
    requires Twin(y, z) && Enabled(y, op) && !BudgetCall(op)
    ensures Enabled(z, op)
  {
    if op.Release? {
      var a :| a in y.sched.active && a.id == op.id && a.kind == op.kind;
      assert y.sched.active[0] == a && z.sched.active[0] in z.sched.active;
    }
  }

  lemma PausedStep(y: System, z: System, op: Op)
    requires Twin(y, z) && Enabled(y, op) && (op.SetSpeed? ==> op.speed == Paused)
    ensures if BudgetCall(op) then Twin(Step(y, op), z) && !Grants(y.sched, op)
            else Enabled(z, op) && Twin(Step(y, op), Step(z, op)) && (Grants(y.sched, op) <==> Grants(z.sched, op))
  {
    StepKeepsInv(y, op);
    if BudgetCall(op) {
      PausedBudgetApply(y, z.sched, op);
    } else {
      PausedEnabled(y, z, op);
      StepKeepsInv(z, op);
      PausedApply(y.sched, z.sched, op);
    }
    hide Inv, Stripped, SamePermits, Apply, Grants;
  }

  lemma {:induction false} TwinRunsAgree(y: System, z: System, ops: seq<Op>)
    requires Twin(y, z) && Legal(y, ops)
    requires forall op :: op in ops && op.SetSpeed? ==> op.speed == Paused
    ensures var others := WithoutBudgetCalls(ops);
            && Legal(z, others) && Served(y, ops) == Served(z, others)
            && Twin(Exec(y, ops), Exec(z, others))
    decreases |ops|
  {
    hide Twin, Step, Enabled, Grants, BudgetCall;
    if ops != [] {
      assert ops[0] in ops;
      PausedStep(y, z, ops[0]);
      if BudgetCall(ops[0]) {
        TwinRunsAgree(Step(y, ops[0]), z, ops[1..]);
        assert WithoutBudgetCalls(ops) == WithoutBudgetCalls(ops[1..]);
      } else {
        TwinRunsAgree(Step(y, ops[0]), Step(z, ops[0]), ops[1..]);
        assert WithoutBudgetCalls(ops)[1..] == WithoutBudgetCalls(ops[1..]);
      }
    }
  }

  /** A pause is transparent over whole runs: as long as the budget stays paused,
      a run serves exactly the waiters, in the same order, that it would serve
      had no shared-budget caller been waiting or called; the other run is one
      the callers could have made, and both end with the same other waiters,
      guards and permits. */
  lemma PausedRunsIgnoreBudget(y: System, ops: seq<Op>)
    requires Inv(y) && y.sched.speed == Paused && Legal(y, ops)
    requires forall op :: op in ops && op.SetSpeed? ==> op.speed == Paused
    ensures var z, others := y.(sched := WithoutBudgetWaiters(y.sched)), WithoutBudgetCalls(ops);
            && Legal(z, others) && Served(y, ops) == Served(z, others)
            && Stripped(Exec(y, ops).sched, Exec(z, others).sched)
            && SamePermits(Exec(y, ops).sched.active, Exec(z, others).sched.active)
  {
    var z := y.(sched := WithoutBudgetWaiters(y.sched));
    assert Twin(y, z);
    TwinRunsAgree(y, z, ops);
  }

  /** Why only up to flags: foreground work admitted while a guard is held is
      asked to yield by a shared-budget caller's refused attempt, and by no call
      of its own. */
  lemma BudgetAttemptFlags(w: Waiter, b: Waiter, g: Guard)
    requires w.kind == ExplicitPagination && b.kind == SearchCrawl && g.kind == MessageSend && w.id != b.id
    ensures var s := Sched([], [w, b], [g], None, Paused, None);
            var admitted := Apply(s, TryAdmit(w, 0));
            && admitted.active == [Permit(w)]
            && Apply(admitted, TryAdmit(b, 0)).active == [Permit(w).(preempted := true)]
  {
    var s := Sched([], [w, b], [g], None, Paused, None);
    assert Admits(s, w, 0);
    var admitted := Apply(s, TryAdmit(w, 0));
    assert !Admits(admitted, b, 0);
    PreemptExact(admitted);
    assert g in admitted.interactive && Outranked(admitted, Permit(w));
  }
}
