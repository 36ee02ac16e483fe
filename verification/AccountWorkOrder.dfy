/** Who is served before whom, who yields to whom and what every call adds or
    takes away, said in terms of kinds, accounts and tickets alone. */
module AccountWorkOrder {
  import opened Basics
  import opened AccountWork
  import opened AccountWorkRuns

  /** Kinds of work from the most to the least important. */
  function Place(kind: Kind): nat {
    match kind
    case MessageSend => 0
    case UserRoomOperation => 1
    case VisibleGapRepair => 2
    case ExplicitPagination => 3
    case OffscreenGapRepair => 4
    case MediaPrefetch => 5
    case SearchCrawl => 6
    case Maintenance => 7
  }

  predicate InBackground(kind: Kind) {
    kind == OffscreenGapRepair || kind == MediaPrefetch || kind == SearchCrawl || kind == Maintenance
  }

  /** Work under the shared budget. */
  predicate Metered(kind: Kind) {
    kind == SearchCrawl || kind == MediaPrefetch
  }

  /** Both wait in the background while exactly one of them is the selected
      account's. */
  predicate SelectionDecides(selected: Option<Account>, k: Kind, a: Option<Account>, l: Kind, b: Option<Account>) {
    InBackground(k) && InBackground(l) && selected.Some? && (a == selected) != (b == selected)
  }

  /** Work of kind `k` for `a` is strictly more important than work of kind `l`
      for `b`: in the background the selected account comes first whatever the
      kinds; otherwise the kind decides. */
  predicate Outweighs(selected: Option<Account>, k: Kind, a: Option<Account>, l: Kind, b: Option<Account>) {
    if SelectionDecides(selected, k, a, l, b) then a == selected else Place(k) < Place(l)
  }

  /** `v` is to be served before `w`: more important, or earlier at equal
      importance. */
  predicate Sooner(selected: Option<Account>, v: Waiter, w: Waiter) {
    || Outweighs(selected, v.kind, v.account, w.kind, w.account)
    || (&& v.kind == w.kind && !SelectionDecides(selected, v.kind, v.account, w.kind, w.account)
        && v.ticket < w.ticket)
  }

  /** Which kinds never queue, which are background work, which are metered. */
  lemma KindsExact(kind: Kind)
    ensures IsInteractive(kind) <==> kind == MessageSend || kind == UserRoomOperation
    ensures IsBackground(kind) <==> InBackground(kind)
    ensures UsesBudget(kind) <==> Metered(kind)
  {
  }

  lemma RankExact(selected: Option<Account>, k: Kind, a: Option<Account>, l: Kind, b: Option<Account>)
    ensures RankLess(WorkRank(selected, k, a), WorkRank(selected, l, b)) <==> Outweighs(selected, k, a, l, b)
    ensures WorkRank(selected, k, a) == WorkRank(selected, l, b) <==> k == l && !SelectionDecides(selected, k, a, l, b)
  {
  }

  lemma SoonerExact(s: Sched, v: Waiter, w: Waiter)
    ensures Before(s, v, w) <==> Sooner(s.selected, v, w)
  {
    RankExact(s.selected, v.kind, v.account, w.kind, w.account);
  }

  // --------------------------------------------------------------- admission --

  /** A metered waiter kept out by the pause. */
  predicate HeldBack(s: Sched, kind: Kind) {
    Metered(kind) && s.speed == Paused
  }

  /** Milliseconds the budget rests after a metered permit. */
  function Rest(speed: Speed): nat {
    if speed == Standard then 100 else if speed == Slow then 500 else 0
  }

  /** A waiter is admitted exactly when the slot is free, it comes before every
      other waiter the pause does not hold back, no interactive operation is
      under way if it is background work, and, if it is metered, the budget is
      not paused and has rested since the last metered permit. */
  lemma AdmittedExactly(y: System, w: Waiter, now: nat)
    requires Inv(y) && w in y.sched.waiting
    ensures Admits(y.sched, w, now) <==>
              var s := y.sched;
              && s.active == []
              && (forall o :: o in s.waiting && o != w && !HeldBack(s, o.kind) ==> Sooner(s.selected, w, o))
              && (InBackground(w.kind) ==> s.interactive == [])
              && (Metered(w.kind) ==>
                    && s.speed != Paused
                    && (s.lastCompleted.Some? ==> s.lastCompleted.value + Rest(s.speed) <= now))
  {
    var s := y.sched;
    AdmissionExact(y, w);
    hide CanAdmit, Before, Sooner, Inv;
    forall o | o in s.waiting ensures Before(s, w, o) <==> Sooner(s.selected, w, o) {
      SoonerExact(s, w, o);
    }
  }

  ghost predicate InServiceOrder(s: Sched, ws: seq<Waiter>) {
    && (forall i, j :: 0 <= i < j < |ws| ==> Sooner(s.selected, ws[i], ws[j]))
    && (forall w :: w in ws <==> w in s.waiting)
  }

  lemma ServiceOrderIsRankOrder(s: Sched, ws: seq<Waiter>)
    ensures InServiceOrder(s, ws) <==> Ordered(s, ws)
  {
    hide Before, Sooner;
    forall v, w ensures Before(s, v, w) <==> Sooner(s.selected, v, w) {
      SoonerExact(s, v, w);
    }
  }

  /** With no arrivals, guards, pause or selection changes, any interleaving of
      attempts and releases serves a prefix of the order of service. */
  lemma DrainsInServiceOrder(y: System, ops: seq<Op>, ws: seq<Waiter>)
    requires Inv(y) && Legal(y, ops) && Quiet(y.sched) && InServiceOrder(y.sched, ws)
    requires forall op :: op in ops ==> op.TryAdmit? || op.Release?
    ensures var n := |Served(y, ops)|;
            n <= |ws| && Served(y, ops) == ws[..n] && InServiceOrder(Exec(y, ops).sched, ws[n..])
  {
    ServiceOrderIsRankOrder(y.sched, ws);
    DrainsInRankOrder(y, ops, ws);
    ServiceOrderIsRankOrder(Exec(y, ops).sched, ws[|Served(y, ops)|..]);
  }

  // -------------------------------------------------------------- preemption --

  /** Something that may ask for the slot is strictly more important than `a`. */
  ghost predicate MustYield(s: Sched, a: Active) {
    || (exists w :: w in s.waiting && !HeldBack(s, w.kind)
                    && Outweighs(s.selected, w.kind, w.account, a.kind, a.account))
    || (exists g :: g in s.interactive && Outweighs(s.selected, g.kind, g.account, a.kind, a.account))
  }

  lemma MustYieldExact(s: Sched, a: Active)
    ensures MustYield(s, a) <==> Outranked(s, a)
  {
    hide Outweighs, RankLess, WorkRank;
    forall k, b ensures RankLess(WorkRank(s.selected, k, b), WorkRank(s.selected, a.kind, a.account))
                   <==> Outweighs(s.selected, k, b, a.kind, a.account)
    {
      RankExact(s.selected, k, b, a.kind, a.account);
    }
  }

  /** Reconsidering asks to yield exactly the preemptible permits that something
      entitled to the slot outweighs, and takes no request back. */
  lemma YieldsExactly(s: Sched, i: nat)
    requires i < |s.active|
    ensures |Preempt(s).active| == |s.active|
    ensures var a := s.active[i];
            Preempt(s).active[i] == a.(preempted := a.preempted || (a.preemptible && MustYield(s, a)))
  {
    PreemptExact(s);
    MustYieldExact(s, s.active[i]);
  }

  /** Only sends, room operations and media prefetch are never asked to yield. */
  lemma PreemptibleKinds(y: System, a: Active)
    requires Inv(y) && a in y.sched.active
    ensures a.preemptible <==> a.kind != MessageSend && a.kind != UserRoomOperation && a.kind != MediaPrefetch
  {
  }

  // -------------------------------------------------------------- bookkeeping --

  ghost predicate Holds(active: seq<Active>, id: nat, kind: Kind, account: Option<Account>) {
    exists a :: a in active && a.id == id && a.kind == kind && a.account == account
  }

  predicate Admitted(s: Sched, op: Op) {
    op.TryAdmit? && Admits(s, op.waiter, op.now)
  }

  lemma PreemptKeepsRest(s: Sched)
    ensures Preempt(s) == s.(active := Preempt(s).active)
  {
  }

  /** A waiter is in the queue from entering until it gives up or is admitted. */
  lemma WaitersExact(y: System, op: Op, w: Waiter)
    requires Inv(y) && Enabled(y, op)
    ensures w in Apply(y.sched, op).waiting <==>
              || op == Enter(w)
              || (w in y.sched.waiting && op != Abandon(w) && !(Admitted(y.sched, op) && op.waiter == w))
  {
    hide Preempt, Admits;
    forall s: Sched ensures Preempt(s) == s.(active := Preempt(s).active) {
      PreemptKeepsRest(s);
    }
  }

  /** A guard is held from its begin to its end; selection and speed are what was
      last set; and only the release of a metered permit restarts the budget's
      rest. */
  lemma GuardsAndSettingsExact(y: System, op: Op, g: Guard)
    requires Inv(y) && Enabled(y, op)
    ensures var s, t := y.sched, Apply(y.sched, op);
            && (g in t.interactive <==> || op == BeginInteractive(g)
                                        || (g in s.interactive && op != EndInteractive(g.id)))
            && t.selected == (if op.Select? then op.account else s.selected)
            && t.speed == (if op.SetSpeed? then op.speed else s.speed)
            && t.lastCompleted == (if op.Release? && Metered(op.kind) then Some(op.now) else s.lastCompleted)
  {
    hide Preempt, Admits;
    forall s: Sched ensures Preempt(s) == s.(active := Preempt(s).active) {
      PreemptKeepsRest(s);
    }
  }

  /** A permit is held from admission, for the waiter's kind and account, until
      its release. */
  lemma PermitsExact(y: System, op: Op, id: nat, kind: Kind, account: Option<Account>)
    requires Inv(y) && Enabled(y, op)
    ensures var s, t := y.sched, Apply(y.sched, op);
            Holds(t.active, id, kind, account) <==>
              || (Admitted(s, op) && op.waiter.id == id && op.waiter.kind == kind && op.waiter.account == account)
              || (Holds(s.active, id, kind, account) && !(op.Release? && op.id == id))
  {
    hide Preempt, Admits, Inv, PolicyOf;
    var s := y.sched;
    match op
    case Enter(v) => PreemptKeepsHolds(s.(waiting := s.waiting + [v]), id, kind, account);
    case TryAdmit(v, now) =>
      PreemptKeepsHolds(s, id, kind, account);
      assert Permit(v) in s.active + [Permit(v)];
    case Abandon(v) =>
    case Release(i, k, now) =>
      PreemptKeepsHolds(s.(active := DropActive(s.active, i),
                           lastCompleted := if UsesBudget(k) then Some(now) else s.lastCompleted), id, kind, account);
    case BeginInteractive(h) => PreemptKeepsHolds(s.(interactive := s.interactive + [h]), id, kind, account);
    case EndInteractive(i) =>
    case Select(a) => PreemptKeepsHolds(s.(selected := a), id, kind, account);
    case SetSpeed(_) =>
  }

  lemma PreemptKeepsHolds(s: Sched, id: nat, kind: Kind, account: Option<Account>)
    ensures Holds(Preempt(s).active, id, kind, account) <==> Holds(s.active, id, kind, account)
    ensures Preempt(s) == s.(active := Preempt(s).active)
  {
    PreemptExact(s);
    hide Preempt, Outranked;
    if Holds(s.active, id, kind, account) {
      var a :| a in s.active && a.id == id && a.kind == kind && a.account == account;
      var i :| 0 <= i < |s.active| && s.active[i] == a;
      assert Preempt(s).active[i] in Preempt(s).active;
    }
  }
}
