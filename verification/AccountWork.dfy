/** The account work scheduler of `account_work.rs`: one slot shared by every
    account runtime, ranks that depend on the selected account, first-come order
    inside a rank, cooperative preemption, interactive guards and a pausable,
    rate-limited background budget. Every lock section is one step. */
module AccountWork {
  import opened Basics

  type Account(==, !new)

  datatype Kind =
    | MessageSend
    | UserRoomOperation
    | VisibleGapRepair
    | ExplicitPagination
    | OffscreenGapRepair
    | SearchCrawl
    | MediaPrefetch
    | Maintenance

  datatype Class = Interactive | Foreground | Background

  datatype Policy = Policy(priority: nat, cls: Class, preemptible: bool, maxConcurrency: nat)

  function PolicyOf(kind: Kind): Policy {
    match kind
    case MessageSend => Policy(0, Interactive, false, 1)
    case UserRoomOperation => Policy(16, Interactive, false, 1)
    case VisibleGapRepair => Policy(32, Foreground, true, 1)
    case ExplicitPagination => Policy(40, Foreground, true, 1)
    case OffscreenGapRepair => Policy(96, Background, true, 1)
    case MediaPrefetch => Policy(112, Background, false, 1)
    case SearchCrawl => Policy(128, Background, true, 1)
    case Maintenance => Policy(192, Background, true, 1)
  }

  predicate IsInteractive(kind: Kind) { PolicyOf(kind).cls == Interactive }

  predicate IsBackground(kind: Kind) { PolicyOf(kind).cls == Background }

  predicate UsesBudget(kind: Kind) { kind == SearchCrawl || kind == MediaPrefetch }

  datatype Speed = Standard | Fast | Slow | Paused

  /** Milliseconds between a completed background permit and the next one. */
  function BackgroundInterval(speed: Speed): nat {
    match speed
    case Fast => 0
    case Standard => 100
    case Slow => 500
    case Paused => 0
  }

  const SHARED_WORK_CONCURRENCY: nat := 1

  // ----------------------------------------------------------------- ranks --

  datatype Rank = Rank(cls: nat, account: nat, priority: nat)

  /** Tuples compare lexicographically; lower is more important. */
  predicate RankLess(a: Rank, b: Rank) {
    || a.cls < b.cls
    || (a.cls == b.cls && a.account < b.account)
    || (a.cls == b.cls && a.account == b.account && a.priority < b.priority)
  }

  function WorkRank(selected: Option<Account>, kind: Kind, account: Option<Account>): Rank {
    var policy := PolicyOf(kind);
    Rank(match policy.cls
         case Interactive => 0
         case Foreground => 1
         case Background => 2,
         if policy.cls == Background && selected.Some? && account != selected then 1 else 0,
         policy.priority)
  }

  // ----------------------------------------------------------------- state --

  datatype Waiter = Waiter(id: nat, kind: Kind, account: Option<Account>, ticket: nat)

  datatype Active = Active(id: nat, kind: Kind, account: Option<Account>, preemptible: bool, preempted: bool)

  datatype Guard = Guard(id: nat, kind: Kind, account: Option<Account>)

  datatype Sched = Sched(
    active: seq<Active>,
    waiting: seq<Waiter>,
    interactive: seq<Guard>,
    selected: Option<Account>,
    speed: Speed,
    lastCompleted: Option<nat>)

  const INITIAL: Sched := Sched([], [], [], None, Standard, None)

  function RankOf(s: Sched, kind: Kind, account: Option<Account>): Rank {
    WorkRank(s.selected, kind, account)
  }

  function WaiterRank(s: Sched, w: Waiter): Rank { RankOf(s, w.kind, w.account) }

  /** A shared-budget waiter that the paused budget keeps out. */
  predicate PausedKind(s: Sched, kind: Kind) { UsesBudget(kind) && s.speed == Paused }

  /** Order of service: rank first, then arrival ticket. */
  predicate Before(s: Sched, a: Waiter, b: Waiter) {
    || RankLess(WaiterRank(s, a), WaiterRank(s, b))
    || (WaiterRank(s, a) == WaiterRank(s, b) && a.ticket < b.ticket)
  }

  function CountKind(active: seq<Active>, kind: Kind): nat {
    if active == [] then 0
    else (if active[0].kind == kind then 1 else 0) + CountKind(active[1..], kind)
  }

  /** `can_admit_locked` */
  predicate CanAdmit(s: Sched, w: Waiter) {
    && |s.active| < SHARED_WORK_CONCURRENCY
    && CountKind(s.active, w.kind) < PolicyOf(w.kind).maxConcurrency
    && (forall o :: o in s.waiting && o.id != w.id && !PausedKind(s, o.kind) ==> !Before(s, o, w))
    && (IsBackground(w.kind) ==>
          forall g :: g in s.interactive ==> !RankLess(RankOf(s, g.kind, g.account), WaiterRank(s, w)))
  }

  /** When the budget next opens for `kind`, if it is closed by the rate limit. */
  function Deadline(s: Sched, kind: Kind): Option<nat> {
    if UsesBudget(kind) && s.lastCompleted.Some? then Some(s.lastCompleted.value + BackgroundInterval(s.speed))
    else None
  }

  /** The full admission test of one pass of `acquire`. */
  predicate Admits(s: Sched, w: Waiter, now: nat) {
    && !PausedKind(s, w.kind)
    && (Deadline(s, w.kind).Some? ==> Deadline(s, w.kind).value <= now)
    && CanAdmit(s, w)
  }

  /** Ranks of everything that may ask for the slot. */
  function PendingRanks(s: Sched, waiting: seq<Waiter>, interactive: seq<Guard>): seq<Rank>
    decreases |waiting|, |interactive|
  {
    if waiting != [] then
      (if PausedKind(s, waiting[0].kind) then [] else [WaiterRank(s, waiting[0])])
      + PendingRanks(s, waiting[1..], interactive)
    else if interactive != [] then
      [RankOf(s, interactive[0].kind, interactive[0].account)] + PendingRanks(s, waiting, interactive[1..])
    else []
  }

  function MinRank(ranks: seq<Rank>): (r: Option<Rank>)
    ensures r.None? <==> ranks == []
    ensures r.Some? ==> r.value in ranks && forall x :: x in ranks ==> !RankLess(x, r.value)
  {
    if ranks == [] then None
    else
      var rest := MinRank(ranks[1..]);
      assert ranks == [ranks[0]] + ranks[1..];
      if rest.Some? && RankLess(rest.value, ranks[0]) then rest else Some(ranks[0])
  }

  function BestPending(s: Sched): Option<Rank> {
    MinRank(PendingRanks(s, s.waiting, s.interactive))
  }

  function Flag(s: Sched, best: Rank, a: Active): Active {
    if a.preemptible && RankLess(best, RankOf(s, a.kind, a.account)) then a.(preempted := true) else a
  }

  /** `preempt_locked` */
  function Preempt(s: Sched): Sched {
    match BestPending(s)
    case None => s
    case Some(best) => s.(active := seq(|s.active|, i requires 0 <= i < |s.active| => Flag(s, best, s.active[i])))
  }

  function Keep<T(!new)>(xs: seq<T>, keep: T -> bool): (r: seq<T>)
    ensures forall x :: x in r <==> x in xs && keep(x)
    ensures |r| <= |xs|
  {
    if xs == [] then []
    else (if keep(xs[0]) then [xs[0]] else []) + Keep(xs[1..], keep)
  }

  function DropWaiter(waiting: seq<Waiter>, id: nat): seq<Waiter> { Keep(waiting, (w: Waiter) => w.id != id) }
  function DropActive(active: seq<Active>, id: nat): seq<Active> { Keep(active, (a: Active) => a.id != id) }
  function DropGuard(guards: seq<Guard>, id: nat): seq<Guard> { Keep(guards, (g: Guard) => g.id != id) }

  // ----------------------------------------------------------------- steps --

  datatype Op =
    | Enter(waiter: Waiter)
    | TryAdmit(waiter: Waiter, now: nat)
    | Abandon(waiter: Waiter)
    | Release(id: nat, kind: Kind, now: nat)
    | BeginInteractive(guard: Guard)
    | EndInteractive(id: nat)
    | Select(account: Option<Account>)
    | SetSpeed(speed: Speed)

  function Permit(w: Waiter): Active {
    Active(w.id, w.kind, w.account, PolicyOf(w.kind).preemptible, false)
  }

  function Apply(s: Sched, op: Op): Sched {
    match op
    case Enter(w) => Preempt(s.(waiting := s.waiting + [w]))
    case TryAdmit(w, now) =>
      if Admits(s, w, now) then s.(active := s.active + [Permit(w)], waiting := DropWaiter(s.waiting, w.id))
      else Preempt(s)
    case Abandon(w) => s.(waiting := DropWaiter(s.waiting, w.id))
    case Release(id, kind, now) =>
      Preempt(s.(active := DropActive(s.active, id),
                 lastCompleted := if UsesBudget(kind) then Some(now) else s.lastCompleted))
    case BeginInteractive(g) => Preempt(s.(interactive := s.interactive + [g]))
    case EndInteractive(id) => s.(interactive := DropGuard(s.interactive, id))
    case Select(account) => Preempt(s.(selected := account))
    case SetSpeed(speed) => s.(speed := speed)
  }

  // ----------------------------------------------------------- environment --

  /** The scheduler together with what its callers have used up: work ids and
      tickets are drawn once from atomic counters, and the clock never goes
      back. */
  datatype System = System(sched: Sched, ids: set<nat>, tickets: set<nat>, clock: nat)

  const START: System := System(INITIAL, {}, {}, 0)

  predicate HoldsPermit(s: Sched, id: nat, kind: Kind) {
    exists a :: a in s.active && a.id == id && a.kind == kind
  }

  /** The calls that ownership of waiting slots, permits and guards allows. */
  predicate Enabled(y: System, op: Op) {
    match op
    case Enter(w) => w.id !in y.ids && w.ticket !in y.tickets && !IsInteractive(w.kind)
    case TryAdmit(w, now) => w in y.sched.waiting && y.clock <= now
    case Abandon(w) => w in y.sched.waiting
    case Release(id, kind, now) => HoldsPermit(y.sched, id, kind) && y.clock <= now
    case BeginInteractive(g) => g.id !in y.ids && IsInteractive(g.kind)
    case _ => true
  }

  function Step(y: System, op: Op): System {
    var y := y.(sched := Apply(y.sched, op));
    match op
    case Enter(w) => y.(ids := y.ids + {w.id}, tickets := y.tickets + {w.ticket})
    case BeginInteractive(g) => y.(ids := y.ids + {g.id})
    case TryAdmit(_, now) => y.(clock := now)
    case Release(_, _, now) => y.(clock := now)
    case _ => y
  }

  ghost predicate Inv(y: System) {
    var s := y.sched;
    && |s.active| <= SHARED_WORK_CONCURRENCY
    && (forall a :: a in s.active ==>
          && !IsInteractive(a.kind) && a.preemptible == PolicyOf(a.kind).preemptible
          && (a.preempted ==> a.preemptible))
    && (forall w :: w in s.waiting ==> w.id in y.ids && w.ticket in y.tickets && !IsInteractive(w.kind))
    && (forall v, w :: v in s.waiting && w in s.waiting && (v.id == w.id || v.ticket == w.ticket) ==> v == w)
    && (forall g :: g in s.interactive ==> IsInteractive(g.kind))
    && (s.lastCompleted.Some? ==> s.lastCompleted.value <= y.clock)
  }
}
