/** The scheduler's shared state, updated in place under its lock. Every method
    is one lock section and is proved to take exactly one step of the machine in
    `AccountWork`. */
module AccountWorkScheduler {
  import opened Basics
  import opened AccountWork
  import opened AccountWorkRuns

  class Scheduler {
    var active: seq<Active>
    var waiting: seq<Waiter>
    var interactive: seq<Guard>
    var selectedAccount: Option<Account>
    var searchCrawlerSpeed: Speed
    var lastBackgroundCompleted: Option<nat>

    /** Ids and tickets handed out so far, and the latest clock reading. */
    ghost var ids: set<nat>
    ghost var tickets: set<nat>
    ghost var clock: nat

    function View(): Sched
      reads this
    {
      Sched(active, waiting, interactive, selectedAccount, searchCrawlerSpeed, lastBackgroundCompleted)
    }

    ghost function Sys(): System
      reads this
    {
      System(View(), ids, tickets, clock)
    }

    ghost predicate Valid()
      reads this
    {
      Inv(Sys())
    }

    constructor ()
      ensures Valid() && Sys() == START
    {
      ids, tickets, clock := {}, {}, 0;
      active, waiting, interactive := [], [], [];
      selectedAccount, searchCrawlerSpeed, lastBackgroundCompleted := None, Standard, None;
    }

    method PreemptLocked()
      modifies this`active
      ensures View() == Preempt(old(View()))
    {
      var best := BestPending(View());
      if best.None? {
        return;
      }
      for i := 0 to |active|
        invariant |active| == |old(active)| && View() == old(View()).(active := active)
        invariant forall j :: 0 <= j < i ==> active[j] == Flag(old(View()), best.value, old(active)[j])
        invariant forall j :: i <= j < |active| ==> active[j] == old(active)[j]
      {
        var work := active[i];
        var rank := WorkRank(selectedAccount, work.kind, work.account);
        if work.preemptible && RankLess(best.value, rank) && !work.preempted {
          active := active[i := work.(preempted := true)];
        }
      }
    }

    method Enter(w: Waiter)
      requires Valid() && Enabled(Sys(), AccountWork.Enter(w))
      modifies this
      ensures Valid() && Sys() == Step(old(Sys()), AccountWork.Enter(w))
    {
      hide Inv, Enabled;
      StepKeepsInv(Sys(), AccountWork.Enter(w));
      ids, tickets := ids + {w.id}, tickets + {w.ticket};
      waiting := waiting + [w];
      PreemptLocked();
    }

    /** One pass of the `acquire` loop. A refused caller learns when to look
        again if only the rate limit is in its way. */
    method TryAdmit(w: Waiter, now: nat) returns (admitted: bool, waitUntil: Option<nat>)
      requires Valid() && Enabled(Sys(), AccountWork.TryAdmit(w, now))
      modifies this
      ensures Valid() && Sys() == Step(old(Sys()), AccountWork.TryAdmit(w, now))
      ensures admitted == Admits(old(View()), w, now)
      ensures !admitted ==>
                if Deadline(old(View()), w.kind).Some? && Deadline(old(View()), w.kind).value > now
                then waitUntil == Deadline(old(View()), w.kind) else waitUntil == None
    {
      hide Inv, Enabled;
      StepKeepsInv(Sys(), AccountWork.TryAdmit(w, now));
      clock := now;
      var rateLimit := Deadline(View(), w.kind);
      waitUntil := None;
      admitted := false;
      if !PausedKind(View(), w.kind) && (rateLimit.None? || rateLimit.value <= now) && CanAdmit(View(), w) {
        active := active + [Permit(w)];
        waiting := DropWaiter(waiting, w.id);
        admitted := true;
      } else {
        PreemptLocked();
        if rateLimit.Some? && rateLimit.value > now {
          waitUntil := rateLimit;
        }
      }
    }

    method Abandon(w: Waiter)
      requires Valid() && Enabled(Sys(), AccountWork.Abandon(w))
      modifies this
      ensures Valid() && Sys() == Step(old(Sys()), AccountWork.Abandon(w))
    {
      hide Inv, Enabled;
      StepKeepsInv(Sys(), AccountWork.Abandon(w));
      waiting := DropWaiter(waiting, w.id);
    }

    method Release(id: nat, kind: Kind, now: nat)
      requires Valid() && Enabled(Sys(), AccountWork.Release(id, kind, now))
      modifies this
      ensures Valid() && Sys() == Step(old(Sys()), AccountWork.Release(id, kind, now))
    {
      hide Inv, Enabled;
      StepKeepsInv(Sys(), AccountWork.Release(id, kind, now));
      clock := now;
      active := DropActive(active, id);
      if UsesBudget(kind) {
        lastBackgroundCompleted := Some(now);
      }
      PreemptLocked();
    }

    method BeginInteractive(g: Guard)
      requires Valid() && Enabled(Sys(), AccountWork.BeginInteractive(g))
      modifies this
      ensures Valid() && Sys() == Step(old(Sys()), AccountWork.BeginInteractive(g))
    {
      hide Inv, Enabled;
      StepKeepsInv(Sys(), AccountWork.BeginInteractive(g));
      ids := ids + {g.id};
      interactive := interactive + [g];
      PreemptLocked();
    }

    method EndInteractive(id: nat)
      requires Valid()
      modifies this
      ensures Valid() && Sys() == Step(old(Sys()), AccountWork.EndInteractive(id))
    {
      hide Inv, Enabled;
      StepKeepsInv(Sys(), AccountWork.EndInteractive(id));
      interactive := DropGuard(interactive, id);
    }

    method SetSelectedAccount(account: Option<Account>)
      requires Valid()
      modifies this
      ensures Valid() && Sys() == Step(old(Sys()), Select(account))
    {
      hide Inv, Enabled;
      StepKeepsInv(Sys(), Select(account));
      selectedAccount := account;
      PreemptLocked();
    }

    method SetSearchCrawlerSpeed(speed: Speed) returns (changed: bool)
      requires Valid()
      modifies this
      ensures Valid() && Sys() == Step(old(Sys()), SetSpeed(speed))
      ensures changed <==> speed != old(searchCrawlerSpeed)
    {
      hide Inv, Enabled;
      StepKeepsInv(Sys(), SetSpeed(speed));
      changed := searchCrawlerSpeed != speed;
      if changed {
        searchCrawlerSpeed := speed;
      }
    }
  }
}
