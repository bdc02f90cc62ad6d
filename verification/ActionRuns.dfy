/** Actions over whole runs of agent and manager: each is executed at most once, and lost with its reply. */
module ActionRuns {
  import opened Text
  import opened Agent
  import opened Manager
  import opened Protocol
  import AgentSafety

  /** The ids the event executes successfully. */
  function ExecutedBy(su: Setup, w: World, e: Event): seq<string> {
    if e.CheckInEvent? then CheckInCycle(su, w, e.now, e.delivery, e.f).executed else []
  }

  function ExecutedIn(su: Setup, w: World, es: seq<Event>): seq<string> {
    if es == [] then []
    else
      var n := |es| - 1;
      ExecutedIn(su, w, es[..n]) + ExecutedBy(su, Worlds(su, w, es[..n]), es[n])
  }

  /** New rows have new ids, as the primary key enforces. */
  predicate NewRow(w: World, e: Event) { e.QueueEvent? ==> !Present(w.mgr, e.row.id) }

  predicate NewRows(su: Setup, w: World, es: seq<Event>) {
    es != [] ==>
      var n := |es| - 1;
      NewRows(su, w, es[..n]) && NewRow(Worlds(su, w, es[..n]), es[n])
  }

  /** What is executed was handed over, as often at most. */
  lemma {:induction false} ExecutedWasHanded(s: State, actions: seq<PendingAction>, f: Faults, id: string)
    ensures AgentSafety.Count(RunActions(s, actions, f).executed, id) <= HandCount(actions, id)
  {
    if actions != [] {
      var n := |actions| - 1;
      ExecutedWasHanded(s, actions[..n], f, id);
      var before := RunActions(s, actions[..n], f).executed;
      AgentSafety.CountAppend(before, [actions[n].id], id);
      assert [actions[n].id][..0] == [];
    }
  }

  lemma CheckInExecutes(su: Setup, w: World, now: nat, d: Delivery, f: Faults, id: string)
    ensures
      var executed := ExecutedBy(su, w, CheckInEvent(now, d, f));
      AgentSafety.Count(executed, id) <= if d.Complete? then HandCount(DueActions(w.mgr.actions, now), id) else 0
  {
    if d.Complete? {
      ExecutedWasHanded(ApplyStep(su, w, now, f).s, Reply(su, w, now).actions, f, id);
    }
  }

  /** What the manager does at the event, if it touches the actions. */
  function ManagerPart(e: Event): Option<ManagerStep> {
    match e
    case CheckInEvent(now, d, _) => if d.RequestLost? then None else Some(CheckedIn(now))
    case ReportEvent(id, success) => Some(Reported(id, success))
    case QueueEvent(row) => Some(Enqueued(row))
    case _ => None
  }

  lemma ManagerFollows(su: Setup, w: World, e: Event)
    ensures
      Next(su, w, e).mgr.actions
      == match ManagerPart(e)
         case Some(step) => AfterManager(w.mgr, step).actions
         case None => w.mgr.actions
  {
  }

  /** What one event keeps for an id: rows stay and stay distinct, and an execution is paid for from the queue. */
  predicate Paid(m: Host, m': Host, id: string, executed: nat) {
    && DistinctIds(m') && (Present(m, id) ==> Present(m', id))
    && (Present(m, id) ==> executed + Tally(IsQueued(m', id)) <= Tally(IsQueued(m, id)))
    && (!Present(m, id) ==> executed == 0)
  }

  lemma SameRows(m: Host, m': Host, n: Host, id: string, executed: nat)
    requires m'.actions == n.actions && Paid(m, m', id, executed)
    ensures Paid(m, n, id, executed)
  {
  }

  lemma EventPaid(su: Setup, w: World, e: Event, id: string)
    requires DistinctIds(w.mgr) && NewRow(w, e)
    ensures Paid(w.mgr, Next(su, w, e).mgr, id, AgentSafety.Count(ExecutedBy(su, w, e), id))
  {
    ManagerFollows(su, w, e);
    if e.CheckInEvent? {
      CheckInExecutes(su, w, e.now, e.delivery, e.f, id);
    }
    var executed := AgentSafety.Count(ExecutedBy(su, w, e), id);
    if ManagerPart(e).Some? {
      var step := ManagerPart(e).value;
      Manager.StepOnce(w.mgr, step, id);
      SameRows(w.mgr, AfterManager(w.mgr, step), Next(su, w, e).mgr, id, executed);
    } else {
      SameRows(w.mgr, w.mgr, Next(su, w, e).mgr, id, executed);
    }
  }

  lemma QueuedIsPresent(m: Host, id: string)
    ensures IsQueued(m, id) ==> Present(m, id)
  {
  }

  lemma StepSettles(m: Host, m1: Host, m2: Host, id: string, before: nat, now: nat)
    requires Account(m, m1, id, before) && Paid(m1, m2, id, now)
    ensures Account(m, m2, id, before + now)
  {
    QueuedIsPresent(m1, id);
    QueuedIsPresent(m2, id);
  }

  /** From `m` to `m'` the id was executed `executed` times: at most once, from the queue, and not at all once it has
      left the queue. */
  predicate Account(m: Host, m': Host, id: string, executed: nat) {
    && DistinctIds(m') && executed + Tally(IsQueued(m', id)) <= 1
    && (Present(m, id) ==> Present(m', id) && executed + Tally(IsQueued(m', id)) <= Tally(IsQueued(m, id)))
    && (!Present(m', id) ==> executed == 0)
  }

  /** Over every run of agent and manager, with any losses, restarts and failures, the failed writes of the agent's log
      included, each action is executed at most once, and never once it has left the queue. */
  lemma {:induction false} ExecutedOnce(su: Setup, w: World, es: seq<Event>, id: string)
    requires DistinctIds(w.mgr) && NewRows(su, w, es)
    ensures Account(w.mgr, Worlds(su, w, es).mgr, id, AgentSafety.Count(ExecutedIn(su, w, es), id))
  {
    if es != [] {
      var n := |es| - 1;
      var v := Worlds(su, w, es[..n]);
      ExecutedOnce(su, w, es[..n], id);
      EventPaid(su, v, es[n], id);
      AgentSafety.CountAppend(ExecutedIn(su, w, es[..n]), ExecutedBy(su, v, es[n]), id);
      StepSettles(w.mgr, v.mgr, Next(su, v, es[n]).mgr, id,
                  AgentSafety.Count(ExecutedIn(su, w, es[..n]), id), AgentSafety.Count(ExecutedBy(su, v, es[n]), id));
    } else {
      QueuedIsPresent(w.mgr, id);
    }
  }

  lemma HandedLeavesQueue(m: Host, now: nat, id: string)
    requires DistinctIds(m) && Names(DueActions(m.actions, now), id)
    ensures Present(AfterCheckIn(m, now), id) && !IsQueued(AfterCheckIn(m, now), id)
    ensures DistinctIds(AfterCheckIn(m, now))
  {
    CheckInSpends(m, now, id);
    CountedIsNamed(DueActions(m.actions, now), id);
    DueOnce(m.actions, now, id);
    SamePresence(m, AfterCheckIn(m, now), id);
  }

  /** An action handed out in a reply that is lost is never executed. */
  lemma LostWithItsReply(su: Setup, w: World, now: nat, f: Faults, es: seq<Event>, id: string)
    requires DistinctIds(w.mgr) && Names(DueActions(w.mgr.actions, now), id)
    requires NewRows(su, Next(su, w, CheckInEvent(now, ReplyLost, f)), es)
    ensures
      var v := Next(su, w, CheckInEvent(now, ReplyLost, f));
      ExecutedBy(su, w, CheckInEvent(now, ReplyLost, f)) == [] && AgentSafety.Count(ExecutedIn(su, v, es), id) == 0
  {
    HandedLeavesQueue(w.mgr, now, id);
    ExecutedOnce(su, Next(su, w, CheckInEvent(now, ReplyLost, f)), es, id);
  }
}
