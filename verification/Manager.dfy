/** The manager's side of the pull protocol for one host: check-in, result reports, settings. */
module Manager {
  import opened Text
  import opened Encoding
  import opened Models
  import opened Agent
  import opened Ordering

  datatype ActionStatus = Queued | Pushing | Delivered | Executed | Failed | Expired

  /** A row of `pending_actions`. */
  datatype ActionRow = ActionRow(
    id: string, kind: string, status: ActionStatus, expires: nat, priority: int, created: nat)

  /** The assigned policy set: its flattened rules and its defaults. */
  datatype Policy = Policy(rules: seq<RuleDto>, defaults: Defaults)

  datatype Host = Host(policy: Option<Policy>, config: Option<PullConfig>, actions: seq<ActionRow>)

  function AssignedRules(m: Host): seq<RuleDto> {
    match m.policy case Some(p) => p.rules case None => []
  }

  function AssignedDefaults(m: Host): Defaults {
    match m.policy case Some(p) => p.defaults case None => Defaults(None, None)
  }

  function ExpectedRulesHash(digest: Digest, m: Host): string {
    match m.policy
    case Some(p) => RulesHash(digest, DtosParts(p.rules))
    case None => "empty"
  }

  predicate IsDue(r: ActionRow, now: nat) { r.status == Queued && r.expires > now }

  function Due(now: nat): ActionRow -> bool { r => IsDue(r, now) }

  /** Highest priority first, then the oldest. */
  function DeliveryKey(r: ActionRow): Key { (-r.priority, r.created) }

  function DueRows(rows: seq<ActionRow>, now: nat): seq<ActionRow> { Pick(rows, Due(now), DeliveryKey) }

  function Handed(rows: seq<ActionRow>): seq<PendingAction> {
    seq(|rows|, i requires 0 <= i < |rows| => PendingAction(rows[i].id, rows[i].kind))
  }

  function DueActions(rows: seq<ActionRow>, now: nat): seq<PendingAction> { Handed(DueRows(rows, now)) }

  /** What a check-in hands out: exactly the queued and unexpired actions, the most urgent first, then the oldest. */
  lemma DueInOrder(rows: seq<ActionRow>, now: nat)
    ensures
      var due := DueRows(rows, now);
      && |DueActions(rows, now)| == |due|
      && (forall i :: 0 <= i < |due| ==> DueActions(rows, now)[i] == PendingAction(due[i].id, due[i].kind))
      && (forall r :: multiset(due)[r] == if r.status == Queued && r.expires > now then multiset(rows)[r] else 0)
      && (forall i, j :: 0 <= i < j < |due| ==>
            due[i].priority > due[j].priority
            || (due[i].priority == due[j].priority && due[i].created <= due[j].created))
  {
    var due := DueRows(rows, now);
    PickMeans(rows, Due(now), DeliveryKey);
    forall i, j | 0 <= i < j < |due|
      ensures due[i].priority > due[j].priority
              || (due[i].priority == due[j].priority && due[i].created <= due[j].created)
    {
      assert Leq(DeliveryKey(due[i]), DeliveryKey(due[j]));
    }
  }

  predicate Names(actions: seq<PendingAction>, id: string) {
    exists i :: 0 <= i < |actions| && actions[i].id == id
  }

  /** `UPDATE ... SET status = 'delivered' WHERE id = ANY(ids)`. */
  function MarkDelivered(rows: seq<ActionRow>, actions: seq<PendingAction>): (out: seq<ActionRow>)
    ensures |out| == |rows|
    ensures forall i :: 0 <= i < |rows| ==>
              out[i] == if Names(actions, rows[i].id) then rows[i].(status := Delivered) else rows[i]
  {
    seq(|rows|, i requires 0 <= i < |rows| =>
      if Names(actions, rows[i].id) then rows[i].(status := Delivered) else rows[i])
  }

  /** Configuration is sent only when its version is newer than the agent's. */
  function NewerConfig(m: Host, version: int): Option<PullConfig> {
    match m.config
    case Some(c) => if c.version > version then Some(c) else None
    case None => None
  }

  function Answer(digest: Digest, m: Host, now: nat, rulesHash: string, version: int): Response {
    Response(rulesHash != ExpectedRulesHash(digest, m), AssignedRules(m), NewerConfig(m, version),
             DueActions(m.actions, now), AssignedDefaults(m))
  }

  /** A host with no policy is told of a change unless it reports the word the manager uses for that, and gets no rules
      and no defaults. */
  lemma UnassignedReply(digest: Digest, m: Host, now: nat, rulesHash: string, version: int)
    requires m.policy.None?
    ensures
      var r := Answer(digest, m, now, rulesHash, version);
      (r.rulesChanged <==> rulesHash != "empty") && r.rules == [] && r.defaults == Defaults(None, None)
  {
  }

  /** The manager after a check-in: the actions it handed out are no longer queued. */
  function AfterCheckIn(m: Host, now: nat): Host {
    m.(actions := MarkDelivered(m.actions, DueActions(m.actions, now)))
  }

  /** `check_in_result` for an action. */
  function AfterReport(m: Host, id: string, success: bool): Host {
    m.(actions := SetStatus(m.actions, id, if success then Executed else Failed))
  }

  function SetStatus(rows: seq<ActionRow>, id: string, st: ActionStatus): (out: seq<ActionRow>)
    ensures |out| == |rows|
    ensures forall i :: 0 <= i < |rows| ==> out[i] == if rows[i].id == id then rows[i].(status := st) else rows[i]
  {
    seq(|rows|, i requires 0 <= i < |rows| => if rows[i].id == id then rows[i].(status := st) else rows[i])
  }

  function Clamp(n: int): int {
    if n < 1 then 1 else if n > 86_400 then 86_400 else n
  }

  /** `update_settings`, polling section: the interval and a new version, on rows whose interval changes. */
  function AfterInterval(m: Host, n: int): Host {
    match m.config
    case None => m
    case Some(c) =>
      if c.interval == Clamp(n) then m
      else m.(config := Some(c.(interval := Clamp(n), version := c.version + 1)))
  }

  /** The tables behind the agent API, for one host. */
  class ManagerApi {
    var policy: Option<Policy>
    var config: Option<PullConfig>
    var actions: seq<ActionRow>

    constructor (m: Host)
      ensures View() == m
    {
      policy, config, actions := m.policy, m.config, m.actions;
    }

    ghost function View(): Host
      reads this
    {
      Host(policy, config, actions)
    }

    /** `check_in`: compare hashes, collect what is due, mark it delivered. */
    method CheckIn(digest: Digest, now: nat, rulesHash: string, version: int) returns (r: Response)
      modifies this`actions
      ensures r == Answer(digest, old(View()), now, rulesHash, version)
      ensures View() == AfterCheckIn(old(View()), now)
    {
      var rules, expected, defaults := [], "empty", Defaults(None, None);
      if policy.Some? {
        rules, defaults := policy.value.rules, policy.value.defaults;
        expected := ComputeRulesHash(digest, DtosParts(rules));
      }
      var update: Option<PullConfig> := None;
      if config.Some? && config.value.version > version {
        update := config;
      }
      var due: seq<ActionRow> := [];
      for i := 0 to |actions|
        invariant due == DueRows(actions[..i], now)
      {
        assert actions[..i + 1][..i] == actions[..i];
        if actions[i].status == Queued && actions[i].expires > now {
          due := Insert(due, actions[i], DeliveryKey);
        }
      }
      assert actions[..|actions|] == actions;
      var pending := Handed(due);
      actions := MarkDelivered(actions, pending);
      r := Response(rulesHash != expected, rules, update, pending, defaults);
    }

    /** `check_in_result`: the action reported on has its outcome and is in no queue; no other action changes. */
    method CheckInResult(id: string, success: bool)
      modifies this`actions
      ensures View() == AfterReport(old(View()), id, success)
      ensures !IsQueued(View(), id) && |actions| == |old(actions)|
      ensures forall i :: 0 <= i < |actions| ==>
                && actions[i].id == old(actions)[i].id
                && (actions[i].id == id ==> actions[i].status == if success then Executed else Failed)
                && (actions[i].id != id ==> actions[i] == old(actions)[i])
    {
      actions := SetStatus(actions, id, if success then Executed else Failed);
    }

    /** The polling part of `update_settings`: the interval ends up in range and as near to the one asked for as
        that allows, under a new version exactly when it changes. */
    method UpdateInterval(n: int)
      modifies this`config
      ensures View() == AfterInterval(old(View()), n)
      ensures config.Some? <==> old(config).Some?
      ensures config.Some? ==>
                var c, was := config.value, old(config).value;
                && 1 <= c.interval <= 86_400 && (1 <= n <= 86_400 ==> c.interval == n)
                && (n < 1 ==> c.interval == 1) && (n > 86_400 ==> c.interval == 86_400)
                && c.version == was.version + (if c.interval == was.interval then 0 else 1)
                && c.safeMode == was.safeMode
    {
      var interval := Clamp(n);
      if config.Some? && config.value.interval != interval {
        config := Some(config.value.(interval := interval, version := config.value.version + 1));
      }
    }
  }

  // ---- each action is handed out at most once ------------------------------

  datatype ManagerStep =
    | CheckedIn(now: nat)
    | Reported(id: string, success: bool)
    | Enqueued(row: ActionRow)

  function AfterManager(m: Host, step: ManagerStep): Host {
    match step
    case CheckedIn(now) => AfterCheckIn(m, now)
    case Reported(id, success) => AfterReport(m, id, success)
    case Enqueued(row) => m.(actions := m.actions + [row])
  }

  function HandedBy(m: Host, step: ManagerStep): seq<PendingAction> {
    match step case CheckedIn(now) => DueActions(m.actions, now) case _ => []
  }

  function RunManager(m: Host, steps: seq<ManagerStep>): Host {
    if steps == [] then m else AfterManager(RunManager(m, steps[..|steps| - 1]), steps[|steps| - 1])
  }

  /** Every action handed out, over the whole run. */
  function HandedOut(m: Host, steps: seq<ManagerStep>): seq<PendingAction> {
    if steps == [] then []
    else
      var n := |steps| - 1;
      HandedOut(m, steps[..n]) + HandedBy(RunManager(m, steps[..n]), steps[n])
  }

  predicate Present(m: Host, id: string) {
    exists i :: 0 <= i < |m.actions| && m.actions[i].id == id
  }

  predicate DistinctIds(m: Host) {
    forall i, j :: 0 <= i < j < |m.actions| ==> m.actions[i].id != m.actions[j].id
  }

  /** New rows have new ids, as the primary key enforces. */
  predicate NewIds(m: Host, steps: seq<ManagerStep>) {
    forall k :: 0 <= k < |steps| && steps[k].Enqueued? ==> !Present(RunManager(m, steps[..k]), steps[k].row.id)
  }

  predicate IsQueued(m: Host, id: string) {
    exists i :: 0 <= i < |m.actions| && m.actions[i].id == id && m.actions[i].status == Queued
  }

  function HandCount(actions: seq<PendingAction>, id: string): nat {
    if actions == [] then 0
    else HandCount(actions[..|actions| - 1], id) + if actions[|actions| - 1].id == id then 1 else 0
  }

  lemma {:induction false} HandCountAppend(a: seq<PendingAction>, b: seq<PendingAction>, id: string)
    ensures HandCount(a + b, id) == HandCount(a, id) + HandCount(b, id)
    decreases |b|
  {
    if b == [] {
      assert a + b == a;
    } else {
      var m := |b| - 1;
      assert (a + b)[..|a| + m] == a + b[..m];
      HandCountAppend(a, b[..m], id);
    }
  }

  lemma {:induction false} CountedIsNamed(actions: seq<PendingAction>, id: string)
    ensures HandCount(actions, id) > 0 <==> Names(actions, id)
  {
    if actions != [] {
      var n := |actions| - 1;
      CountedIsNamed(actions[..n], id);
      if Names(actions[..n], id) {
        var i :| 0 <= i < n && actions[..n][i].id == id;
        assert actions[i].id == id;
      }
      if Names(actions, id) && actions[n].id != id {
        var i :| 0 <= i < |actions| && actions[i].id == id;
        assert actions[..n][i].id == id;
      }
    }
  }

  lemma HandedSnoc(rows: seq<ActionRow>, r: ActionRow, id: string)
    ensures HandCount(Handed(rows + [r]), id) == HandCount(Handed(rows), id) + if r.id == id then 1 else 0
  {
    assert Handed(rows + [r])[..|rows|] == Handed(rows);
  }

  lemma {:induction false} InsertHands(rows: seq<ActionRow>, r: ActionRow, id: string)
    ensures HandCount(Handed(Insert(rows, r, DeliveryKey)), id)
         == HandCount(Handed(rows), id) + if r.id == id then 1 else 0
  {
    HandedSnoc(rows, r, id);
    if rows != [] {
      var n := |rows| - 1;
      InsertHands(rows[..n], r, id);
      HandedSnoc(rows[..n], rows[n], id);
      HandedSnoc(Insert(rows[..n], r, DeliveryKey), rows[n], id);
      assert rows == rows[..n] + [rows[n]];
    }
  }

  /** With distinct ids a check-in hands an id out at most once, and only from the queue. */
  lemma {:induction false} DueOnce(rows: seq<ActionRow>, now: nat, id: string)
    requires forall i, j :: 0 <= i < j < |rows| ==> rows[i].id != rows[j].id
    ensures HandCount(DueActions(rows, now), id) <= 1
    ensures HandCount(DueActions(rows, now), id) == 1 ==>
              exists i :: 0 <= i < |rows| && rows[i].id == id && rows[i].status == Queued
  {
    if rows != [] {
      var n := |rows| - 1;
      var init := rows[..n];
      forall i, j | 0 <= i < j < |init| ensures init[i].id != init[j].id {
        assert rows[i].id != rows[j].id;
      }
      DueOnce(init, now, id);
      InsertHands(DueRows(init, now), rows[n], id);
      if HandCount(DueActions(init, now), id) == 1 {
        var i :| 0 <= i < |init| && init[i].id == id && init[i].status == Queued;
        assert rows[i] == init[i] && rows[i].id != rows[n].id;
      }
    }
  }

  /** What is left to hand out: one if the id is queued. */
  ghost function QueueAllowance(m: Host, id: string): nat { if IsQueued(m, id) then 1 else 0 }

  lemma CheckInSpends(m: Host, now: nat, id: string)
    requires DistinctIds(m)
    ensures DistinctIds(AfterCheckIn(m, now))
    ensures HandCount(DueActions(m.actions, now), id) + QueueAllowance(AfterCheckIn(m, now), id)
         <= QueueAllowance(m, id)
  {
    var due := DueActions(m.actions, now);
    var m' := AfterCheckIn(m, now);
    DueOnce(m.actions, now, id);
    CountedIsNamed(due, id);
    forall i | 0 <= i < |m'.actions| ensures m'.actions[i].id == m.actions[i].id {}
    if IsQueued(m', id) {
      var i :| 0 <= i < |m'.actions| && m'.actions[i].id == id && m'.actions[i].status == Queued;
      assert m.actions[i].id == id && m.actions[i].status == Queued;
    }
  }

  /** A check-in marks exactly what is due: a queued, unexpired row becomes delivered, every other stays as it is. */
  lemma CheckInMarks(m: Host, now: nat, i: nat)
    requires DistinctIds(m) && i < |m.actions|
    ensures
      var r, after := m.actions[i], AfterCheckIn(m, now);
      && |after.actions| == |m.actions| && after.policy == m.policy && after.config == m.config
      && after.actions[i] == if r.status == Queued && r.expires > now then r.(status := Delivered) else r
  {
    var rows, r := m.actions, m.actions[i];
    var due := DueRows(rows, now);
    PickedIff(rows, Due(now), DeliveryKey, r);
    if r in due {
      var k :| 0 <= k < |due| && due[k] == r;
      assert Handed(due)[k].id == r.id;
    }
    if Names(Handed(due), r.id) {
      NamedIsDue(m, now, i);
    }
  }

  lemma NamedIsDue(m: Host, now: nat, i: nat)
    requires DistinctIds(m) && i < |m.actions| && Names(Handed(DueRows(m.actions, now)), m.actions[i].id)
    ensures m.actions[i] in DueRows(m.actions, now)
  {
    var rows, due := m.actions, DueRows(m.actions, now);
    var k :| 0 <= k < |due| && Handed(due)[k].id == rows[i].id;
    PickedIff(rows, Due(now), DeliveryKey, due[k]);
    var j :| 0 <= j < |rows| && rows[j] == due[k];
    assert i == j;
  }

  /** The claim for one id: handed out at most once, and never once it has left the queue. */
  ghost predicate OnceOnly(m: Host, steps: seq<ManagerStep>, id: string) {
    var end := RunManager(m, steps);
    && DistinctIds(end)
    && (Present(m, id) ==> Present(end, id))
    && (Present(m, id) ==> HandCount(HandedOut(m, steps), id) + QueueAllowance(end, id) <= QueueAllowance(m, id))
    && (!Present(end, id) ==> HandCount(HandedOut(m, steps), id) == 0)
    && HandCount(HandedOut(m, steps), id) + QueueAllowance(end, id) <= 1
  }

  lemma {:induction false} HandedOutOnce(m: Host, steps: seq<ManagerStep>, id: string)
    requires DistinctIds(m) && NewIds(m, steps)
    ensures OnceOnly(m, steps, id)
  {
    if steps != [] {
      var n := |steps| - 1;
      var init := steps[..n];
      assert NewIds(m, init) by {
        forall k | 0 <= k < n && init[k].Enqueued? ensures !Present(RunManager(m, init[..k]), init[k].row.id) {
          assert init[..k] == steps[..k] && init[k] == steps[k];
        }
      }
      HandedOutOnce(m, init, id);
      HandCountAppend(HandedOut(m, init), HandedBy(RunManager(m, init), steps[n]), id);
      assert steps[n].Enqueued? ==> !Present(RunManager(m, init), steps[n].row.id);
      StepOnce(RunManager(m, init), steps[n], id);
    }
  }

  lemma StepOnce(m: Host, step: ManagerStep, id: string)
    requires DistinctIds(m) && (step.Enqueued? ==> !Present(m, step.row.id))
    ensures
      var m' := AfterManager(m, step);
      && DistinctIds(m')
      && (Present(m, id) ==> Present(m', id))
      && (Present(m, id) ==> HandCount(HandedBy(m, step), id) + QueueAllowance(m', id) <= QueueAllowance(m, id))
      && (!Present(m, id) ==> HandCount(HandedBy(m, step), id) == 0)
  {
    var m' := AfterManager(m, step);
    match step
    case CheckedIn(now) =>
      CheckInSpends(m, now, id);
      SamePresence(m, m', id);
      if !Present(m, id) { assert !IsQueued(m, id); }
    case Reported(rid, success) =>
      SamePresence(m, m', id);
      if IsQueued(m', id) {
        var i :| 0 <= i < |m'.actions| && m'.actions[i].id == id && m'.actions[i].status == Queued;
        assert m.actions[i].id == id && m.actions[i].status == Queued;
      }
    case Enqueued(row) =>
      if Present(m, id) {
        var i :| 0 <= i < |m.actions| && m.actions[i].id == id;
        assert m'.actions[i].id == id;
        if IsQueued(m', id) {
          var j :| 0 <= j < |m'.actions| && m'.actions[j].id == id && m'.actions[j].status == Queued;
          assert j < |m.actions|;
          assert m.actions[j] == m'.actions[j];
        }
      }
  }

  lemma SamePresence(m: Host, m': Host, id: string)
    requires |m.actions| == |m'.actions|
    requires forall i :: 0 <= i < |m.actions| ==> m.actions[i].id == m'.actions[i].id
    ensures Present(m, id) <==> Present(m', id)
    ensures DistinctIds(m) ==> DistinctIds(m')
  {
    if Present(m, id) {
      var i :| 0 <= i < |m.actions| && m.actions[i].id == id;
      assert m'.actions[i].id == id;
    }
    if Present(m', id) {
      var i :| 0 <= i < |m'.actions| && m'.actions[i].id == id;
      assert m.actions[i].id == id;
    }
  }

  /** An action that has left the queue is never handed out again, in any run. */
  lemma LeftQueueForGood(m: Host, steps: seq<ManagerStep>, id: string)
    requires DistinctIds(m) && NewIds(m, steps) && Present(m, id) && !IsQueued(m, id)
    ensures !Names(HandedOut(m, steps), id) && !IsQueued(RunManager(m, steps), id)
  {
    HandedOutOnce(m, steps, id);
    CountedIsNamed(HandedOut(m, steps), id);
  }
}
