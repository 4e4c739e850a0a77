/** Running one command on many connections: workers that share permits and an execution record,
    a cancel that may come at any moment, and the conclusion once every worker has ended. */
module BatchRun {
  import opened Base

  type Id = string

  /** The statuses of a target and of a batch. */
  datatype Status = Queued | Running | Completed | Failed | Cancelled

  datatype Target = Target(connection: Id, status: Status, exitCode: Option<int>, note: bool)

  /** What executing the command on one connection came to. */
  datatype Outcome = Exited(code: int, truncated: bool) | Aborted | Broke

  type Targets = seq<Target>

  // ---- changes of the execution record ----------------------------------------

  /** The first target of that connection; the number of targets when there is none. */
  function First(targets: Targets, id: Id): (k: nat)
    ensures k <= |targets|
    ensures k < |targets| ==> targets[k].connection == id
    ensures forall j :: 0 <= j < k ==> targets[j].connection != id
  {
    if targets == [] then 0
    else if targets[0].connection == id then 0
    else 1 + First(targets[1..], id)
  }

  function Replaced(targets: Targets, id: Id, change: Change): Targets {
    var k := First(targets, id);
    if k < |targets| then targets[k := Changed(targets[k], change)] else targets
  }

  datatype Change = Run | Cancel | Finish(outcome: Outcome)

  function Changed(target: Target, change: Change): Target {
    match change
    case Run => target.(status := Running)
    case Cancel => target.(status := Cancelled, note := true)
    case Finish(Exited(code, truncated)) =>
      target.(status := if code == 0 then Completed else Failed, exitCode := Some(code),
              note := truncated || target.note)
    case Finish(Aborted) => target.(status := Cancelled, note := true)
    case Finish(Broke) => target.(status := Failed, note := true)
  }

  function CancelQueued(targets: Targets): (r: Targets)
    ensures |r| == |targets|
    ensures forall i :: 0 <= i < |r| ==>
              r[i] == if targets[i].status == Queued then Changed(targets[i], Change.Cancel) else targets[i]
  {
    seq(|targets|, i requires 0 <= i < |targets| =>
      if targets[i].status == Queued then Changed(targets[i], Change.Cancel) else targets[i])
  }

  predicate AllCompleted(targets: Targets) {
    forall i :: 0 <= i < |targets| ==> targets[i].status == Completed
  }

  function Conclusion(status: Status, targets: Targets): Status {
    if status == Cancelled then Cancelled else if AllCompleted(targets) then Completed else Failed
  }

  /** What a record says of a target whose command has come to an outcome, or has not. */
  predicate Tells(target: Target, report: Option<Outcome>) {
    match report
    case None => target.exitCode == None && target.status != Completed && target.status != Failed
    case Some(Exited(code, truncated)) =>
      && target.exitCode == Some(code) && (truncated ==> target.note)
      && target.status == if code == 0 then Completed else Failed
    case Some(Aborted) => target.status == Cancelled && target.note
    case Some(Broke) => target.status == Failed && target.note
  }

  class BatchEntry {
    var status: Status
    var targets: Targets
    var cancelled: bool

    constructor (connections: seq<Id>)
      ensures status == Queued && !cancelled && targets == Fresh(connections)
    {
      status, cancelled := Queued, false;
      targets := Fresh(connections);
    }

    method Find(id: Id) returns (k: nat)
      ensures k == First(targets, id)
    {
      k := 0;
      while k < |targets| && targets[k].connection != id
        invariant 0 <= k <= |targets|
        invariant First(targets, id) == k + First(targets[k..], id)
      {
        k := k + 1;
      }
    }

    method SetTargetRunning(id: Id)
      modifies this`targets
      ensures targets == Replaced(old(targets), id, Run)
    {
      var k := Find(id);
      if k < |targets| {
        targets := targets[k := targets[k].(status := Running)];
      }
    }

    method FinishCancelledTarget(id: Id)
      modifies this`targets
      ensures targets == Replaced(old(targets), id, Change.Cancel)
    {
      var k := Find(id);
      if k < |targets| {
        targets := targets[k := targets[k].(status := Cancelled, note := true)];
      }
    }

    method FinishTarget(id: Id, outcome: Outcome)
      modifies this`targets
      ensures targets == Replaced(old(targets), id, Finish(outcome))
      ensures var k := First(old(targets), id);
              && |targets| == |old(targets)|
              && (forall j :: 0 <= j < |targets| && j != k ==> targets[j] == old(targets)[j])
              && (k < |targets| ==> Tells(targets[k], Some(outcome)))
    {
      var k := Find(id);
      if k == |targets| {
        return;
      }
      var target := targets[k];
      match outcome {
        case Exited(code, truncated) =>
          target := target.(status := if code == 0 then Completed else Failed, exitCode := Some(code));
          if truncated {
            target := target.(note := true);
          }
        case Aborted =>
          target := target.(status := Cancelled, note := true);
        case Broke =>
          target := target.(status := Failed, note := true);
      }
      targets := targets[k := target];
    }

    method CancelAll()
      modifies this
      ensures cancelled && status == Cancelled && targets == CancelQueued(old(targets))
    {
      cancelled := true;
      status := Cancelled;
      ghost var was := targets;
      var i := 0;
      while i < |targets|
        invariant 0 <= i <= |targets| == |was|
        invariant cancelled && status == Cancelled
        invariant forall j :: 0 <= j < i ==> targets[j] == CancelQueued(was)[j]
        invariant forall j :: i <= j < |was| ==> targets[j] == was[j]
      {
        assert CancelQueued(was)[i] == if was[i].status == Queued then Changed(was[i], Change.Cancel) else was[i];
        if targets[i].status == Queued {
          targets := targets[i := targets[i].(status := Cancelled, note := true)];
        }
        i := i + 1;
      }
    }

    method FinishBatch()
      modifies this`status
      ensures status == Conclusion(old(status), targets) && Terminal(status)
    {
      if status == Cancelled {
        return;
      }
      status := if AllCompleted(targets) then Completed else Failed;
    }
  }

  function Fresh(connections: seq<Id>): (targets: Targets)
    ensures |targets| == |connections|
    ensures forall i :: 0 <= i < |targets| ==> targets[i] == Target(connections[i], Queued, None, false)
  {
    seq(|connections|, i requires 0 <= i < |connections| => Target(connections[i], Queued, None, false))
  }

  // ---- choosing the connections -----------------------------------------------

  predicate Distinct(ids: seq<Id>) {
    forall i, j :: 0 <= i < j < |ids| ==> ids[i] != ids[j]
  }

  /** The position of the first mention of an identifier. */
  function FirstMention(ids: seq<Id>, id: Id): (k: nat)
    requires id in ids
    ensures k < |ids| && ids[k] == id && id !in ids[..k]
  {
    if ids[0] == id then 0 else 1 + FirstMention(ids[1..], id)
  }

  predicate InOrderOfMention(chosen: seq<Id>, ids: seq<Id>)
    requires forall id :: id in chosen ==> id in ids
  {
    forall i, j :: 0 <= i < j < |chosen| ==> FirstMention(ids, chosen[i]) < FirstMention(ids, chosen[j])
  }

  predicate Usable(protocols: map<Id, string>, id: Id) {
    id in protocols && protocols[id] == "ssh"
  }

  lemma FirstMentionIsUnique(ids: seq<Id>, i: nat)
    requires i < |ids| && ids[i] !in ids[..i]
    ensures FirstMention(ids, ids[i]) == i
  {
  }

  /** `protocols` are the live connections.  Either every connection that is asked for is an SSH
      connection, and each is chosen once, in the order of first mention; or the first that is missing
      or of another kind is reported. */
  method CollectConnections(ids: seq<Id>, protocols: map<Id, string>) returns (chosen: Result<seq<Id>>)
    ensures chosen.Ok? <==> forall id :: id in ids ==> Usable(protocols, id)
    ensures chosen.Ok? ==>
              && Distinct(chosen.value) && (forall id :: id in chosen.value <==> id in ids)
              && InOrderOfMention(chosen.value, ids)
    ensures chosen.Err? ==> exists k :: 0 <= k < |ids| && !Usable(protocols, ids[k])
                                        && (forall j :: 0 <= j < k ==> Usable(protocols, ids[j]))
                                        && chosen.error == if ids[k] in protocols then Validation else NotFound
  {
    var profiles: seq<Id> := [];
    var unique := {};
    for i := 0 to |ids|
      invariant Distinct(profiles)
      invariant forall id :: id in unique <==> id in profiles
      invariant forall id :: id in profiles <==> id in ids[..i]
      invariant forall k :: 0 <= k < |profiles| ==> profiles[k] in ids && FirstMention(ids, profiles[k]) < i
      invariant InOrderOfMention(profiles, ids)
      invariant forall j :: 0 <= j < i ==> Usable(protocols, ids[j])
    {
      if ids[i] !in unique {
        FirstMentionIsUnique(ids, i);
        unique := unique + {ids[i]};
        if ids[i] !in protocols {
          assert !Usable(protocols, ids[i]);
          return Err(NotFound);
        }
        if protocols[ids[i]] != "ssh" {
          assert !Usable(protocols, ids[i]);
          return Err(Validation);
        }
        profiles := profiles + [ids[i]];
      } else {
        var j :| 0 <= j < i && ids[j] == ids[i];
      }
    }
    assert ids[..|ids|] == ids;
    return Ok(profiles);
  }

  // ---- workers, in any interleaving -------------------------------------------

  /** How far a worker is.  It holds a permit from `Permitted` until it is done. */
  datatype Phase = Waiting | Permitted | Told(stop: bool) | Executing | Written | Done

  datatype Batch = Batch(limit: nat, status: Status, cancelled: bool, targets: Targets, phases: seq<Phase>,
                         begun: bool, finished: bool)

  datatype Step =
    | Begin | CancelBatch | Conclude
    | Acquire(worker: nat) | ReadFlag(worker: nat) | Mark(worker: nat)
    | Report(worker: nat, outcome: Outcome) | Release(worker: nat)

  predicate Holds(phase: Phase) {
    !phase.Waiting? && !phase.Done?
  }

  function Holders(phases: seq<Phase>): nat {
    if phases == [] then 0 else (if Holds(phases[0]) then 1 else 0) + Holders(phases[1..])
  }

  function RunningTargets(targets: Targets): nat {
    if targets == [] then 0 else (if targets[0].status == Running then 1 else 0) + RunningTargets(targets[1..])
  }

  predicate AllDone(phases: seq<Phase>) {
    forall i :: 0 <= i < |phases| ==> phases[i] == Done
  }

  function Start(connections: seq<Id>, limit: nat): Batch {
    Batch(limit, Queued, false, Fresh(connections), seq(|connections|, _ => Waiting), false, false)
  }

  /** Whether the step is one its worker, or the batch, can take now. */
  predicate Enabled(b: Batch, step: Step) {
    match step
    case Begin => !b.begun
    case CancelBatch => true
    case Conclude => b.begun && !b.finished && AllDone(b.phases)
    case Acquire(i) => b.begun && i < |b.phases| && b.phases[i] == Waiting && Holders(b.phases) < b.limit
    case ReadFlag(i) => i < |b.phases| && b.phases[i] == Permitted
    case Mark(i) => i < |b.phases| && b.phases[i].Told?
    case Report(i, _) => i < |b.phases| && b.phases[i] == Executing
    case Release(i) => i < |b.phases| && b.phases[i] == Written
  }

  function Move(b: Batch, i: nat, phase: Phase): Batch
    requires i < |b.phases|
  {
    b.(phases := b.phases[i := phase])
  }

  function Next(b: Batch, connections: seq<Id>, step: Step): Batch
    requires |b.phases| == |connections|
  {
    if !Enabled(b, step) then b
    else match step
      case Begin => b.(begun := true, status := Running)
      case CancelBatch => b.(cancelled := true, status := Cancelled, targets := CancelQueued(b.targets))
      case Conclude => b.(finished := true, status := Conclusion(b.status, b.targets))
      case Acquire(i) => Move(b, i, Permitted)
      case ReadFlag(i) => Move(b, i, Told(b.cancelled))
      case Mark(i) =>
        if b.phases[i].stop then
          Move(b, i, Written).(targets := Replaced(b.targets, connections[i], Change.Cancel))
        else
          Move(b, i, Executing).(targets := Replaced(b.targets, connections[i], Run))
      case Report(i, outcome) =>
        Move(b, i, Written).(targets := Replaced(b.targets, connections[i], Finish(outcome)))
      case Release(i) => Move(b, i, Done)
  }

  function AfterSteps(connections: seq<Id>, limit: nat, steps: seq<Step>): (b: Batch)
    ensures |b.phases| == |connections|
  {
    if steps == [] then Start(connections, limit)
    else Next(AfterSteps(connections, limit, steps[..|steps| - 1]), connections, steps[|steps| - 1])
  }

  // ---- what every interleaving keeps ------------------------------------------

  predicate Terminal(status: Status) {
    status == Completed || status == Failed || status == Cancelled
  }

  /** What a target can be while its own worker is at `phase`. */
  predicate Fits(phase: Phase, status: Status) {
    match phase
    case Waiting | Permitted | Told(_) => status == Queued || status == Cancelled
    case Executing => status == Running
    case Written | Done => Terminal(status)
  }

  predicate SameConnections(targets: Targets, connections: seq<Id>) {
    |targets| == |connections| && forall i :: 0 <= i < |targets| ==> targets[i].connection == connections[i]
  }

  predicate TargetsFit(phases: seq<Phase>, targets: Targets) {
    |phases| == |targets| && forall i :: 0 <= i < |targets| ==> Fits(phases[i], targets[i].status)
  }

  predicate StatusFits(b: Batch) {
    && (b.finished ==> AllDone(b.phases) && b.begun)
    && (b.status == Completed ==> b.finished && AllCompleted(b.targets))
    && (b.status == Failed ==> b.finished && !AllCompleted(b.targets))
    && (b.finished ==> Terminal(b.status))
  }

  lemma {:induction false} HoldersAfterMove(phases: seq<Phase>, i: nat, phase: Phase)
    requires i < |phases|
    ensures Holders(phases[i := phase])
            == Holders(phases) - (if Holds(phases[i]) then 1 else 0) + (if Holds(phase) then 1 else 0)
  {
    if i > 0 {
      assert phases[i := phase][1..] == phases[1..][i - 1 := phase];
      HoldersAfterMove(phases[1..], i - 1, phase);
    } else {
      assert phases[i := phase][1..] == phases[1..];
    }
  }

  /** Never more permits out than there are. */
  lemma {:induction false} PermitsSuffice(connections: seq<Id>, limit: nat, steps: seq<Step>)
    ensures var b := AfterSteps(connections, limit, steps);
            Holders(b.phases) <= limit && b.limit == limit
  {
    if steps == [] {
      NobodyHolds(Start(connections, limit).phases);
    } else {
      PermitsSuffice(connections, limit, steps[..|steps| - 1]);
      var b := AfterSteps(connections, limit, steps[..|steps| - 1]);
      var step := steps[|steps| - 1];
      if Enabled(b, step) {
        match step {
          case Begin | CancelBatch | Conclude =>
          case Acquire(i) => HoldersAfterMove(b.phases, i, Permitted);
          case ReadFlag(i) => HoldersAfterMove(b.phases, i, Told(b.cancelled));
          case Mark(i) => HoldersAfterMove(b.phases, i, if b.phases[i].stop then Written else Executing);
          case Report(i, _) => HoldersAfterMove(b.phases, i, Written);
          case Release(i) => HoldersAfterMove(b.phases, i, Done);
        }
      }
    }
  }

  lemma {:induction false} NobodyHolds(phases: seq<Phase>)
    requires forall i :: 0 <= i < |phases| ==> phases[i] == Waiting
    ensures Holders(phases) == 0
  {
    if phases != [] {
      NobodyHolds(phases[1..]);
    }
  }

  lemma {:induction false} RunningAreHolders(phases: seq<Phase>, targets: Targets)
    requires TargetsFit(phases, targets)
    ensures RunningTargets(targets) <= Holders(phases)
  {
    if targets != [] {
      RunningAreHolders(phases[1..], targets[1..]);
    }
  }

  lemma DistinctFindsItself(targets: Targets, connections: seq<Id>, i: nat)
    requires SameConnections(targets, connections) && Distinct(connections) && i < |connections|
    ensures First(targets, connections[i]) == i
  {
    var k := First(targets, connections[i]);
    assert targets[i].connection == connections[i];
    assert k <= i;
  }

  lemma ConnectionsStay(b: Batch, connections: seq<Id>, step: Step)
    requires SameConnections(b.targets, connections) && |b.phases| == |connections|
    ensures SameConnections(Next(b, connections, step).targets, connections)
  {
  }

  lemma MoveFits(phases: seq<Phase>, targets: Targets, i: nat, phase: Phase)
    requires TargetsFit(phases, targets) && i < |phases| && Fits(phase, targets[i].status)
    ensures TargetsFit(phases[i := phase], targets)
  {
  }

  lemma ChangeFits(phases: seq<Phase>, targets: Targets, connections: seq<Id>, i: nat, phase: Phase, change: Change)
    requires Distinct(connections) && SameConnections(targets, connections) && TargetsFit(phases, targets)
    requires i < |phases| && Fits(phase, Changed(targets[i], change).status)
    ensures TargetsFit(phases[i := phase], Replaced(targets, connections[i], change))
  {
    DistinctFindsItself(targets, connections, i);
  }

  lemma TargetsStayFit(b: Batch, connections: seq<Id>, step: Step)
    requires Distinct(connections) && SameConnections(b.targets, connections)
    requires TargetsFit(b.phases, b.targets)
    ensures var n := Next(b, connections, step);
            TargetsFit(n.phases, n.targets)
  {
    if Enabled(b, step) {
      match step
      case Begin | Conclude | CancelBatch =>
      case Acquire(i) => MoveFits(b.phases, b.targets, i, Permitted);
      case ReadFlag(i) => MoveFits(b.phases, b.targets, i, Told(b.cancelled));
      case Mark(i) =>
        if b.phases[i].stop {
          ChangeFits(b.phases, b.targets, connections, i, Written, Change.Cancel);
        } else {
          ChangeFits(b.phases, b.targets, connections, i, Executing, Run);
        }
      case Report(i, outcome) => ChangeFits(b.phases, b.targets, connections, i, Written, Finish(outcome));
      case Release(i) => MoveFits(b.phases, b.targets, i, Done);
    }
  }

  lemma StatusStaysFit(b: Batch, connections: seq<Id>, step: Step)
    requires |b.phases| == |connections| && StatusFits(b)
    ensures StatusFits(Next(b, connections, step))
  {
    if b.finished && step.CancelBatch? && AllCompleted(b.targets) {
      assert CancelQueued(b.targets) == b.targets;
    }
  }

  /** In every interleaving of workers and cancels over distinct connections: no more targets run
      than there are permits; each target's status is that of its own worker; when the batch is
      concluded every target has ended; and a batch is marked completed only if every target is. */
  lemma {:induction false} EveryRunIsSafe(connections: seq<Id>, limit: nat, steps: seq<Step>)
    requires Distinct(connections)
    ensures var b := AfterSteps(connections, limit, steps);
            && SameConnections(b.targets, connections) && TargetsFit(b.phases, b.targets) && StatusFits(b)
            && RunningTargets(b.targets) <= limit
            && (b.finished ==> forall i :: 0 <= i < |b.targets| ==> Terminal(b.targets[i].status))
  {
    var b := AfterSteps(connections, limit, steps);
    if steps != [] {
      var earlier := AfterSteps(connections, limit, steps[..|steps| - 1]);
      EveryRunIsSafe(connections, limit, steps[..|steps| - 1]);
      ConnectionsStay(earlier, connections, steps[|steps| - 1]);
      TargetsStayFit(earlier, connections, steps[|steps| - 1]);
      StatusStaysFit(earlier, connections, steps[|steps| - 1]);
    }
    PermitsSuffice(connections, limit, steps);
    RunningAreHolders(b.phases, b.targets);
  }

  /** A second target of a connection is never found by its worker: only a cancel can end it. */
  lemma {:induction false} SecondTargetStaysQueued(connections: seq<Id>, limit: nat, steps: seq<Step>, i: nat, j: nat)
    requires i < j < |connections| && connections[i] == connections[j]
    requires CancelBatch !in steps
    ensures var b := AfterSteps(connections, limit, steps);
            SameConnections(b.targets, connections) && b.targets[j].status == Queued && !b.cancelled
  {
    if steps != [] {
      var earlier := AfterSteps(connections, limit, steps[..|steps| - 1]);
      var step := steps[|steps| - 1];
      SecondTargetStaysQueued(connections, limit, steps[..|steps| - 1], i, j);
      SecondStays(earlier, connections, step, i, j);
    }
  }

  lemma SecondStays(b: Batch, connections: seq<Id>, step: Step, i: nat, j: nat)
    requires SameConnections(b.targets, connections) && |b.phases| == |connections|
    requires i < j < |connections| && connections[i] == connections[j]
    requires step != CancelBatch && b.targets[j].status == Queued && !b.cancelled
    ensures var n := Next(b, connections, step);
            SameConnections(n.targets, connections) && n.targets[j].status == Queued && !n.cancelled
  {
    ConnectionsStay(b, connections, step);
    NeverTheSecond(b.targets, connections, i, j);
  }

  lemma NeverTheSecond(targets: Targets, connections: seq<Id>, i: nat, j: nat)
    requires SameConnections(targets, connections)
    requires i < j < |connections| && connections[i] == connections[j]
    ensures forall worker :: 0 <= worker < |connections| ==> First(targets, connections[worker]) != j
  {
    assert targets[i].connection == targets[j].connection;
  }

  /** A running target is the one its connection's workers find, and one of them is executing. */
  predicate WorkedOn(connections: seq<Id>, phases: seq<Phase>, targets: Targets, k: nat)
    requires k < |targets| == |connections| == |phases|
  {
    && First(targets, connections[k]) == k
    && exists i :: 0 <= i < |phases| && phases[i] == Executing && connections[i] == connections[k]
  }

  predicate RunningAreWorkedOn(connections: seq<Id>, phases: seq<Phase>, targets: Targets) {
    && SameConnections(targets, connections) && |phases| == |connections|
    && forall k :: 0 <= k < |targets| && targets[k].status == Running ==> WorkedOn(connections, phases, targets, k)
  }

  lemma FirstDependsOnConnections(targets: Targets, changed: Targets, connections: seq<Id>, id: Id)
    requires SameConnections(targets, connections) && SameConnections(changed, connections)
    ensures First(targets, id) == First(changed, id)
  {
  }

  /** What changes neither the executing workers nor the running targets leaves them to each other. */
  lemma StillWorkedOn(connections: seq<Id>, phases: seq<Phase>, moved: seq<Phase>, targets: Targets, changed: Targets)
    requires RunningAreWorkedOn(connections, phases, targets)
    requires SameConnections(changed, connections) && |moved| == |connections|
    requires forall i :: 0 <= i < |phases| && phases[i] == Executing ==> moved[i] == Executing
    requires forall k :: 0 <= k < |targets| && changed[k].status == Running ==> targets[k].status == Running
    ensures RunningAreWorkedOn(connections, moved, changed)
  {
    forall k | 0 <= k < |changed| && changed[k].status == Running ensures WorkedOn(connections, moved, changed, k) {
      assert WorkedOn(connections, phases, targets, k);
      FirstDependsOnConnections(targets, changed, connections, connections[k]);
      var i :| 0 <= i < |phases| && phases[i] == Executing && connections[i] == connections[k];
      assert moved[i] == Executing;
    }
  }

  lemma MarkedIsWorkedOn(connections: seq<Id>, phases: seq<Phase>, targets: Targets, i: nat)
    requires RunningAreWorkedOn(connections, phases, targets) && i < |phases| && phases[i].Told?
    ensures RunningAreWorkedOn(connections, phases[i := Executing], Replaced(targets, connections[i], Run))
  {
    var moved, changed := phases[i := Executing], Replaced(targets, connections[i], Run);
    forall k | 0 <= k < |changed| && changed[k].status == Running ensures WorkedOn(connections, moved, changed, k) {
      FirstDependsOnConnections(targets, changed, connections, connections[k]);
      if k == First(targets, connections[i]) {
        assert moved[i] == Executing && connections[i] == connections[k];
      } else {
        assert WorkedOn(connections, phases, targets, k);
        var w :| 0 <= w < |phases| && phases[w] == Executing && connections[w] == connections[k];
        assert moved[w] == Executing;
      }
    }
  }

  /** A worker that ends its target leaves the running ones to other workers. */
  lemma EndedIsNotWorkedOn(connections: seq<Id>, phases: seq<Phase>, targets: Targets, i: nat, change: Change)
    requires RunningAreWorkedOn(connections, phases, targets) && i < |phases| && change != Run
    ensures RunningAreWorkedOn(connections, phases[i := Written], Replaced(targets, connections[i], change))
  {
    var moved, changed := phases[i := Written], Replaced(targets, connections[i], change);
    forall k | 0 <= k < |changed| && changed[k].status == Running ensures WorkedOn(connections, moved, changed, k) {
      FirstDependsOnConnections(targets, changed, connections, connections[k]);
      assert WorkedOn(connections, phases, targets, k);
      var w :| 0 <= w < |phases| && phases[w] == Executing && connections[w] == connections[k];
      assert w != i && moved[w] == Executing;
    }
  }

  lemma StepKeepsWorkedOn(b: Batch, connections: seq<Id>, step: Step)
    requires RunningAreWorkedOn(connections, b.phases, b.targets)
    ensures var n := Next(b, connections, step);
            RunningAreWorkedOn(connections, n.phases, n.targets)
  {
    if Enabled(b, step) {
      match step
      case Begin | Conclude =>
      case CancelBatch => StillWorkedOn(connections, b.phases, b.phases, b.targets, CancelQueued(b.targets));
      case Acquire(i) => StillWorkedOn(connections, b.phases, b.phases[i := Permitted], b.targets, b.targets);
      case ReadFlag(i) =>
        StillWorkedOn(connections, b.phases, b.phases[i := Told(b.cancelled)], b.targets, b.targets);
      case Mark(i) =>
        if b.phases[i].stop {
          EndedIsNotWorkedOn(connections, b.phases, b.targets, i, Change.Cancel);
        } else {
          MarkedIsWorkedOn(connections, b.phases, b.targets, i);
        }
      case Report(i, outcome) => EndedIsNotWorkedOn(connections, b.phases, b.targets, i, Finish(outcome));
      case Release(i) => StillWorkedOn(connections, b.phases, b.phases[i := Done], b.targets, b.targets);
    }
  }

  lemma NothingRunsWhenAllAreDone(connections: seq<Id>, phases: seq<Phase>, targets: Targets)
    requires RunningAreWorkedOn(connections, phases, targets) && AllDone(phases)
    ensures forall k :: 0 <= k < |targets| ==> targets[k].status != Running
  {
  }

  predicate NoneQueued(targets: Targets) {
    forall k :: 0 <= k < |targets| ==> targets[k].status != Queued
  }

  lemma StepKeepsNoneQueued(b: Batch, connections: seq<Id>, step: Step)
    requires |b.phases| == |connections| && (b.cancelled ==> NoneQueued(b.targets))
    ensures var n := Next(b, connections, step);
            && (n.cancelled <==> b.cancelled || step == CancelBatch)
            && (n.cancelled ==> NoneQueued(n.targets))
  {
  }

  /** After a cancel no target is queued, and whatever runs has a worker: for any connections. */
  lemma {:induction false} CancelledRunsLeaveNothing(connections: seq<Id>, limit: nat, steps: seq<Step>)
    ensures var b := AfterSteps(connections, limit, steps);
            && RunningAreWorkedOn(connections, b.phases, b.targets)
            && (b.cancelled <==> CancelBatch in steps) && (b.cancelled ==> NoneQueued(b.targets))
  {
    if steps != [] {
      var before := steps[..|steps| - 1];
      var step := steps[|steps| - 1];
      CancelledRunsLeaveNothing(connections, limit, before);
      StepKeepsWorkedOn(AfterSteps(connections, limit, before), connections, step);
      StepKeepsNoneQueued(AfterSteps(connections, limit, before), connections, step);
      assert steps == before + [step];
    }
  }

  /** A batch concludes with every target ended if and only if no connection was given twice or it was
      cancelled at some point. */
  lemma ConclusionIsCompleteIffDistinct(connections: seq<Id>, limit: nat, steps: seq<Step>)
    requires AfterSteps(connections, limit, steps).finished
    ensures var b := AfterSteps(connections, limit, steps);
            (forall i :: 0 <= i < |b.targets| ==> Terminal(b.targets[i].status))
            <==> Distinct(connections) || CancelBatch in steps
  {
    if Distinct(connections) {
      EveryRunIsSafe(connections, limit, steps);
    } else if CancelBatch in steps {
      var b := AfterSteps(connections, limit, steps);
      StatusAlwaysFits(connections, limit, steps);
      CancelledRunsLeaveNothing(connections, limit, steps);
      NothingRunsWhenAllAreDone(connections, b.phases, b.targets);
    } else {
      var i, j :| 0 <= i < j < |connections| && connections[i] == connections[j];
      SecondTargetStaysQueued(connections, limit, steps, i, j);
    }
  }

  /** A cancel that comes once the workers have begun decides the batch's status for good. */
  lemma {:induction false} CancelSticks(connections: seq<Id>, limit: nat, steps: seq<Step>, k: nat)
    requires k < |steps| && steps[k] == CancelBatch && AfterSteps(connections, limit, steps[..k]).begun
    ensures var b := AfterSteps(connections, limit, steps);
            b.status == Cancelled && b.begun && b.cancelled
  {
    var last := |steps| - 1;
    if k < last {
      assert steps[..last][..k] == steps[..k];
      CancelSticks(connections, limit, steps[..last], k);
      StaysCancelled(AfterSteps(connections, limit, steps[..last]), connections, steps[last]);
    }
  }

  lemma StaysCancelled(b: Batch, connections: seq<Id>, step: Step)
    requires |b.phases| == |connections| && b.status == Cancelled && b.begun && b.cancelled
    ensures var n := Next(b, connections, step);
            n.status == Cancelled && n.begun && n.cancelled
  {
  }

  predicate CancelledAfterBegin(connections: seq<Id>, limit: nat, steps: seq<Step>, k: nat) {
    k < |steps| && steps[k] == CancelBatch && AfterSteps(connections, limit, steps[..k]).begun
  }

  /** A batch that has begun is marked cancelled if and only if a cancel came after the beginning:
      an earlier one is overwritten when the workers begin, although its targets stay cancelled. */
  lemma {:induction false} MarkedCancelledIffCancelledAfterBegin(connections: seq<Id>, limit: nat, steps: seq<Step>)
    requires AfterSteps(connections, limit, steps).begun
    ensures AfterSteps(connections, limit, steps).status == Cancelled
            <==> exists k: nat :: CancelledAfterBegin(connections, limit, steps, k)
  {
    if k: nat :| CancelledAfterBegin(connections, limit, steps, k) {
      CancelSticks(connections, limit, steps, k);
    }
    if AfterSteps(connections, limit, steps).status == Cancelled {
      var last := |steps| - 1;
      if !CancelledAfterBegin(connections, limit, steps, last) {
        MarkedCancelledIffCancelledAfterBegin(connections, limit, steps[..last]);
        var k: nat :| CancelledAfterBegin(connections, limit, steps[..last], k);
        assert steps[..last][..k] == steps[..k];
        assert CancelledAfterBegin(connections, limit, steps, k);
      }
    }
  }

  predicate BeforeFlag(phase: Phase) {
    phase == Waiting || phase == Permitted
  }

  /** The target is cancelled, and its worker is not past the flag. */
  predicate Stopped(b: Batch, i: nat) {
    && i < |b.targets| == |b.phases| && b.cancelled && b.targets[i].status == Cancelled
    && b.phases[i] != Executing && b.phases[i] != Told(false)
  }

  lemma ReplacedAt(targets: Targets, connections: seq<Id>, worker: nat, change: Change, i: nat)
    requires Distinct(connections) && SameConnections(targets, connections)
    requires worker < |connections| && i < |connections|
    ensures var r := Replaced(targets, connections[worker], change);
            |r| == |targets| && r[i] == if i == worker then Changed(targets[i], change) else targets[i]
  {
    DistinctFindsItself(targets, connections, worker);
  }

  lemma StaysStopped(b: Batch, connections: seq<Id>, step: Step, i: nat)
    requires Distinct(connections) && SameConnections(b.targets, connections)
    requires |b.phases| == |connections| && Stopped(b, i)
    ensures Stopped(Next(b, connections, step), i)
  {
    if Enabled(b, step) {
      match step
      case Mark(worker) =>
        ReplacedAt(b.targets, connections, worker, if b.phases[worker].stop then Change.Cancel else Run, i);
      case Report(worker, outcome) => ReplacedAt(b.targets, connections, worker, Finish(outcome), i);
      case _ =>
    }
  }

  lemma StoppedOneStepOn(connections: seq<Id>, limit: nat, before: seq<Step>, step: Step, i: nat)
    requires Distinct(connections) && Stopped(AfterSteps(connections, limit, before), i)
    ensures Stopped(AfterSteps(connections, limit, before + [step]), i)
  {
    TargetsAlwaysFit(connections, limit, before);
    StaysStopped(AfterSteps(connections, limit, before), connections, step, i);
    assert (before + [step])[..|before|] == before;
  }

  lemma {:induction false} StoppedForGood(connections: seq<Id>, limit: nat, steps: seq<Step>, k: nat, i: nat)
    requires Distinct(connections) && k <= |steps|
    requires Stopped(AfterSteps(connections, limit, steps[..k]), i)
    ensures Stopped(AfterSteps(connections, limit, steps), i)
  {
    if k == |steps| {
      assert steps[..k] == steps;
    } else {
      var before := steps[..|steps| - 1];
      assert before[..k] == steps[..k];
      StoppedForGood(connections, limit, before, k, i);
      StoppedOneStepOn(connections, limit, before, steps[|steps| - 1], i);
      assert before + [steps[|steps| - 1]] == steps;
    }
  }

  /** A target whose worker had not yet read the flag when the batch was cancelled never runs. */
  lemma CancelledTargetsNeverRun(connections: seq<Id>, limit: nat, steps: seq<Step>, k: nat, i: nat)
    requires Distinct(connections) && k < |steps| && i < |connections| && steps[k] == CancelBatch
    requires BeforeFlag(AfterSteps(connections, limit, steps[..k]).phases[i])
    ensures Stopped(AfterSteps(connections, limit, steps), i)
  {
    TargetsAlwaysFit(connections, limit, steps[..k]);
    CancelStops(AfterSteps(connections, limit, steps[..k]), connections, i);
    assert steps[..k + 1][..k] == steps[..k];
    StoppedForGood(connections, limit, steps, k + 1, i);
  }

  lemma TargetsAlwaysFit(connections: seq<Id>, limit: nat, steps: seq<Step>)
    requires Distinct(connections)
    ensures var b := AfterSteps(connections, limit, steps);
            SameConnections(b.targets, connections) && TargetsFit(b.phases, b.targets)
  {
    EveryRunIsSafe(connections, limit, steps);
  }

  lemma CancelStops(b: Batch, connections: seq<Id>, i: nat)
    requires |b.phases| == |connections| && TargetsFit(b.phases, b.targets) && i < |connections|
    requires BeforeFlag(b.phases[i])
    ensures Stopped(Next(b, connections, CancelBatch), i)
  {
  }

  /** A concluded batch is marked completed if and only if every target is and no cancel came after
      the beginning. */
  lemma CompletedIffEveryTargetIs(connections: seq<Id>, limit: nat, steps: seq<Step>)
    requires AfterSteps(connections, limit, steps).finished
    ensures var b := AfterSteps(connections, limit, steps);
            b.status == Completed
            <==> AllCompleted(b.targets) && !exists k: nat :: CancelledAfterBegin(connections, limit, steps, k)
  {
    StatusAlwaysFits(connections, limit, steps);
    MarkedCancelledIffCancelledAfterBegin(connections, limit, steps);
  }

  lemma {:induction false} StatusAlwaysFits(connections: seq<Id>, limit: nat, steps: seq<Step>)
    ensures StatusFits(AfterSteps(connections, limit, steps))
  {
    if steps != [] {
      StatusAlwaysFits(connections, limit, steps[..|steps| - 1]);
      StatusStaysFit(AfterSteps(connections, limit, steps[..|steps| - 1]), connections, steps[|steps| - 1]);
    }
  }

  // ---- the record tells what the commands returned ----------------------------

  /** What the workers have reported. */
  function Reports(connections: seq<Id>, limit: nat, steps: seq<Step>): map<nat, Outcome> {
    if steps == [] then map[]
    else
      var before := steps[..|steps| - 1];
      Noted(AfterSteps(connections, limit, before), Reports(connections, limit, before), steps[|steps| - 1])
  }

  function Noted(b: Batch, reports: map<nat, Outcome>, step: Step): map<nat, Outcome> {
    if step.Report? && Enabled(b, step) then reports[step.worker := step.outcome] else reports
  }

  function ReportOf(reports: map<nat, Outcome>, i: nat): Option<Outcome> {
    if i in reports then Some(reports[i]) else None
  }

  /** The record tells it of every target; and a worker that is through without a report was told to stop. */
  predicate AllTell(phases: seq<Phase>, targets: Targets, reports: map<nat, Outcome>) {
    && |phases| == |targets|
    && (forall i :: 0 <= i < |targets| ==> Tells(targets[i], ReportOf(reports, i)))
    && (forall i :: i in reports ==> i < |phases| && (phases[i] == Written || phases[i] == Done))
    && (forall i :: 0 <= i < |targets| && i !in reports && (phases[i] == Written || phases[i] == Done) ==>
          targets[i].status == Cancelled && targets[i].note)
  }

  lemma MoveTells(phases: seq<Phase>, targets: Targets, reports: map<nat, Outcome>, i: nat, phase: Phase)
    requires AllTell(phases, targets, reports) && i < |phases|
    requires if phases[i] == Written then phase == Done
             else phases[i] != Done && phase != Written && phase != Done
    ensures AllTell(phases[i := phase], targets, reports)
  {
  }

  lemma MarkTells(phases: seq<Phase>, targets: Targets, reports: map<nat, Outcome>, connections: seq<Id>, i: nat)
    requires Distinct(connections) && SameConnections(targets, connections) && AllTell(phases, targets, reports)
    requires i < |phases| && phases[i].Told?
    ensures if phases[i].stop
            then AllTell(phases[i := Written], Replaced(targets, connections[i], Change.Cancel), reports)
            else AllTell(phases[i := Executing], Replaced(targets, connections[i], Run), reports)
  {
    DistinctFindsItself(targets, connections, i);
  }

  lemma ReportTells(phases: seq<Phase>, targets: Targets, reports: map<nat, Outcome>, connections: seq<Id>, i: nat,
                    outcome: Outcome)
    requires Distinct(connections) && SameConnections(targets, connections) && AllTell(phases, targets, reports)
    requires i < |phases| && phases[i] == Executing
    ensures AllTell(phases[i := Written], Replaced(targets, connections[i], Finish(outcome)), reports[i := outcome])
  {
    DistinctFindsItself(targets, connections, i);
    var changed := Replaced(targets, connections[i], Finish(outcome));
    forall k | 0 <= k < |changed| ensures Tells(changed[k], ReportOf(reports[i := outcome], k)) {
      if k != i { assert Tells(targets[k], ReportOf(reports, k)); }
    }
  }

  lemma CancelTells(phases: seq<Phase>, targets: Targets, reports: map<nat, Outcome>)
    requires AllTell(phases, targets, reports)
    ensures AllTell(phases, CancelQueued(targets), reports)
  {
    forall k | 0 <= k < |targets| ensures Tells(CancelQueued(targets)[k], ReportOf(reports, k)) {
      assert Tells(targets[k], ReportOf(reports, k));
    }
  }

  lemma StepTells(b: Batch, connections: seq<Id>, reports: map<nat, Outcome>, step: Step)
    requires Distinct(connections) && SameConnections(b.targets, connections)
    requires AllTell(b.phases, b.targets, reports)
    ensures var n := Next(b, connections, step);
            AllTell(n.phases, n.targets, Noted(b, reports, step))
  {
    if Enabled(b, step) {
      match step
      case Begin | Conclude =>
      case CancelBatch => CancelTells(b.phases, b.targets, reports);
      case Acquire(i) => MoveTells(b.phases, b.targets, reports, i, Permitted);
      case ReadFlag(i) => MoveTells(b.phases, b.targets, reports, i, Told(b.cancelled));
      case Mark(i) => MarkTells(b.phases, b.targets, reports, connections, i);
      case Report(i, outcome) => ReportTells(b.phases, b.targets, reports, connections, i, outcome);
      case Release(i) => MoveTells(b.phases, b.targets, reports, i, Done);
    }
  }

  /** In every run over distinct connections a target is completed if and only if its worker reported an
      exit with code 0, failed if and only if it reported another code or a broken execution, and its
      exit code is the one reported. */
  lemma {:induction false} TargetsTellWhatWasReported(connections: seq<Id>, limit: nat, steps: seq<Step>)
    requires Distinct(connections)
    ensures var b := AfterSteps(connections, limit, steps);
            AllTell(b.phases, b.targets, Reports(connections, limit, steps))
  {
    if steps != [] {
      var before := steps[..|steps| - 1];
      TargetsTellWhatWasReported(connections, limit, before);
      TargetsAlwaysFit(connections, limit, before);
      StepTells(AfterSteps(connections, limit, before), connections, Reports(connections, limit, before),
                steps[|steps| - 1]);
    }
  }

  predicate Succeeded(reports: map<nat, Outcome>, i: nat) {
    i in reports && reports[i].Exited? && reports[i].code == 0
  }

  predicate AllSucceeded(reports: map<nat, Outcome>, count: nat) {
    forall i :: 0 <= i < count ==> Succeeded(reports, i)
  }

  lemma CompletedMeansSucceeded(phases: seq<Phase>, targets: Targets, reports: map<nat, Outcome>)
    requires AllTell(phases, targets, reports)
    ensures AllCompleted(targets) <==> AllSucceeded(reports, |targets|)
  {
    forall i | 0 <= i < |targets| ensures Succeeded(reports, i) <==> targets[i].status == Completed {
      assert Tells(targets[i], ReportOf(reports, i));
    }
  }

  /** A concluded batch is marked completed if and only if every command exited with 0 and no cancel came
      after the beginning. */
  lemma CompletedIffEveryCommandSucceeded(connections: seq<Id>, limit: nat, steps: seq<Step>)
    requires Distinct(connections) && AfterSteps(connections, limit, steps).finished
    ensures AfterSteps(connections, limit, steps).status == Completed <==>
              && AllSucceeded(Reports(connections, limit, steps), |connections|)
              && !exists k: nat :: CancelledAfterBegin(connections, limit, steps, k)
  {
    var b := AfterSteps(connections, limit, steps);
    TargetsTellWhatWasReported(connections, limit, steps);
    TargetsAlwaysFit(connections, limit, steps);
    CompletedIffEveryTargetIs(connections, limit, steps);
    CompletedMeansSucceeded(b.phases, b.targets, Reports(connections, limit, steps));
  }

  // ---- every batch concludes --------------------------------------------------

  /** How many steps a worker still has to take, at most. */
  function StepsLeft(phase: Phase): nat {
    match phase
    case Waiting => 5
    case Permitted => 4
    case Told(_) => 3
    case Executing => 2
    case Written => 1
    case Done => 0
  }

  function WorkOf(phases: seq<Phase>): nat {
    if phases == [] then 0 else StepsLeft(phases[0]) + WorkOf(phases[1..])
  }

  function Work(b: Batch): nat {
    WorkOf(b.phases) + if b.finished then 0 else 1
  }

  /** A worker's step, or the conclusion. */
  predicate Advances(step: Step) {
    !step.Begin? && !step.CancelBatch?
  }

  lemma {:induction false} WorkAfterMove(phases: seq<Phase>, i: nat, phase: Phase)
    requires i < |phases|
    ensures WorkOf(phases[i := phase]) == WorkOf(phases) - StepsLeft(phases[i]) + StepsLeft(phase)
  {
    if i > 0 {
      assert phases[i := phase][1..] == phases[1..][i - 1 := phase];
      WorkAfterMove(phases[1..], i - 1, phase);
    } else {
      assert phases[i := phase][1..] == phases[1..];
    }
  }

  /** Whatever the batch does brings its end closer; a cancel does not put it off. */
  lemma StepsLowerTheWork(b: Batch, connections: seq<Id>, step: Step)
    requires |b.phases| == |connections|
    ensures Work(Next(b, connections, step)) + (if Enabled(b, step) && Advances(step) then 1 else 0) <= Work(b)
  {
    if Enabled(b, step) {
      match step
      case Begin | CancelBatch | Conclude =>
      case Acquire(i) => WorkAfterMove(b.phases, i, Permitted);
      case ReadFlag(i) => WorkAfterMove(b.phases, i, Told(b.cancelled));
      case Mark(i) => WorkAfterMove(b.phases, i, if b.phases[i].stop then Written else Executing);
      case Report(i, _) => WorkAfterMove(b.phases, i, Written);
      case Release(i) => WorkAfterMove(b.phases, i, Done);
    }
  }

  /** How many of the steps were taken by workers or by the conclusion. */
  function Taken(connections: seq<Id>, limit: nat, steps: seq<Step>): nat {
    if steps == [] then 0
    else
      var before := steps[..|steps| - 1];
      var step := steps[|steps| - 1];
      Taken(connections, limit, before)
      + if Enabled(AfterSteps(connections, limit, before), step) && Advances(step) then 1 else 0
  }

  lemma {:induction false} FreshWork(phases: seq<Phase>)
    requires forall i :: 0 <= i < |phases| ==> phases[i] == Waiting
    ensures WorkOf(phases) == 5 * |phases|
  {
    if phases != [] {
      FreshWork(phases[1..]);
    }
  }

  /** No run takes more than five steps for each connection and one for the conclusion. */
  lemma {:induction false} StepsAreBounded(connections: seq<Id>, limit: nat, steps: seq<Step>)
    ensures Taken(connections, limit, steps) + Work(AfterSteps(connections, limit, steps)) <= 5 * |connections| + 1
  {
    if steps == [] {
      FreshWork(Start(connections, limit).phases);
    } else {
      StepsAreBounded(connections, limit, steps[..|steps| - 1]);
      StepsLowerTheWork(AfterSteps(connections, limit, steps[..|steps| - 1]), connections, steps[|steps| - 1]);
    }
  }

  /** A batch that has begun and is not concluded always has a step to take. */
  lemma NeverStuck(b: Batch) returns (step: Step)
    requires b.begun && !b.finished && b.limit >= 1
    ensures Enabled(b, step) && Advances(step)
  {
    if AllDone(b.phases) {
      return Conclude;
    }
    if i :| 0 <= i < |b.phases| && Holds(b.phases[i]) {
      match b.phases[i]
      case Permitted => return ReadFlag(i);
      case Told(_) => return Mark(i);
      case Executing => return Report(i, Broke);
      case Written => return Release(i);
    }
    var i :| 0 <= i < |b.phases| && b.phases[i] != Done;
    NoneHeld(b.phases);
    return Acquire(i);
  }

  lemma {:induction false} NoneHeld(phases: seq<Phase>)
    requires forall i :: 0 <= i < |phases| ==> !Holds(phases[i])
    ensures Holders(phases) == 0
  {
    if phases != [] {
      NoneHeld(phases[1..]);
    }
  }

  lemma OneStepOn(connections: seq<Id>, limit: nat, steps: seq<Step>) returns (step: Step)
    requires limit >= 1
    requires AfterSteps(connections, limit, steps).begun && !AfterSteps(connections, limit, steps).finished
    ensures Advances(step) && AfterSteps(connections, limit, steps + [step]).begun
    ensures Work(AfterSteps(connections, limit, steps + [step])) < Work(AfterSteps(connections, limit, steps))
  {
    var b := AfterSteps(connections, limit, steps);
    PermitsSuffice(connections, limit, steps);
    step := NeverStuck(b);
    StepsLowerTheWork(b, connections, step);
    StepsGrow(connections, limit, steps + [step], |steps|);
    assert (steps + [step])[..|steps|] == steps && (steps + [step])[..|steps| + 1] == steps + [step];
  }

  lemma StepsGrow(connections: seq<Id>, limit: nat, steps: seq<Step>, k: nat)
    requires k < |steps|
    ensures AfterSteps(connections, limit, steps[..k + 1])
            == Next(AfterSteps(connections, limit, steps[..k]), connections, steps[k])
  {
    assert steps[..k + 1][..k] == steps[..k];
  }

  /** From any point of any run a batch that has begun can go on to its conclusion within the steps
      that are left.  As no run takes more steps than that, and none is stuck before, every batch
      concludes. */
  lemma {:induction false} EveryBatchConcludes(connections: seq<Id>, limit: nat, steps: seq<Step>)
    returns (more: seq<Step>)
    requires limit >= 1 && AfterSteps(connections, limit, steps).begun
    ensures AfterSteps(connections, limit, steps + more).finished
    ensures |more| <= Work(AfterSteps(connections, limit, steps))
    ensures forall k :: 0 <= k < |more| ==> Advances(more[k])
    decreases Work(AfterSteps(connections, limit, steps))
  {
    var b := AfterSteps(connections, limit, steps);
    if b.finished {
      more := [];
      assert steps + more == steps;
    } else {
      var step := OneStepOn(connections, limit, steps);
      var rest := EveryBatchConcludes(connections, limit, steps + [step]);
      more := [step] + rest;
      assert steps + more == steps + [step] + rest;
    }
  }
}
