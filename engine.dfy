/** The simulation state held between ticks and one pass of the tick
    engine over it (`updateSimulation`), plus the per-stage counts shown
    beside the pipeline (`getStageStats`). */
module Engine {
  import opened Stages
  import opened Flow

  /** `stageLoad[k]`, with a stage that has no entry reading as 0 (the
      speed rule then treats it as 1). */
  function LoadOf(load: map<nat, nat>, k: nat): nat {
    if k in load then load[k] else 0
  }

  /** The load snapshot taken once before the pass: how many items at each
      stage are not returning. Stages with none have no entry. */
  method LoadSnapshot(items: seq<Item>) returns (load: map<nat, nat>)
    ensures forall k :: k in load <==> Count(items, LoadAt(k)) > 0
    ensures forall k :: k in load ==> load[k] == Count(items, LoadAt(k))
  {
    load := map[];
    var i := 0;
    while i < |items|
      invariant 0 <= i <= |items|
      invariant forall k :: k in load <==> Count(items[..i], LoadAt(k)) > 0
      invariant forall k :: k in load ==> load[k] == Count(items[..i], LoadAt(k))
    {
      forall k: nat {
        CountPrefix(items, i, LoadAt(k));
      }
      if items[i].state != Returning {
        var k := items[i].stageIndex;
        load := load[k := LoadOf(load, k) + 1];
      }
      i := i + 1;
    }
    assert items[..|items|] == items;
  }

  datatype StageStat = StageStat(queued: nat, processing: nat, waiting: nat)

  /** The three counts of stage k. */
  function StatOf(items: seq<Item>, k: nat): StageStat {
    StageStat(Count(items, StateAt(k, Queued)), Count(items, StateAt(k, Processing)), Count(items, StateAt(k, Waiting)))
  }

  /** One more item in state `s`. */
  function Bump(st: StageStat, s: ItemState): StageStat {
    match s
    case Queued => st.(queued := st.queued + 1)
    case Processing => st.(processing := st.processing + 1)
    case Waiting => st.(waiting := st.waiting + 1)
    case _ => st
  }

  lemma StatPrefix(items: seq<Item>, i: nat, k: nat)
    requires i < |items|
    ensures Count(items[..i + 1], At(k)) == Count(items[..i], At(k)) + B(items[i].stageIndex == k)
    ensures StatOf(items[..i + 1], k) ==
      if items[i].stageIndex == k then Bump(StatOf(items[..i], k), items[i].state) else StatOf(items[..i], k)
    ensures Count(items[..i], At(k)) == 0 ==> StatOf(items[..i], k) == StageStat(0, 0, 0)
  {
    CountPrefix(items, i, At(k));
    CountPrefix(items, i, StateAt(k, Queued));
    CountPrefix(items, i, StateAt(k, Processing));
    CountPrefix(items, i, StateAt(k, Waiting));
    if Count(items[..i], At(k)) == 0 {
      CountZero(items[..i], At(k));
      CountZero(items[..i], StateAt(k, Queued));
      CountZero(items[..i], StateAt(k, Processing));
      CountZero(items[..i], StateAt(k, Waiting));
    }
  }

  /** `getStageStats`: an entry for every stage holding at least one item,
      counting its queued, processing and waiting items. */
  method StageStats(stages: seq<Stage>, items: seq<Item>) returns (stats: map<string, StageStat>)
    requires WellFormed(stages)
    ensures forall k :: 0 <= k < |stages| ==> (stages[k].id in stats <==> Count(items, At(k)) > 0)
    ensures forall k :: 0 <= k < |stages| && stages[k].id in stats ==> stats[stages[k].id] == StatOf(items, k)
    ensures forall id :: id in stats ==> FindIndex(stages, id).Some?
  {
    stats := map[];
    var i := 0;
    while i < |items|
      invariant 0 <= i <= |items|
      invariant forall k :: 0 <= k < |stages| ==> (stages[k].id in stats <==> Count(items[..i], At(k)) > 0)
      invariant forall k :: 0 <= k < |stages| && stages[k].id in stats ==> stats[stages[k].id] == StatOf(items[..i], k)
      invariant forall id :: id in stats ==> FindIndex(stages, id).Some?
    {
      var it := items[i];
      ghost var before := stats;
      if it.stageIndex < |stages| {
        var id := stages[it.stageIndex].id;
        var st := if id in stats then stats[id] else StageStat(0, 0, 0);
        stats := stats[id := Bump(st, it.state)];
      }
      forall k | 0 <= k < |stages|
        ensures stages[k].id in stats <==> Count(items[..i + 1], At(k)) > 0
        ensures stages[k].id in stats ==> stats[stages[k].id] == StatOf(items[..i + 1], k)
      {
        StatPrefix(items, i, k);
        if it.stageIndex < |stages| && stages[k].id == stages[it.stageIndex].id {
          IdsDistinct(stages, k, it.stageIndex);
        }
      }
      i := i + 1;
    }
    assert items[..|items|] == items;
  }

  class Simulation {
    var items: seq<Item>
    var lastSpawn: int
    var completedItems: seq<int>
    var history: map<string, Hist>

    ghost predicate Valid()
      reads this
    {
      && (forall i :: 0 <= i < |items| ==> ItemOk(items[i]))
      && |completedItems| <= RingSize
      && (forall k :: 0 <= k < StageCount ==> StagesConfig[k].id in history)
    }

    /** The state the engine starts from. */
    constructor(stages: seq<Stage>)
      requires WellFormed(stages)
      ensures Valid()
      ensures items == [] && lastSpawn == 0 && completedItems == []
      ensures history == InitialHistory(stages)
    {
      items := [];
      lastSpawn := 0;
      completedItems := [];
      history := InitialHistory(stages);
      new;
      assert forall k :: 0 <= k < StageCount ==> stages[k].id == StagesConfig[k].id;
    }

    /** `resetSimulation`: empty state, zero history for every stage, the
      countdown re-armed to the full schedule, and the headline and
      per-stage metrics cleared. */
    method Reset(stages: seq<Stage>, scheduleHours: real)
      returns (countdown: real, m: Metrics, sm: map<string, StageAverage>)
      requires WellFormed(stages)
      modifies this
      ensures Valid()
      ensures items == [] && lastSpawn == 0 && completedItems == []
      ensures history == InitialHistory(stages)
      ensures countdown * HoursPerTick == scheduleHours
      ensures m == Metrics(0, 0, 0.0) && sm == map[]
    {
      items := [];
      lastSpawn := 0;
      completedItems := [];
      history := InitialHistory(stages);
      assert forall k :: 0 <= k < StageCount ==> stages[k].id == StagesConfig[k].id;
      countdown := ResetCountdown(scheduleHours);
      m := Metrics(0, 0, 0.0);
      sm := map[];
    }

    /** A queued item: a backlog item starts transferring when the next
      stage has a free actor; elsewhere the item moves to the wait zone. */
    method StepQueued(j: nat, stages: seq<Stage>, p: Problems, c: real, rand: nat -> real, d: nat) returns (d': nat)
      requires WellFormed(stages) && j < |items| && ItemOk(items[j]) && items[j].state == Queued
      modifies this
      ensures |items| == |old(items)| && items == old(items)[j := items[j]]
      ensures Step(stages, p, c, old(items)[j], items[j])
      ensures var k := old(items)[j].stageIndex;
        items[j].state == Transferring <==>
          stages[k].kind == Queue && (k + 1 < |stages| ==> CapacityFree(stages[k + 1], old(items), k + 1))
      ensures forall k :: CapacityRespected(stages, old(items), k) ==> CapacityRespected(stages, items, k)
      ensures history == old(history) && completedItems == old(completedItems) && lastSpawn == old(lastSpawn)
    {
      var a := items[j];
      var k := a.stageIndex;
      var here := stages[k];
      var canTransfer := true;
      if here.kind == Queue && k + 1 < |stages| {
        var next := stages[k + 1];
        if Limits(next.actors) && Count(items, ProcessingAt(k + 1)) >= next.actors.n {
          canTransfer := false;
        }
      }
      var draw := rand(d);
      d' := if here.kind != Queue && WaitTargetDraws(here, p) then d + 1 else d;
      var b := QueuedNext(here, p, a, canTransfer, draw);
      QueuedStep(stages, p, c, a, canTransfer, draw);
      UpdateKeepsCapacity(stages, items, j, b);
      items := items[j := b];
    }

    /** `peers.forEach(p => (p.inBatch = false))`: every waiting item at
      stage k that is neither a bug nor unclear leaves its batch. */
    method ReleaseBatch(k: nat)
      modifies this
      ensures |items| == |old(items)|
      ensures forall i :: 0 <= i < |items| ==>
        items[i] == if BatchPeerAt(k).Holds(old(items)[i]) then old(items)[i].(inBatch := false) else old(items)[i]
      ensures forall k' :: Count(items, ProcessingAt(k')) == Count(old(items), ProcessingAt(k'))
      ensures history == old(history) && completedItems == old(completedItems) && lastSpawn == old(lastSpawn)
    {
      var i := 0;
      while i < |items|
        invariant 0 <= i <= |items| == |old(items)|
        invariant forall i' :: 0 <= i' < i ==>
          items[i'] == if BatchPeerAt(k).Holds(old(items)[i']) then old(items)[i'].(inBatch := false) else old(items)[i']
        invariant forall i' :: i <= i' < |items| ==> items[i'] == old(items)[i']
        invariant history == old(history) && completedItems == old(completedItems) && lastSpawn == old(lastSpawn)
      {
        if BatchPeerAt(k).Holds(items[i]) {
          items := items[i := items[i].(inBatch := false)];
        }
        i := i + 1;
      }
      forall k' {
        CountSame(old(items), items, ProcessingAt(k'));
      }
    }

    /** The start decision for waiting item j: the wait must be over and
      the stage must have a free actor; then silos (a draw below 0.15),
      large batches (fewer than 5 batch peers waiting) and the manual
      deploy gate (a draw above 0.02) may veto. Returns the decision, the
      item's new `inBatch` flag and the next draw index. */
    method StartGate(j: nat, stages: seq<Stage>, p: Problems, c: real, rand: nat -> real, d: nat)
      returns (start: bool, batch: bool, d': nat)
      requires WellFormed(stages) && j < |items| && ItemOk(items[j]) && items[j].state == Waiting
      modifies this
      ensures |items| == |old(items)|
      ensures forall i :: 0 <= i < |items| ==> SameButBatch(old(items)[i], items[i])
      ensures forall k' :: Count(items, ProcessingAt(k')) == Count(old(items), ProcessingAt(k'))
      ensures var a := old(items)[j]; var here := stages[a.stageIndex];
        start ==> (WaitCleared(p, here.id, c, Waited(here, a))
                   && (here.kind != Sink ==> CapacityFree(here, old(items), a.stageIndex)))
      ensures var a := old(items)[j]; var here := stages[a.stageIndex];
        !Active(p, "silos") && !Active(p, "largeBatches") && !Active(p, "manualDeploy") ==>
          (start <==> WaitCleared(p, here.id, c, Waited(here, a))
                      && (here.kind != Sink ==> CapacityFree(here, old(items), a.stageIndex)))
      ensures var a := old(items)[j];
        Active(p, "largeBatches") && !a.isBug && !a.isUnclear && Count(old(items), BatchPeerAt(a.stageIndex)) < 5
        ==> !start
      ensures history == old(history) && completedItems == old(completedItems) && lastSpawn == old(lastSpawn)
    {
      var a := items[j];
      var k := a.stageIndex;
      var here := stages[k];
      start := WaitCleared(p, here.id, c, Waited(here, a));
      if start && here.kind != Sink && Limits(here.actors) {
        start := Count(items, ProcessingAt(k)) < here.actors.n;
      }
      batch := a.inBatch;
      d' := d;
      if start {
        if Active(p, "silos") {
          if rand(d') < 0.15 {
            start := false;
          }
          d' := d' + 1;
        }
        if Active(p, "largeBatches") && !a.isBug && !a.isUnclear {
          if Count(items, BatchPeerAt(k)) < 5 {
            start := false;
            batch := true;
          } else {
            ReleaseBatch(k);
            batch := false;
          }
        } else {
          batch := false;
        }
        if Active(p, "manualDeploy") && !Active(p, "infrequentDeploy") && here.id == DeployId {
          if rand(d') > 0.02 {
            start := false;
          }
          d' := d' + 1;
        }
      }
    }

    /** A waiting item starts processing when the gate allows, with a
      process target drawn for its stage. */
    method StepWaiting(j: nat, stages: seq<Stage>, p: Problems, c: real, rand: nat -> real, d: nat) returns (d': nat)
      requires WellFormed(stages) && j < |items| && ItemOk(items[j]) && items[j].state == Waiting
      modifies this
      ensures |items| == |old(items)|
      ensures forall i :: 0 <= i < |items| && i != j ==> SameButBatch(old(items)[i], items[i])
      ensures Step(stages, p, c, old(items)[j], items[j])
      ensures var k := old(items)[j].stageIndex;
        items[j].state == Processing ==> CapacityFree(stages[k], old(items), k)
      ensures var k := old(items)[j].stageIndex;
        !Active(p, "silos") && !Active(p, "largeBatches") && !Active(p, "manualDeploy") ==>
          (items[j].state == Processing <==>
             stages[k].kind != Sink && WaitCleared(p, stages[k].id, c, items[j]) && CapacityFree(stages[k], old(items), k))
      ensures var a, k := old(items)[j], old(items)[j].stageIndex;
        Active(p, "largeBatches") && !a.isBug && !a.isUnclear && Count(old(items), BatchPeerAt(k)) < 5
        ==> items[j].state == Waiting
      ensures forall k :: CapacityRespected(stages, old(items), k) ==> CapacityRespected(stages, items, k)
      ensures history == old(history) && completedItems == old(completedItems) && lastSpawn == old(lastSpawn)
    {
      var a := items[j];
      var here := stages[a.stageIndex];
      var start, batch;
      start, batch, d' := StartGate(j, stages, p, c, rand, d);
      assert forall k :: CapacityRespected(stages, old(items), k) ==> CapacityRespected(stages, items, k);
      var draw := rand(d');
      if start && here.kind != Sink && here.processTime.Some? {
        d' := d' + 1;
      }
      var b := WaitingNext(here, a, start, batch, draw);
      WaitingStep(stages, p, c, a, start, batch, draw);
      assert Waited(here, a).currentWaitTicks == b.currentWaitTicks;
      UpdateKeepsCapacity(stages, items, j, b);
      items := items[j := b];
    }

    /** A processing item advances; at 100 it starts transferring, and in
      Development unclear requirements may send it back to Analysis. */
    method StepProcessing(j: nat, stages: seq<Stage>, p: Problems, c: real, load: nat, rand: nat -> real, d: nat)
      returns (d': nat)
      requires WellFormed(stages) && j < |items| && ItemOk(items[j]) && items[j].state == Processing
      modifies this
      ensures |items| == |old(items)| && items == old(items)[j := items[j]]
      ensures Step(stages, p, c, old(items)[j], items[j])
      ensures var a, here := old(items)[j], stages[old(items)[j].stageIndex];
        var reached := Reached(here, p, load, a);
        && (items[j].state != Returning && here.kind != Sink ==> (items[j].state == Transferring <==> reached >= 100.0))
        && (items[j].state == Processing && here.kind != Sink ==> items[j].progress == reached)
      ensures forall k :: CapacityRespected(stages, old(items), k) ==> CapacityRespected(stages, items, k)
      ensures history == old(history) && completedItems == old(completedItems) && lastSpawn == old(lastSpawn)
    {
      var a := items[j];
      var here := stages[a.stageIndex];
      var draw := rand(d);
      d' := if Active(p, "unclearRequirements") && here.id == DevId then d + 1 else d;
      var b := ProcessingNext(here, p, load, a, draw);
      ProcessingStep(stages, p, c, load, a, draw);
      ProcessingProgress(here, p, load, a, draw);
      UpdateKeepsCapacity(stages, items, j, b);
      items := items[j := b];
    }

    /** A transferring item that has arrived enters the next stage; the
      stage it left gains its tick counters in the history, and entering
      Production records a completion in the ring of the last 50. */
    method StepTransferring(j: nat, now: int, stages: seq<Stage>, p: Problems, c: real, arrived: bool,
                            rand: nat -> real, d: nat) returns (d': nat)
      requires WellFormed(stages) && j < |items| && ItemOk(items[j]) && items[j].state == Transferring
      requires |completedItems| <= RingSize
      modifies this
      ensures |items| == |old(items)| && items == old(items)[j := items[j]]
      ensures Step(stages, p, c, old(items)[j], items[j])
      ensures items[j].stageIndex == old(items)[j].stageIndex + B(arrived)
      ensures var a := old(items)[j]; var id := stages[a.stageIndex].id;
        history == if arrived && id in old(history) then old(history)[id := Exit(old(history)[id], a)] else old(history)
      ensures completedItems ==
        if arrived && old(items)[j].stageIndex == DeployIndex then KeepLast(old(completedItems) + [now])
        else old(completedItems)
      ensures forall k :: CapacityRespected(stages, old(items), k) ==> CapacityRespected(stages, items, k)
      ensures lastSpawn == old(lastSpawn)
    {
      var a := items[j];
      var k := a.stageIndex;
      TransferStep(stages, p, c, a, arrived, rand(d));
      StageIds(stages, k + 1);
      d' := d;
      if arrived {
        RecordExit(stages[k].id, a, stages[k + 1].id == DoneId, now);
        if Active(p, "qualityIssues") && stages[k + 1].id == TestId {
          d' := d + 1;
        }
      }
      var b := TransferNext(stages, p, a, arrived, rand(d));
      UpdateKeepsCapacity(stages, items, j, b);
      items := items[j := b];
    }

    /** The bookkeeping of an arrival: the stage left gains the item's
      tick counters, and an arrival in Production is pushed onto the
      ring of the last 50 completions. */
    method RecordExit(prevId: string, a: Item, intoDone: bool, now: int)
      requires |completedItems| <= RingSize
      modifies this
      ensures history == if prevId in old(history) then old(history)[prevId := Exit(old(history)[prevId], a)]
                         else old(history)
      ensures completedItems == if intoDone then KeepLast(old(completedItems) + [now]) else old(completedItems)
      ensures items == old(items) && lastSpawn == old(lastSpawn)
    {
      if prevId in history {
        history := history[prevId := Exit(history[prevId], a)];
      }
      if intoDone {
        completedItems := completedItems + [now];
        if |completedItems| > RingSize {
          completedItems := completedItems[1..];
        }
      }
    }

    /** A returning item that has arrived is queued again at its return
      stage with fresh counters; the history is not touched. */
    method StepReturning(j: nat, stages: seq<Stage>, p: Problems, c: real, arrived: bool)
      requires WellFormed(stages) && j < |items| && ItemOk(items[j]) && items[j].state == Returning
      modifies this
      ensures |items| == |old(items)| && items == old(items)[j := items[j]]
      ensures Step(stages, p, c, old(items)[j], items[j])
      ensures arrived <==> items[j].state == Queued
      ensures arrived ==> items[j].stageIndex == old(items)[j].returnTarget < old(items)[j].stageIndex
      ensures forall k :: CapacityRespected(stages, old(items), k) ==> CapacityRespected(stages, items, k)
      ensures history == old(history) && completedItems == old(completedItems) && lastSpawn == old(lastSpawn)
    {
      var a := items[j];
      var b := ReturnNext(a, arrived);
      ReturnStep(stages, p, c, a, arrived);
      UpdateKeepsCapacity(stages, items, j, b);
      items := items[j := b];
    }

    /** One step of item j, by its state. */
    method StepItem(j: nat, now: int, stages: seq<Stage>, p: Problems, c: real, load: nat,
                    rand: nat -> real, arrived: bool, d: nat) returns (d': nat)
      requires WellFormed(stages) && j < |items| && ItemOk(items[j]) && |completedItems| <= RingSize
      modifies this
      ensures |items| == |old(items)|
      ensures Step(stages, p, c, old(items)[j], items[j])
      ensures forall i :: 0 <= i < |items| && i != j ==> SameButBatch(old(items)[i], items[i])
      ensures forall k :: CapacityRespected(stages, old(items), k) ==> CapacityRespected(stages, items, k)
      ensures var a := old(items)[j]; var id := stages[a.stageIndex].id;
        history == if Leaves(a, items[j], a.stageIndex) && id in old(history)
                   then old(history)[id := Exit(old(history)[id], a)] else old(history)
      ensures completedItems ==
        if Leaves(old(items)[j], items[j], DeployIndex) then KeepLast(old(completedItems) + [now]) else old(completedItems)
      ensures lastSpawn == old(lastSpawn)
    {
      d' := d;
      var a := items[j];
      if a.stageIndex < |stages| {
        match a.state
        case Queued =>
          d' := StepQueued(j, stages, p, c, rand, d);
        case Waiting =>
          d' := StepWaiting(j, stages, p, c, rand, d);
        case Processing =>
          d' := StepProcessing(j, stages, p, c, load, rand, d);
        case Transferring =>
          d' := StepTransferring(j, now, stages, p, c, arrived, rand, d);
        case Returning =>
          StepReturning(j, stages, p, c, arrived);
      }
    }

    /** Spawning: one new backlog item when more than the spawn interval
      has passed since the last spawn. */
    method Spawn(now: int) returns (spawned: bool)
      requires Valid()
      modifies this
      ensures Valid()
      ensures spawned <==> now - old(lastSpawn) > SpawnInterval(Count(old(items), Below(SinkIndex)))
      ensures items == if spawned then old(items) + [NewItem(now)] else old(items)
      ensures lastSpawn == if spawned then now else old(lastSpawn)
      ensures history == old(history) && completedItems == old(completedItems)
    {
      var activeCount := Count(items, Below(SinkIndex));
      spawned := now - lastSpawn > SpawnInterval(activeCount);
      if spawned {
        items := items + [NewItem(now)];
        lastSpawn := now;
      }
    }

    /** The pass over the items: each takes one step in list order, so the
      capacity gates see the records already stepped in this pass while
      the load snapshot does not. `arrived(i)` says whether item i, if
      moving, has reached its target position. */
    method Pass(now: int, stages: seq<Stage>, p: Problems, c: real, load: map<nat, nat>,
                rand: nat -> real, arrived: nat -> bool, d: nat)
      requires WellFormed(stages) && Valid()
      modifies this
      ensures Valid()
      ensures |items| == |old(items)|
      ensures forall i :: 0 <= i < |items| ==> Step(stages, p, c, old(items)[i], items[i])
      ensures forall k :: CapacityRespected(stages, old(items), k) ==> CapacityRespected(stages, items, k)
      ensures history.Keys == old(history).Keys
      ensures forall k :: 0 <= k < StageCount ==>
        history[stages[k].id] == Plus(old(history)[stages[k].id], Exits(old(items), items, k))
      ensures completedItems == KeepLast(old(completedItems) + Repeat(now, Exits(old(items), items, DeployIndex).count))
      ensures lastSpawn == old(lastSpawn)
    {
      ghost var pre := items;
      PassLoop(now, stages, p, c, load, rand, arrived, d);
      assert pre[..|pre|] == pre && items[..|items|] == items;
    }

    /** The loop of the pass, stated through `PassedUpTo`. */
    method PassLoop(now: int, stages: seq<Stage>, p: Problems, c: real, load: map<nat, nat>,
                    rand: nat -> real, arrived: nat -> bool, d: nat)
      requires WellFormed(stages) && Valid()
      modifies this
      ensures Valid() && lastSpawn == old(lastSpawn)
      ensures PassedUpTo(now, stages, p, c, old(items), old(history), old(completedItems), |old(items)|)
    {
      ghost var pre := items;
      ghost var h0 := history;
      ghost var c0 := completedItems;
      var j := 0;
      var dd := d;
      assert pre[..0] == [] && items[..0] == [];
      while j < |items|
        invariant 0 <= j <= |items| == |pre|
        invariant Valid() && lastSpawn == old(lastSpawn)
        invariant PassedUpTo(now, stages, p, c, pre, h0, c0, j)
      {
        dd := Advance(now, stages, p, c, load, rand, arrived, dd, pre, h0, c0, j);
        j := j + 1;
      }
    }

    /** What the pass has done once the first `j` items have stepped:
      those took a legal step, the rest differ at most in their batch
      flag, capacities hold, and the history and ring account for
      exactly the exits so far. */
    ghost predicate PassedUpTo(now: int, stages: seq<Stage>, p: Problems, c: real,
                               pre: seq<Item>, h0: map<string, Hist>, c0: seq<int>, j: nat)
      reads this
      requires WellFormed(stages)
    {
      && j <= |items| == |pre|
      && (forall i :: 0 <= i < j ==> Step(stages, p, c, pre[i], items[i]))
      && (forall i :: j <= i < |items| ==> SameButBatch(pre[i], items[i]))
      && (forall k :: CapacityRespected(stages, pre, k) ==> CapacityRespected(stages, items, k))
      && history.Keys == h0.Keys
      && (forall k :: 0 <= k < StageCount ==> stages[k].id in h0 ==>
            history[stages[k].id] == Plus(h0[stages[k].id], Exits(pre[..j], items[..j], k)))
      && completedItems == KeepLast(c0 + Repeat(now, Exits(pre[..j], items[..j], DeployIndex).count))
    }

    /** One iteration of the pass: item `j` steps. */
    method Advance(now: int, stages: seq<Stage>, p: Problems, c: real, load: map<nat, nat>,
                   rand: nat -> real, arrived: nat -> bool, d: nat,
                   ghost pre: seq<Item>, ghost h0: map<string, Hist>, ghost c0: seq<int>, j: nat)
      returns (d': nat)
      requires WellFormed(stages) && Valid() && j < |items|
      requires PassedUpTo(now, stages, p, c, pre, h0, c0, j)
      modifies this
      ensures Valid() && lastSpawn == old(lastSpawn) && |items| == |old(items)|
      ensures PassedUpTo(now, stages, p, c, pre, h0, c0, j + 1)
    {
      ghost var before := items;
      ghost var hBefore := history;
      ghost var cBefore := completedItems;
      d' := StepItem(j, now, stages, p, c, LoadOf(load, items[j].stageIndex), rand, arrived(j), d);
      StepsAdvance(stages, p, c, pre, before, items, j);
      HistoryAdvance(stages, pre, before, items, j, h0, hBefore, history);
      RingAdvance(now, pre, before, items, j, c0, cBefore, completedItems);
    }

    /** Eviction: once there are more than 80 items and more than 20 of
      them in Production, the oldest Production item is dropped. */
    method EvictOldest()
      requires Valid()
      modifies this
      ensures Valid()
      ensures items == Evict(old(items))
      ensures forall k :: Count(items, ProcessingAt(k)) <= Count(old(items), ProcessingAt(k))
      ensures history == old(history) && completedItems == old(completedItems) && lastSpawn == old(lastSpawn)
    {
      EvictionCounts(items);
      ghost var s := items;
      items := Evict(items);
      forall i | 0 <= i < |items|
        ensures ItemOk(items[i])
      {
        assert items[i] in s;
      }
    }

    /** `updateSimulation`: spawn, take the load snapshot, step every item,
      evict, and derive the metrics. `stages` are the stages in effect
      for the tick, `c` the deploy countdown it is given, `rand(i)` the
      i-th random draw of the tick. `spawned` and `stepped` are the item
      list before and after the pass. */
    method Tick(now: int, stages: seq<Stage>, p: Problems, c: real, rand: nat -> real, arrived: nat -> bool)
      returns (m: Metrics, sm: map<string, StageAverage>, ghost spawned: seq<Item>, ghost stepped: seq<Item>)
      requires WellFormed(stages) && Valid()
      modifies this
      ensures Valid()
      ensures var due := now - old(lastSpawn) > SpawnInterval(Count(old(items), Below(SinkIndex)));
        && spawned == (if due then old(items) + [NewItem(now)] else old(items))
        && lastSpawn == (if due then now else old(lastSpawn))
      ensures |stepped| == |spawned|
      ensures forall i :: 0 <= i < |spawned| ==> Step(stages, p, c, spawned[i], stepped[i])
      ensures forall k :: CapacityRespected(stages, old(items), k) ==> CapacityRespected(stages, items, k)
      ensures history.Keys == old(history).Keys
      ensures forall k :: 0 <= k < StageCount ==>
        history[stages[k].id] == Plus(old(history)[stages[k].id], Exits(spawned, stepped, k))
      ensures completedItems == KeepLast(old(completedItems) + Repeat(now, Exits(spawned, stepped, DeployIndex).count))
      ensures items == Evict(stepped)
      ensures m == Measure(items, completedItems, now)
      ensures sm == StageMetrics(history)
    {
      var due := Spawn(now);
      spawned := items;
      forall k | CapacityRespected(stages, old(items), k)
        ensures CapacityRespected(stages, spawned, k)
      {
        if due {
          CountAppend(old(items), NewItem(now), ProcessingAt(k));
        }
      }
      var load := LoadSnapshot(items);
      Pass(now, stages, p, c, load, rand, arrived, if due then 2 else 0);
      stepped := items;
      EvictOldest();
      assert forall k :: CapacityRespected(stages, stepped, k) ==> CapacityRespected(stages, items, k);
      m := Measure(items, completedItems, now);
      sm := StageMetrics(history);
    }
  }

  /** The item bookkeeping of one iteration of the pass. */
  lemma StepsAdvance(stages: seq<Stage>, p: Problems, c: real, pre: seq<Item>, before: seq<Item>, after: seq<Item>, j: nat)
    requires WellFormed(stages)
    requires |pre| == |before| == |after| && j < |pre|
    requires forall i :: 0 <= i < |before| ==> ItemOk(before[i])
    requires forall i :: 0 <= i < j ==> Step(stages, p, c, pre[i], before[i])
    requires forall i :: j <= i < |pre| ==> SameButBatch(pre[i], before[i])
    requires Step(stages, p, c, before[j], after[j])
    requires forall i :: 0 <= i < |after| && i != j ==> SameButBatch(before[i], after[i])
    ensures forall i :: 0 <= i < |after| ==> ItemOk(after[i])
    ensures forall i :: 0 <= i <= j ==> Step(stages, p, c, pre[i], after[i])
    ensures forall i :: j < i < |after| ==> SameButBatch(pre[i], after[i])
  {
    forall i | 0 <= i < |after|
      ensures ItemOk(after[i])
      ensures i < j ==> Step(stages, p, c, pre[i], after[i])
    {
      if i == j {
        StepKeepsItemOk(stages, p, c, before[j], after[j]);
      } else if i < j {
        StepIgnoresBatch(stages, p, c, pre[i], pre[i], before[i], after[i]);
      }
    }
    StepIgnoresBatch(stages, p, c, before[j], pre[j], after[j], after[j]);
  }

  /** The history bookkeeping of one iteration of the pass. */
  lemma HistoryAdvance(stages: seq<Stage>, pre: seq<Item>, before: seq<Item>, after: seq<Item>, j: nat,
                       h0: map<string, Hist>, hBefore: map<string, Hist>, hAfter: map<string, Hist>)
    requires WellFormed(stages)
    requires |pre| == |before| == |after| && j < |pre|
    requires SameButBatch(pre[j], before[j]) && before[j].stageIndex < |stages|
    requires forall i :: 0 <= i < |after| && i != j ==> after[i].stageIndex == before[i].stageIndex
    requires forall k :: 0 <= k < StageCount ==> StagesConfig[k].id in h0
    requires hBefore.Keys == h0.Keys
    requires forall k :: 0 <= k < StageCount ==>
      hBefore[stages[k].id] == Plus(h0[stages[k].id], Exits(pre[..j], before[..j], k))
    requires var id := stages[before[j].stageIndex].id;
      hAfter == if Leaves(before[j], after[j], before[j].stageIndex) && id in hBefore
                then hBefore[id := Exit(hBefore[id], before[j])] else hBefore
    ensures hAfter.Keys == h0.Keys
    ensures forall k :: 0 <= k < StageCount ==>
      hAfter[stages[k].id] == Plus(h0[stages[k].id], Exits(pre[..j + 1], after[..j + 1], k))
  {
    forall k | 0 <= k < StageCount
      ensures hAfter[stages[k].id] == Plus(h0[stages[k].id], Exits(pre[..j + 1], after[..j + 1], k))
    {
      ExitsSame(pre[..j], before[..j], after[..j], k);
      ExitsPrefix(pre, after, j, k);
      if stages[k].id == stages[before[j].stageIndex].id {
        IdsDistinct(stages, k, before[j].stageIndex);
      }
    }
  }

  /** The completion-ring bookkeeping of one iteration of the pass. */
  lemma RingAdvance(now: int, pre: seq<Item>, before: seq<Item>, after: seq<Item>, j: nat,
                    c0: seq<int>, cBefore: seq<int>, cAfter: seq<int>)
    requires |pre| == |before| == |after| && j < |pre|
    requires SameButBatch(pre[j], before[j])
    requires forall i :: 0 <= i < |after| && i != j ==> after[i].stageIndex == before[i].stageIndex
    requires cBefore == KeepLast(c0 + Repeat(now, Exits(pre[..j], before[..j], DeployIndex).count))
    requires cAfter == if Leaves(before[j], after[j], DeployIndex) then KeepLast(cBefore + [now]) else cBefore
    ensures cAfter == KeepLast(c0 + Repeat(now, Exits(pre[..j + 1], after[..j + 1], DeployIndex).count))
  {
    ExitsSame(pre[..j], before[..j], after[..j], DeployIndex);
    ExitsPrefix(pre, after, j, DeployIndex);
    var n := Exits(pre[..j], before[..j], DeployIndex).count;
    if Leaves(before[j], after[j], DeployIndex) {
      PushKeepsLast(c0 + Repeat(now, n), now);
      assert Repeat(now, n + 1) == Repeat(now, n) + [now];
      assert c0 + Repeat(now, n) + [now] == c0 + Repeat(now, n + 1);
    }
  }
}
