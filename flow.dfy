/** Work items and the rules the tick engine applies to them: counting
    items by stage and state, the timing targets, the admission gates,
    the state machine every item follows, the completion ring, the
    eviction choice and the derived metrics. */
module Flow {
  import opened Stages

  datatype ItemState = Queued | Waiting | Processing | Transferring | Returning

  /** `targetWaitTicks`, which the engine sets to `Infinity` while a
      Deployment item waits for a scheduled release. */
  datatype WaitTarget = Ticks(t: real) | Forever

  /** A work item. The visual fields (`x`, `targetX`, `yOffset`) and the
      random display id are not part of the model. */
  datatype Item = Item(
    stageIndex: nat,
    progress: real,
    isBug: bool,
    isUnclear: bool,
    inBatch: bool,
    createdAt: int,
    state: ItemState,
    stageProcessTicks: nat,   // currStageProcessTicks
    stageWaitTicks: nat,      // currStageWaitTicks
    targetProcessTicks: real,
    targetWaitTicks: WaitTarget,
    currentWaitTicks: nat,
    returnTarget: nat)        // returnTargetIndex; read only while returning

  /** A freshly spawned item. */
  function NewItem(now: int): (r: Item)
    ensures r.stageIndex == 0 && r.state == Queued && r.createdAt == now
    ensures !r.isBug && !r.isUnclear && !r.inBatch
    ensures r.stageProcessTicks == 0 && r.stageWaitTicks == 0 && r.currentWaitTicks == 0
    ensures r.progress == 0.0 && r.targetProcessTicks == 0.0 && r.targetWaitTicks == Ticks(0.0)
  {
    Item(0, 0.0, false, false, false, now, Queued, 0, 0, 0.0, Ticks(0.0), 0, 0)
  }

  // ---- Counting items ----

  /** The item filters the engine counts with. */
  datatype Sel =
    | ProcessingAt(k: nat)          // stageIndex === k && state === 'processing'
    | LoadAt(k: nat)                // stageIndex === k && state !== 'returning'
    | StateAt(k: nat, s: ItemState) // stageIndex === k && state === s
    | At(k: nat)                    // stageIndex === k
    | Below(k: nat)                 // stageIndex < k
    | BatchPeerAt(k: nat)           // waiting, at k, neither bug nor unclear
    | ArrivingAt(k: nat)            // transferring from k - 1 into k
  {
    predicate Holds(it: Item) {
      match this
      case ProcessingAt(k) => it.stageIndex == k && it.state == Processing
      case LoadAt(k) => it.stageIndex == k && it.state != Returning
      case StateAt(k, s) => it.stageIndex == k && it.state == s
      case At(k) => it.stageIndex == k
      case Below(k) => it.stageIndex < k
      case BatchPeerAt(k) => it.stageIndex == k && it.state == Waiting && !it.isBug && !it.isUnclear
      case ArrivingAt(k) => it.stageIndex + 1 == k && it.state == Transferring
    }
  }

  function B(b: bool): nat { if b then 1 else 0 }

  /** `items.filter(sel).length` */
  function Count(s: seq<Item>, sel: Sel): (r: nat)
    ensures r <= |s|
  {
    if |s| == 0 then 0 else Count(s[..|s| - 1], sel) + B(sel.Holds(s[|s| - 1]))
  }

  lemma {:induction false} CountPrefix(s: seq<Item>, i: nat, sel: Sel)
    requires i < |s|
    ensures Count(s[..i + 1], sel) == Count(s[..i], sel) + B(sel.Holds(s[i]))
  {
    assert s[..i + 1][..i] == s[..i];
  }

  lemma CountAppend(s: seq<Item>, x: Item, sel: Sel)
    ensures Count(s + [x], sel) == Count(s, sel) + B(sel.Holds(x))
  {
    assert (s + [x])[..|s|] == s;
  }

  /** A count is zero exactly when no item matches. */
  lemma {:induction false} CountZero(s: seq<Item>, sel: Sel)
    ensures Count(s, sel) == 0 <==> forall i :: 0 <= i < |s| ==> !sel.Holds(s[i])
    decreases |s|
  {
    if |s| > 0 {
      CountZero(s[..|s| - 1], sel);
      assert forall i :: 0 <= i < |s| - 1 ==> s[..|s| - 1][i] == s[i];
    }
  }

  /** Replacing one item changes a count by that item's contribution only. */
  lemma {:induction false} CountUpdate(s: seq<Item>, i: nat, x: Item, sel: Sel)
    requires i < |s|
    ensures Count(s[i := x], sel) == Count(s, sel) - B(sel.Holds(s[i])) + B(sel.Holds(x))
    decreases |s|
  {
    var t := s[i := x];
    if i < |s| - 1 {
      assert t[..|t| - 1] == s[..|s| - 1][i := x];
      CountUpdate(s[..|s| - 1], i, x, sel);
    } else {
      assert t[..|t| - 1] == s[..|s| - 1];
    }
  }

  /** Items whose filter-relevant fields agree are counted alike. */
  lemma {:induction false} CountSame(s: seq<Item>, t: seq<Item>, sel: Sel)
    requires |s| == |t|
    requires forall i :: 0 <= i < |s| ==> sel.Holds(s[i]) == sel.Holds(t[i])
    ensures Count(s, sel) == Count(t, sel)
    decreases |s|
  {
    if |s| > 0 {
      CountSame(s[..|s| - 1], t[..|t| - 1], sel);
    }
  }

  /** Removing one item lowers a count by that item's contribution. */
  lemma {:induction false} CountRemove(s: seq<Item>, j: nat, sel: Sel)
    requires j < |s|
    ensures Count(s[..j] + s[j + 1..], sel) == Count(s, sel) - B(sel.Holds(s[j]))
    decreases |s|
  {
    var t := s[..j] + s[j + 1..];
    if j == |s| - 1 {
      assert t == s[..|s| - 1];
    } else {
      var u := s[..|s| - 1];
      assert t[..|t| - 1] == u[..j] + u[j + 1..];
      assert t[|t| - 1] == s[|s| - 1];
      CountRemove(u, j, sel);
    }
  }

  // ---- Timing targets and gates ----

  function Max(a: real, b: real): real { if a >= b then a else b }

  /** Spawn interval in milliseconds: 1800, or 3000 once more than 30
      items are before the last stage. */
  function SpawnInterval(activeCount: nat): (r: int)
    ensures activeCount <= 30 ==> r == 1800
    ensures activeCount > 30 ==> r == 3000
  {
    if activeCount > 30 then 3000 else 1800
  }

  /** Does leaving the queue for the wait zone draw a random number? */
  predicate WaitTargetDraws(stage: Stage, p: Problems) {
    !(Active(p, "infrequentDeploy") && stage.id == DeployId) && stage.waitTime.Some?
  }

  /** The wait-time bounds in hours, with the 8-hour floor that manual
      testing puts on the Testing stage. */
  function WaitBounds(stage: Stage, p: Problems): (r: Range)
    requires stage.waitTime.Some?
    ensures Active(p, "manualTesting") && stage.id == TestId ==> 8.0 <= r.min <= r.max
    ensures !(Active(p, "manualTesting") && stage.id == TestId) ==> r == stage.waitTime.value
  {
    var w := stage.waitTime.value;
    if Active(p, "manualTesting") && stage.id == TestId then
      var lo, hi := Max(w.min, 8.0), Max(w.max, 8.0);
      Range(lo, if hi < lo then lo else hi)
    else w
  }

  /** `targetWaitTicks` chosen when an item moves from the queue to the
      wait zone, given the random draw. */
  function WaitTargetFor(stage: Stage, p: Problems, draw: real): (r: WaitTarget)
    ensures r.Forever? <==> Active(p, "infrequentDeploy") && stage.id == DeployId
    ensures r.Ticks? && WaitTargetDraws(stage, p) ==> r.t >= 1.0
    ensures r.Ticks? && !WaitTargetDraws(stage, p) ==> r.t == 0.0
    ensures WaitTargetDraws(stage, p) && Active(p, "manualTesting") && stage.id == TestId && 0.0 <= draw
      ==> r.t >= 16.0
    ensures WaitTargetDraws(stage, p) && 0.0 <= draw <= 1.0 && WaitBounds(stage, p).min <= WaitBounds(stage, p).max
      ==> Max(1.0, WaitBounds(stage, p).min / HoursPerTick) <= r.t <= Max(1.0, WaitBounds(stage, p).max / HoursPerTick)
  {
    if Active(p, "infrequentDeploy") && stage.id == DeployId then Forever
    else if stage.waitTime.Some? then
      Ticks(DrawTicks(WaitBounds(stage, p), draw))
    else Ticks(0.0)
  }

  /** `targetProcessTicks` chosen when processing starts, given the draw
      (no draw is taken when the stage has no process-time range). */
  function ProcessTargetFor(stage: Stage, draw: real): (r: real)
    ensures r >= 1.0
    ensures stage.processTime.None? ==> r == 2.0
    ensures stage.processTime.Some? && 0.0 <= draw <= 1.0 && stage.processTime.value.min <= stage.processTime.value.max
      ==> Max(1.0, stage.processTime.value.min / HoursPerTick) <= r <= Max(1.0, stage.processTime.value.max / HoursPerTick)
  {
    match stage.processTime
    case Some(pt) => DrawTicks(pt, draw)
    case None => 2.0
  }

  /** `Math.max(1, (min + Math.random() * (max - min)) / HOURS_PER_TICK)`:
      a duration drawn from a range of hours, in ticks. */
  function DrawTicks(range: Range, draw: real): (r: real)
    ensures r >= 1.0
    ensures 0.0 <= draw <= 1.0 && range.min <= range.max
      ==> Max(1.0, range.min / HoursPerTick) <= r <= Max(1.0, range.max / HoursPerTick)
    ensures 0.0 <= draw && range.min <= range.max ==> r >= range.min / HoursPerTick
  {
    var hours := range.min + draw * (range.max - range.min);
    InterpolateIf(range.min, range.max, draw);
    TicksWithin(range.min, range.max, draw);
    Max(1.0, hours / HoursPerTick)
  }

  lemma NonNegProduct(d: real, x: real)
    requires 0.0 <= d && 0.0 <= x
    ensures 0.0 <= d * x
  {
  }

  /** A draw in [0, 1] scales a non-negative width to within that width. */
  lemma ScaleWithin(d: real, x: real)
    requires 0.0 <= d <= 1.0 && 0.0 <= x
    ensures 0.0 <= d * x <= x
  {
    NonNegProduct(d, x);
    NonNegProduct(1.0 - d, x);
    assert x - d * x == (1.0 - d) * x;
  }

  /** `min + Math.random() * (max - min)` lies in the range. */
  lemma Interpolate(lo: real, hi: real, d: real)
    requires 0.0 <= d <= 1.0 && lo <= hi
    ensures lo <= lo + d * (hi - lo) <= hi
  {
    var w := hi - lo;
    ScaleWithin(d, w);
    var m := d * w;
    assert 0.0 <= m <= w;
    assert d * (hi - lo) == m;
  }

  /** Converting hours to ticks (at least one) is monotonic. */
  lemma TicksMonotonic(lo: real, x: real, hi: real)
    requires lo <= x <= hi
    ensures Max(1.0, lo / HoursPerTick) <= Max(1.0, x / HoursPerTick) <= Max(1.0, hi / HoursPerTick)
  {
  }

  lemma TicksWithin(lo: real, hi: real, d: real)
    ensures 0.0 <= d <= 1.0 && lo <= hi
      ==> Max(1.0, lo / HoursPerTick) <= Max(1.0, (lo + d * (hi - lo)) / HoursPerTick) <= Max(1.0, hi / HoursPerTick)
  {
    if 0.0 <= d <= 1.0 && lo <= hi {
      Interpolate(lo, hi, d);
      var x := lo + d * (hi - lo);
      assert lo <= x <= hi;
      TicksMonotonic(lo, x, hi);
    }
  }

  lemma InterpolateIf(lo: real, hi: real, d: real)
    ensures 0.0 <= d <= 1.0 && lo <= hi ==> lo <= lo + d * (hi - lo) <= hi
    ensures 0.0 <= d && lo <= hi ==> lo <= lo + d * (hi - lo)
    ensures 0.0 <= d && lo <= hi ==> lo / HoursPerTick <= (lo + d * (hi - lo)) / HoursPerTick
  {
    if 0.0 <= d && lo <= hi {
      NonNegProduct(d, hi - lo);
      var x := lo + d * (hi - lo);
      assert lo / HoursPerTick <= x / HoursPerTick;
    }
    if 0.0 <= d <= 1.0 && lo <= hi { Interpolate(lo, hi, d); }
  }

  /** Progress added per tick at full speed. */
  function ProgressIncrement(targetProcessTicks: real): (r: real)
    ensures r > 0.0
    ensures targetProcessTicks > 0.0 ==> r * targetProcessTicks == 100.0
  {
    if targetProcessTicks > 0.0 then 100.0 / targetProcessTicks else 100.0
  }

  /** The slow-down from manual testing (1/10), a manual deploy gate (1/20)
      and context switching (1/(0.4 load) above a snapshot load of 3). */
  function SpeedMultiplier(p: Problems, stageId: string, load: nat): (r: real)
    ensures 0.0 < r <= 1.0
    ensures !Active(p, "manualTesting") && !Active(p, "manualDeploy") && !Active(p, "contextSwitching") ==> r == 1.0
  {
    var m1 := if Active(p, "manualTesting") && stageId == TestId then 1.0 / 10.0 else 1.0;
    var m2 := if Active(p, "manualDeploy") && stageId == DeployId then m1 / 20.0 else m1;
    var l := if load == 0 then 1 else load;
    if Active(p, "contextSwitching") && l > 3 then
      assert (l as real) * 0.4 > 1.0;
      m2 / ((l as real) * 0.4)
    else m2
  }

  /** The wait condition of a waiting item (after its wait-tick increment):
      under infrequent deploys a Deployment item waits for the countdown,
      anyone else waits out a positive target. */
  predicate WaitCleared(p: Problems, stageId: string, countdown: real, it: Item) {
    if Active(p, "infrequentDeploy") && stageId == DeployId then countdown <= 0.0
    else match it.targetWaitTicks
      case Forever => false
      case Ticks(t) => !(t > 0.0 && (it.currentWaitTicks as real) < t)
  }

  /** The capacity gate of stage k against the items as they are now. */
  predicate CapacityFree(stage: Stage, items: seq<Item>, k: nat) {
    Limits(stage.actors) ==> Count(items, ProcessingAt(k)) < stage.actors.n
  }

  /** Stage k, if it is below the sink and has a finite positive
      capacity, holds no more processing items than its actors. */
  predicate CapacityRespected(stages: seq<Stage>, items: seq<Item>, k: nat) {
    k < SinkIndex && k < |stages| && Limits(stages[k].actors) ==> Count(items, ProcessingAt(k)) <= stages[k].actors.n
  }

  /** Replacing one record keeps every stage within capacity, provided a
      record that newly starts processing below the sink passed the
      capacity gate of its stage. */
  lemma UpdateKeepsCapacity(stages: seq<Stage>, s: seq<Item>, j: nat, x: Item)
    requires j < |s|
    requires x.state == Processing && x.stageIndex < SinkIndex && x.stageIndex < |stages|
      && !(s[j].state == Processing && s[j].stageIndex == x.stageIndex)
      ==> CapacityFree(stages[x.stageIndex], s, x.stageIndex)
    ensures forall k :: CapacityRespected(stages, s, k) ==> CapacityRespected(stages, s[j := x], k)
  {
    forall k | CapacityRespected(stages, s, k)
      ensures CapacityRespected(stages, s[j := x], k)
    {
      CountUpdate(s, j, x, ProcessingAt(k));
    }
  }

  // ---- The per-item state machine ----

  /** The invariant every item keeps in a well-formed pipeline. */
  predicate ItemOk(it: Item) {
    && it.stageIndex < StageCount
    && (it.state == Transferring ==> it.stageIndex < SinkIndex)
    && (it.state == Transferring && it.stageIndex > 0 ==> it.targetProcessTicks >= 1.0)
    && (it.state == Transferring ==> it.progress == 0.0)
    && (it.stageIndex == 0 ==> it.progress == 0.0 && (it.state == Queued || it.state == Transferring))
    && (it.state == Returning ==> 0 < it.returnTarget < it.stageIndex)
    && (it.stageIndex == SinkIndex ==> it.state == Processing)
    && (it.state == Processing ==> it.targetProcessTicks >= 1.0 && 0.0 <= it.progress <= 100.0)
  }

  /** Counters accrue while an item stays in a non-sink stage: process
      ticks while processing, wait ticks while queued or waiting. */
  predicate Accrued(stages: seq<Stage>, a: Item, b: Item)
    requires a.stageIndex < |stages|
  {
    if stages[a.stageIndex].kind == Sink then
      b.stageProcessTicks == a.stageProcessTicks && b.stageWaitTicks == a.stageWaitTicks
    else
      && b.stageProcessTicks == a.stageProcessTicks + B(a.state == Processing)
      && b.stageWaitTicks == a.stageWaitTicks + B(a.state == Queued || a.state == Waiting)
  }

  /** Where a transferring item lands when it reaches the next stage. */
  predicate Arrival(stages: seq<Stage>, p: Problems, a: Item, b: Item)
    requires a.stageIndex < |stages|
  {
    && a.stageIndex + 1 < |stages|
    && b.stageIndex == a.stageIndex + 1
    && b.stageProcessTicks == 0 && b.stageWaitTicks == 0 && b.progress == a.progress
    && var next := stages[a.stageIndex + 1];
    if b.state == Returning then
      && b.returnTarget == 2 && b.isBug
      && ((next.id == TestId && Active(p, "qualityIssues")) || (next.id == DeployId && a.isBug))
    else
      && !(next.id == DeployId && a.isBug) && b.isBug == a.isBug
      && b.state == (if next.id == DoneId then Processing else Queued)
  }

  /** The shape of a freshly chosen wait target: unbounded exactly for a
      Deployment item under infrequent deploys, at least one tick when a
      wait range is drawn from, zero when the stage has none. */
  predicate PlausibleWaitTarget(stage: Stage, p: Problems, w: WaitTarget) {
    && (w.Forever? <==> Active(p, "infrequentDeploy") && stage.id == DeployId)
    && (w.Ticks? && WaitTargetDraws(stage, p) ==> w.t >= 1.0)
    && (w.Ticks? && !WaitTargetDraws(stage, p) ==> w.t == 0.0)
  }

  /** One tick of one item: the transitions the engine can make, as a
      relation (the random draws, the gates and arrival decide which).
      `countdown` is the deploy countdown the pass is given. */
  predicate Step(stages: seq<Stage>, p: Problems, countdown: real, a: Item, b: Item) {
    && b.createdAt == a.createdAt
    && (a.isBug ==> b.isBug) && (a.isUnclear ==> b.isUnclear)
    && (b.isBug && !a.isBug ==> a.state == Transferring && b.state == Returning)
    && (b.isUnclear && !a.isUnclear ==> a.state == Processing && b.state == Returning)
    && (!(a.state == Waiting && b.state == Processing) ==> b.targetProcessTicks == a.targetProcessTicks)
    && (!(a.state == Queued && b.state == Waiting) ==> b.targetWaitTicks == a.targetWaitTicks)
    && if a.stageIndex >= |stages| then b == a else
    var here := stages[a.stageIndex];
    match a.state
    case Queued =>
      && b.stageIndex == a.stageIndex && Accrued(stages, a, b) && b.isBug == a.isBug
      && if here.kind == Queue then (b.state == Queued || b.state == Transferring) && b.progress == a.progress
         else b.state == Waiting && b.currentWaitTicks == 0 && PlausibleWaitTarget(here, p, b.targetWaitTicks)
    case Waiting =>
      && b.stageIndex == a.stageIndex && Accrued(stages, a, b) && b.isBug == a.isBug
      && b.currentWaitTicks == a.currentWaitTicks + 1
      && (b.state == Waiting || b.state == Processing)
      && (b.state == Processing ==>
            && here.kind != Sink && WaitCleared(p, here.id, countdown, b)
            && b.progress == 0.0 && b.targetProcessTicks >= 1.0)
    case Processing =>
      && b.stageIndex == a.stageIndex && Accrued(stages, a, b) && b.isBug == a.isBug
      && if here.kind == Sink then b.state == Processing && b.progress == 100.0
         else
           || (b.state == Processing && a.progress < b.progress < 100.0)
           || (b.state == Transferring && b.progress == 0.0)
           || (b.state == Returning && b.isUnclear && b.returnTarget == 1 && here.id == DevId
               && Active(p, "unclearRequirements"))
    case Transferring =>
      || (b.state == Transferring && b.stageIndex == a.stageIndex && b.isBug == a.isBug && b.progress == a.progress
          && b.stageProcessTicks == a.stageProcessTicks && b.stageWaitTicks == a.stageWaitTicks)
      || Arrival(stages, p, a, b)
    case Returning =>
      && b.isBug == a.isBug
      && if b.state == Returning then b.stageIndex == a.stageIndex && b.returnTarget == a.returnTarget
         else b.state == Queued && b.stageIndex == a.returnTarget && b.stageProcessTicks == 0 && b.stageWaitTicks == 0
  }

  /** A Deployment item given the unbounded wait target while infrequent
      deploys were on never starts once they are switched off: its wait
      gate compares against an infinite target. Every step of the trace
      keeps it waiting with that target. */
  lemma {:induction false} ForeverTargetStuck(stages: seq<Stage>, p: Problems, cs: seq<real>, tr: seq<Item>)
    requires |tr| > 0 && |cs| + 1 == |tr| && tr[0].stageIndex < |stages|
    requires tr[0].state == Waiting && tr[0].targetWaitTicks == Forever
    requires !Active(p, "infrequentDeploy")
    requires forall i :: 0 <= i < |cs| ==> Step(stages, p, cs[i], tr[i], tr[i + 1])
    ensures forall i :: 0 <= i < |tr| ==>
      tr[i].state == Waiting && tr[i].targetWaitTicks == Forever && tr[i].stageIndex == tr[0].stageIndex
    decreases |tr|
  {
    if |tr| > 1 {
      var n := |tr| - 1;
      ForeverTargetStuck(stages, p, cs[..n - 1], tr[..n]);
      assert Step(stages, p, cs[n - 1], tr[n - 1], tr[n]);
    }
  }

  /** Two records that differ at most in `inBatch`, the one field the
      large-batch rule writes on other items. */
  predicate SameButBatch(a: Item, b: Item) {
    b == a.(inBatch := b.inBatch)
  }

  /** The step relation does not look at `inBatch`. */
  lemma StepIgnoresBatch(stages: seq<Stage>, p: Problems, c: real, a: Item, a': Item, b: Item, b': Item)
    requires a.stageIndex < |stages| && SameButBatch(a, a') && SameButBatch(b, b')
    requires Step(stages, p, c, a, b)
    ensures Step(stages, p, c, a', b')
  {
  }

  // ---- The transitions the engine applies to one record ----

  /** The tick counters of an item outside the sink: a processing item
      gains a process tick, a queued or waiting one a wait tick. */
  function Accrue(here: Stage, it: Item): Item {
    if here.kind == Sink then it
    else it.(stageProcessTicks := it.stageProcessTicks + B(it.state == Processing),
             stageWaitTicks := it.stageWaitTicks + B(it.state == Queued || it.state == Waiting))
  }

  /** A queued item: in a queue stage it starts transferring when the gate
      allows; elsewhere it enters the wait zone with a target drawn from
      `draw`. */
  function QueuedNext(here: Stage, p: Problems, a: Item, canTransfer: bool, draw: real): Item {
    var it := Accrue(here, a);
    if here.kind == Queue then
      if canTransfer then it.(state := Transferring) else it
    else it.(state := Waiting, currentWaitTicks := 0, targetWaitTicks := WaitTargetFor(here, p, draw))
  }

  lemma QueuedStep(stages: seq<Stage>, p: Problems, c: real, a: Item, canTransfer: bool, draw: real)
    requires WellFormed(stages) && ItemOk(a) && a.state == Queued
    ensures var b := QueuedNext(stages[a.stageIndex], p, a, canTransfer, draw);
      && Step(stages, p, c, a, b)
      && (b.state == Transferring <==> stages[a.stageIndex].kind == Queue && canTransfer)
      && b.state != Processing
  {
    StageIds(stages, a.stageIndex);
  }

  /** A waiting item after its wait tick. */
  function Waited(here: Stage, a: Item): Item {
    Accrue(here, a).(currentWaitTicks := a.currentWaitTicks + 1)
  }

  /** A waiting item: with `start` it begins processing (outside the sink)
      with a process target drawn from `draw`; `batch` is its new
      `inBatch` flag. */
  function WaitingNext(here: Stage, a: Item, start: bool, batch: bool, draw: real): Item {
    var it := Waited(here, a).(inBatch := batch);
    if start && here.kind != Sink then
      it.(state := Processing, targetProcessTicks := ProcessTargetFor(here, draw), progress := 0.0)
    else it
  }

  lemma WaitingStep(stages: seq<Stage>, p: Problems, c: real, a: Item, start: bool, batch: bool, draw: real)
    requires WellFormed(stages) && ItemOk(a) && a.state == Waiting
    requires start ==> WaitCleared(p, stages[a.stageIndex].id, c, Waited(stages[a.stageIndex], a))
    ensures var b := WaitingNext(stages[a.stageIndex], a, start, batch, draw);
      && Step(stages, p, c, a, b)
      && (b.state == Processing <==> start && stages[a.stageIndex].kind != Sink)
      && b.inBatch == batch
  {
    StageIds(stages, a.stageIndex);
  }

  /** The progress a processing item reaches in one tick at `here`. */
  function Reached(here: Stage, p: Problems, load: nat, a: Item): real {
    a.progress + ProgressIncrement(a.targetProcessTicks) * SpeedMultiplier(p, here.id, load)
  }

  /** A processing item: progress grows by the increment times the speed
      multiplier; in Development, under unclear requirements, a draw below
      0.03 sends it back to Analysis; otherwise at 100 it starts
      transferring with progress reset, and in the sink it stays at 100. */
  function ProcessingNext(here: Stage, p: Problems, load: nat, a: Item, draw: real): Item {
    var it := Accrue(here, a);
    var it := it.(progress := Reached(here, p, load, it));
    if Active(p, "unclearRequirements") && here.id == DevId && draw < 0.03 then
      it.(isUnclear := true, state := Returning, returnTarget := 1)
    else if here.kind != Sink then
      if it.progress >= 100.0 then it.(state := Transferring, progress := 0.0) else it
    else it.(progress := 100.0)
  }

  lemma ProcessingStep(stages: seq<Stage>, p: Problems, c: real, load: nat, a: Item, draw: real)
    requires WellFormed(stages) && ItemOk(a) && a.state == Processing
    ensures Step(stages, p, c, a, ProcessingNext(stages[a.stageIndex], p, load, a, draw))
  {
    var here := stages[a.stageIndex];
    StageIds(stages, a.stageIndex);
    PositiveProduct(ProgressIncrement(a.targetProcessTicks), SpeedMultiplier(p, here.id, load));
    var b := ProcessingNext(here, p, load, a, draw);
    assert b.stageIndex == a.stageIndex && b.isBug == a.isBug && Accrued(stages, a, b);
    assert here.kind != Sink ==>
      || (b.state == Processing && a.progress < b.progress < 100.0)
      || (b.state == Transferring && b.progress == 0.0)
      || (b.state == Returning && b.isUnclear && b.returnTarget == 1 && here.id == DevId && Active(p, "unclearRequirements"));
  }

  /** Outside the sink and unless sent back, a processing item moves on
      exactly when the progress it reaches is 100 or more, and otherwise
      holds that progress. */
  lemma ProcessingProgress(here: Stage, p: Problems, load: nat, a: Item, draw: real)
    requires a.state == Processing
    ensures var b := ProcessingNext(here, p, load, a, draw);
      var reached := Reached(here, p, load, a);
      && (b.state != Returning && here.kind != Sink ==> (b.state == Transferring <==> reached >= 100.0))
      && (b.state == Processing && here.kind != Sink ==> b.progress == reached)
  {
    var it := Accrue(here, a);
    assert it.progress == a.progress && it.targetProcessTicks == a.targetProcessTicks;
  }


  lemma PositiveProduct(x: real, y: real)
    requires x > 0.0 && y > 0.0
    ensures x * y > 0.0
  {
  }

  /** A transferring item: on arrival it enters the next stage with fresh
      counters; a quality failure (draw below 0.35) on entering Testing or
      a bug entering Deployment sends it back to Development; entering
      Production parks it as processing. */
  function TransferNext(stages: seq<Stage>, p: Problems, a: Item, arrived: bool, draw: real): Item
    requires a.stageIndex + 1 < |stages|
  {
    if !arrived then a
    else
      var next := stages[a.stageIndex + 1];
      var it := a.(stageProcessTicks := 0, stageWaitTicks := 0, stageIndex := a.stageIndex + 1);
      if Active(p, "qualityIssues") && next.id == TestId && draw < 0.35 then
        it.(isBug := true, state := Returning, returnTarget := 2)
      else if it.isBug && next.id == DeployId then it.(state := Returning, returnTarget := 2)
      else if next.id == DoneId then it.(state := Processing)
      else it.(state := Queued)
  }

  lemma TransferStep(stages: seq<Stage>, p: Problems, c: real, a: Item, arrived: bool, draw: real)
    requires WellFormed(stages) && ItemOk(a) && a.state == Transferring
    ensures a.stageIndex + 1 < |stages|
    ensures var b := TransferNext(stages, p, a, arrived, draw);
      && Step(stages, p, c, a, b)
      && b.stageIndex == a.stageIndex + B(arrived)
      && (Leaves(a, b, a.stageIndex) <==> arrived)
      && (b.state == Processing ==> b.stageIndex == SinkIndex)
  {
    StageIds(stages, a.stageIndex);
    StageIds(stages, a.stageIndex + 1);
  }

  /** A returning item: on arrival it is queued again at its return stage
      with fresh counters. */
  function ReturnNext(a: Item, arrived: bool): Item {
    if arrived then a.(stageIndex := a.returnTarget, state := Queued, stageProcessTicks := 0, stageWaitTicks := 0)
    else a
  }

  lemma ReturnStep(stages: seq<Stage>, p: Problems, c: real, a: Item, arrived: bool)
    requires WellFormed(stages) && ItemOk(a) && a.state == Returning
    ensures var b := ReturnNext(a, arrived);
      && Step(stages, p, c, a, b)
      && (b.state == Queued <==> arrived)
      && (arrived ==> b.stageIndex < a.stageIndex)
  {
  }

  /** Every step keeps an item inside the pipeline, keeps rework pointing
      backwards and parks completed items in the sink. */
  lemma StepKeepsItemOk(stages: seq<Stage>, p: Problems, c: real, a: Item, b: Item)
    requires WellFormed(stages) && ItemOk(a) && Step(stages, p, c, a, b)
    ensures ItemOk(b)
  {
    StageIds(stages, a.stageIndex);
    if a.state == Transferring && b.stageIndex != a.stageIndex {
      StageIds(stages, a.stageIndex + 1);
    }
  }

  /** A bug item never gets past Deployment: it is at Deployment only on
      its way back, and every arrival there sends it back again. */
  predicate BugHeldBack(it: Item) {
    it.isBug ==> it.stageIndex < DeployIndex || (it.stageIndex == DeployIndex && it.state == Returning)
  }

  lemma BugNeverCompletes(stages: seq<Stage>, p: Problems, c: real, a: Item, b: Item)
    requires WellFormed(stages) && ItemOk(a) && BugHeldBack(a) && Step(stages, p, c, a, b)
    ensures BugHeldBack(b)
    ensures b.isBug ==> b.stageIndex != SinkIndex
  {
    StageIds(stages, a.stageIndex);
    if a.state == Transferring && b.stageIndex != a.stageIndex {
      StageIds(stages, a.stageIndex + 1);
    }
  }

  /** Without quality issues and unclear requirements, an item that is
      not a bug never starts returning, and stays clear of both flags. */
  lemma NoReworkWithoutProblems(stages: seq<Stage>, p: Problems, c: real, a: Item, b: Item)
    requires WellFormed(stages) && Step(stages, p, c, a, b)
    requires !Active(p, "qualityIssues") && !Active(p, "unclearRequirements")
    requires !a.isBug && !a.isUnclear
    ensures b.state == Returning ==> a.state == Returning
    ensures !b.isBug && !b.isUnclear
  {
  }

  // ---- Completion ring ----

  const RingSize: nat := 50

  /** The last 50 entries. */
  function KeepLast(s: seq<int>): (r: seq<int>)
    ensures |r| <= RingSize
    ensures |s| <= RingSize ==> r == s
    ensures |s| > RingSize ==> |r| == RingSize && r == s[|s| - RingSize..]
  {
    if |s| > RingSize then s[|s| - RingSize..] else s
  }

  /** `push(now)` then `shift()` when over 50, on a ring of at most 50,
      keeps exactly the last 50 completions. */
  lemma PushKeepsLast(s: seq<int>, x: int)
    ensures KeepLast(KeepLast(s) + [x]) == KeepLast(s + [x])
  {
    if |s| > RingSize {
      assert (s + [x])[|s| + 1 - RingSize..] == s[|s| - RingSize..][1..] + [x];
    }
  }

  /** `n` copies of a timestamp. */
  function Repeat(x: int, n: nat): (r: seq<int>)
    ensures |r| == n && forall i :: 0 <= i < n ==> r[i] == x
  {
    if n == 0 then [] else Repeat(x, n - 1) + [x]
  }

  // ---- Choosing the evicted item ----

  /** The item `filter(at k).sort(by createdAt)[0]` picks: the first of
      the items at stage k with the smallest creation time (the sort is
      stable). */
  function OldestAt(s: seq<Item>, k: nat): (r: Option<nat>)
    ensures r.None? <==> forall i :: 0 <= i < |s| ==> s[i].stageIndex != k
    ensures r.Some? ==> r.value < |s| && s[r.value].stageIndex == k
    ensures r.Some? ==> forall i :: 0 <= i < |s| && s[i].stageIndex == k ==> s[r.value].createdAt <= s[i].createdAt
    ensures r.Some? ==> forall i :: 0 <= i < r.value && s[i].stageIndex == k ==> s[r.value].createdAt < s[i].createdAt
  {
    if |s| == 0 then None
    else
      var rest := OldestAt(s[..|s| - 1], k);
      var last := s[|s| - 1];
      assert forall i :: 0 <= i < |s| - 1 ==> s[..|s| - 1][i] == s[i];
      if last.stageIndex != k then rest
      else if rest.None? || last.createdAt < s[rest.value].createdAt then Some(|s| - 1)
      else rest
  }

  // ---- Stage exits ----

  datatype Hist = Hist(totalProcess: nat, totalWait: nat, count: nat)

  /** A history entry after one exit of `it`: its tick counters and one count. */
  function Exit(h: Hist, it: Item): Hist {
    Hist(h.totalProcess + it.stageProcessTicks, h.totalWait + it.stageWaitTicks, h.count + 1)
  }

  function Plus(h: Hist, e: Hist): Hist {
    Hist(h.totalProcess + e.totalProcess, h.totalWait + e.totalWait, h.count + e.count)
  }

  /** An item that went from `a` to `b` in one pass left stage k. */
  predicate Leaves(a: Item, b: Item, k: nat) {
    a.state == Transferring && a.stageIndex == k && b.stageIndex == k + 1
  }

  /** Everything the exits from stage k add to its history over a pass
      that took the items from `pre` to `post`. */
  function Exits(pre: seq<Item>, post: seq<Item>, k: nat): (r: Hist)
    requires |pre| == |post|
    ensures r.count <= |pre|
  {
    if |pre| == 0 then Hist(0, 0, 0)
    else
      var rest := Exits(pre[..|pre| - 1], post[..|post| - 1], k);
      if Leaves(pre[|pre| - 1], post[|post| - 1], k) then Exit(rest, pre[|pre| - 1]) else rest
  }

  lemma {:induction false} ExitsPrefix(pre: seq<Item>, post: seq<Item>, j: nat, k: nat)
    requires |pre| == |post| && j < |pre|
    ensures Exits(pre[..j + 1], post[..j + 1], k)
      == if Leaves(pre[j], post[j], k) then Exit(Exits(pre[..j], post[..j], k), pre[j]) else Exits(pre[..j], post[..j], k)
  {
    assert pre[..j + 1][..j] == pre[..j];
    assert post[..j + 1][..j] == post[..j];
  }

  /** Exits depend on the later records only through their stage index. */
  lemma {:induction false} ExitsSame(pre: seq<Item>, post: seq<Item>, post': seq<Item>, k: nat)
    requires |pre| == |post| == |post'|
    requires forall i :: 0 <= i < |post| ==> post[i].stageIndex == post'[i].stageIndex
    ensures Exits(pre, post, k) == Exits(pre, post', k)
    decreases |pre|
  {
    if |pre| > 0 {
      ExitsSame(pre[..|pre| - 1], post[..|post| - 1], post'[..|post'| - 1], k);
    }
  }

  // ---- Eviction ----

  /** With more than 80 items and more than 20 of them in Production, the
      oldest Production item is dropped; otherwise nothing is. */
  function Evict(s: seq<Item>): (r: seq<Item>)
    ensures !(|s| > 80 && Count(s, At(SinkIndex)) > 20) ==> r == s
    ensures |s| > 80 && Count(s, At(SinkIndex)) > 20 ==>
      && OldestAt(s, SinkIndex).Some?
      && r == s[..OldestAt(s, SinkIndex).value] + s[OldestAt(s, SinkIndex).value + 1..]
    ensures forall x :: x in r ==> x in s
  {
    if |s| > 80 && Count(s, At(SinkIndex)) > 20 then
      match OldestAt(s, SinkIndex)
      case Some(i) => s[..i] + s[i + 1..]
      case None =>
        CountZero(s, At(SinkIndex));
        s
    else s
  }

  /** Eviction removes exactly one Production item when it fires, never
      touches the work in progress, and never raises any count. */
  lemma EvictionCounts(s: seq<Item>)
    ensures |s| > 80 && Count(s, At(SinkIndex)) > 20 ==>
      && |Evict(s)| == |s| - 1
      && Count(Evict(s), At(SinkIndex)) == Count(s, At(SinkIndex)) - 1
      && Count(Evict(s), Below(SinkIndex)) == Count(s, Below(SinkIndex))
    ensures forall sel: Sel :: Count(Evict(s), sel) <= Count(s, sel)
  {
    if |s| > 80 && Count(s, At(SinkIndex)) > 20 {
      CountZero(s, At(SinkIndex));
      var i := OldestAt(s, SinkIndex).value;
      var r := Evict(s);
      assert r == s[..i] + s[i + 1..];
      forall sel: Sel
        ensures Count(r, sel) == Count(s, sel) - B(sel.Holds(s[i]))
      {
        CountRemove(s, i, sel);
      }
      assert At(SinkIndex).Holds(s[i]) && !Below(SinkIndex).Holds(s[i]);
    }
  }

  // ---- Metrics ----

  /** Per-stage history with zero totals for every stage id (`reduce`
      over the stage list). */
  function InitialHistory(stages: seq<Stage>): (r: map<string, Hist>)
    ensures forall id :: id in r <==> exists k :: 0 <= k < |stages| && stages[k].id == id
    ensures forall id :: id in r ==> r[id] == Hist(0, 0, 0)
  {
    if |stages| == 0 then map[]
    else
      var r := InitialHistory(stages[..|stages| - 1])[stages[|stages| - 1].id := Hist(0, 0, 0)];
      assert forall k :: 0 <= k < |stages| - 1 ==> stages[..|stages| - 1][k] == stages[k];
      r
  }

  /** Completions within the last five seconds. */
  function RecentCompletions(completed: seq<int>, now: int): (r: nat)
    ensures r <= |completed|
    ensures (forall i :: 0 <= i < |completed| ==> now - completed[i] < 5000) ==> r == |completed|
    ensures (forall i :: 0 <= i < |completed| ==> now - completed[i] >= 5000) ==> r == 0
  {
    if |completed| == 0 then 0
    else RecentCompletions(completed[..|completed| - 1], now) + B(now - completed[|completed| - 1] < 5000)
  }

  /** The positions among the first `n` completions that lie within the
      last five seconds. */
  ghost function Window(completed: seq<int>, now: int, n: nat): set<nat> {
    set i: nat | i < n && i < |completed| && now - completed[i] < 5000
  }

  /** The recent count is the size of the five-second window. */
  lemma {:induction false} RecentIsWindow(completed: seq<int>, now: int)
    ensures RecentCompletions(completed, now) == |Window(completed, now, |completed|)|
    decreases |completed|
  {
    if |completed| > 0 {
      var n := |completed| - 1;
      var front := completed[..n];
      RecentIsWindow(front, now);
      assert Window(front, now, n) == Window(completed, now, n);
      if now - completed[n] < 5000 {
        assert Window(completed, now, n + 1) == Window(completed, now, n) + {n};
        assert n !in Window(completed, now, n);
      } else {
        assert Window(completed, now, n + 1) == Window(completed, now, n);
      }
    } else {
      assert Window(completed, now, 0) == {};
    }
  }

  /** Little's law: WIP over completions per second, or 0 with none. */
  function CycleTime(wip: nat, recent: nat): (r: real)
    ensures r >= 0.0
    ensures recent == 0 ==> r == 0.0
    ensures recent > 0 ==> r * (recent as real) == 5.0 * (wip as real)
  {
    var throughputPerSec := recent as real / 5.0;
    if throughputPerSec > 0.0 then wip as real / throughputPerSec else 0.0
  }

  /** Cycle time is linear in WIP at a fixed completion rate. */
  lemma {:induction false} CycleTimeScales(wip: nat, recent: nat, f: nat)
    ensures CycleTime(f * wip, recent) == (f as real) * CycleTime(wip, recent)
  {
    if recent > 0 {
      var c, c' := CycleTime(wip, recent), CycleTime(f * wip, recent);
      assert c' * (recent as real) == 5.0 * (f as real) * (wip as real);
      assert ((f as real) * c) * (recent as real) == (f as real) * (5.0 * (wip as real));
      assert (c' - (f as real) * c) * (recent as real) == 0.0;
    }
  }

  datatype StageAverage = StageAverage(avgProcess: real, avgWait: real)

  /** Mean ticks per completed pass through one stage (0 before any). */
  function Average(h: Hist): (r: StageAverage)
    ensures h.count == 0 ==> r == StageAverage(0.0, 0.0)
    ensures h.count > 0 ==> r.avgProcess * (h.count as real) == h.totalProcess as real
    ensures h.count > 0 ==> r.avgWait * (h.count as real) == h.totalWait as real
  {
    if h.count > 0 then
      StageAverage(h.totalProcess as real / h.count as real, h.totalWait as real / h.count as real)
    else StageAverage(0.0, 0.0)
  }

  /** Work in progress and lifetime throughput split the population. */
  lemma {:induction false} PopulationSplit(s: seq<Item>)
    requires forall i :: 0 <= i < |s| ==> s[i].stageIndex <= SinkIndex
    ensures Count(s, Below(SinkIndex)) + Count(s, At(SinkIndex)) == |s|
    decreases |s|
  {
    if |s| > 0 {
      PopulationSplit(s[..|s| - 1]);
    }
  }

  datatype Metrics = Metrics(wip: nat, throughput: nat, cycleTime: real)

  /** The headline metrics after a pass. */
  function Measure(items: seq<Item>, completed: seq<int>, now: int): (r: Metrics)
    ensures r.wip == Count(items, Below(SinkIndex)) && r.throughput == Count(items, At(SinkIndex))
    ensures r.cycleTime == CycleTime(r.wip, RecentCompletions(completed, now))
  {
    var wip := Count(items, Below(SinkIndex));
    Metrics(wip, Count(items, At(SinkIndex)), CycleTime(wip, RecentCompletions(completed, now)))
  }

  function StageMetrics(history: map<string, Hist>): (r: map<string, StageAverage>)
    ensures r.Keys == history.Keys
    ensures forall id :: id in r ==> r[id] == Average(history[id])
  {
    map id | id in history :: Average(history[id])
  }
}
