/** The value stream's stage registry and the knobs that sit beside it:
    the fixed pipeline configuration, the problem toggles, the Testing
    capacity override and the deployment countdown. */
module Stages {

  datatype Option<T> = None | Some(value: T)

  /** Hours per simulated tick: two ticks make one hour. */
  const HoursPerTick: real := 0.5

  /** An hour range, as edited in the settings dialog. */
  datatype Range = Range(min: real, max: real)

  /** The `type` of a stage record. */
  datatype Kind = Queue | Process | Sink

  /** The `actors` field: absent (or `null` after a JSON copy), `Infinity`,
      or a number (which the settings dialog may have parsed as 0 or below). */
  datatype Actors = Unset | Infinite | Limit(n: int)

  datatype Stage = Stage(
    id: string,
    name: string,
    kind: Kind,
    processTime: Option<Range>,
    waitTime: Option<Range>,
    actors: Actors)

  /** Stage ids, in pipeline order. */
  const BacklogId: string := "backlog"
  const AnalysisId: string := "analysis"
  const DevId: string := "dev"
  const TestId: string := "test"
  const DeployId: string := "deploy"
  const DoneId: string := "done"

  /** Positions of the stages in the configured pipeline. */
  const DevIndex: nat := 2
  const TestIndex: nat := 3
  const DeployIndex: nat := 4
  const SinkIndex: nat := 5
  const StageCount: nat := 6

  /** The initial pipeline. */
  const StagesConfig: seq<Stage> := [
    Stage(BacklogId, "Backlog", Queue, Some(Range(0.0, 0.0)), Some(Range(0.0, 0.0)), Unset),
    Stage(AnalysisId, "Change Definition", Process, Some(Range(2.0, 4.0)), Some(Range(8.0, 8.0)), Limit(2)),
    Stage(DevId, "Development", Process, Some(Range(1.0, 8.0)), Some(Range(8.0, 8.0)), Limit(5)),
    Stage(TestId, "Testing", Process, Some(Range(0.5, 1.0)), Some(Range(0.0, 0.0)), Limit(1)),
    Stage(DeployId, "Deployment", Process, Some(Range(0.8, 1.2)), Some(Range(0.0, 0.0)), Infinite),
    Stage(DoneId, "Production", Sink, Some(Range(0.0, 0.0)), Some(Range(0.0, 0.0)), Unset)
  ]

  /** A stage list the application can be holding: the configured ids and
      kinds in the configured order (edits change neither). */
  predicate WellFormed(stages: seq<Stage>) {
    && |stages| == StageCount
    && forall k :: 0 <= k < |stages| ==>
         stages[k].id == StagesConfig[k].id && stages[k].kind == StagesConfig[k].kind
  }

  lemma ConfigWellFormed()
    ensures WellFormed(StagesConfig)
  {
  }

  /** In a well-formed list each id names exactly one position. */
  lemma StageIds(stages: seq<Stage>, k: nat)
    requires WellFormed(stages) && k < |stages|
    ensures stages[k].id == DevId <==> k == DevIndex
    ensures stages[k].id == TestId <==> k == TestIndex
    ensures stages[k].id == DeployId <==> k == DeployIndex
    ensures stages[k].id == DoneId <==> k == SinkIndex
    ensures stages[k].kind == Sink <==> k == SinkIndex
    ensures stages[k].kind == Queue <==> k == 0
  {
    assert stages[k].id == StagesConfig[k].id;
    assert DevId[0] == 'd' && TestId[0] == 't' && DeployId[0] == 'd' && DoneId[0] == 'd';
    assert DevId[1] == 'e' && DeployId[1] == 'e' && DoneId[1] == 'o';
    assert |DevId| == 3 && |DeployId| == 6;
  }

  /** The capacity gate applies: `actors > 0 && actors !== Infinity`.
      Absent, infinite, zero and negative counts all mean "no limit". */
  predicate Limits(a: Actors) {
    a.Limit? && a.n > 0
  }

  /** `JSON.parse(JSON.stringify(...))` writes `Infinity` as `null`. */
  function JsonCopyActors(a: Actors): (r: Actors)
    ensures Limits(r) == Limits(a) && (Limits(a) ==> r == a)
    ensures r != Infinite
  {
    if a == Infinite then Unset else a
  }

  /** Position of the first stage with the given id (`Array.find`). */
  function FindIndex(stages: seq<Stage>, id: string): (r: Option<nat>)
    ensures r.Some? ==> r.value < |stages| && stages[r.value].id == id
    ensures r.Some? ==> forall k :: 0 <= k < r.value ==> stages[k].id != id
    ensures r.None? ==> forall k :: 0 <= k < |stages| ==> stages[k].id != id
  {
    if |stages| == 0 then None
    else if stages[0].id == id then Some(0)
    else match FindIndex(stages[1..], id)
      case None => None
      case Some(k) => Some(k + 1)
  }

  /** The stage list the engine runs on: a deep copy in which the first
      Testing stage gets one actor under manual testing and unlimited
      actors otherwise. */
  function DynamicStages(stages: seq<Stage>, manualTesting: bool): (r: seq<Stage>)
    ensures |r| == |stages|
    ensures forall k :: 0 <= k < |r| ==>
      && r[k].id == stages[k].id && r[k].kind == stages[k].kind && r[k].name == stages[k].name
      && r[k].processTime == stages[k].processTime && r[k].waitTime == stages[k].waitTime
    ensures forall k :: 0 <= k < |r| && FindIndex(stages, TestId) != Some(k) ==>
      Limits(r[k].actors) == Limits(stages[k].actors)
      && (Limits(stages[k].actors) ==> r[k].actors == stages[k].actors)
    ensures FindIndex(stages, TestId).Some? ==>
      var t := FindIndex(stages, TestId).value;
      if manualTesting then r[t].actors == Limit(1) else !Limits(r[t].actors)
  {
    var copied := seq(|stages|, k requires 0 <= k < |stages| =>
      stages[k].(actors := JsonCopyActors(stages[k].actors)));
    match FindIndex(stages, TestId)
    case None => copied
    case Some(t) => copied[t := copied[t].(actors := if manualTesting then Limit(1) else Infinite)]
  }

  lemma DynamicStagesWellFormed(stages: seq<Stage>, manualTesting: bool)
    requires WellFormed(stages)
    ensures WellFormed(DynamicStages(stages, manualTesting))
  {
  }

  /** `handleUpdateStage`: replace every stage with the given id. */
  function HandleUpdateStage(stages: seq<Stage>, stageId: string, updated: Stage): (r: seq<Stage>)
    ensures |r| == |stages|
    ensures forall k :: 0 <= k < |r| ==> r[k] == if stages[k].id == stageId then updated else stages[k]
  {
    seq(|stages|, k requires 0 <= k < |stages| =>
      if stages[k].id == stageId then updated else stages[k])
  }

  /** An update that keeps the stage's id and kind keeps the list well formed,
      and the list then holds the update at the addressed position. */
  lemma UpdateKeepsWellFormed(stages: seq<Stage>, stageId: string, updated: Stage)
    requires WellFormed(stages)
    requires FindIndex(stages, stageId).Some?
    requires updated.id == stageId
    requires updated.kind == stages[FindIndex(stages, stageId).value].kind
    ensures WellFormed(HandleUpdateStage(stages, stageId, updated))
    ensures HandleUpdateStage(stages, stageId, updated)[FindIndex(stages, stageId).value] == updated
  {
    var r := HandleUpdateStage(stages, stageId, updated);
    var t := FindIndex(stages, stageId).value;
    forall k | 0 <= k < |r|
      ensures r[k].id == StagesConfig[k].id && r[k].kind == StagesConfig[k].kind
    {
      if stages[k].id == stageId {
        StageIds(stages, k);
        StageIds(stages, t);
        assert stages[k].kind == stages[t].kind by {
          assert StagesConfig[k].id == StagesConfig[t].id;
          ConfigIdsDistinct(k, t);
        }
      }
    }
  }

  /** In a well-formed list no two positions share an id. */
  lemma IdsDistinct(stages: seq<Stage>, j: nat, k: nat)
    requires WellFormed(stages) && j < |stages| && k < |stages|
    requires stages[j].id == stages[k].id
    ensures j == k
  {
    ConfigIdsDistinct(j, k);
  }

  lemma ConfigIdsDistinct(j: nat, k: nat)
    requires j < StageCount && k < StageCount
    requires StagesConfig[j].id == StagesConfig[k].id
    ensures j == k
  {
  }

  // ---- Problem toggles ----

  /** The `problems` object: a missing key reads as `undefined`, i.e. off. */
  type Problems = map<string, bool>

  predicate Active(p: Problems, name: string) {
    name in p && p[name]
  }

  const InitialProblems: Problems := map[
    "silos" := false, "largeBatches" := false, "qualityIssues" := false,
    "manualDeploy" := false, "contextSwitching" := false, "manualTesting" := false,
    "unclearRequirements" := false, "infrequentDeploy" := false]

  /** `toggleProblem`: flip one flag, leave the others. */
  function ToggleProblem(p: Problems, id: string): (r: Problems)
    ensures Active(r, id) == !Active(p, id)
    ensures forall name :: name != id ==> Active(r, name) == Active(p, name)
  {
    p[id := !Active(p, id)]
  }

  /** Toggling the same problem twice restores every flag. */
  lemma ToggleTwice(p: Problems, id: string)
    ensures forall name :: Active(ToggleProblem(ToggleProblem(p, id), id), name) == Active(p, name)
  {
  }

  // ---- Deployment countdown ----

  /** The countdown after a re-arm: the schedule in ticks. */
  function ArmedCountdown(scheduleHours: real): real {
    scheduleHours / HoursPerTick
  }

  /** The countdown update run after each pass: decrement while positive,
      re-arm once the pass has seen a value at or below zero. */
  function NextCountdown(c: real, scheduleHours: real, infrequentDeploy: bool): (r: real)
    ensures !infrequentDeploy ==> r == c
    ensures infrequentDeploy && c > 0.0 ==> r == c - 1.0
    ensures infrequentDeploy && c <= 0.0 ==> r == 2.0 * scheduleHours
  {
    if infrequentDeploy then
      if c <= 0.0 then ArmedCountdown(scheduleHours) else c - 1.0
    else c
  }

  /** The countdown value handed to the k-th pass after starting at c. */
  function CountdownAfter(c: real, scheduleHours: real, k: nat): real
    decreases k
  {
    if k == 0 then c else NextCountdown(CountdownAfter(c, scheduleHours, k - 1), scheduleHours, true)
  }

  /** With a schedule of n ticks, the passes see n, n-1, ..., 0, n, ...:
      the countdown runs with period n + 1. */
  lemma {:induction false} CountdownPeriodic(n: nat, k: nat)
    ensures CountdownAfter(n as real, n as real * HoursPerTick, k) == (n - k % (n + 1)) as real
  {
    if k > 0 {
      CountdownPeriodic(n, k - 1);
      var sched := n as real * HoursPerTick;
      var prev := CountdownAfter(n as real, sched, k - 1);
      assert CountdownAfter(n as real, sched, k) == NextCountdown(prev, sched, true);
      ModNext(k - 1, n + 1);
      if (k - 1) % (n + 1) == n {
        assert prev == 0.0;
        assert ArmedCountdown(sched) == n as real;
      } else {
        assert prev > 0.0;
      }
    }
  }

  lemma ModNext(a: nat, d: nat)
    requires d > 0
    ensures (a + 1) % d == if a % d == d - 1 then 0 else a % d + 1
  {
    var q, m := a / d, a % d;
    assert a == q * d + m;
    if m == d - 1 {
      assert a + 1 == (q + 1) * d;
      DivModUnique(a + 1, d, q + 1, 0);
    } else {
      assert a + 1 == q * d + (m + 1);
      DivModUnique(a + 1, d, q, m + 1);
    }
  }

  lemma DivModUnique(a: int, d: int, q: int, m: int)
    requires d > 0 && 0 <= m < d && a == q * d + m
    ensures a % d == m
  {
    var q', m' := a / d, a % d;
    assert a == q' * d + m';
    if q > q' {
      MulAtLeast(q - q', d);
    } else if q < q' {
      MulAtLeast(q' - q, d);
    }
  }

  lemma {:induction false} MulAtLeast(k: int, d: int)
    requires k >= 1 && d > 0
    ensures k * d >= d
    decreases k
  {
    if k > 1 {
      MulAtLeast(k - 1, d);
      assert k * d == (k - 1) * d + d;
    }
  }

  /** Exactly one pass in each period is handed a countdown at or below zero. */
  lemma ReleasePassOncePerPeriod(n: nat, k: nat)
    ensures CountdownAfter(n as real, n as real * HoursPerTick, k) <= 0.0 <==> k % (n + 1) == n
  {
    CountdownPeriodic(n, k);
  }

  /** The reset (and initial) countdown: the full schedule, 48 ticks for 24 hours. */
  function ResetCountdown(scheduleHours: real): (r: real)
    ensures r * HoursPerTick == scheduleHours
  {
    ArmedCountdown(scheduleHours)
  }

  /** Switching infrequent deploys on re-arms a countdown that sits at zero. */
  function OnInfrequentDeployChange(c: real, scheduleHours: real, infrequentDeploy: bool): (r: real)
    ensures infrequentDeploy && c == 0.0 ==> r * HoursPerTick == scheduleHours
    ensures !(infrequentDeploy && c == 0.0) ==> r == c
  {
    if infrequentDeploy && c == 0.0 then ArmedCountdown(scheduleHours) else c
  }
}
