/** The code-review sprint comparison: a seeded Lehmer generator, the
    team it draws, the feature loop that lays out a sprint's timeline for
    one developer (asynchronous review) or one pair, the pairing of the
    team, the range sliders and the timeline animation. */
module Sprint {

  // ---- The seeded generator ----

  const Modulus: int := 2147483647
  const Multiplier: int := 16807
  const StartSeed: int := 123

  /** The seeds the generator can hold: never 0, never the modulus. */
  predicate ValidSeed(seed: int) {
    0 < seed < Modulus
  }

  function NextSeed(seed: int): int {
    (seed * Multiplier) % Modulus
  }

  /** The number `random()` hands out once the seed has moved to `seed`. */
  function Unit(seed: int): real {
    ((seed - 1) as real) / ((Modulus - 1) as real)
  }

  /** A number drawn and the seed left behind. */
  datatype Drawn = Drawn(value: real, seed: int)

  /** `random()`: advance the seed, then scale it into the unit interval. */
  function Random(seed: int): (d: Drawn)
    requires ValidSeed(seed)
    ensures ValidSeed(d.seed)
    ensures 0.0 <= d.value < 1.0
  {
    NextSeedValid(seed);
    var s := NextSeed(seed);
    Drawn(Unit(s), s)
  }

  /** The modulus leaves remainder 1 when divided by 7, so it divides
      7 * t only when it divides t. */
  lemma SevenCancels(t: int)
    ensures (7 * t) % Modulus == 0 ==> t % Modulus == 0
  {
    if (7 * t) % Modulus == 0 {
      var q := (7 * t) / Modulus;
      assert 7 * t == Modulus * q;
      var k := 306783378;
      assert Modulus == 7 * k + 1;
      assert Modulus * q == 7 * (k * q) + q;
      var r := t - k * q;
      assert q == 7 * r;
      assert 7 * t == 7 * (Modulus * r);
      assert t == Modulus * r;
    }
  }

  /** The multiplier is 7^5, so a valid seed never moves to 0: the
      generator never gets stuck and never hands out a negative number. */
  lemma NextSeedValid(seed: int)
    requires ValidSeed(seed)
    ensures ValidSeed(NextSeed(seed))
  {
    var s := seed;
    assert s * Multiplier == 7 * (7 * (7 * (7 * (7 * s))));
    SevenCancels(7 * (7 * (7 * (7 * s))));
    SevenCancels(7 * (7 * (7 * s)));
    SevenCancels(7 * (7 * s));
    SevenCancels(7 * s);
    SevenCancels(s);
  }

  lemma StartSeedValid()
    ensures ValidSeed(StartSeed)
  {
  }

  /** `randRange(min, max)` for the unit draw `x`. */
  function RandRange(lo: real, hi: real, x: real): real {
    lo + x * (hi - lo)
  }

  /** A draw from the unit interval lands between the two bounds, in
      whichever order they are given. */
  lemma RandRangeWithin(lo: real, hi: real, x: real)
    requires 0.0 <= x < 1.0
    ensures lo <= hi ==> lo <= RandRange(lo, hi, x) <= hi
    ensures hi <= lo ==> hi <= RandRange(lo, hi, x) <= lo
  {
    var d := hi - lo;
    var m := x * d;
    if d >= 0.0 {
      NonNegProduct(1.0 - x, d);
      NonNegProduct(x, d);
      assert (1.0 - x) * d == d - m;
    } else {
      NonNegProduct(1.0 - x, -d);
      NonNegProduct(x, -d);
      assert (1.0 - x) * (-d) == m - d;
      assert x * (-d) == -m;
    }
  }

  // ---- The team ----

  datatype Role = Junior | Mid | Senior

  datatype Member = Member(role: Role, eff: real)

  /** How fast each role works, relative to a mid-level developer. */
  function Efficiency(role: Role): real {
    match role
    case Junior => 0.7
    case Mid => 1.0
    case Senior => 1.3
  }

  /** The member a unit draw gives: a fifth juniors, three fifths mids,
      a fifth seniors. */
  function MemberFor(r: real): (m: Member)
    ensures m.role == Junior <==> r < 0.2
    ensures m.role == Senior <==> r >= 0.8
    ensures m.eff == Efficiency(m.role)
  {
    if r < 0.2 then Member(Junior, 0.7)
    else if r < 0.8 then Member(Mid, 1.0)
    else Member(Senior, 1.3)
  }

  /** The team after drawing `n` members from `seed0`, and the seed left. */
  function TeamAfter(seed0: int, n: nat): (r: (seq<Member>, int))
    requires ValidSeed(seed0)
    ensures |r.0| == n && ValidSeed(r.1)
    ensures forall i :: 0 <= i < n ==> r.0[i].eff == Efficiency(r.0[i].role)
  {
    if n == 0 then ([], seed0)
    else
      var prev := TeamAfter(seed0, n - 1);
      var d := Random(prev.1);
      (prev.0 + [MemberFor(d.value)], d.seed)
  }

  /** The team construction loop: one draw per member. */
  method BuildTeam(seed0: int, teamSize: nat) returns (team: seq<Member>, seed: int)
    requires ValidSeed(seed0)
    ensures (team, seed) == TeamAfter(seed0, teamSize)
    ensures |team| == teamSize && ValidSeed(seed)
  {
    team, seed := [], seed0;
    for i := 0 to teamSize
      invariant (team, seed) == TeamAfter(seed0, i)
    {
      var d := Random(seed);
      team := team + [MemberFor(d.value)];
      seed := d.seed;
    }
  }

  function RoleCount(team: seq<Member>, role: Role): (c: nat)
    ensures c <= |team|
  {
    if |team| == 0 then 0
    else RoleCount(team[..|team| - 1], role) + (if team[|team| - 1].role == role then 1 else 0)
  }

  /** The team statistics: juniors, mids and seniors. */
  datatype TeamStats = TeamStats(juniors: nat, mids: nat, seniors: nat)

  function StatsOf(team: seq<Member>): TeamStats {
    TeamStats(RoleCount(team, Junior), RoleCount(team, Mid), RoleCount(team, Senior))
  }

  /** Every member has exactly one role, so the three counts add up to
      the team size. */
  lemma {:induction false} StatsCoverTeam(team: seq<Member>)
    ensures var s := StatsOf(team); s.juniors + s.mids + s.seniors == |team|
    decreases |team|
  {
    if |team| > 0 {
      StatsCoverTeam(team[..|team| - 1]);
    }
  }

  // ---- Pairing ----

  /** The efficiency of the pair starting at member `i`: the mean of the
      two, the last member of an odd team pairing with itself. */
  function PairEff(team: seq<Member>, i: nat): real
    requires i < |team|
  {
    var p1 := team[i];
    var p2 := if i + 1 < |team| then team[i + 1] else p1;
    (p1.eff + p2.eff) / 2.0
  }

  /** The number of pair streams: half the team, rounded up. */
  function StreamCount(teamSize: nat): (c: nat)
    ensures teamSize <= 2 * c <= teamSize + 1
  {
    (teamSize + 1) / 2
  }

  /** The pairing loop: members 0 and 1, 2 and 3, and so on. */
  method PairEfficiencies(team: seq<Member>) returns (effs: seq<real>)
    ensures |effs| == StreamCount(|team|)
    ensures forall j :: 0 <= j < |effs| ==> 2 * j < |team| && effs[j] == PairEff(team, 2 * j)
  {
    effs := [];
    var i := 0;
    while i < |team|
      invariant i == 2 * |effs| && i <= |team| + 1
      invariant forall j :: 0 <= j < |effs| ==> 2 * j < |team| && effs[j] == PairEff(team, 2 * j)
    {
      effs := effs + [PairEff(team, i)];
      i := i + 2;
    }
  }

  /** A pair works at a speed between its two members' speeds, and the
      odd member out works alone at its own speed. */
  lemma PairEffBetween(team: seq<Member>, i: nat)
    requires i < |team|
    ensures var p2 := if i + 1 < |team| then team[i + 1] else team[i];
      (team[i].eff <= p2.eff ==> team[i].eff <= PairEff(team, i) <= p2.eff)
      && (p2.eff <= team[i].eff ==> p2.eff <= PairEff(team, i) <= team[i].eff)
    ensures i + 1 == |team| ==> PairEff(team, i) == team[i].eff
  {
  }

  // ---- The feature loop ----

  datatype SegmentKind = Work | Wait | Review | Rework | Merge | PairWork | Ci | Gap

  datatype Lane = Dev | ReviewLane | ReworkLane | Both

  /** A stretch of the sprint timeline, in hours from its start. */
  datatype Segment = Segment(kind: SegmentKind, lane: Lane, start: real, end: real)

  function Min(a: real, b: real): real {
    if a <= b then a else b
  }

  /** The segments drawn so far lie inside the sprint, are not inverted,
      start in order and start no later than `clock`; stated segment by
      segment from the last one drawn. */
  predicate Timeline(segs: seq<Segment>, clock: real, total: real)
    decreases |segs|
  {
    |segs| == 0 ||
    var n := |segs| - 1;
    && Timeline(segs[..n], clock, total)
    && 0.0 <= segs[n].start <= segs[n].end <= total && segs[n].start <= clock
    && (n > 0 ==> segs[n - 1].start <= segs[n].start)
  }

  /** The segment-by-segment definition says what it should of every segment. */
  lemma {:induction false} TimelineMeans(segs: seq<Segment>, clock: real, total: real)
    ensures Timeline(segs, clock, total) <==>
      && (forall i :: 0 <= i < |segs| ==> 0.0 <= segs[i].start <= segs[i].end <= total && segs[i].start <= clock)
      && (forall i :: 0 < i < |segs| ==> segs[i - 1].start <= segs[i].start)
    decreases |segs|
  {
    if |segs| > 0 {
      var n := |segs| - 1;
      TimelineMeans(segs[..n], clock, total);
      assert forall i :: 0 <= i < n ==> segs[..n][i] == segs[i];
    }
  }

  /** A timeline stays one when the clock moves on. */
  lemma {:induction false} TimelineLater(segs: seq<Segment>, clock: real, later: real, total: real)
    requires clock <= later
    ensures Timeline(segs, clock, total) ==> Timeline(segs, later, total)
    decreases |segs|
  {
    if |segs| > 0 {
      TimelineLater(segs[..|segs| - 1], clock, later, total);
    }
  }

  /** A segment from `a` to `b`, cut at the end of the sprint, drawn only
      while the clock `gate` is still inside the sprint. */
  function Emit(segs: seq<Segment>, gate: real, total: real, kind: SegmentKind, lane: Lane, a: real, b: real): (r: seq<Segment>)
    requires 0.0 <= gate <= a <= b
    ensures Timeline(segs, a, total) ==> Timeline(r, b, total)
    ensures gate < total <==> |r| == |segs| + 1
    ensures |segs| <= |r| && r[..|segs|] == segs
    ensures gate < total ==> r[|segs|] == Segment(kind, lane, Min(a, total), Min(b, total))
  {
    TimelineLater(segs, a, b, total);
    if gate < total then
      var r := segs + [Segment(kind, lane, Min(a, total), Min(b, total))];
      assert r[..|segs|] == segs;
      r
    else segs
  }

  /** The knobs of the comparison; rates and the pair efficiency are
      percentages. */
  datatype Params = Params(
    minFeatureDays: real, maxFeatureDays: real,
    asyncAcceptRate: real, complexFailRate: real,
    minHandoffHours: real, maxHandoffHours: real,
    minReviewDuration: real, maxReviewDuration: real,
    pairEfficiency: real, integrationCostFactor: real,
    sprintDays: real)

  /** What the sliders guarantee: no negative duration, a positive pair
      efficiency. */
  predicate ParamsOk(p: Params) {
    && 0.0 <= p.minFeatureDays && 0.0 <= p.maxFeatureDays
    && 0.0 <= p.minHandoffHours && 0.0 <= p.maxHandoffHours
    && 0.0 <= p.minReviewDuration && 0.0 <= p.maxReviewDuration
    && 0.0 < p.pairEfficiency && 0.0 <= p.integrationCostFactor
    && 0.0 <= p.sprintDays
  }

  function SprintHours(p: Params): real {
    p.sprintDays * 8.0
  }

  /** The simulation runs on for three sprints' worth of hours. */
  function Horizon(p: Params): real {
    SprintHours(p) * 3.0
  }

  function Ceil(x: real): int {
    -((-x).Floor)
  }

  lemma CeilNonNeg(x: real)
    requires x >= 0.0
    ensures Ceil(x) >= 0
  {
  }

  lemma NonNegQuotient(x: real, y: real)
    requires x >= 0.0 && y > 0.0
    ensures x / y >= 0.0
  {
    var q := x / y;
    assert q * y == x;
  }

  lemma NonNegProduct(x: real, y: real)
    requires x >= 0.0 && y >= 0.0
    ensures x * y >= 0.0
  {
  }

  /** A draw between two non-negative bounds is non-negative. */
  function NonNegRange(lo: real, hi: real, d: Drawn): (r: real)
    requires 0.0 <= lo && 0.0 <= hi && 0.0 <= d.value < 1.0
    ensures r == RandRange(lo, hi, d.value) && r >= 0.0
  {
    RandRangeWithin(lo, hi, d.value);
    RandRange(lo, hi, d.value)
  }

  /** One pair feature: each four-hour chunk is a pairing segment
      followed by a quarter-hour CI run. */
  method PairFeature(segs0: seq<Segment>, clock0: real, total: real, workHours: real, chunks: nat)
    returns (segs: seq<Segment>, clock: real)
    requires 0.0 <= clock0 && 0.0 <= workHours && Timeline(segs0, clock0, total)
    ensures Timeline(segs, clock, total)
    ensures clock == clock0 + (chunks as real) * (ChunkTime(workHours, chunks) + 0.25)
  {
    var chunkTime := ChunkTime(workHours, chunks);
    segs, clock := segs0, clock0;
    for i := 0 to chunks
      invariant clock0 <= clock
      invariant Timeline(segs, clock, total)
      invariant clock == clock0 + Rounds(i, chunkTime + 0.25)
    {
      segs := PairChunk(segs, clock, total, chunkTime);
      clock := clock + chunkTime + 0.25;
    }
    RoundsProduct(chunks, chunkTime + 0.25);
  }

  /** The share of a feature's hours that one of `chunks` chunks takes. */
  function ChunkTime(workHours: real, chunks: nat): (r: real)
    requires 0.0 <= workHours
    ensures 0.0 <= r
    ensures chunks > 0 ==> r * (chunks as real) == workHours
  {
    if chunks > 0 then
      NonNegQuotient(workHours, chunks as real);
      workHours / (chunks as real)
    else 0.0
  }

  /** One pair chunk: pairing for `chunkTime`, then a quarter hour of CI;
      both segments are drawn together, exactly when the chunk starts
      inside the sprint, and each is cut at the sprint's end. */
  function PairChunk(segs: seq<Segment>, clock: real, total: real, chunkTime: real): (r: seq<Segment>)
    requires 0.0 <= clock && 0.0 <= chunkTime && Timeline(segs, clock, total)
    ensures Timeline(r, clock + chunkTime + 0.25, total)
    ensures clock < total <==> |r| == |segs| + 2
    ensures clock >= total ==> r == segs
    ensures clock < total ==>
      r == segs + [Segment(PairWork, Both, clock, Min(clock + chunkTime, total)),
                   Segment(Ci, Both, Min(clock + chunkTime, total), Min(clock + chunkTime + 0.25, total))]
  {
    var first := Emit(segs, clock, total, PairWork, Both, clock, clock + chunkTime);
    Emit(first, clock, total, Ci, Both, clock + chunkTime, clock + chunkTime + 0.25)
  }

  /** Two segments back to back from `clock`: `d1` hours of `k1`, then
      `d2` hours of `k2`; the second is drawn only if it starts inside
      the sprint. */
  function EmitTwo(segs: seq<Segment>, clock: real, total: real,
                   k1: SegmentKind, l1: Lane, d1: real, k2: SegmentKind, l2: Lane, d2: real)
    : (r: (seq<Segment>, real))
    requires 0.0 <= clock && 0.0 <= d1 && 0.0 <= d2 && Timeline(segs, clock, total)
    ensures r.1 == clock + d1 + d2 && Timeline(r.0, r.1, total)
  {
    var first := Emit(segs, clock, total, k1, l1, clock, clock + d1);
    (Emit(first, clock + d1, total, k2, l2, clock + d1, clock + d1 + d2), clock + d1 + d2)
  }

  /** The time `n` rework rounds of `round` hours take. */
  function Rounds(n: nat, round: real): (r: real)
    ensures round >= 0.0 ==> r >= 0.0
  {
    if n == 0 then 0.0 else Rounds(n - 1, round) + round
  }

  /** `n` rounds of the same length take `n` times that length. */
  lemma {:induction false} RoundsProduct(n: nat, round: real)
    ensures Rounds(n, round) == (n as real) * round
  {
    if n > 0 {
      RoundsProduct(n - 1, round);
    }
  }

  /** One rework round: wait for the author, rework, wait for a
      reviewer, review again. */
  function ReworkRound(segs: seq<Segment>, clock: real, total: real, waitTime: real, reworkTime: real, reviewTime: real)
    : (r: (seq<Segment>, real))
    requires 0.0 <= clock && 0.0 <= waitTime && 0.0 <= reworkTime && 0.0 <= reviewTime
    requires Timeline(segs, clock, total)
    ensures Timeline(r.0, r.1, total)
    ensures r.1 == clock + (2.0 * waitTime + reworkTime + reviewTime)
  {
    var reworked := EmitTwo(segs, clock, total, Wait, ReworkLane, waitTime, Rework, ReworkLane, reworkTime);
    EmitTwo(reworked.0, reworked.1, total, Wait, ReviewLane, waitTime, Review, ReviewLane, reviewTime)
  }

  /** The review of one chunk: a first check, then up to three rounds of
      waiting, rework, waiting and another review. A failure that is not
      complex always passes at the next check; a complex one passes on a
      coin toss. `complex` records, per round, whether its failure was
      complex. */
  method ReviewRounds(segs0: seq<Segment>, clock0: real, total: real, seed0: int, p: Params,
                      eff: real, waitTime: real, reviewTime: real)
    returns (segs: seq<Segment>, clock: real, seed: int, passes: bool, complex: seq<bool>)
    requires ValidSeed(seed0) && 0.0 <= clock0 && Timeline(segs0, clock0, total)
    requires eff > 0.0 && 0.0 <= waitTime && 0.0 <= reviewTime
    ensures ValidSeed(seed) && Timeline(segs, clock, total)
    ensures |complex| <= 3
    ensures passes || |complex| == 3
    ensures |complex| == 0 <==> Random(seed0).value < p.asyncAcceptRate / 100.0
    ensures forall j :: 0 <= j < |complex| - 1 ==> complex[j]
    ensures |complex| > 0 && !complex[|complex| - 1] ==> passes
    ensures clock == clock0 + Rounds(|complex|, 2.0 * waitTime + 2.0 / eff + reviewTime)
  {
    var reworkTime := 2.0 / eff;
    NonNegQuotient(2.0, eff);
    var round := 2.0 * waitTime + reworkTime + reviewTime;
    assert 0.0 <= round;
    var d := Random(seed0);
    seed := d.seed;
    passes := d.value < p.asyncAcceptRate / 100.0;
    complex := [];
    segs, clock := segs0, clock0;
    while !passes && |complex| < 3
      invariant ValidSeed(seed) && Timeline(segs, clock, total) && |complex| <= 3
      invariant |complex| == 0 ==> (passes <==> d.value < p.asyncAcceptRate / 100.0)
      invariant d.value < p.asyncAcceptRate / 100.0 ==> |complex| == 0
      invariant forall j :: 0 <= j < |complex| - 1 ==> complex[j]
      invariant |complex| > 0 && !complex[|complex| - 1] ==> passes
      invariant clock == clock0 + Rounds(|complex|, round) && clock0 <= clock
      decreases 3 - |complex|
    {
      var isComplex;
      segs, clock, seed, passes, isComplex := RetryRound(segs, clock, total, seed, p, waitTime, reworkTime, reviewTime);
      complex := complex + [isComplex];
    }
  }

  /** One failed review and its rework: whether the failure was complex
      is drawn first; a simple one passes at the next check, a complex
      one on a coin toss. */
  method RetryRound(segs0: seq<Segment>, clock0: real, total: real, seed0: int, p: Params,
                    waitTime: real, reworkTime: real, reviewTime: real)
    returns (segs: seq<Segment>, clock: real, seed: int, passes: bool, isComplex: bool)
    requires ValidSeed(seed0) && 0.0 <= clock0 && Timeline(segs0, clock0, total)
    requires 0.0 <= waitTime && 0.0 <= reworkTime && 0.0 <= reviewTime
    ensures ValidSeed(seed) && Timeline(segs, clock, total)
    ensures clock == clock0 + (2.0 * waitTime + reworkTime + reviewTime)
    ensures isComplex <==> Random(seed0).value < p.complexFailRate / 100.0
    ensures !isComplex ==> passes
  {
    var c := Random(seed0);
    seed := c.seed;
    isComplex := c.value < p.complexFailRate / 100.0;
    var next := ReworkRound(segs0, clock0, total, waitTime, reworkTime, reviewTime);
    segs, clock := next.0, next.1;
    if !isComplex {
      passes := true;
    } else {
      var coin := Random(seed);
      seed := coin.seed;
      passes := coin.value > 0.5;
    }
  }

  /** One four-hour chunk of an asynchronous feature: the work, the
      wait for a reviewer, the review and any rework rounds. */
  method AsyncChunk(segs0: seq<Segment>, clock0: real, total: real, seed0: int, p: Params,
                    eff: real, chunkWorkTime: real)
    returns (segs: seq<Segment>, clock: real, seed: int)
    requires ParamsOk(p) && ValidSeed(seed0) && 0.0 <= clock0 && Timeline(segs0, clock0, total)
    requires eff > 0.0 && 0.0 <= chunkWorkTime
    ensures ValidSeed(seed) && Timeline(segs, clock, total) && clock0 + chunkWorkTime <= clock
  {
    var waitTime, reviewTime;
    segs, clock, seed, waitTime, reviewTime := HandOff(segs0, clock0, total, seed0, p, chunkWorkTime);
    var passes, complex;
    NonNegQuotient(2.0, eff);
    segs, clock, seed, passes, complex := ReviewRounds(segs, clock, total, seed, p, eff, waitTime, reviewTime);
  }

  /** The first part of a chunk: the work, the wait for a reviewer and
      the first review, with the wait and review times drawn. */
  method HandOff(segs0: seq<Segment>, clock0: real, total: real, seed0: int, p: Params, chunkWorkTime: real)
    returns (segs: seq<Segment>, clock: real, seed: int, waitTime: real, reviewTime: real)
    requires ParamsOk(p) && ValidSeed(seed0) && 0.0 <= clock0 && Timeline(segs0, clock0, total)
    requires 0.0 <= chunkWorkTime
    ensures ValidSeed(seed) && Timeline(segs, clock, total)
    ensures 0.0 <= waitTime && 0.0 <= reviewTime
    ensures clock == clock0 + chunkWorkTime + waitTime + reviewTime
  {
    var w := Random(seed0);
    waitTime := NonNegRange(p.minHandoffHours, p.maxHandoffHours, w);
    var rv := Random(w.seed);
    reviewTime := NonNegRange(p.minReviewDuration, p.maxReviewDuration, rv);
    seed := rv.seed;
    var next := EmitTwo(segs0, clock0, total, Work, Dev, chunkWorkTime, Wait, ReviewLane, waitTime);
    segs := Emit(next.0, next.1, total, Review, ReviewLane, next.1, next.1 + reviewTime);
    clock := next.1 + reviewTime;
  }

  /** The chunks of one asynchronous feature. */
  method AsyncChunks(segs0: seq<Segment>, clock0: real, total: real, seed0: int, p: Params,
                     eff: real, workHours: real, chunks: nat)
    returns (segs: seq<Segment>, clock: real, seed: int)
    requires ParamsOk(p) && ValidSeed(seed0) && 0.0 <= clock0 && Timeline(segs0, clock0, total)
    requires eff > 0.0 && 0.0 <= workHours
    ensures ValidSeed(seed) && Timeline(segs, clock, total) && clock0 <= clock
  {
    var chunkWorkTime := ChunkTime(workHours, chunks);
    segs, clock, seed := segs0, clock0, seed0;
    for i := 0 to chunks
      invariant ValidSeed(seed) && Timeline(segs, clock, total) && clock0 <= clock
    {
      segs, clock, seed := AsyncChunk(segs, clock, total, seed, p, eff, chunkWorkTime);
    }
  }

  /** `runSimulation`: features one after another until three sprints'
      worth of hours have passed; only the part inside the first sprint
      is drawn. `pow15` stands for `x => Math.pow(x, 1.5)`. */
  method RunSimulation(p: Params, pow15: real -> real, efficiency: real, isPair: bool, seed0: int)
    returns (segments: seq<Segment>, featuresDone: nat, clock: real, seed: int)
    requires ParamsOk(p) && efficiency > 0.0 && ValidSeed(seed0)
    requires forall x :: x >= 0.0 ==> pow15(x) >= 0.0
    ensures Timeline(segments, clock, SprintHours(p))
    ensures clock >= Horizon(p)
    ensures featuresDone == 0 <==> Horizon(p) <= 0.0
    ensures ValidSeed(seed)
  {
    var total := SprintHours(p);
    var horizon := Horizon(p);
    clock, segments, featuresDone, seed := 0.0, [], 0, seed0;
    while clock < horizon
      invariant 0.0 <= clock && ValidSeed(seed)
      invariant Timeline(segments, clock, total)
      invariant featuresDone == 0 <==> clock == 0.0
      invariant featuresDone > 0 ==> horizon > 0.0
      decreases ((horizon - clock) * 2.0).Floor
    {
      segments, clock, seed := Feature(segments, clock, seed, p, pow15, efficiency, isPair);
      featuresDone := featuresDone + 1;
    }
  }

  /** One feature: its length drawn in days, worked in four-hour chunks
      by a pair or asynchronously (with a merge penalty), then half an
      hour of gap before the next. */
  method Feature(segs0: seq<Segment>, clock0: real, seed0: int, p: Params, pow15: real -> real,
                 efficiency: real, isPair: bool)
    returns (segs: seq<Segment>, clock: real, seed: int)
    requires ParamsOk(p) && efficiency > 0.0 && ValidSeed(seed0)
    requires forall x :: x >= 0.0 ==> pow15(x) >= 0.0
    requires 0.0 <= clock0 && Timeline(segs0, clock0, SprintHours(p))
    ensures ValidSeed(seed) && Timeline(segs, clock, SprintHours(p))
    ensures clock >= clock0 + 0.5
  {
    var total := SprintHours(p);
    var d := Random(seed0);
    seed := d.seed;
    var taskDays := NonNegRange(p.minFeatureDays, p.maxFeatureDays, d);
    var eff := if isPair then efficiency * (p.pairEfficiency / 100.0) else efficiency;
    assert eff > 0.0 by {
      if isPair {
        assert p.pairEfficiency / 100.0 > 0.0;
      }
    }
    var rawTaskHours := taskDays * 8.0;
    var actualWorkHours := rawTaskHours / eff;
    NonNegQuotient(rawTaskHours, eff);
    CeilNonNeg(rawTaskHours / 4.0);
    var taskChunks: nat := Ceil(rawTaskHours / 4.0);
    if isPair {
      segs, clock := PairFeature(segs0, clock0, total, actualWorkHours, taskChunks);
      NonNegProduct(taskChunks as real, ChunkTime(actualWorkHours, taskChunks) + 0.25);
    } else {
      segs, clock, seed := AsyncChunks(segs0, clock0, total, seed, p, eff, actualWorkHours, taskChunks);
      var integPenalty := pow15(taskDays) * (p.integrationCostFactor / 10.0);
      NonNegProduct(pow15(taskDays), p.integrationCostFactor / 10.0);
      segs := Emit(segs, clock, total, Merge, Dev, clock, clock + integPenalty);
      clock := clock + integPenalty;
    }
    segs := Emit(segs, clock, total, Gap, Dev, clock, clock + 0.5);
    clock := clock + 0.5;
  }

  /** Every segment lies inside the sprint and is not inverted. */
  predicate InSprint(segs: seq<Segment>, total: real) {
    forall i :: 0 <= i < |segs| ==> 0.0 <= segs[i].start <= segs[i].end <= total
  }

  /** The comparison: the team is drawn, then one asynchronous run per
      member and one paired run per pair, all from the one generator
      seeded with 123. */
  method CompareModes(p: Params, pow15: real -> real, teamSize: nat)
    returns (team: seq<Member>, asyncRuns: seq<seq<Segment>>, pairRuns: seq<seq<Segment>>, stats: TeamStats)
    requires ParamsOk(p)
    requires forall x :: x >= 0.0 ==> pow15(x) >= 0.0
    ensures |team| == teamSize && |asyncRuns| == teamSize && |pairRuns| == StreamCount(teamSize)
    ensures forall r :: 0 <= r < |asyncRuns| ==> InSprint(asyncRuns[r], SprintHours(p))
    ensures forall r :: 0 <= r < |pairRuns| ==> InSprint(pairRuns[r], SprintHours(p))
    ensures stats.juniors + stats.mids + stats.seniors == teamSize
  {
    var seed;
    team, seed := BuildTeam(StartSeed, teamSize);
    asyncRuns := [];
    for i := 0 to |team|
      invariant ValidSeed(seed) && |asyncRuns| == i
      invariant forall r :: 0 <= r < |asyncRuns| ==> InSprint(asyncRuns[r], SprintHours(p))
    {
      assert team[i].eff > 0.0;
      var segs, done, clock;
      segs, done, clock, seed := RunSimulation(p, pow15, team[i].eff, false, seed);
      TimelineMeans(segs, clock, SprintHours(p));
      asyncRuns := asyncRuns + [segs];
    }
    var effs := PairEfficiencies(team);
    pairRuns := [];
    for j := 0 to |effs|
      invariant ValidSeed(seed) && |pairRuns| == j
      invariant forall r :: 0 <= r < |pairRuns| ==> InSprint(pairRuns[r], SprintHours(p))
    {
      assert effs[j] > 0.0 by {
        PairEffBetween(team, 2 * j);
      }
      var segs, done, clock;
      segs, done, clock, seed := RunSimulation(p, pow15, effs[j], true, seed);
      TimelineMeans(segs, clock, SprintHours(p));
      pairRuns := pairRuns + [segs];
    }
    stats := StatsOf(team);
    StatsCoverTeam(team);
  }

  // ---- The range sliders ----

  /** `handleMinChange`: the new minimum never passes the maximum. */
  function SliderMin(val: real, maxVal: real): (r: (real, real))
    ensures r.0 <= r.1 && r.1 == maxVal
    ensures r.0 == val <==> val <= maxVal
    ensures val > maxVal ==> r.0 == maxVal
  {
    (if val < maxVal then val else maxVal, maxVal)
  }

  /** `handleMaxChange`: the new maximum never falls below the minimum. */
  function SliderMax(val: real, minVal: real): (r: (real, real))
    ensures r.0 <= r.1 && r.0 == minVal
    ensures r.1 == val <==> val >= minVal
    ensures val < minVal ==> r.1 == minVal
  {
    (minVal, if val > minVal then val else minVal)
  }

  /** A drag of one handle of a range slider. */
  datatype Drag = MinTo(v: real) | MaxTo(v: real)

  function ApplyDrags(drags: seq<Drag>, lo: real, hi: real): (real, real)
    decreases |drags|
  {
    if |drags| == 0 then (lo, hi)
    else
      var r := match drags[0]
        case MinTo(v) => SliderMin(v, hi)
        case MaxTo(v) => SliderMax(v, lo);
      ApplyDrags(drags[1..], r.0, r.1)
  }

  /** Whatever the user drags, an ordered range stays ordered, and any
      drag at all leaves it ordered. */
  lemma {:induction false} DragsKeepOrder(drags: seq<Drag>, lo: real, hi: real)
    requires lo <= hi || |drags| > 0
    ensures ApplyDrags(drags, lo, hi).0 <= ApplyDrags(drags, lo, hi).1
    decreases |drags|
  {
    if |drags| > 0 {
      var r := match drags[0]
        case MinTo(v) => SliderMin(v, hi)
        case MaxTo(v) => SliderMax(v, lo);
      DragsKeepOrder(drags[1..], r.0, r.1);
    }
  }

  // ---- The timeline animation ----

  /** The number of animation frames one sprint is played over. */
  const Frames: nat := 300

  /** One animation frame: the time moves on by a three-hundredth of the
      sprint; at the end of the sprint it stops there and playback ends.
      The boolean says whether playback goes on. */
  function AnimationStep(prev: real, maxDuration: real): (r: (real, bool))
    ensures r.1 ==> r.0 == prev + maxDuration / (Frames as real) && r.0 < maxDuration
    ensures !r.1 ==> r.0 == maxDuration
  {
    var next := prev + maxDuration / (Frames as real);
    if next >= maxDuration then (maxDuration, false) else (next, true)
  }

  /** Up to `n` frames from `t`, stopping when playback ends. */
  function Play(t: real, maxDuration: real, n: nat): (real, bool)
    decreases n
  {
    if n == 0 then (t, true)
    else
      var r := AnimationStep(t, maxDuration);
      if !r.1 then r else Play(r.0, maxDuration, n - 1)
  }

  /** Is the animation still playing after `n` frames from `t`? */
  predicate Playing(t: real, maxDuration: real, n: nat) {
    Play(t, maxDuration, n).1
  }

  lemma ScaleBelow(a: real, b: real, d: real)
    requires a < b && d > 0.0
    ensures a * d < b * d
  {
    assert (b - a) * d > 0.0;
  }

  /** Played from frame `k`, the animation reaches the end of the sprint
      and stops after exactly the remaining frames. */
  lemma {:induction false} PlayFrom(k: nat, maxDuration: real, t: real)
    requires k < Frames && maxDuration > 0.0
    requires t == (k as real) * (maxDuration / (Frames as real))
    ensures Play(t, maxDuration, Frames - k) == (maxDuration, false)
    ensures forall n :: 0 < n < Frames - k ==> Playing(t, maxDuration, n)
    decreases Frames - k
  {
    var d := maxDuration / (Frames as real);
    var whole := (Frames as real) * d;
    var next := ((k + 1) as real) * d;
    assert whole == maxDuration;
    assert t + d == next;
    if k + 1 < Frames {
      ScaleBelow((k + 1) as real, Frames as real, d);
      assert next < whole;
      assert AnimationStep(t, maxDuration) == (t + d, true);
      PlayFrom(k + 1, maxDuration, t + d);
      forall n | 0 < n < Frames - k
        ensures Playing(t, maxDuration, n)
      {
        assert Play(t, maxDuration, n) == Play(t + d, maxDuration, n - 1);
        if n > 1 {
          assert Playing(t + d, maxDuration, n - 1);
        }
      }
    } else {
      assert t + d == maxDuration;
    }
  }

  /** Started from zero, playback ends at the end of the sprint after
      exactly 300 frames, and not before. */
  lemma PlaysWholeSprint(maxDuration: real)
    requires maxDuration > 0.0
    ensures Play(0.0, maxDuration, Frames) == (maxDuration, false)
    ensures forall n :: 0 < n < Frames ==> Playing(0.0, maxDuration, n)
  {
    assert (0 as real) * (maxDuration / (Frames as real)) == 0.0;
    PlayFrom(0, maxDuration, 0.0);
  }
}
