/**
 * The maritime collision-avoidance environment `Dune_Env`: the
 * collision-risk clamps, the COLREG situation classifier, discrete heading
 * control, the observation vector and the discrete reward parts.
 *
 * Geometry (distances, bearings, CPA measures, speeds) is computed by
 * helpers outside this model and enters as values; `exp`, `log` and `sqrt`
 * enter as function parameters.
 */
module DuneEnv {

  import opened Wrappers
  import opened Observations
  import Sorting
  import NetsRecurrent

  const Pi: real := 3.141592653589793
  const MinSafeDistance: real := 30.0   // metres
  const CrRecDist: real := 75.0         // collision risk distance, metres
  const CrAl: real := 0.1               // collision risk at CrRecDist
  const EMax: real := 500.0
  const NumObsOS: nat := 4
  const NumObsTS: nat := 6
  const GoalReachDist: real := 50.0
  const MaxEpisodeSteps: int := 300

  /** `dtr`: degrees to radians. */
  function Dtr(deg: real): real { deg * Pi / 180.0 }

  /** Heading change per steering action, two degrees. */
  const DHead: real := Dtr(2.0)

  function Abs(x: real): real { if x < 0.0 then -x else x }
  function Min(a: real, b: real): real { if a <= b then a else b }
  function Max(a: real, b: real): real { if a >= b then a else b }

  datatype StateDesign = RecDQN | MaxRisk

  datatype EnvError =
    | UnknownAction   // `assert ... a in range(3), "Unknown action."`
    | StateTooLong    // `np.pad` with a negative width

  // ---------------------------------------------------------------------
  // Collision risk

  /**
   * What `_get_CR` takes from the geometry helpers: the distance, the CPA
   * measures and the relative bearing of the own ship at the time of CPA
   * from the target's perspective (radians).
   */
  datatype CpaView = CpaView(ed: real, dcpa: real, tcpa: real, bngTcpa: real)

  /** DCPA less the safety distance, clamped at zero, scaled down when the own ship passes ahead of the target. */
  function AdjustedDcpa(c: CpaView, exp: real -> real, ln: real -> real): real
  {
    var dcpa := Max(0.0, c.dcpa - MinSafeDistance);
    var bng := Abs(c.bngTcpa);
    if c.tcpa >= 0.0 && bng <= Dtr(30.0) then dcpa * (1.2 - exp(-ln(5.0) / Dtr(30.0) * bng)) else dcpa
  }

  /** The CPA-based risk term. */
  function CpaRisk(c: CpaView, exp: real -> real, ln: real -> real): real
  {
    var dcpa := AdjustedDcpa(c, exp, ln);
    if c.tcpa >= 0.0 then exp((dcpa + 1.5 * c.tcpa) * ln(CrAl) / CrRecDist)
    else exp((dcpa + 20.0 * Abs(c.tcpa)) * ln(CrAl) / CrRecDist)
  }

  /** The distance-based risk term. */
  function EdRisk(c: CpaView, exp: real -> real): real
  {
    exp(-(c.ed - MinSafeDistance) / (CrRecDist * 0.3))
  }

  /** `_get_CR`. */
  function CollisionRisk(c: CpaView, exp: real -> real, ln: real -> real): (r: real)
    ensures c.ed <= MinSafeDistance ==> r == 1.0
    ensures r <= 1.0
    ensures c.ed > MinSafeDistance ==> r == 1.0 || (r >= CpaRisk(c, exp, ln) && r >= EdRisk(c, exp))
    ensures c.ed > MinSafeDistance ==> r == 1.0 || r == CpaRisk(c, exp, ln) || r == EdRisk(c, exp)
    ensures (forall x :: exp(x) > 0.0) ==> r > 0.0
  {
    if c.ed <= MinSafeDistance then 1.0
    else Min(1.0, Max(CpaRisk(c, exp, ln), EdRisk(c, exp)))
  }

  /** The risk reaches 1.0 exactly inside the safe distance or when a risk term reaches 1. */
  lemma CollisionRiskSaturates(c: CpaView, exp: real -> real, ln: real -> real)
    ensures CollisionRisk(c, exp, ln) == 1.0
            <==> c.ed <= MinSafeDistance || CpaRisk(c, exp, ln) >= 1.0 || EdRisk(c, exp) >= 1.0
  {
  }

  // ---------------------------------------------------------------------
  // COLREG situation

  /**
   * An encounter as `_get_COLREG_situation` sees it, bearings in degrees:
   * `bngOS`/`bngTS` are the relative bearings OS->TS and TS->OS in [0, 360),
   * `bngOSPi`/`bngTSPi` the same bearings wrapped to [-180, 180].
   */
  datatype Encounter = Encounter(dist: real, bngOS: real, bngTS: real, bngOSPi: real, bngTSPi: real, vRel: real, vTS: real)

  /** `w` is the bearing `raw` after `angle_to_pi`. */
  predicate Wrapped(raw: real, w: real)
  {
    0.0 <= raw < 360.0 && -180.0 <= w <= 180.0 && (w == raw || w == raw - 360.0)
  }

  predicate WellWrapped(e: Encounter)
  {
    Wrapped(e.bngOS, e.bngOSPi) && Wrapped(e.bngTS, e.bngTSPi)
  }

  predicate HeadOn(e: Encounter)     { Abs(e.bngOSPi) <= 22.5 && Abs(e.bngTSPi) <= 22.5 }
  predicate Overtaking(e: Encounter) { 112.5 <= e.bngTS <= 247.5 && Abs(e.bngOSPi) <= 45.0 && e.vRel > e.vTS }
  predicate Portside(e: Encounter)   { 0.0 <= e.bngTS <= 112.5 && -112.5 <= e.bngOSPi <= 10.0 }
  predicate Starboard(e: Encounter)  { 0.0 <= e.bngOS <= 112.5 && -112.5 <= e.bngTSPi <= 10.0 }

  /** `_get_COLREG_situation`: 0 none, 1 head-on, 3 overtaking, 4 portside crossing, 5 starboard crossing. */
  function ColregSituation(e: Encounter, sight: real): (r: int)
    ensures r in {0, 1, 3, 4, 5}
    ensures e.dist > sight ==> r == 0
    ensures r == 1 <==> e.dist <= sight && HeadOn(e)
    ensures r == 3 <==> e.dist <= sight && !HeadOn(e) && Overtaking(e)
    ensures r == 4 <==> e.dist <= sight && !HeadOn(e) && !Overtaking(e) && Portside(e)
    ensures r == 5 <==> e.dist <= sight && !HeadOn(e) && !Overtaking(e) && !Portside(e) && Starboard(e)
  {
    if e.dist > sight then 0
    else if HeadOn(e) then 1
    else if Overtaking(e) then 3
    else if Portside(e) then 4
    else if Starboard(e) then 5
    else 0
  }

  /**
   * The two crossing rules never compete: an encounter that satisfies both is
   * head-on, which is checked first.
   */
  lemma CrossingRulesDisjoint(e: Encounter)
    requires WellWrapped(e) && Portside(e) && Starboard(e)
    ensures HeadOn(e)
  {
    assert e.bngTSPi == e.bngTS;
    assert e.bngOSPi == e.bngOS;
  }

  /** The encounter seen from the target ship. */
  function Swap(e: Encounter, vRel: real, vTS: real): Encounter
  {
    Encounter(e.dist, e.bngTS, e.bngOS, e.bngTSPi, e.bngOSPi, vRel, vTS)
  }

  /** Head-on is symmetric, and a portside crossing for one ship is a starboard crossing for the other. */
  lemma ColregMirror(e: Encounter, sight: real, vRel: real, vTS: real)
    ensures ColregSituation(e, sight) == 1 <==> ColregSituation(Swap(e, vRel, vTS), sight) == 1
    ensures Portside(e) <==> Starboard(Swap(e, vRel, vTS))
  {
  }

  /**
   * The overtaking sector overlaps the crossing rules only on its edges: a
   * portside crossing exactly at a target bearing of 112.5 degrees, a
   * starboard crossing exactly at 247.5 degrees. Only there does the
   * priority of overtaking over the crossings decide the situation.
   */
  lemma OvertakingOverlapsAtEdges(e: Encounter)
    requires WellWrapped(e) && Overtaking(e)
    ensures Portside(e) ==> e.bngTS == 112.5
    ensures Starboard(e) ==> e.bngTS == 247.5 && e.bngTSPi == -112.5
  {
    if Starboard(e) {
      assert e.bngTSPi != e.bngTS;
    }
  }

  // ---------------------------------------------------------------------
  // Heading control

  /**
   * `angle_to_2pi`, whose definition lies outside this model, taken as the
   * floor-based wrap: the angle shifted by a whole number of turns into
   * [0, 2 pi).
   */
  function Angle2Pi(x: real): (r: real)
    ensures 0.0 <= r < 2.0 * Pi
    ensures 0.0 <= x < 2.0 * Pi ==> r == x
  {
    var k := (x / (2.0 * Pi)).Floor;
    x - 2.0 * Pi * k as real
  }

  /** Normalising is blind to whole turns. */
  lemma Angle2PiPeriodic(x: real, k: int)
    ensures Angle2Pi(x + 2.0 * Pi * k as real) == Angle2Pi(x)
  {
    var y := x + 2.0 * Pi * k as real;
    assert y / (2.0 * Pi) == x / (2.0 * Pi) + k as real;
    assert (y / (2.0 * Pi)).Floor == (x / (2.0 * Pi)).Floor + k;
  }

  /** The new heading after `_heading_control(a)`. */
  function NextHeading(heading: real, a: int): (r: Result<real, EnvError>)
    ensures r.Success? <==> a in {0, 1, 2}
    ensures r.Failure? ==> r.error == UnknownAction
    ensures r.Success? ==> 0.0 <= r.value < 2.0 * Pi
    ensures a == 0 && 0.0 <= heading < 2.0 * Pi ==> r == Success(heading)
    ensures a == 1 ==> r == Success(Angle2Pi(heading + DHead))
    ensures a == 2 ==> r == Success(Angle2Pi(heading - DHead))
  {
    if a == 0 then Success(Angle2Pi(heading))
    else if a == 1 then Success(Angle2Pi(heading + DHead))
    else if a == 2 then Success(Angle2Pi(heading - DHead))
    else Failure(UnknownAction)
  }

  /** Steering right then left returns a normalised heading to itself. */
  lemma RightThenLeft(heading: real)
    requires 0.0 <= heading < 2.0 * Pi
    ensures NextHeading(NextHeading(heading, 1).value, 2) == Success(heading)
  {
    var x := heading + DHead;
    var k := (x / (2.0 * Pi)).Floor;
    assert Angle2Pi(x) - DHead == heading + 2.0 * Pi * (-k) as real;
    Angle2PiPeriodic(heading, -k);
  }

  // ---------------------------------------------------------------------
  // Observation

  /** What `_set_state` takes about the own ship and the goal (speed, heading in (-pi, pi], goal bearing, goal distance). */
  datatype OwnView = OwnView(speed: real, headingPi: real, goalBng: real, goalEd: real)

  /** What `_set_state` takes about one target ship: distance, relative bearing, heading intersection angle, speed, risk. */
  datatype TargetView = TargetView(ed: real, bng: real, headInter: real, speed: real, cr: real)

  /** `state_OS` followed by `state_goal`. */
  function OwnPart(own: OwnView): (r: seq<real>)
    ensures |r| == NumObsOS
  {
    [own.speed / 1.2, own.headingPi / Pi, own.goalBng / Pi, Min(1.0, own.goalEd / (0.5 * EMax))]
  }

  /** The block of a target in sight. */
  function TargetBlock(t: TargetView, sigma: int): (r: seq<real>)
    ensures |r| == NumObsTS && r[NumObsTS - 1] == t.cr
  {
    [(t.ed - MinSafeDistance) / EMax, t.bng / Pi, t.headInter / Pi, t.speed / 1.2, sigma as real, t.cr]
  }

  /** The placeholder block used when no target is in sight. */
  const GhostBlock: seq<real> := [1.0, -1.0, -1.0, 0.0, 0.0, 0.0]

  /** The blocks of the targets in sight, in detection order. */
  function InSightBlocks(targets: seq<TargetView>, colregs: seq<int>, sight: real): (r: seq<seq<real>>)
    requires |colregs| == |targets|
    ensures |r| <= |targets| && AllWidth(r, NumObsTS)
  {
    if targets == [] then []
    else
      var n := |targets| - 1;
      var init := InSightBlocks(targets[..n], colregs[..n], sight);
      if targets[n].ed <= sight then init + [TargetBlock(targets[n], colregs[n])] else init
  }

  /** Every block comes from a target in sight. */
  lemma {:induction false} InSightBlocksSound(targets: seq<TargetView>, colregs: seq<int>, sight: real, j: int)
    requires |colregs| == |targets| && 0 <= j < |InSightBlocks(targets, colregs, sight)|
    ensures exists i :: 0 <= i < |targets| && targets[i].ed <= sight
                        && InSightBlocks(targets, colregs, sight)[j] == TargetBlock(targets[i], colregs[i])
    decreases |targets|
  {
    var n := |targets| - 1;
    var init := InSightBlocks(targets[..n], colregs[..n], sight);
    if j < |init| {
      InSightBlocksSound(targets[..n], colregs[..n], sight, j);
      var i :| 0 <= i < n && targets[..n][i].ed <= sight
               && init[j] == TargetBlock(targets[..n][i], colregs[..n][i]);
      assert targets[i] == targets[..n][i];
    } else {
      assert targets[n].ed <= sight;
    }
  }

  /** Every target in sight has its block. */
  lemma {:induction false} InSightBlocksComplete(targets: seq<TargetView>, colregs: seq<int>, sight: real, i: int)
    requires |colregs| == |targets| && 0 <= i < |targets| && targets[i].ed <= sight
    ensures TargetBlock(targets[i], colregs[i]) in InSightBlocks(targets, colregs, sight)
    decreases |targets|
  {
    var n := |targets| - 1;
    if i < n {
      InSightBlocksComplete(targets[..n], colregs[..n], sight, i);
      assert targets[..n][i] == targets[i] && colregs[..n][i] == colregs[i];
    }
  }

  /** There are no blocks exactly when no target is in sight. */
  lemma {:induction false} InSightBlocksEmpty(targets: seq<TargetView>, colregs: seq<int>, sight: real)
    requires |colregs| == |targets|
    ensures InSightBlocks(targets, colregs, sight) == [] <==> forall i :: 0 <= i < |targets| ==> targets[i].ed > sight
  {
    if InSightBlocks(targets, colregs, sight) == [] {
      forall i | 0 <= i < |targets| ensures targets[i].ed > sight {
        if targets[i].ed <= sight {
          InSightBlocksComplete(targets, colregs, sight, i);
        }
      }
    } else {
      InSightBlocksSound(targets, colregs, sight, 0);
    }
  }

  /** The blocks before sorting: those in sight, or the ghost ship alone. */
  function Blocks(targets: seq<TargetView>, colregs: seq<int>, sight: real): (r: seq<seq<real>>)
    requires |colregs| == |targets|
    ensures 1 <= |r| <= Max1(|targets|) && AllWidth(r, NumObsTS)
  {
    var b := InSightBlocks(targets, colregs, sight);
    if b == [] then [GhostBlock] else b
  }

  function Max1(n: int): int { if n < 1 then 1 else n }

  /** The ghost ship is the only block exactly when no target is in sight. */
  lemma GhostBlockAlone(targets: seq<TargetView>, colregs: seq<int>, sight: real)
    requires |colregs| == |targets|
    ensures (forall i :: 0 <= i < |targets| ==> targets[i].ed > sight) ==> Blocks(targets, colregs, sight) == [GhostBlock]
    ensures (exists i :: 0 <= i < |targets| && targets[i].ed <= sight) ==> Blocks(targets, colregs, sight) == InSightBlocks(targets, colregs, sight)
  {
    InSightBlocksEmpty(targets, colregs, sight);
  }

  /** The sort key `x[-1]`, the collision risk. */
  function Risk(b: seq<real>): real
  {
    if |b| == 0 then 0.0 else b[|b| - 1]
  }

  /** `sorted(state_TSs, key=lambda x: x[-1])`. */
  function SortedBlocks(targets: seq<TargetView>, colregs: seq<int>, sight: real): seq<seq<real>>
    requires |colregs| == |targets|
  {
    Sorting.StableSort(Risk, false, Blocks(targets, colregs, sight))
  }

  /** The sorted blocks are ascending by risk, a permutation of the blocks, and keep detection order among equal risks. */
  lemma SortedBlocksOrder(targets: seq<TargetView>, colregs: seq<int>, sight: real, k: real)
    requires |colregs| == |targets|
    ensures Sorting.SortedBy(Risk, false, SortedBlocks(targets, colregs, sight))
    ensures multiset(SortedBlocks(targets, colregs, sight)) == multiset(Blocks(targets, colregs, sight))
    ensures Sorting.WithKey(Risk, k, SortedBlocks(targets, colregs, sight)) == Sorting.WithKey(Risk, k, Blocks(targets, colregs, sight))
  {
    Sorting.StableSortSorted(Risk, false, Blocks(targets, colregs, sight));
    Sorting.StableSortStable(Risk, false, Blocks(targets, colregs, sight), k);
  }

  lemma SortedBlocksShape(targets: seq<TargetView>, colregs: seq<int>, sight: real)
    requires |colregs| == |targets|
    ensures |SortedBlocks(targets, colregs, sight)| == |Blocks(targets, colregs, sight)|
    ensures AllWidth(SortedBlocks(targets, colregs, sight), NumObsTS)
  {
    var b := Blocks(targets, colregs, sight);
    Sorting.StableSortSorted(Risk, false, b);
    Sorting.StableSortLength(Risk, false, b);
    var s := SortedBlocks(targets, colregs, sight);
    forall i | 0 <= i < |s| ensures |s[i]| == NumObsTS {
      assert s[i] in multiset(b);
    }
  }

  /** The number of target slots in the "RecDQN" observation. */
  function SlotCount(nTSsMax: int): nat { if nTSsMax < 1 then 1 else nTSsMax }

  /** `obs_size` of the constructor. */
  function ObsSize(design: StateDesign, nTSsMax: int): nat
  {
    match design
    case RecDQN => NumObsOS + SlotCount(nTSsMax) * NumObsTS
    case MaxRisk => NumObsOS + NumObsTS
  }

  /** The target-ship part of the observation after sorting. */
  function TargetPart(design: StateDesign, nTSsMax: int, sorted: seq<seq<real>>): Result<seq<Value>, EnvError>
    requires |sorted| >= 1
  {
    match design
    case RecDQN =>
      (match PadRight(Nums(Flatten(sorted)), NumObsTS * SlotCount(nTSsMax))
       case None => Failure(StateTooLong)
       case Some(p) => Success(p))
    case MaxRisk => Success(Nums(sorted[|sorted| - 1]))
  }

  /** The observation `_set_state` assigns, or the error it raises. */
  function StateOf(design: StateDesign, nTSsMax: int, own: OwnView, targets: seq<TargetView>, colregs: seq<int>, sight: real)
    : Result<seq<Value>, EnvError>
    requires |colregs| == |targets|
  {
    SortedBlocksShape(targets, colregs, sight);
    match TargetPart(design, nTSsMax, SortedBlocks(targets, colregs, sight))
    case Failure(e) => Failure(e)
    case Success(p) => Success(Nums(OwnPart(own)) + p)
  }

  /**
   * The observation has the size the constructor declares; in "RecDQN"
   * mode it exists exactly when the blocks fit the slots.
   */
  lemma StateSize(design: StateDesign, nTSsMax: int, own: OwnView, targets: seq<TargetView>, colregs: seq<int>, sight: real)
    requires |colregs| == |targets|
    ensures design == RecDQN ==>
              (StateOf(design, nTSsMax, own, targets, colregs, sight).Success?
               <==> |Blocks(targets, colregs, sight)| <= SlotCount(nTSsMax))
    ensures design == MaxRisk ==> StateOf(design, nTSsMax, own, targets, colregs, sight).Success?
    ensures StateOf(design, nTSsMax, own, targets, colregs, sight).Success?
            ==> |StateOf(design, nTSsMax, own, targets, colregs, sight).value| == ObsSize(design, nTSsMax)
  {
    SortedBlocksShape(targets, colregs, sight);
    var sorted := SortedBlocks(targets, colregs, sight);
    FlattenLength(sorted, NumObsTS);
  }

  /** A target list no longer than `N_TSs_max` always fits. */
  lemma StateFits(design: StateDesign, nTSsMax: int, own: OwnView, targets: seq<TargetView>, colregs: seq<int>, sight: real)
    requires |colregs| == |targets| && |targets| <= SlotCount(nTSsMax)
    ensures StateOf(design, nTSsMax, own, targets, colregs, sight).Success?
  {
    StateSize(design, nTSsMax, own, targets, colregs, sight);
  }

  /**
   * In "RecDQN" mode the observation, cut into own-ship part and target
   * slots, has exactly the sorted blocks in its first slots and NaN padding
   * after them; so the recurrent networks count every block, and never
   * find an observation without a target.
   */
  lemma RecDqnSlots(nTSsMax: int, own: OwnView, targets: seq<TargetView>, colregs: seq<int>, sight: real)
    requires |colregs| == |targets| && StateOf(RecDQN, nTSsMax, own, targets, colregs, sight).Success?
    ensures var s := StateOf(RecDQN, nTSsMax, own, targets, colregs, sight).value;
            var d := NetsRecurrent.Dims(NumObsOS, NumObsTS, SlotCount(nTSsMax));
            && NetsRecurrent.Shaped(s, d)
            && NetsRecurrent.RightPadded(NetsRecurrent.Slots(s, d), |Blocks(targets, colregs, sight)|)
            && NetsRecurrent.PresentCount(NetsRecurrent.Slots(s, d)) == |Blocks(targets, colregs, sight)| >= 1
  {
    StateSize(RecDQN, nTSsMax, own, targets, colregs, sight);
    SortedBlocksShape(targets, colregs, sight);
    var sorted := SortedBlocks(targets, colregs, sight);
    var d := NetsRecurrent.Dims(NumObsOS, NumObsTS, SlotCount(nTSsMax));
    assert NumObsTS * SlotCount(nTSsMax) == SlotCount(nTSsMax) * NumObsTS;
    var padded := PadRight(Nums(Flatten(sorted)), NumObsTS * SlotCount(nTSsMax)).value;
    NetsRecurrent.PaddedSlots(OwnPart(own), sorted, d, padded);
  }

  /** In "maxRisk" mode the kept block is one of highest risk. */
  lemma MaxRiskKeepsRiskiest(nTSsMax: int, own: OwnView, targets: seq<TargetView>, colregs: seq<int>, sight: real)
    requires |colregs| == |targets|
    ensures var r := StateOf(MaxRisk, nTSsMax, own, targets, colregs, sight);
            r.Success? && exists b :: (b in Blocks(targets, colregs, sight) && r.value == Nums(OwnPart(own)) + Nums(b)
                                       && forall b' :: b' in Blocks(targets, colregs, sight) ==> Risk(b') <= Risk(b))
  {
    SortedBlocksShape(targets, colregs, sight);
    SortedBlocksOrder(targets, colregs, sight, 0.0);
    var sorted := SortedBlocks(targets, colregs, sight);
    var blocks := Blocks(targets, colregs, sight);
    var b := sorted[|sorted| - 1];
    assert b in multiset(blocks);
    forall b' | b' in blocks ensures Risk(b') <= Risk(b) {
      assert b' in multiset(sorted);
      var i :| 0 <= i < |sorted| && sorted[i] == b';
      if i < |sorted| - 1 {
        assert Sorting.InOrder(Risk, false, sorted[i], sorted[|sorted| - 1]);
      }
    }
  }

  // ---------------------------------------------------------------------
  // Reward parts

  /** What the reward loop takes about one target: distance, TCPA and collision risk. */
  datatype RewardView = RewardView(ed: real, tcpa: real, cr: real)

  /** The collision term of one target. */
  function CollisionPenalty(cr: real, nonlinear: bool, sqrt: real -> real): (r: real)
    ensures cr == 1.0 ==> r == -10.0
    ensures cr != 1.0 && !nonlinear ==> r == -cr
    ensures cr != 1.0 && nonlinear ==> r == -sqrt(cr)
  {
    if cr == 1.0 then -10.0 else if nonlinear then -sqrt(cr) else -cr
  }

  /** The COLREG term of one target: steering left within a head-on or starboard situation. */
  function ColregPenalty(v: RewardView, respawned: bool, oldSituation: int, a: int, sight: real): (r: real)
    ensures r == -1.0 <==> !respawned && v.ed <= sight && v.tcpa >= 0.0 && oldSituation in {1, 5} && a == 2
    ensures r == 0.0 || r == -1.0
  {
    if !respawned && v.ed <= sight && v.tcpa >= 0.0 && oldSituation in {1, 5} && a == 2 then -1.0 else 0.0
  }

  /** The collision and COLREG sums over the targets. */
  function RewardSums(views: seq<RewardView>, respawned: seq<bool>, oldSituations: seq<int>, a: int, sight: real,
                      nonlinear: bool, sqrt: real -> real): (real, real)
    requires |respawned| == |views| && |oldSituations| == |views|
  {
    if views == [] then (0.0, 0.0)
    else
      var n := |views| - 1;
      var (c, g) := RewardSums(views[..n], respawned[..n], oldSituations[..n], a, sight, nonlinear, sqrt);
      (c + CollisionPenalty(views[n].cr, nonlinear, sqrt), g + ColregPenalty(views[n], respawned[n], oldSituations[n], a, sight))
  }

  /** The loop of `_calculate_reward` over the targets. */
  method RewardTerms(views: seq<RewardView>, respawned: seq<bool>, oldSituations: seq<int>, a: int, sight: real,
                     nonlinear: bool, sqrt: real -> real) returns (rColl: real, rColreg: real)
    requires |respawned| == |views| && |oldSituations| == |views|
    ensures (rColl, rColreg) == RewardSums(views, respawned, oldSituations, a, sight, nonlinear, sqrt)
  {
    rColl, rColreg := 0.0, 0.0;
    for i := 0 to |views|
      invariant (rColl, rColreg) == RewardSums(views[..i], respawned[..i], oldSituations[..i], a, sight, nonlinear, sqrt)
    {
      assert views[..i + 1][..i] == views[..i];
      assert respawned[..i + 1][..i] == respawned[..i];
      assert oldSituations[..i + 1][..i] == oldSituations[..i];
      rColl := rColl + CollisionPenalty(views[i].cr, nonlinear, sqrt);
      rColreg := rColreg + ColregPenalty(views[i], respawned[i], oldSituations[i], a, sight);
    }
    assert views[..|views|] == views;
    assert respawned[..|views|] == respawned;
    assert oldSituations[..|views|] == oldSituations;
  }

  /**
   * The COLREG sum lies between minus the number of targets and zero, and is
   * zero unless the action is 2 or when every target has just respawned.
   */
  lemma {:induction false} ColregSumBounds(views: seq<RewardView>, respawned: seq<bool>, oldSituations: seq<int>, a: int,
                                           sight: real, nonlinear: bool, sqrt: real -> real)
    requires |respawned| == |views| && |oldSituations| == |views|
    ensures var g := RewardSums(views, respawned, oldSituations, a, sight, nonlinear, sqrt).1;
            -(|views| as real) <= g <= 0.0
            && (a != 2 ==> g == 0.0)
            && ((forall i :: 0 <= i < |views| ==> respawned[i]) ==> g == 0.0)
  {
    if views != [] {
      var n := |views| - 1;
      ColregSumBounds(views[..n], respawned[..n], oldSituations[..n], a, sight, nonlinear, sqrt);
      if forall i :: 0 <= i < |views| ==> respawned[i] {
        assert forall i :: 0 <= i < n ==> respawned[..n][i];
      }
    }
  }

  /** The collision sum is -10 per target at risk 1 when the risk terms are taken linearly. */
  lemma {:induction false} CollisionSumLinear(views: seq<RewardView>, respawned: seq<bool>, oldSituations: seq<int>, a: int,
                                              sight: real, sqrt: real -> real)
    requires |respawned| == |views| && |oldSituations| == |views|
    requires forall i :: 0 <= i < |views| ==> 0.0 <= views[i].cr <= 1.0
    ensures var c := RewardSums(views, respawned, oldSituations, a, sight, false, sqrt).0;
            -10.0 * |views| as real <= c <= 0.0
  {
    if views != [] {
      var n := |views| - 1;
      CollisionSumLinear(views[..n], respawned[..n], oldSituations[..n], a, sight, sqrt);
    }
  }

  /** `safe_sit`: every target has risk at most 0.2. */
  predicate SafeSituation(crs: seq<real>)
  {
    forall i :: 0 <= i < |crs| ==> crs[i] <= 0.2
  }

  /** The comfort penalty: -1 for steering, waived under collision risk when `ada_r_comf`. */
  function ComfortReward(a: int, adaRComf: bool, safe: bool): (r: real)
    ensures r == 0.0 || r == -1.0
    ensures a == 0 ==> r == 0.0
    ensures r == -1.0 <==> a != 0 && (!adaRComf || safe)
  {
    if a == 0 then 0.0 else if adaRComf then (if safe then -1.0 else 0.0) else -1.0
  }

  /** `_done`: goal reached or the episode limit hit. */
  function Done(goalDist: real, stepCnt: int): (d: bool)
    ensures d <==> goalDist <= GoalReachDist || stepCnt >= MaxEpisodeSteps
  {
    goalDist <= GoalReachDist || stepCnt >= MaxEpisodeSteps
  }

  /** Once the limit is hit the episode stays over, wherever the ship is. */
  lemma DoneAfterLimit(goalDist: real, stepCnt: int, later: int)
    requires Done(goalDist, stepCnt) && stepCnt >= MaxEpisodeSteps && later >= stepCnt
    ensures forall g: real :: Done(g, later)
  {
  }

  // ---------------------------------------------------------------------
  // The environment's mutable state

  class Dune {
    const design: StateDesign
    const nTSsMax: int
    const sight: real
    var heading: real        // OS.eta[2]
    var tsColregs: seq<int>
    var tsColregsOld: seq<int>
    var state: seq<Value>

    constructor(design: StateDesign, nTSsMax: int, sight: real, heading: real)
      ensures this.design == design && this.nTSsMax == nTSsMax && this.sight == sight
      ensures this.heading == heading && tsColregs == [] && tsColregsOld == [] && state == []
    {
      this.design := design;
      this.nTSsMax := nTSsMax;
      this.sight := sight;
      this.heading := heading;
      tsColregs := [];
      tsColregsOld := [];
      state := [];
    }

    /** `_heading_control`: an unknown action raises and leaves the heading as it was. */
    method HeadingControl(a: int) returns (r: Result<(), EnvError>)
      modifies this
      ensures r.Success? <==> NextHeading(old(heading), a).Success?
      ensures r.Success? ==> heading == NextHeading(old(heading), a).value
      ensures r.Failure? ==> heading == old(heading) && r.error == UnknownAction
      ensures tsColregs == old(tsColregs) && tsColregsOld == old(tsColregsOld) && state == old(state)
    {
      if !(0 <= a < 3) {
        return Failure(UnknownAction);
      }
      if a == 1 {
        heading := heading + DHead;
      } else if a == 2 {
        heading := heading - DHead;
      }
      heading := Angle2Pi(heading);
      r := Success(());
    }

    /** `_set_COLREGs`: keep the previous situations and classify every target anew. */
    method SetColregs(encounters: seq<Encounter>)
      modifies this
      ensures tsColregsOld == old(tsColregs)
      ensures |tsColregs| == |encounters|
      ensures forall i :: 0 <= i < |encounters| ==> tsColregs[i] == ColregSituation(encounters[i], sight)
      ensures heading == old(heading) && state == old(state)
    {
      tsColregsOld := tsColregs;
      tsColregs := [];
      for i := 0 to |encounters|
        invariant |tsColregs| == i
        invariant forall j :: 0 <= j < i ==> tsColregs[j] == ColregSituation(encounters[j], sight)
        invariant tsColregsOld == old(tsColregs) && heading == old(heading) && state == old(state)
      {
        tsColregs := tsColregs + [ColregSituation(encounters[i], sight)];
      }
    }

    /** `_set_state`: a raised error leaves the previous observation in place. */
    method SetState(own: OwnView, targets: seq<TargetView>) returns (r: Result<(), EnvError>)
      requires |tsColregs| == |targets|
      modifies this
      ensures var expected := StateOf(design, nTSsMax, own, targets, old(tsColregs), sight);
              (r.Success? <==> expected.Success?)
              && (expected.Success? ==> state == expected.value)
              && (expected.Failure? ==> state == old(state) && r.error == expected.error)
      ensures heading == old(heading) && tsColregs == old(tsColregs) && tsColregsOld == old(tsColregsOld)
    {
      var stateTSs: seq<seq<real>> := [];
      for i := 0 to |targets|
        invariant stateTSs == InSightBlocks(targets[..i], tsColregs[..i], sight)
      {
        assert targets[..i + 1][..i] == targets[..i];
        assert tsColregs[..i + 1][..i] == tsColregs[..i];
        if targets[i].ed <= sight {
          stateTSs := stateTSs + [TargetBlock(targets[i], tsColregs[i])];
        }
      }
      assert targets[..|targets|] == targets && tsColregs[..|targets|] == tsColregs;
      if |stateTSs| == 0 {
        stateTSs := [GhostBlock];
      }
      stateTSs := Sorting.StableSort(Risk, false, stateTSs);
      SortedBlocksShape(targets, tsColregs, sight);
      var part := TargetPart(design, nTSsMax, stateTSs);
      if part.Failure? {
        return Failure(part.error);
      }
      state := Nums(OwnPart(own)) + part.value;
      r := Success(());
    }
  }
}
