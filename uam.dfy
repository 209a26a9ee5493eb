/**
 * The urban air mobility environment `UAM`: the vertiport's open/closed
 * timer machine, the multi-agent history buffer of the single-policy mode,
 * the sorted and padded per-plane observation, respawn selection, pairwise
 * accident/incident counting and the termination rule.
 *
 * Positions, bearings and distances come from geodesic helpers outside this
 * model and enter as values; spawning picks random positions and is not
 * modelled beyond which planes are replaced.
 */
module Uam {

  import opened Wrappers
  import opened Observations
  import Sorting
  import NetsRecurrent

  const TClose: real := 60.0          // seconds a vertiport stays closed after an entry
  const Radius: real := 100.0         // metres
  const SpawnRadius: real := 1100.0   // metres
  const RespawnRadius: real := 1300.0 // metres
  const IncidentDist: real := 100.0   // metres
  const AccidentDist: real := 10.0    // metres
  const MaxEpisodeSteps: int := 500
  const HistoryLength: nat := 2       // single-policy history capacity

  // ---------------------------------------------------------------------
  // Destination

  /** The fields of a `Destination`. */
  datatype DestState = DestState(isOpen: bool, tNxtOpen: real, tOpenSince: real, wasOpen: bool)

  /** `open()`. */
  function Opened(s: DestState): (r: DestState)
    ensures r.isOpen && r.tNxtOpen == 0.0 && r.tOpenSince == 0.0 && r.wasOpen == s.wasOpen
  {
    s.(isOpen := true, tNxtOpen := 0.0, tOpenSince := 0.0)
  }

  /** `close()`. */
  function Closed(s: DestState): (r: DestState)
    ensures !r.isOpen && r.tNxtOpen == TClose && r.tOpenSince == 0.0 && r.wasOpen == s.wasOpen
  {
    s.(isOpen := false, tNxtOpen := TClose, tOpenSince := 0.0)
  }

  /** The timer update at the start of `step`, followed by recording the status in `was_open`. */
  function Tick(s: DestState, dt: real): (r: DestState)
    ensures r.wasOpen == r.isOpen
    ensures s.isOpen ==> r.isOpen && r.tOpenSince == s.tOpenSince + dt && r.tNxtOpen == s.tNxtOpen
    ensures !s.isOpen ==> (r.isOpen <==> s.tNxtOpen - dt <= 0.0)
    ensures !s.isOpen && !r.isOpen ==> r.tNxtOpen == s.tNxtOpen - dt && r.tOpenSince == s.tOpenSince
    ensures !s.isOpen && r.isOpen ==> r.tNxtOpen == 0.0 && r.tOpenSince == 0.0
  {
    var t :=
      if !s.isOpen then
        var c := s.(tNxtOpen := s.tNxtOpen - dt);
        if c.tNxtOpen <= 0.0 then Opened(c) else c
      else s.(tOpenSince := s.tOpenSince + dt);
    t.(wasOpen := t.isOpen)
  }

  /** Who entered the vertiport while it was closed and who while it was open. */
  function Entries(dDest: seq<real>, open: bool): (r: (seq<bool>, seq<bool>))
    ensures |r.0| == |dDest| && |r.1| == |dDest|
    ensures forall i :: 0 <= i < |dDest| ==> (r.0[i] <==> dDest[i] <= Radius && !open)
    ensures forall i :: 0 <= i < |dDest| ==> (r.1[i] <==> dDest[i] <= Radius && open)
  {
    (seq(|dDest|, i requires 0 <= i < |dDest| => dDest[i] <= Radius && !open),
     seq(|dDest|, i requires 0 <= i < |dDest| => dDest[i] <= Radius && open))
  }

  /** `Destination.step`: the new state and the two entry masks. */
  function StepSpec(s: DestState, dt: real, dDest: seq<real>): (DestState, seq<bool>, seq<bool>)
  {
    var t := Tick(s, dt);
    var (enteredClose, enteredOpen) := Entries(dDest, t.isOpen);
    (if true in enteredOpen then Closed(t) else t, enteredClose, enteredOpen)
  }

  /** The timer invariant of a destination. */
  predicate DestInv(s: DestState)
  {
    && (s.isOpen ==> s.tNxtOpen == 0.0 && s.tOpenSince >= 0.0)
    && (!s.isOpen ==> 0.0 < s.tNxtOpen <= TClose && s.tOpenSince == 0.0)
  }

  /** With a positive time step, a step keeps the timer invariant. */
  lemma StepKeepsInv(s: DestState, dt: real, dDest: seq<real>)
    requires DestInv(s) && dt > 0.0
    ensures DestInv(StepSpec(s, dt, dDest).0)
  {
  }

  /**
   * The entry masks of a step are disjoint, flag only planes within the
   * radius, follow the status after the timer update, and whoever entered
   * the open vertiport leaves it closed.
   */
  lemma StepEntries(s: DestState, dt: real, dDest: seq<real>)
    ensures var (after, enteredClose, enteredOpen) := StepSpec(s, dt, dDest);
            && |enteredClose| == |dDest| && |enteredOpen| == |dDest|
            && after.wasOpen == Tick(s, dt).isOpen
            && (forall i :: 0 <= i < |dDest| ==> !(enteredClose[i] && enteredOpen[i]))
            && (forall i :: 0 <= i < |dDest| ==> (enteredClose[i] || enteredOpen[i] <==> dDest[i] <= Radius))
            && (forall i :: 0 <= i < |dDest| ==> (enteredOpen[i] <==> dDest[i] <= Radius && after.wasOpen))
            && ((exists i :: 0 <= i < |dDest| && enteredOpen[i]) ==> !after.isOpen && after.tNxtOpen == TClose)
  {
    var (after, enteredClose, enteredOpen) := StepSpec(s, dt, dDest);
    if exists i :: 0 <= i < |dDest| && enteredOpen[i] {
      var i :| 0 <= i < |dDest| && enteredOpen[i];
      assert enteredOpen[i] in enteredOpen;
    }
  }

  /** A closed vertiport counts down and admits no one while the remaining time exceeds the step. */
  lemma ClosedCountsDown(s: DestState, dt: real, dDest: seq<real>)
    requires DestInv(s) && !s.isOpen && s.tNxtOpen > dt
    ensures var (after, _, enteredOpen) := StepSpec(s, dt, dDest);
            !after.isOpen && after.tNxtOpen == s.tNxtOpen - dt && !(true in enteredOpen)
  {
    var enteredOpen := StepSpec(s, dt, dDest).2;
    assert forall i :: 0 <= i < |enteredOpen| ==> !enteredOpen[i];
  }

  /** A closed vertiport reopens within the step in which its remaining time runs out. */
  lemma ClosedReopens(s: DestState, dt: real)
    requires !s.isOpen && s.tNxtOpen <= dt
    ensures Tick(s, dt).isOpen && Tick(s, dt).wasOpen && Tick(s, dt).tOpenSince == 0.0
  {
  }

  class Destination {
    const dt: real
    var isOpen: bool
    var tNxtOpen: real
    var tOpenSince: real
    var wasOpen: bool

    function State(): DestState
      reads this
    {
      DestState(isOpen, tNxtOpen, tOpenSince, wasOpen)
    }

    constructor(dt: real)
      ensures this.dt == dt && State() == DestState(true, 0.0, 0.0, true)
    {
      this.dt := dt;
      tNxtOpen := 0.0;
      tOpenSince := 0.0;
      wasOpen := true;
      isOpen := true;
    }

    method Open()
      modifies this
      ensures State() == Opened(old(State()))
    {
      tOpenSince := 0.0;
      tNxtOpen := 0.0;
      isOpen := true;
    }

    method Close()
      modifies this
      ensures State() == Closed(old(State()))
    {
      tOpenSince := 0.0;
      isOpen := false;
      tNxtOpen := TClose;
    }

    /** `step`, given each plane's distance to the vertiport. */
    method Step(dDest: seq<real>) returns (enteredClose: seq<bool>, enteredOpen: seq<bool>)
      modifies this
      ensures (State(), enteredClose, enteredOpen) == StepSpec(old(State()), dt, dDest)
    {
      if !isOpen {
        tNxtOpen := tNxtOpen - dt;
        if tNxtOpen <= 0.0 {
          Open();
        }
      } else {
        tOpenSince := tOpenSince + dt;
      }
      wasOpen := isOpen;
      assert State() == Tick(old(State()), dt);

      enteredClose, enteredOpen := Entered(dDest, isOpen);
      if true in enteredOpen {
        Close();
      }
    }
  }

  /** The entry loop of `Destination.step`. */
  method Entered(dDest: seq<real>, open: bool) returns (enteredClose: seq<bool>, enteredOpen: seq<bool>)
    ensures (enteredClose, enteredOpen) == Entries(dDest, open)
  {
    var n := |dDest|;
    var ec := new bool[n](_ => false);
    var eo := new bool[n](_ => false);
    for i := 0 to n
      invariant forall j :: 0 <= j < i ==> ec[j] == (dDest[j] <= Radius && !open)
      invariant forall j :: 0 <= j < i ==> eo[j] == (dDest[j] <= Radius && open)
      invariant forall j :: i <= j < n ==> !ec[j] && !eo[j]
    {
      if dDest[i] <= Radius {
        if open {
          eo[i] := true;
        } else {
          ec[i] := true;
        }
      }
    }
    enteredClose, enteredOpen := ec[..], eo[..];
    assert enteredClose == Entries(dDest, open).0;
    assert enteredOpen == Entries(dDest, open).1;
  }

  // ---------------------------------------------------------------------
  // Observation of one plane

  type MultiState = seq<seq<Value>>

  /** The two timer features: `1 - t_nxt_open / t_close` and `1 - t_open_since / t_close`. */
  function TimerFeatures(s: DestState): (r: seq<real>)
    ensures |r| == 2
  {
    [1.0 - s.tNxtOpen / TClose, 1.0 - s.tOpenSince / TClose]
  }

  /** Under the timer invariant the "next opening" feature lies in [0, 1) while closed and is 1 exactly when open. */
  lemma TimerFeaturesRange(s: DestState)
    requires DestInv(s)
    ensures 0.0 <= TimerFeatures(s)[0] <= 1.0
    ensures TimerFeatures(s)[0] == 1.0 <==> s.isOpen
    ensures TimerFeatures(s)[1] <= 1.0
    ensures !s.isOpen ==> TimerFeatures(s)[1] == 1.0
  {
  }

  function SeqMax(s: seq<int>): (m: int)
    requires |s| > 0
    ensures (forall i :: 0 <= i < |s| ==> s[i] <= m) && m in s
  {
    if |s| == 1 then s[0] else
      var m := SeqMax(s[..|s| - 1]);
      assert forall i :: 0 <= i < |s| - 1 ==> s[..|s| - 1][i] == s[i];
      if s[|s| - 1] > m then s[|s| - 1] else m
  }

  /** The priority feature: 1.0 for a plane with the longest living time, -1.0 otherwise. */
  function PrioFlag(tsAlive: seq<int>, i: int): (r: real)
    requires 0 <= i < |tsAlive|
    ensures r == 1.0 <==> forall j :: 0 <= j < |tsAlive| ==> tsAlive[j] <= tsAlive[i]
    ensures r == 1.0 || r == -1.0
  {
    if tsAlive[i] == SeqMax(tsAlive) then 1.0 else -1.0
  }

  /** Some plane always has priority. */
  lemma SomePlaneHasPriority(tsAlive: seq<int>)
    requires |tsAlive| > 0
    ensures exists i :: 0 <= i < |tsAlive| && PrioFlag(tsAlive, i) == 1.0
  {
    var m := SeqMax(tsAlive);
    var i :| 0 <= i < |tsAlive| && tsAlive[i] == m;
    assert PrioFlag(tsAlive, i) == 1.0;
  }

  /** `OS_obs` and `obs_per_TS`: one feature more when living-time priority is on. */
  function ObsPerPlane(prio: bool): nat { if prio then 5 else 4 }

  /** `obs_size` of the constructor. */
  function ObsSize(prio: bool, nAgentsMax: int): int { ObsPerPlane(prio) + ObsPerPlane(prio) * (nAgentsMax - 1) }

  /**
   * The own features of plane `i`: goal bearing (already wrapped and divided
   * by pi), goal distance relative to the spawn radius, the two timer
   * features and, with priority, its priority flag.
   */
  function OwnFeatures(bngGoalNorm: real, dGoal: real, dest: DestState, prio: bool, tsAlive: seq<int>, i: int): (r: seq<real>)
    requires prio ==> 0 <= i < |tsAlive|
    ensures |r| == ObsPerPlane(prio)
    ensures r[0] == bngGoalNorm && r[1] == dGoal / SpawnRadius && r[2..4] == TimerFeatures(dest)
    ensures prio ==> r[4] == PrioFlag(tsAlive, i)
  {
    var base := [bngGoalNorm, dGoal / SpawnRadius] + TimerFeatures(dest);
    if prio then base + [PrioFlag(tsAlive, i)] else base
  }

  /**
   * The block of another plane `j`: distance relative to the spawn radius,
   * bearing and heading intersection (already wrapped and divided by pi),
   * relative speed and, with priority, the other plane's priority flag.
   */
  function OtherBlock(d: real, bngNorm: real, vR: real, cTNorm: real, prio: bool, tsAlive: seq<int>, j: int): (r: seq<real>)
    requires prio ==> 0 <= j < |tsAlive|
    ensures |r| == ObsPerPlane(prio)
    ensures Distance0(r) == d / SpawnRadius
    ensures prio ==> r[4] == PrioFlag(tsAlive, j)
  {
    var base := [d / SpawnRadius, bngNorm, vR, cTNorm];
    if prio then base + [PrioFlag(tsAlive, j)] else base
  }

  datatype UamError = TooManyPlanes   // `np.pad` with a negative width

  /** The sort key `x[0]`, the distance to the other plane. */
  function Distance0(b: seq<real>): real
  {
    if |b| == 0 then 0.0 else b[0]
  }

  /**
   * The other-plane part of `_get_state(i)`, given the other planes' blocks
   * in plane order: sorted by distance, farthest first, concatenated and,
   * in single-policy mode, NaN-padded to `N_agents_max - 1` blocks.
   */
  function OtherPart(others: seq<seq<real>>, multiPolicy: bool, obsPerTS: nat, nAgentsMax: int): Result<seq<Value>, UamError>
  {
    if others == [] then Success([])
    else
      var flat := Nums(Flatten(Sorting.StableSort(Distance0, true, others)));
      if multiPolicy then Success(flat)
      else
        match PadRight(flat, obsPerTS * (nAgentsMax - 1))
        case None => Failure(TooManyPlanes)
        case Some(p) => Success(p)
  }

  /** `_get_state(i)`: own features followed by the other-plane part. */
  function PlaneState(own: seq<real>, others: seq<seq<real>>, multiPolicy: bool, obsPerTS: nat, nAgentsMax: int)
    : Result<seq<Value>, UamError>
  {
    match OtherPart(others, multiPolicy, obsPerTS, nAgentsMax)
    case Failure(e) => Failure(e)
    case Success(p) => Success(Nums(own) + p)
  }

  lemma SortedOthersShape(others: seq<seq<real>>, w: nat)
    requires AllWidth(others, w)
    ensures |Sorting.StableSort(Distance0, true, others)| == |others|
    ensures AllWidth(Sorting.StableSort(Distance0, true, others), w)
  {
    Sorting.StableSortSorted(Distance0, true, others);
    Sorting.StableSortLength(Distance0, true, others);
    var s := Sorting.StableSort(Distance0, true, others);
    forall i | 0 <= i < |s| ensures |s[i]| == w {
      assert s[i] in multiset(others);
    }
  }

  /** The other planes' blocks are ordered farthest first, form a permutation, and keep plane order among equal distances. */
  lemma SortedOthersOrder(others: seq<seq<real>>, k: real)
    ensures Sorting.SortedBy(Distance0, true, Sorting.StableSort(Distance0, true, others))
    ensures multiset(Sorting.StableSort(Distance0, true, others)) == multiset(others)
    ensures Sorting.WithKey(Distance0, k, Sorting.StableSort(Distance0, true, others)) == Sorting.WithKey(Distance0, k, others)
  {
    Sorting.StableSortSorted(Distance0, true, others);
    Sorting.StableSortStable(Distance0, true, others, k);
  }

  /**
   * In single-policy mode the observation exists exactly when the other
   * planes fit `N_agents_max - 1` blocks, and then has the declared size
   * `OS_obs + obs_per_TS * (N_agents_max - 1)`.
   */
  lemma PlaneStateSize(own: seq<real>, others: seq<seq<real>>, obsPerTS: nat, nAgentsMax: int)
    requires obsPerTS > 0 && nAgentsMax > 1 && AllWidth(others, obsPerTS) && others != []
    ensures PlaneState(own, others, false, obsPerTS, nAgentsMax).Success? <==> |others| <= nAgentsMax - 1
    ensures PlaneState(own, others, false, obsPerTS, nAgentsMax).Success?
            ==> |PlaneState(own, others, false, obsPerTS, nAgentsMax).value| == |own| + obsPerTS * (nAgentsMax - 1)
  {
    SortedOthersShape(others, obsPerTS);
    var sorted := Sorting.StableSort(Distance0, true, others);
    FlattenLength(sorted, obsPerTS);
    MulCancel(|others|, nAgentsMax - 1, obsPerTS);
  }

  /** With a positive width, `c` blocks fit into `m` blocks exactly when `c <= m`. */
  lemma MulCancel(c: nat, m: nat, w: nat)
    requires w > 0
    ensures c * w <= w * m <==> c <= m
  {
    if c <= m {
      MulSub(m, c, w);
    } else {
      MulSub(c, m + 1, w);
      assert (m + 1) * w == m * w + w;
    }
  }

  /**
   * With `N_planes <= N_agents_max` the single-policy observation of a plane,
   * cut into own part and slots, has the other planes in its first slots and
   * NaN padding after them, so the recurrent actor counts every other plane.
   */
  lemma PlaneStateSlots(own: seq<real>, others: seq<seq<real>>, obsPerTS: nat, nAgentsMax: int)
    requires obsPerTS > 0 && nAgentsMax > 1 && AllWidth(others, obsPerTS) && others != []
    requires |others| <= nAgentsMax - 1
    ensures PlaneState(own, others, false, obsPerTS, nAgentsMax).Success?
    ensures var s := PlaneState(own, others, false, obsPerTS, nAgentsMax).value;
            var d := NetsRecurrent.Dims(|own|, obsPerTS, nAgentsMax - 1);
            && NetsRecurrent.Shaped(s, d)
            && NetsRecurrent.RightPadded(NetsRecurrent.Slots(s, d), |others|)
            && NetsRecurrent.PresentCount(NetsRecurrent.Slots(s, d)) == |others|
  {
    PlaneStateSize(own, others, obsPerTS, nAgentsMax);
    SortedOthersShape(others, obsPerTS);
    var sorted := Sorting.StableSort(Distance0, true, others);
    var d := NetsRecurrent.Dims(|own|, obsPerTS, nAgentsMax - 1);
    assert obsPerTS * (nAgentsMax - 1) == (nAgentsMax - 1) * obsPerTS;
    var padded := PadRight(Nums(Flatten(sorted)), obsPerTS * (nAgentsMax - 1)).value;
    NetsRecurrent.PaddedSlots(own, sorted, d, padded);
  }

  // ---------------------------------------------------------------------
  // History buffer, respawning and mistake counting

  /** A multi-agent state of zeros. */
  function ZeroMulti(nPlanes: nat, obsSize: nat): MultiState
  {
    seq(nPlanes, _ => ZeroValues(obsSize))
  }

  /** The buffer after storing `x`: appended while there is room, else shifted left with `x` last. */
  function Shifted(content: seq<MultiState>, histLen: nat, x: MultiState): (r: seq<MultiState>)
    requires histLen <= |content|
    ensures |r| == |content|
  {
    if histLen == |content| then (if content == [] then [] else content[1..] + [x]) else content[histLen := x]
  }

  /** The valid entries of a history buffer are the last `histLen` stored states, in order. */
  predicate HoldsRecent(content: seq<MultiState>, histLen: nat, stored: seq<MultiState>)
  {
    && histLen <= |content| && histLen <= |stored|
    && (histLen < |content| ==> histLen == |stored|)
    && content[..histLen] == stored[|stored| - histLen..]
  }

  /** Storing keeps the buffer holding the most recent states, with `hist_len` saturating at the capacity. */
  lemma ShiftedHoldsRecent(content: seq<MultiState>, histLen: nat, stored: seq<MultiState>, x: MultiState)
    requires |content| >= 1 && HoldsRecent(content, histLen, stored)
    ensures var newLen := if histLen == |content| then histLen else histLen + 1;
            HoldsRecent(Shifted(content, histLen, x), newLen, stored + [x])
    ensures forall k :: histLen + 1 <= k < |content| ==> Shifted(content, histLen, x)[k] == content[k]
  {
    var r := Shifted(content, histLen, x);
    var s := stored + [x];
    if histLen == |content| {
      assert r[..histLen] == content[1..] + [x];
      assert content[1..] == stored[|stored| - histLen + 1..];
      assert s[|s| - histLen..] == stored[|stored| - histLen + 1..] + [x];
    } else {
      assert r[..histLen + 1] == content[..histLen] + [x];
      assert s[|s| - (histLen + 1)..] == stored + [x];
    }
  }

  /** A history buffer holding the recent stored states, with every slot from `histLen` on still zero. */
  predicate ValidHistory(content: seq<MultiState>, histLen: nat, stored: seq<MultiState>, zero: MultiState)
  {
    && HoldsRecent(content, histLen, stored)
    && forall k :: histLen <= k < |content| ==> content[k] == zero
  }

  /** Storing into a valid buffer leaves a valid buffer. */
  lemma ShiftedValid(content: seq<MultiState>, histLen: nat, stored: seq<MultiState>, x: MultiState, zero: MultiState)
    requires |content| >= 1 && ValidHistory(content, histLen, stored, zero)
    ensures var newLen := if histLen == |content| then histLen else histLen + 1;
            ValidHistory(Shifted(content, histLen, x), newLen, stored + [x], zero)
  {
    ShiftedHoldsRecent(content, histLen, stored, x);
  }

  /** `_count_mistakes` severity of one pair distance. */
  datatype Severity = Accident | Incident | Clear

  function SeverityOf(d: real): Severity
  {
    if d <= AccidentDist then Accident else if d <= IncidentDist then Incident else Clear
  }

  /** The pairs `(i, j)` with `i < j < m` of the given severity. */
  function RowCount(dist: (int, int) -> real, i: int, m: int, sev: Severity): nat
    decreases m
  {
    if m <= 0 then 0
    else RowCount(dist, i, m - 1, sev) + (if i < m - 1 && SeverityOf(dist(i, m - 1)) == sev then 1 else 0)
  }

  /** The pairs `(i, j)` with `i < k` and `i < j < n` of the given severity. */
  function PairCount(dist: (int, int) -> real, k: int, n: int, sev: Severity): nat
    decreases k
  {
    if k <= 0 then 0 else PairCount(dist, k - 1, n, sev) + RowCount(dist, k - 1, n, sev)
  }

  lemma {:induction false} RowTotal(dist: (int, int) -> real, i: nat, m: nat)
    ensures RowCount(dist, i, m, Accident) + RowCount(dist, i, m, Incident) + RowCount(dist, i, m, Clear)
            == if m > i + 1 then m - i - 1 else 0
  {
    if m > 0 {
      RowTotal(dist, i, m - 1);
    }
  }

  lemma {:induction false} PairTotal(dist: (int, int) -> real, k: nat, n: nat)
    requires k <= n
    ensures 2 * (PairCount(dist, k, n, Accident) + PairCount(dist, k, n, Incident) + PairCount(dist, k, n, Clear))
            == k * (2 * n - k - 1)
  {
    if k > 0 {
      PairTotal(dist, k - 1, n);
      RowTotal(dist, k - 1, n);
      RowSumStep(k, n);
    }
  }

  lemma RowSumStep(k: int, n: int)
    ensures (k - 1) * (2 * n - (k - 1) - 1) + 2 * (n - k) == k * (2 * n - k - 1)
  {
  }

  /** Every unordered pair is classified exactly once: accidents and incidents together count at most n(n-1)/2 pairs. */
  lemma MistakesBounded(dist: (int, int) -> real, n: nat)
    ensures 2 * (PairCount(dist, n, n, Accident) + PairCount(dist, n, n, Incident) + PairCount(dist, n, n, Clear)) == n * (n - 1)
    ensures 2 * (PairCount(dist, n, n, Accident) + PairCount(dist, n, n, Incident)) <= n * (n - 1)
  {
    PairTotal(dist, n, n);
  }

  /** No pair of planes closer than the incident distance means no accident and no incident. */
  lemma {:induction false} NoMistakesWhenSeparated(dist: (int, int) -> real, k: nat, n: nat)
    requires forall i, j :: 0 <= i < j < n ==> dist(i, j) > IncidentDist
    ensures PairCount(dist, k, n, Accident) == 0 && PairCount(dist, k, n, Incident) == 0
  {
    if k > 0 {
      NoMistakesWhenSeparated(dist, k - 1, n);
      RowSeparated(dist, k - 1, n);
    }
  }

  lemma {:induction false} RowSeparated(dist: (int, int) -> real, i: nat, m: nat)
    requires forall a, b :: 0 <= a < b < m ==> dist(a, b) > IncidentDist
    ensures RowCount(dist, i, m, Accident) == 0 && RowCount(dist, i, m, Incident) == 0
  {
    if m > 0 {
      RowSeparated(dist, i, m - 1);
    }
  }

  function CountTrue(s: seq<bool>): (c: nat)
    ensures c <= |s|
    ensures c == 0 <==> !(true in s)
  {
    if s == [] then 0 else (if s[|s| - 1] then 1 else 0) + CountTrue(s[..|s| - 1])
  }

  /** A plane is respawned when it drifted beyond the respawn radius or entered the open vertiport. */
  function RespawnMask(dDest: seq<real>, enteredOpen: seq<bool>): (r: seq<bool>)
    requires |enteredOpen| == |dDest|
    ensures |r| == |dDest|
    ensures forall i :: 0 <= i < |dDest| ==> (r[i] <==> dDest[i] >= RespawnRadius || enteredOpen[i])
  {
    seq(|dDest|, i requires 0 <= i < |dDest| => dDest[i] >= RespawnRadius || enteredOpen[i])
  }

  /** The two respawn causes never coincide when the entry mask comes from the vertiport. */
  lemma RespawnCausesDisjoint(s: DestState, dt: real, dDest: seq<real>, i: int)
    requires 0 <= i < |dDest|
    ensures var enteredOpen := StepSpec(s, dt, dDest).2;
            !(enteredOpen[i] && dDest[i] >= RespawnRadius)
  {
    StepEntries(s, dt, dDest);
  }

  /** `_done`. */
  function Done(stepCnt: int): (d: bool)
    ensures d <==> stepCnt >= MaxEpisodeSteps
  {
    stepCnt >= MaxEpisodeSteps
  }
  /** Once the step limit is reached the episode is over at every later step. */
  lemma DoneAfterLimit(stepCnt: int, later: int)
    requires Done(stepCnt) && stepCnt <= later
    ensures Done(later)
  {
  }


  class UamEnv {
    const historyLength: nat := HistoryLength
    const obsSize: nat
    var nPlanes: nat
    var stepCnt: int
    var sMultiHist: array<MultiState>
    var histLen: nat
    var sMultiOld: MultiState
    ghost var stored: seq<MultiState>
    var tsAlive: array<int>
    var nAccs: int
    var nIncs: int
    var nEntrancesClosed: int

    /** The history keeps the last `hist_len` stored states; unused slots are still zero. */
    ghost predicate HistoryValid()
      reads this, sMultiHist
    {
      && sMultiHist.Length == historyLength
      && ValidHistory(sMultiHist[..], histLen, stored, ZeroMulti(nPlanes, obsSize))
    }

    constructor(obsSize: nat, nPlanes: nat)
      ensures this.obsSize == obsSize && this.nPlanes == nPlanes
      ensures stepCnt == 0 && fresh(sMultiHist) && fresh(tsAlive) && tsAlive.Length == nPlanes
    {
      this.obsSize := obsSize;
      this.nPlanes := nPlanes;
      stepCnt := 0;
      sMultiHist := new MultiState[historyLength](_ => []);
      histLen := 0;
      sMultiOld := [];
      stored := [];
      tsAlive := new int[nPlanes](_ => 0);
      nAccs, nIncs, nEntrancesClosed := 0, 0, 0;
    }

    /**
     * The history part of `_set_state` in single-policy mode: cleared at
     * step 0, afterwards the previous multi-agent state is stored; finally
     * the current multi-agent state becomes the previous one.
     */
    method UpdateHistory(multiNow: MultiState)
      requires stepCnt != 0 ==> HistoryValid()
      modifies this, sMultiHist
      ensures HistoryValid() && sMultiOld == multiNow
      ensures old(stepCnt) == 0 ==> fresh(sMultiHist) && histLen == 0 && stored == []
      ensures old(stepCnt) != 0 ==> && stored == old(stored) + [old(sMultiOld)]
                                    && histLen == (if old(histLen) == historyLength then historyLength else old(histLen) + 1)
                                    && sMultiHist[..] == Shifted(old(sMultiHist[..]), old(histLen), old(sMultiOld))
      ensures stepCnt == old(stepCnt) && nPlanes == old(nPlanes) && tsAlive == old(tsAlive)
      ensures nAccs == old(nAccs) && nIncs == old(nIncs) && nEntrancesClosed == old(nEntrancesClosed)
    {
      if stepCnt == 0 {
        var zero := ZeroMulti(nPlanes, obsSize);
        sMultiHist := new MultiState[historyLength](_ => zero);
        histLen := 0;
        stored := [];
      } else {
        StoreOld();
      }
      sMultiOld := multiNow;
    }

    /** Store the previous multi-agent state: into the next free slot, or after shifting out the oldest. */
    method StoreOld()
      requires HistoryValid()
      modifies this, sMultiHist
      ensures HistoryValid()
      ensures stored == old(stored) + [old(sMultiOld)]
      ensures histLen == (if old(histLen) == historyLength then historyLength else old(histLen) + 1)
      ensures sMultiHist[..] == Shifted(old(sMultiHist[..]), old(histLen), old(sMultiOld))
      ensures sMultiOld == old(sMultiOld) && stepCnt == old(stepCnt) && nPlanes == old(nPlanes) && tsAlive == old(tsAlive)
      ensures nAccs == old(nAccs) && nIncs == old(nIncs) && nEntrancesClosed == old(nEntrancesClosed)
    {
      var before := sMultiHist[..];
      ghost var len0 := histLen;
      ShiftedValid(before, histLen, stored, sMultiOld, ZeroMulti(nPlanes, obsSize));
      if histLen == historyLength {
        // np.roll(shift=-1) followed by writing the last slot
        var rolled := new MultiState[historyLength](k requires 0 <= k < historyLength => if k + 1 < historyLength then before[k + 1] else before[0]);
        rolled[historyLength - 1] := sMultiOld;
        assert forall k :: 0 <= k < historyLength - 1 ==> rolled[k] == before[1..][k];
        assert rolled[..] == before[1..] + [sMultiOld];
        sMultiHist := rolled;
      } else {
        sMultiHist[histLen] := sMultiOld;
        assert sMultiHist[..] == before[histLen := sMultiOld];
        histLen := histLen + 1;
      }
      stored := stored + [sMultiOld];
      assert sMultiHist[..] == Shifted(before, len0, sMultiOld);
    }

    /**
     * `_handle_respawn`: report which planes are replaced by a fresh spawn;
     * only vertiport entries reset the living time.
     */
    method HandleRespawn(dDest: seq<real>, respawnFlags: seq<bool>, prio: bool) returns (respawned: seq<bool>)
      requires |respawnFlags| == |dDest| && (prio ==> tsAlive.Length == |dDest|)
      modifies tsAlive
      ensures respawned == RespawnMask(dDest, respawnFlags)
      ensures prio ==> forall i :: 0 <= i < |dDest| ==> tsAlive[i] == (if respawnFlags[i] then 0 else old(tsAlive[i]))
      ensures !prio ==> tsAlive[..] == old(tsAlive[..])
    {
      respawned := [];
      for i := 0 to |dDest|
        invariant respawned == RespawnMask(dDest[..i], respawnFlags[..i])
        invariant prio ==> forall j :: 0 <= j < |dDest| ==>
                    tsAlive[j] == (if j < i && respawnFlags[j] then 0 else old(tsAlive[j]))
        invariant !prio ==> tsAlive[..] == old(tsAlive[..])
      {
        var flag := dDest[i] >= RespawnRadius || respawnFlags[i];
        if flag && prio && respawnFlags[i] {
          tsAlive[i] := 0;
        }
        respawned := respawned + [flag];
      }
      assert dDest[..|dDest|] == dDest && respawnFlags[..|dDest|] == respawnFlags;
    }

    /** `_count_mistakes`, given the pairwise plane distances. */
    method CountMistakes(enteredClose: seq<bool>, dist: (int, int) -> real)
      modifies this
      ensures nEntrancesClosed == old(nEntrancesClosed) + CountTrue(enteredClose)
      ensures nAccs == old(nAccs) + PairCount(dist, nPlanes, nPlanes, Accident)
      ensures nIncs == old(nIncs) + PairCount(dist, nPlanes, nPlanes, Incident)
      ensures nPlanes == old(nPlanes) && stepCnt == old(stepCnt) && histLen == old(histLen)
      ensures sMultiHist == old(sMultiHist) && sMultiOld == old(sMultiOld) && tsAlive == old(tsAlive)
    {
      nEntrancesClosed := nEntrancesClosed + CountTrue(enteredClose);
      var accs, incs := Mistakes(nPlanes, dist);
      nAccs := nAccs + accs;
      nIncs := nIncs + incs;
    }
  }

  /** The double loop of `_count_mistakes` over the pairs `i < j` of `n` planes. */
  method Mistakes(n: nat, dist: (int, int) -> real) returns (accs: nat, incs: nat)
    ensures accs == PairCount(dist, n, n, Accident) && incs == PairCount(dist, n, n, Incident)
  {
    accs, incs := 0, 0;
    for i := 0 to n
      invariant accs == PairCount(dist, i, n, Accident) && incs == PairCount(dist, i, n, Incident)
    {
      for j := 0 to n
        invariant accs == PairCount(dist, i, n, Accident) + RowCount(dist, i, j, Accident)
        invariant incs == PairCount(dist, i, n, Incident) + RowCount(dist, i, j, Incident)
      {
        if i < j {
          var d := dist(i, j);
          if d <= AccidentDist {
            accs := accs + 1;
          } else if d <= IncidentDist {
            incs := incs + 1;
          }
        }
      }
    }
  }
}
