/**
 * Index, mask and roll discipline of the recurrent networks: the
 * history-selection index and zero mask of the LSTM actor/critic heads, the
 * target-slot count and selection of the inner (over vessels) recurrence,
 * and the zero-fill, roll and selection of the outer (over time) recurrence.
 *
 * Layers are opaque. A recurrent layer is a causal cell: its output at
 * position k is `cell(xs[..k+1])`, a function of the inputs up to k, as for
 * an LSTM run over a sequence from a zero initial state.
 */
module NetsRecurrent {

  import opened Wrappers
  import opened Observations
  import Arith

  type Obs = seq<Value>

  /** The outputs of a recurrent layer over a sequence: one per position. */
  function Outputs(cell: seq<Vec> -> Vec, xs: seq<Vec>): (r: seq<Vec>)
    ensures |r| == |xs|
    ensures forall k :: 0 <= k < |xs| ==> r[k] == cell(xs[..k + 1])
  {
    seq(|xs|, k requires 0 <= k < |xs| => cell(xs[..k + 1]))
  }

  // ---------------------------------------------------------------------
  // History selection of LSTM_Actor, LSTM_Critic and LSTM_GaussianActor

  /** `h_idx[h_idx == 0] = 1; h_idx -= 1` for one batch element. */
  function SelectionIndex(histLen: int): (i: int)
    ensures histLen >= 1 ==> i == histLen - 1
    ensures histLen == 0 ==> i == 0
    ensures 0 <= histLen ==> 0 <= i && (i < histLen || histLen == 0)
  {
    (if histLen == 0 then 1 else histLen) - 1
  }

  /** `h_idx`: a copy of `hist_len` with 0 raised to 1, then decremented. */
  method SelectionIndices(histLen: seq<int>) returns (hIdx: array<int>)
    ensures fresh(hIdx) && hIdx.Length == |histLen|
    ensures forall c :: 0 <= c < |histLen| ==> hIdx[c] == SelectionIndex(histLen[c])
  {
    var n := |histLen|;
    // h_idx = copy.deepcopy(hist_len)
    hIdx := new int[n](b requires 0 <= b < n => histLen[b]);
    // h_idx[h_idx == 0] = 1
    for b := 0 to n
      invariant forall c :: 0 <= c < b ==> hIdx[c] == (if histLen[c] == 0 then 1 else histLen[c])
      invariant forall c :: b <= c < n ==> hIdx[c] == histLen[c]
    {
      if hIdx[b] == 0 {
        hIdx[b] := 1;
      }
    }
    // h_idx -= 1
    for b := 0 to n
      invariant forall c :: 0 <= c < b ==> hIdx[c] == SelectionIndex(histLen[c])
      invariant forall c :: b <= c < n ==> hIdx[c] == (if histLen[c] == 0 then 1 else histLen[c])
    {
      hIdx[b] := hIdx[b] - 1;
    }
  }

  /**
   * Select from the LSTM outputs over the history the one at the last valid
   * position of each batch element, and mask elements without history to a
   * zero vector.
   */
  method SelectHiddenMemory(extracted: seq<seq<Vec>>, histLen: seq<int>) returns (mem: seq<Vec>)
    requires |extracted| == |histLen|
    requires forall b :: 0 <= b < |histLen| ==> 1 <= |extracted[b]| && 0 <= histLen[b] <= |extracted[b]|
    ensures |mem| == |histLen|
    ensures forall b :: 0 <= b < |histLen| && histLen[b] == 0 ==> mem[b] == Zeros(|extracted[b][0]|)
    ensures forall b :: 0 <= b < |histLen| && histLen[b] > 0 ==> mem[b] == extracted[b][histLen[b] - 1]
  {
    var n := |histLen|;
    var hIdx := SelectionIndices(histLen);
    // hidden_mem = extracted_mem[arange, h_idx]
    var hidden := new Vec[n];
    for b := 0 to n
      invariant forall c :: 0 <= c < n ==> hIdx[c] == SelectionIndex(histLen[c])
      invariant forall c :: 0 <= c < b ==> hidden[c] == extracted[c][SelectionIndex(histLen[c])]
    {
      hidden[b] := extracted[b][hIdx[b]];
    }
    // hidden_mem[hist_len == 0] = 0.0
    for b := 0 to n
      invariant forall c :: 0 <= c < b && histLen[c] == 0 ==> hidden[c] == Zeros(|extracted[c][0]|)
      invariant forall c :: 0 <= c < n && (c >= b || histLen[c] > 0) ==> hidden[c] == extracted[c][SelectionIndex(histLen[c])]
    {
      if histLen[b] == 0 {
        hidden[b] := Zeros(|hidden[b]|);
      }
    }
    mem := hidden[..];
  }

  // ---------------------------------------------------------------------
  // Inner recurrence over target-ship slots (RecDQN._inner_rec and the
  // `_inner_rec` of LSTMRecDQN, LSTMRecActor, LSTMRecCritic)

  /** Feature counts of a state: own-ship part, features per target slot, number of slots. */
  datatype Dims = Dims(numObsOS: nat, numObsTS: nat, nSlots: nat)

  predicate Shaped(s: Obs, d: Dims)
  {
    d.numObsTS > 0 && |s| == d.numObsOS + d.nSlots * d.numObsTS
  }

  /** One time step's opaque inner layers: own-ship dense, target-ship LSTM cell, target-ship dense. */
  datatype InnerNet = InnerNet(denseOS: Obs -> Vec, cell: seq<Vec> -> Vec, denseTS: Vec -> Vec)

  datatype NetError =
    | NoTarget                // "There is no TS, something went wrong here!"
    | UnknownTimeStep         // `assert time in [0, 1, 2]`
    | PastActionsUnsupported  // NotImplementedError of the constructors
    | IndexOutOfRange         // IndexError of `s_hist[:, 0, :]` or `x_tilde[:, 2, :]` below capacity 2

  /** `s_TS.view(-1, num_obs_TS)`: the target-ship part cut into slots. */
  function Slots(s: Obs, d: Dims): (r: seq<Obs>)
    requires Shaped(s, d)
    ensures |r| == d.nSlots && AllWidth(r, d.numObsTS)
  {
    Chunks(s[d.numObsOS..], d.nSlots, d.numObsTS)
  }

  /** Number of slots whose first feature is present. */
  function PresentCount(slots: seq<Obs>): (c: nat)
    requires forall k :: 0 <= k < |slots| ==> |slots[k]| > 0
    ensures c <= |slots|
  {
    if slots == [] then 0
    else (if slots[|slots| - 1][0] != NaN then 1 else 0) + PresentCount(slots[..|slots| - 1])
  }

  /** `x[isnan(x)] = 0.0` applied to a sequence. */
  function ZeroFilled(s: Obs): (r: Obs)
    ensures |r| == |s|
    ensures forall i :: 0 <= i < |s| ==> r[i] == (if s[i] == NaN then Num(0.0) else s[i])
  {
    seq(|s|, i requires 0 <= i < |s| => if s[i] == NaN then Num(0.0) else s[i])
  }

  /** The features of a NaN-free vector as reals. */
  function AsReals(s: Obs): (r: Vec)
    ensures |r| == |s|
  {
    seq(|s|, i requires 0 <= i < |s| => if s[i].Num? then s[i].x else 0.0)
  }

  /** The in-place NaN replacement of line 682 on a tensor's storage. */
  method ZeroNaNs(a: array<Value>)
    modifies a
    ensures a[..] == ZeroFilled(old(a[..]))
  {
    for i := 0 to a.Length
      invariant forall j :: 0 <= j < i ==> a[j] == ZeroFilled(old(a[..]))[j]
      invariant forall j :: i <= j < a.Length ==> a[j] == old(a[j])
    {
      if a[i] == NaN {
        a[i] := Num(0.0);
      }
    }
  }

  /** The target-ship LSTM input: the slots after NaN replacement. */
  function LstmInput(s: Obs, d: Dims): (r: seq<Vec>)
    requires Shaped(s, d)
    ensures |r| == d.nSlots
  {
    var flat := ZeroFilled(s[d.numObsOS..]);
    var rows := Chunks(flat, d.nSlots, d.numObsTS);
    seq(d.nSlots, k requires 0 <= k < d.nSlots => AsReals(rows[k]))
  }

  /** Inner output of one batch element with at least one target present. */
  function InnerOutput(net: InnerNet, s: Obs, d: Dims): Vec
    requires Shaped(s, d) && PresentCount(Slots(s, d)) > 0
  {
    var hIdx := PresentCount(Slots(s, d)) - 1;
    net.denseOS(s[..d.numObsOS]) + net.denseTS(Outputs(net.cell, LstmInput(s, d))[hIdx])
  }

  /** The inner recurrence over a batch: every element needs at least one present target. */
  function InnerRecSpec(net: InnerNet, batch: seq<Obs>, d: Dims): (r: Result<seq<Vec>, NetError>)
    requires forall b :: 0 <= b < |batch| ==> Shaped(batch[b], d)
    ensures r.Failure? <==> exists b :: 0 <= b < |batch| && PresentCount(Slots(batch[b], d)) == 0
    ensures r.Failure? ==> r.error == NoTarget
    ensures r.Success? ==> |r.value| == |batch|
  {
    if exists b :: 0 <= b < |batch| && PresentCount(Slots(batch[b], d)) == 0 then Failure(NoTarget)
    else Success(InnerOutputs(net, batch, d))
  }

  /** The inner outputs of a batch whose every element has a present target. */
  function InnerOutputs(net: InnerNet, batch: seq<Obs>, d: Dims): (r: seq<Vec>)
    requires forall b :: 0 <= b < |batch| ==> Shaped(batch[b], d) && PresentCount(Slots(batch[b], d)) > 0
    ensures |r| == |batch|
  {
    seq(|batch|, b requires 0 <= b < |batch| => InnerOutput(net, batch[b], d))
  }

  /** One batch element of `_inner_rec`, given its count of present targets. */
  method InnerElement(net: InnerNet, sb: Obs, d: Dims, count: nat) returns (o: Vec)
    requires Shaped(sb, d) && count == PresentCount(Slots(sb, d)) && count > 0
    ensures o == InnerOutput(net, sb, d)
  {
    var hIdx := count - 1;
    var ts := new Value[|sb| - d.numObsOS](i requires 0 <= i < |sb| - d.numObsOS => sb[d.numObsOS + i]);
    assert ts[..] == sb[d.numObsOS..];
    ZeroNaNs(ts);
    var rows := Chunks(ts[..], d.nSlots, d.numObsTS);
    var xs := seq(d.nSlots, k requires 0 <= k < d.nSlots => AsReals(rows[k]));
    assert xs == LstmInput(sb, d);
    o := net.denseOS(sb[..d.numObsOS]) + net.denseTS(Outputs(net.cell, xs)[hIdx]);
  }

  /**
   * `_inner_rec` on a batch: count the present targets of every element,
   * raise when some element has none, select at count - 1 after replacing the
   * NaN padding by zeros.
   */
  method InnerRec(net: InnerNet, batch: seq<Obs>, d: Dims) returns (r: Result<seq<Vec>, NetError>)
    requires forall b :: 0 <= b < |batch| ==> Shaped(batch[b], d)
    ensures r == InnerRecSpec(net, batch, d)
  {
    var n := |batch|;
    var counts := new nat[n];
    for b := 0 to n
      invariant forall c :: 0 <= c < b ==> counts[c] == PresentCount(Slots(batch[c], d))
    {
      counts[b] := PresentCount(Slots(batch[b], d));
    }
    for b := 0 to n
      invariant forall c :: 0 <= c < n ==> counts[c] == PresentCount(Slots(batch[c], d))
      invariant forall c :: 0 <= c < b ==> counts[c] != 0
    {
      if counts[b] == 0 {
        return Failure(NoTarget);
      }
    }
    var out := new Vec[n];
    assert !exists b :: 0 <= b < n && PresentCount(Slots(batch[b], d)) == 0;
    for b := 0 to n
      invariant forall c :: 0 <= c < n ==> counts[c] == PresentCount(Slots(batch[c], d)) && counts[c] != 0
      invariant forall c :: 0 <= c < b ==> out[c] == InnerOutput(net, batch[c], d)
    {
      out[b] := InnerElement(net, batch[b], d, counts[b]);
    }
    assert out[..] == InnerOutputs(net, batch, d);
    r := Success(out[..]);
  }

  /** The slots `0 .. c-1` are present and the rest are padding. */
  predicate RightPadded(slots: seq<Obs>, c: nat)
  {
    && c <= |slots|
    && (forall k :: 0 <= k < |slots| ==> |slots[k]| > 0)
    && (forall k :: 0 <= k < c ==> slots[k][0] != NaN)
    && (forall k :: c <= k < |slots| ==> slots[k][0] == NaN)
  }

  /** For right-padded slots the count is the number of present slots. */
  lemma {:induction false} PresentCountOfRightPadded(slots: seq<Obs>, c: nat)
    requires RightPadded(slots, c)
    ensures PresentCount(slots) == c
    decreases |slots|
  {
    if |slots| > 0 {
      var init := slots[..|slots| - 1];
      if c == |slots| {
        assert RightPadded(init, c - 1);
        PresentCountOfRightPadded(init, c - 1);
      } else {
        assert RightPadded(init, c);
        PresentCountOfRightPadded(init, c);
      }
    }
  }

  /**
   * The selected target output sees only the present slots: it is the cell
   * run over the first `c` slots, whatever the padding after them holds.
   */
  lemma InnerOutputIgnoresPadding(net: InnerNet, s: Obs, d: Dims, c: nat)
    requires Shaped(s, d) && c >= 1 && RightPadded(Slots(s, d), c)
    ensures PresentCount(Slots(s, d)) == c
    ensures InnerOutput(net, s, d)
            == net.denseOS(s[..d.numObsOS]) + net.denseTS(net.cell(LstmInput(s, d)[..c]))
  {
    PresentCountOfRightPadded(Slots(s, d), c);
  }

  /** A zero-filled history step has every slot present, so it never raises when there is a slot. */
  lemma ZeroStepHasTargets(d: Dims)
    requires d.numObsTS > 0 && d.nSlots >= 1
    ensures Shaped(ZeroValues(d.numObsOS + d.nSlots * d.numObsTS), d)
    ensures PresentCount(Slots(ZeroValues(d.numObsOS + d.nSlots * d.numObsTS), d)) == d.nSlots
  {
    var z := ZeroValues(d.numObsOS + d.nSlots * d.numObsTS);
    var slots := Slots(z, d);
    forall k | 0 <= k < d.nSlots ensures slots[k][0] != NaN {
      SlotEntry(z, d, k, 0);
    }
    PresentCountOfRightPadded(slots, d.nSlots);
  }

  /**
   * An own-ship part followed by blocks of width `numObsTS`, NaN-padded on
   * the right to `nSlots` slots, has exactly the blocks as present slots.
   */
  lemma PaddedSlots(own: seq<real>, blocks: seq<seq<real>>, d: Dims, padded: seq<Value>)
    requires d.numObsTS > 0 && |own| == d.numObsOS && AllWidth(blocks, d.numObsTS) && |blocks| <= d.nSlots
    requires PadRight(Nums(Flatten(blocks)), d.nSlots * d.numObsTS) == Some(padded)
    ensures Shaped(Nums(own) + padded, d)
    ensures RightPadded(Slots(Nums(own) + padded, d), |blocks|)
    ensures PresentCount(Slots(Nums(own) + padded, d)) == |blocks|
  {
    var c := |blocks|;
    var x := NumBlocks(blocks) + NaNBlocks(d.nSlots - c, d.numObsTS);
    SlotsOfPadded(own, blocks, d, padded);
    forall k | 0 <= k < d.nSlots ensures |x[k]| > 0 && (x[k][0] == NaN <==> k >= c) {
      if k < c {
        assert x[k] == Nums(blocks[k]);
      } else {
        assert x[k] == NaNs(d.numObsTS);
      }
    }
    PresentCountOfRightPadded(x, c);
  }

  /** The slots of a padded observation are the blocks followed by blocks of absent values. */
  lemma SlotsOfPadded(own: seq<real>, blocks: seq<seq<real>>, d: Dims, padded: seq<Value>)
    requires d.numObsTS > 0 && |own| == d.numObsOS && AllWidth(blocks, d.numObsTS) && |blocks| <= d.nSlots
    requires PadRight(Nums(Flatten(blocks)), d.nSlots * d.numObsTS) == Some(padded)
    ensures Shaped(Nums(own) + padded, d)
    ensures Slots(Nums(own) + padded, d) == NumBlocks(blocks) + NaNBlocks(d.nSlots - |blocks|, d.numObsTS)
  {
    var w := d.numObsTS;
    var x := NumBlocks(blocks) + NaNBlocks(d.nSlots - |blocks|, w);
    PadRightBlocks(blocks, d.nSlots, w);
    PaddedBlocksWidth(blocks, d.nSlots, w);
    ChunksOfFlatten(x, w);
    SlotsOfParts(own, padded, d);
  }

  lemma PaddedBlocksWidth(blocks: seq<seq<real>>, n: nat, w: nat)
    requires AllWidth(blocks, w) && |blocks| <= n
    ensures |NumBlocks(blocks) + NaNBlocks(n - |blocks|, w)| == n
    ensures AllWidth(NumBlocks(blocks) + NaNBlocks(n - |blocks|, w), w)
  {
  }

  /** Cutting an observation into slots ignores the own-ship part. */
  lemma SlotsOfParts(own: seq<real>, ts: seq<Value>, d: Dims)
    requires d.numObsTS > 0 && |own| == d.numObsOS && |ts| == d.nSlots * d.numObsTS
    ensures Shaped(Nums(own) + ts, d)
    ensures Slots(Nums(own) + ts, d) == Chunks(ts, d.nSlots, d.numObsTS)
  {
    assert (Nums(own) + ts)[d.numObsOS..] == ts;
  }

  /** Feature `j` of slot `k` is entry `numObsOS + k * numObsTS + j` of the state. */
  lemma SlotEntry(s: Obs, d: Dims, k: nat, j: nat)
    requires Shaped(s, d) && k < d.nSlots && j < d.numObsTS
    ensures d.numObsOS + k * d.numObsTS + j < |s|
    ensures Slots(s, d)[k][j] == s[d.numObsOS + k * d.numObsTS + j]
  {
    var ts := s[d.numObsOS..];
    FlattenOfChunks(ts, d.nSlots, d.numObsTS);
    FlattenAt(Chunks(ts, d.nSlots, d.numObsTS), d.numObsTS, k, j);
  }

  // ---------------------------------------------------------------------
  // Construction checks and time dispatch

  /** The LSTM-Rec constructors refuse `use_past_actions`. */
  function CheckPastActions(usePastActions: bool): (r: Result<(), NetError>)
    ensures r.Failure? <==> usePastActions
    ensures r.Failure? ==> r.error == PastActionsUnsupported
  {
    if usePastActions then Failure(PastActionsUnsupported) else Success(())
  }

  /** The inner layers `_inner_rec(s, time)` uses: index 0 for t, 1 for t-1, 2 for t-2. */
  function InnerNetFor(nets: seq<InnerNet>, time: int): (r: Result<InnerNet, NetError>)
    requires |nets| == 3
    ensures r.Success? <==> time in {0, 1, 2}
    ensures r.Success? ==> r.value == nets[time]
    ensures r.Failure? ==> r.error == UnknownTimeStep
  {
    if 0 <= time <= 2 then Success(nets[time]) else Failure(UnknownTimeStep)
  }

  // ---------------------------------------------------------------------
  // Outer recurrence over time (LSTMRecDQN, LSTMRecActor, LSTMRecCritic forward)

  /** Width of an inner output and of a row of `x_tilde`. */
  const InnerWidth: nat := 128

  /** `torch.roll(s, shifts=shift, dims=0)`: entry j of the result is entry (j - shift) mod n. */
  function Roll<T>(s: seq<T>, shift: int): (r: seq<T>)
    ensures |r| == |s|
  {
    seq(|s|, j requires 0 <= j < |s| => s[(j - shift) % |s|])
  }

  /** Entry `j` of a rolled sequence. */
  lemma RollAt<T>(s: seq<T>, shift: int, j: int)
    requires 0 <= j < |s|
    ensures Roll(s, shift)[j] == s[(j - shift) % |s|]
  {
  }

  lemma RollByZero<T>(s: seq<T>)
    ensures Roll(s, 0) == s
  {
    forall j | 0 <= j < |s| ensures Roll(s, 0)[j] == s[j] {
      RollAt(s, 0, j);
      Arith.ModSmall(j - 0, |s|);
    }
  }

  /** Rolling by `a` and then by `b` is rolling by `a + b`. */
  lemma RollCompose<T>(s: seq<T>, a: int, b: int)
    ensures Roll(Roll(s, a), b) == Roll(s, a + b)
  {
    forall j | 0 <= j < |s| ensures Roll(Roll(s, a), b)[j] == Roll(s, a + b)[j] {
      RollComposeAt(s, a, b, j);
    }
  }

  lemma RollComposeAt<T>(s: seq<T>, a: int, b: int, j: int)
    requires 0 <= j < |s|
    ensures Roll(Roll(s, a), b)[j] == Roll(s, a + b)[j]
  {
    var x := j - b;
    RollAt(Roll(s, a), b, j);
    RollAt(s, a, x % |s|);
    RollAt(s, a + b, j);
    Arith.ModCompose(x, a, |s|);
    assert x - a == j - (a + b);
  }

  /** `x_t` sits at position `hist_len` after the roll, whatever the history capacity. */
  lemma RollPlacesCurrent<T>(s: seq<T>, h: int)
    requires |s| >= 3 && 0 <= h < |s|
    ensures Roll(s, h - 2)[h] == s[2]
  {
    RollAt(s, h - 2, h);
  }

  /**
   * With capacity 2 the part of the rolled sequence up to position
   * `hist_len` is exactly the last `hist_len + 1` steps in time order, so the
   * zero-filled steps before the history began are never read.
   */
  lemma RollChronological<T>(a0: T, a1: T, a2: T, h: int)
    requires 0 <= h <= 2
    ensures Roll([a0, a1, a2], h - 2)[..h + 1] == [a0, a1, a2][2 - h..]
  {
    var s := [a0, a1, a2];
    var lhs := Roll(s, h - 2)[..h + 1];
    var rhs := s[2 - h..];
    forall j | 0 <= j < h + 1 ensures lhs[j] == rhs[j] {
      RollAt(s, h - 2, j);
      assert j - (h - 2) == j + 2 - h;
      Arith.ModSmall(j + 2 - h, 3);
    }
  }

  /** The rows `t-2, t-1, t` followed by zero rows up to `historyLength + 1` rows. */
  function Stacked(x2: Vec, x1: Vec, x0: Vec, historyLength: nat): (r: seq<Vec>)
    requires historyLength >= 2
    ensures |r| == historyLength + 1
    ensures r[0] == x2 && r[1] == x1 && r[2] == x0
  {
    [x2, x1, x0] + ZeroRows(historyLength - 2)
  }

  /** `n` zero rows of `x_tilde`. */
  function ZeroRows(n: nat): (r: seq<Vec>)
    ensures |r| == n && forall i :: 0 <= i < n ==> r[i] == Zeros(InnerWidth)
  {
    seq(n, _ => Zeros(InnerWidth))
  }

  /** Writing slots 0, 1, 2 of a zero `x_tilde` element gives the stacked rows. */
  lemma FillZeroRows(x2: Vec, x1: Vec, x0: Vec, historyLength: nat)
    requires historyLength >= 2
    ensures ZeroRows(historyLength + 1)[0 := x2][1 := x1][2 := x0] == Stacked(x2, x1, x0, historyLength)
  {
    var a := ZeroRows(historyLength + 1)[0 := x2][1 := x1][2 := x0];
    var b := Stacked(x2, x1, x0, historyLength);
    forall i | 0 <= i < |a| ensures a[i] == b[i] {
      if i >= 3 {
        assert b[i] == ZeroRows(historyLength - 2)[i - 3];
      }
    }
  }

  /** `s_{t-2}`: the oldest history entry, zeroed when fewer than two are valid. */
  function StepT2(hist: seq<Obs>, histLen: int): Obs
    requires |hist| >= 1
  {
    if histLen < 2 then ZeroValues(|hist[0]|) else hist[0]
  }

  /** `s_{t-1}`: the entry at `max(hist_len - 1, 0)`, zeroed when no history is valid. */
  function StepT1(hist: seq<Obs>, histLen: int): Obs
    requires 0 <= histLen <= |hist| && |hist| >= 1
  {
    var t1Idx := if histLen - 1 < 0 then 0 else histLen - 1;
    if histLen < 1 then ZeroValues(|hist[t1Idx]|) else hist[t1Idx]
  }

  predicate OuterInputs(s: seq<Obs>, sHist: seq<seq<Obs>>, histLen: seq<int>, historyLength: nat, d: Dims)
  {
    && |sHist| == |s| && |histLen| == |s|
    && (forall b :: 0 <= b < |s| ==> Shaped(s[b], d))
    && (forall b :: 0 <= b < |s| ==> |sHist[b]| == historyLength)
    && (forall b, k :: 0 <= b < |s| && 0 <= k < historyLength ==> Shaped(sHist[b][k], d))
    && (forall b :: 0 <= b < |s| ==> 0 <= histLen[b] <= historyLength)
  }

  /** The `s_{t-2}` rows of a batch. */
  function StepsT2(sHist: seq<seq<Obs>>, histLen: seq<int>): (r: seq<Obs>)
    requires |histLen| == |sHist| && forall b :: 0 <= b < |sHist| ==> |sHist[b]| >= 1
    ensures |r| == |sHist|
  {
    seq(|sHist|, b requires 0 <= b < |sHist| => StepT2(sHist[b], histLen[b]))
  }

  /** The `s_{t-1}` rows of a batch. */
  function StepsT1(sHist: seq<seq<Obs>>, histLen: seq<int>): (r: seq<Obs>)
    requires |histLen| == |sHist|
    requires forall b :: 0 <= b < |sHist| ==> |sHist[b]| >= 1 && 0 <= histLen[b] <= |sHist[b]|
    ensures |r| == |sHist|
  {
    seq(|sHist|, b requires 0 <= b < |sHist| => StepT1(sHist[b], histLen[b]))
  }

  /** One element of `x_tilde` after the roll. */
  function Rolled(x2: Vec, x1: Vec, x0: Vec, h: int, historyLength: nat): (r: seq<Vec>)
    requires historyLength >= 2
    ensures |r| == historyLength + 1
  {
    Roll(Stacked(x2, x1, x0, historyLength), h - 2)
  }

  /** The outer LSTM output selected for one batch element from its three inner outputs. */
  function OuterOutput(outerCell: seq<Vec> -> Vec, x2: Vec, x1: Vec, x0: Vec, h: int, historyLength: nat): Vec
    requires historyLength >= 2 && 0 <= h <= historyLength
  {
    Outputs(outerCell, Rolled(x2, x1, x0, h, historyLength))[h]
  }

  /**
   * The forward pass of the LSTM-Rec networks up to the selected outer
   * memory, reading `s_{t-1}` from the history as stored. Without a history
   * column `s_hist[:, 0, :]` raises.
   */
  function OuterRecSpec(nets: seq<InnerNet>, outerCell: seq<Vec> -> Vec, s: seq<Obs>, sHist: seq<seq<Obs>>,
                        histLen: seq<int>, historyLength: nat, d: Dims): (r: Result<seq<Vec>, NetError>)
    requires |nets| == 3 && OuterInputs(s, sHist, histLen, historyLength, d)
    ensures r.Success? ==> |r.value| == |s| && historyLength >= 2
    ensures historyLength == 0 ==> r == Failure(IndexOutOfRange)
  {
    if historyLength == 0 then Failure(IndexOutOfRange)
    else OuterFromSteps(nets, outerCell, StepsT2(sHist, histLen), StepsT1(sHist, histLen), s, histLen, historyLength, d)
  }

  /**
   * The same pass as the program runs it: `s_{t-1}` is gathered from the
   * history after the write through the `s_t2` view.
   */
  function OuterRecAsWrittenSpec(nets: seq<InnerNet>, outerCell: seq<Vec> -> Vec, s: seq<Obs>, sHist: seq<seq<Obs>>,
                                 histLen: seq<int>, historyLength: nat, d: Dims): (r: Result<seq<Vec>, NetError>)
    requires |nets| == 3 && OuterInputs(s, sHist, histLen, historyLength, d)
    ensures r.Success? ==> |r.value| == |s| && historyLength >= 2
    ensures historyLength == 0 ==> r == Failure(IndexOutOfRange)
  {
    if historyLength == 0 then Failure(IndexOutOfRange)
    else
      var zeroed := ZeroOldestAll(sHist, histLen);
      OuterFromSteps(nets, outerCell, StepsT2(sHist, histLen), StepsT1(zeroed, histLen), s, histLen, historyLength, d)
  }

  /**
   * The pass from the gathered rows on: the inner recurrences for t-2, t-1
   * and t, each raise propagating in that order, then `x_tilde`, which has
   * no slot 2 below capacity 2, the roll and the outer pick.
   */
  function OuterFromSteps(nets: seq<InnerNet>, outerCell: seq<Vec> -> Vec, t2: seq<Obs>, t1: seq<Obs>, s: seq<Obs>,
                          histLen: seq<int>, historyLength: nat, d: Dims): (r: Result<seq<Vec>, NetError>)
    requires |nets| == 3 && |t2| == |s| && |t1| == |s| && |histLen| == |s|
    requires forall b :: 0 <= b < |s| ==> Shaped(t2[b], d) && Shaped(t1[b], d) && Shaped(s[b], d)
    requires forall b :: 0 <= b < |s| ==> 0 <= histLen[b] <= historyLength
    ensures r.Success? ==> |r.value| == |s| && historyLength >= 2
    ensures r.Failure? && r.error != NoTarget ==> historyLength < 2 && r.error == IndexOutOfRange
  {
    match InnerRecSpec(nets[2], t2, d)
    case Failure(e) => Failure(e)
    case Success(x2) =>
      match InnerRecSpec(nets[1], t1, d)
      case Failure(e) => Failure(e)
      case Success(x1) =>
        match InnerRecSpec(nets[0], s, d)
        case Failure(e) => Failure(e)
        case Success(x0) =>
          if historyLength < 2 then Failure(IndexOutOfRange)
          else Success(OuterOutputs(outerCell, x2, x1, x0, histLen, historyLength))
  }

  /**
   * The history of one element after `s_t2[hist_len < 2, :] = 0.0`: `s_t2`
   * is a view of column 0 of `s_hist`, so the write zeroes entry 0 of the
   * history itself.
   */
  function ZeroOldest(hist: seq<Obs>, histLen: int): (r: seq<Obs>)
    requires |hist| >= 1
    ensures |r| == |hist| && r[0] == StepT2(hist, histLen)
    ensures forall k :: 1 <= k < |hist| ==> r[k] == hist[k]
  {
    hist[0 := StepT2(hist, histLen)]
  }

  /** The histories of a batch after the write through `s_t2`. */
  function ZeroOldestAll(sHist: seq<seq<Obs>>, histLen: seq<int>): (r: seq<seq<Obs>>)
    requires |histLen| == |sHist| && forall b :: 0 <= b < |sHist| ==> |sHist[b]| >= 1
    ensures |r| == |sHist| && forall b :: 0 <= b < |sHist| ==> r[b] == ZeroOldest(sHist[b], histLen[b])
  {
    seq(|sHist|, b requires 0 <= b < |sHist| => ZeroOldest(sHist[b], histLen[b]))
  }

  /**
   * `s_{t-1}` as the program gathers it, after the write through `s_t2`: a
   * zero row whenever `hist_len < 2`, so also at `hist_len == 1`, where
   * `t1_idx` is 0 and the stored entry is the valid `s_{t-1}`.
   */
  lemma AliasedStepT1(hist: seq<Obs>, histLen: int)
    requires 0 <= histLen <= |hist| && |hist| >= 1
    ensures StepT1(ZeroOldest(hist, histLen), histLen) == if histLen < 2 then ZeroValues(|hist[0]|) else hist[histLen - 1]
    ensures histLen != 1 ==> StepT1(ZeroOldest(hist, histLen), histLen) == StepT1(hist, histLen)
  {
  }

  /** A stored `s_{t-1}` of 1.0 at `hist_len == 1` reaches the inner recurrence as 0.0. */
  lemma AliasedStepT1Differs()
    ensures var hist := [[Num(1.0)], [Num(2.0)]];
            && StepT1(hist, 1) == [Num(1.0)]
            && StepT1(ZeroOldest(hist, 1), 1) == [Num(0.0)]
  {
  }

  /** The pass as written differs from the intended one only where some element has `hist_len == 1`. */
  lemma AsWrittenDiffersOnlyAtOne(nets: seq<InnerNet>, outerCell: seq<Vec> -> Vec, s: seq<Obs>, sHist: seq<seq<Obs>>,
                                  histLen: seq<int>, historyLength: nat, d: Dims)
    requires |nets| == 3 && OuterInputs(s, sHist, histLen, historyLength, d)
    requires forall b :: 0 <= b < |histLen| ==> histLen[b] != 1
    ensures OuterRecAsWrittenSpec(nets, outerCell, s, sHist, histLen, historyLength, d)
            == OuterRecSpec(nets, outerCell, s, sHist, histLen, historyLength, d)
  {
    if historyLength > 0 {
      var zeroed := ZeroOldestAll(sHist, histLen);
      forall b | 0 <= b < |sHist| ensures StepsT1(zeroed, histLen)[b] == StepsT1(sHist, histLen)[b] {
        AliasedStepT1(sHist[b], histLen[b]);
      }
      assert StepsT1(zeroed, histLen) == StepsT1(sHist, histLen);
    }
  }

  /** The selected outer outputs of a batch. */
  function OuterOutputs(outerCell: seq<Vec> -> Vec, x2: seq<Vec>, x1: seq<Vec>, x0: seq<Vec>,
                        histLen: seq<int>, historyLength: nat): (r: seq<Vec>)
    requires historyLength >= 2 && |x2| == |histLen| && |x1| == |histLen| && |x0| == |histLen|
    requires forall b :: 0 <= b < |histLen| ==> 0 <= histLen[b] <= historyLength
    ensures |r| == |histLen|
  {
    seq(|histLen|, b requires 0 <= b < |histLen| =>
      OuterOutput(outerCell, x2[b], x1[b], x0[b], histLen[b], historyLength))
  }

  /** `s_t2 = s_hist[:, 0, :]` with the rows of elements with `hist_len < 2` set to zero. */
  method GatherT2(sHist: seq<seq<Obs>>, histLen: seq<int>) returns (r: seq<Obs>)
    requires |histLen| == |sHist| && forall b :: 0 <= b < |sHist| ==> |sHist[b]| >= 1
    ensures |r| == |sHist|
    ensures forall b :: 0 <= b < |sHist| ==> r[b] == StepT2(sHist[b], histLen[b])
  {
    var n := |sHist|;
    var sT2 := new Obs[n](b requires 0 <= b < n => sHist[b][0]);
    for b := 0 to n
      invariant forall c :: 0 <= c < b ==> sT2[c] == StepT2(sHist[c], histLen[c])
      invariant forall c :: b <= c < n ==> sT2[c] == sHist[c][0]
    {
      if histLen[b] < 2 {
        sT2[b] := ZeroValues(|sT2[b]|);
      }
    }
    r := sT2[..];
  }

  /** `s_t1 = s_hist[arange, max(hist_len - 1, 0), :]` with the rows of elements with `hist_len < 1` set to zero. */
  method GatherT1(sHist: seq<seq<Obs>>, histLen: seq<int>) returns (r: seq<Obs>)
    requires |histLen| == |sHist|
    requires forall b :: 0 <= b < |sHist| ==> |sHist[b]| >= 1 && 0 <= histLen[b] <= |sHist[b]|
    ensures |r| == |sHist|
    ensures forall b :: 0 <= b < |sHist| ==> r[b] == StepT1(sHist[b], histLen[b])
  {
    var n := |sHist|;
    var t1Idx := new int[n](b requires 0 <= b < n => histLen[b] - 1);
    for b := 0 to n
      invariant forall c :: 0 <= c < b ==> t1Idx[c] == (if histLen[c] - 1 < 0 then 0 else histLen[c] - 1)
      invariant forall c :: b <= c < n ==> t1Idx[c] == histLen[c] - 1
    {
      if t1Idx[b] < 0 {
        t1Idx[b] := 0;
      }
    }
    var sT1 := new Obs[n];
    for b := 0 to n
      invariant forall c :: 0 <= c < n ==> t1Idx[c] == (if histLen[c] - 1 < 0 then 0 else histLen[c] - 1)
      invariant forall c :: 0 <= c < b ==> sT1[c] == StepT1(sHist[c], histLen[c])
    {
      sT1[b] := sHist[b][t1Idx[b]];
      if histLen[b] < 1 {
        sT1[b] := ZeroValues(|sT1[b]|);
      }
    }
    r := sT1[..];
  }

  /** Write the inner outputs of t-2, t-1, t into slots 0, 1, 2 of a zero `x_tilde`. */
  method Fill(x2: seq<Vec>, x1: seq<Vec>, x0: seq<Vec>, historyLength: nat) returns (r: seq<seq<Vec>>)
    requires historyLength >= 2 && |x1| == |x2| && |x0| == |x2|
    ensures |r| == |x2|
    ensures forall b :: 0 <= b < |x2| ==> r[b] == Stacked(x2[b], x1[b], x0[b], historyLength)
  {
    var n := |x2|;
    var zero := ZeroRows(historyLength + 1);
    var xTilde := new seq<Vec>[n](_ => zero);
    for b := 0 to n
      invariant forall c :: 0 <= c < b ==> xTilde[c] == Stacked(x2[c], x1[c], x0[c], historyLength)
      invariant forall c :: b <= c < n ==> xTilde[c] == zero
    {
      FillZeroRows(x2[b], x1[b], x0[b], historyLength);
      xTilde[b] := xTilde[b][0 := x2[b]][1 := x1[b]][2 := x0[b]];
    }
    r := xTilde[..];
  }

  /**
   * Roll every element by `hist_len - 2`: in one call when the batch has one
   * element, element by element otherwise, skipping elements with
   * `hist_len == 2`.
   */
  method RollEach(xs: seq<seq<Vec>>, histLen: seq<int>) returns (r: seq<seq<Vec>>)
    requires |histLen| == |xs|
    ensures |r| == |xs|
    ensures forall b :: 0 <= b < |xs| ==> r[b] == Roll(xs[b], histLen[b] - 2)
  {
    var n := |xs|;
    var xTilde := new seq<Vec>[n](b requires 0 <= b < n => xs[b]);
    if n == 1 {
      xTilde[0] := Roll(xTilde[0], histLen[0] - 2);
    } else {
      for b := 0 to n
        invariant forall c :: 0 <= c < b ==> xTilde[c] == Roll(xs[c], histLen[c] - 2)
        invariant forall c :: b <= c < n ==> xTilde[c] == xs[c]
      {
        if histLen[b] == 2 {
          RollByZero(xs[b]);
        } else {
          xTilde[b] := Roll(xTilde[b], histLen[b] - 2);
        }
      }
    }
    r := xTilde[..];
  }

  /** `hidden_mem = extracted_mem[arange, hist_len]` after the outer LSTM. */
  method SelectOuter(outerCell: seq<Vec> -> Vec, xs: seq<seq<Vec>>, histLen: seq<int>) returns (r: seq<Vec>)
    requires |histLen| == |xs| && forall b :: 0 <= b < |xs| ==> 0 <= histLen[b] < |xs[b]|
    ensures |r| == |xs|
    ensures forall b :: 0 <= b < |xs| ==> r[b] == Outputs(outerCell, xs[b])[histLen[b]]
  {
    var hidden := new Vec[|xs|];
    for b := 0 to |xs|
      invariant forall c :: 0 <= c < b ==> hidden[c] == Outputs(outerCell, xs[c])[histLen[c]]
    {
      hidden[b] := Outputs(outerCell, xs[b])[histLen[b]];
    }
    r := hidden[..];
  }

  /**
   * `forward` of LSTMRecDQN / LSTMRecActor / LSTMRecCritic up to the
   * selected outer memory, with `s_{t-1}` read from the history as stored:
   * the gathered rows, then the rest of the pass.
   */
  method OuterRec(nets: seq<InnerNet>, outerCell: seq<Vec> -> Vec, s: seq<Obs>, sHist: seq<seq<Obs>>,
                  histLen: seq<int>, historyLength: nat, d: Dims) returns (r: Result<seq<Vec>, NetError>)
    requires |nets| == 3 && OuterInputs(s, sHist, histLen, historyLength, d)
    ensures r == OuterRecSpec(nets, outerCell, s, sHist, histLen, historyLength, d)
  {
    if historyLength == 0 {
      return Failure(IndexOutOfRange);
    }
    var sT2 := GatherT2(sHist, histLen);
    var sT1 := GatherT1(sHist, histLen);
    assert sT2 == StepsT2(sHist, histLen);
    assert sT1 == StepsT1(sHist, histLen);
    r := OuterPass(nets, outerCell, sT2, sT1, s, histLen, historyLength, d);
  }

  /**
   * The same `forward` as written, on the caller's history tensor: the
   * zeroing of the `s_t2` view writes into `s_hist`, and `s_t1` is
   * gathered from the history afterwards.
   */
  method OuterRecAsWritten(nets: seq<InnerNet>, outerCell: seq<Vec> -> Vec, s: seq<Obs>, sHist: array<seq<Obs>>,
                           histLen: seq<int>, historyLength: nat, d: Dims) returns (r: Result<seq<Vec>, NetError>)
    requires |nets| == 3 && OuterInputs(s, sHist[..], histLen, historyLength, d)
    modifies sHist
    ensures r == OuterRecAsWrittenSpec(nets, outerCell, s, old(sHist[..]), histLen, historyLength, d)
    ensures historyLength == 0 ==> sHist[..] == old(sHist[..])
    ensures historyLength > 0 ==> sHist[..] == ZeroOldestAll(old(sHist[..]), histLen)
  {
    if historyLength == 0 {
      return Failure(IndexOutOfRange);
    }
    ghost var before := sHist[..];
    var sT2, sT1 := GatherAliased(sHist, histLen);
    assert sT1 == StepsT1(ZeroOldestAll(before, histLen), histLen);
    r := OuterPass(nets, outerCell, sT2, sT1, s, histLen, historyLength, d);
  }

  /**
   * Lines 781-788 as written: `s_t2[hist_len < 2, :] = 0.0` through the
   * view of column 0 of `s_hist`, then the gather of `s_t1` from the
   * written history.
   */
  method GatherAliased(sHist: array<seq<Obs>>, histLen: seq<int>) returns (sT2: seq<Obs>, sT1: seq<Obs>)
    requires |histLen| == sHist.Length
    requires forall b :: 0 <= b < sHist.Length ==> |sHist[b]| >= 1 && 0 <= histLen[b] <= |sHist[b]|
    modifies sHist
    ensures sHist[..] == ZeroOldestAll(old(sHist[..]), histLen)
    ensures sT2 == StepsT2(old(sHist[..]), histLen)
    ensures sT1 == StepsT1(sHist[..], histLen)
  {
    ghost var before := sHist[..];
    for b := 0 to sHist.Length
      invariant forall c :: 0 <= c < b ==> sHist[c] == ZeroOldest(before[c], histLen[c])
      invariant forall c :: b <= c < sHist.Length ==> sHist[c] == before[c]
    {
      if histLen[b] < 2 {
        sHist[b] := sHist[b][0 := ZeroValues(|sHist[b][0]|)];
      }
    }
    var written := sHist[..];
    assert written == ZeroOldestAll(before, histLen);
    sT2 := seq(|written|, b requires 0 <= b < |written| => written[b][0]);
    sT1 := GatherT1(written, histLen);
  }

  /** The pass from the gathered rows on, as `OuterFromSteps` specifies it. */
  method OuterPass(nets: seq<InnerNet>, outerCell: seq<Vec> -> Vec, sT2: seq<Obs>, sT1: seq<Obs>, s: seq<Obs>,
                   histLen: seq<int>, historyLength: nat, d: Dims) returns (r: Result<seq<Vec>, NetError>)
    requires |nets| == 3 && |sT2| == |s| && |sT1| == |s| && |histLen| == |s|
    requires forall b :: 0 <= b < |s| ==> Shaped(sT2[b], d) && Shaped(sT1[b], d) && Shaped(s[b], d)
    requires forall b :: 0 <= b < |s| ==> 0 <= histLen[b] <= historyLength
    ensures r == OuterFromSteps(nets, outerCell, sT2, sT1, s, histLen, historyLength, d)
  {
    var x2 := InnerRec(nets[2], sT2, d);
    if x2.Failure? {
      return Failure(x2.error);
    }
    var x1 := InnerRec(nets[1], sT1, d);
    if x1.Failure? {
      return Failure(x1.error);
    }
    var x0 := InnerRec(nets[0], s, d);
    if x0.Failure? {
      return Failure(x0.error);
    }
    if historyLength < 2 {
      return Failure(IndexOutOfRange);
    }
    var stacked := Fill(x2.value, x1.value, x0.value, historyLength);
    var xTilde := RollEach(stacked, histLen);
    var hidden := SelectOuter(outerCell, xTilde, histLen);
    assert hidden == OuterOutputs(outerCell, x2.value, x1.value, x0.value, histLen, historyLength);
    r := Success(hidden);
  }

  /**
   * The selected outer memory is the outer cell run exactly over the valid
   * steps in time order: `[x_t]`, `[x_{t-1}, x_t]` or `[x_{t-2}, x_{t-1}, x_t]`.
   */
  lemma OuterOutputUsesValidSteps(outerCell: seq<Vec> -> Vec, x2: Vec, x1: Vec, x0: Vec, h: int)
    requires 0 <= h <= 2
    ensures OuterOutput(outerCell, x2, x1, x0, h, 2) == outerCell([x2, x1, x0][2 - h..])
  {
    assert Stacked(x2, x1, x0, 2) == [x2, x1, x0];
    RollChronological(x2, x1, x0, h);
  }

  /** For any capacity, the last input the selected outer output reads is the current step. */
  lemma OuterOutputEndsWithCurrent(outerCell: seq<Vec> -> Vec, x2: Vec, x1: Vec, x0: Vec, h: int, historyLength: nat)
    requires historyLength >= 2 && 0 <= h <= historyLength
    ensures exists xs: seq<Vec> :: |xs| == h + 1 && xs[h] == x0 && OuterOutput(outerCell, x2, x1, x0, h, historyLength) == outerCell(xs)
  {
    var rolled := Roll(Stacked(x2, x1, x0, historyLength), h - 2);
    RollPlacesCurrent(Stacked(x2, x1, x0, historyLength), h);
    var xs := rolled[..h + 1];
    assert xs[h] == x0;
  }
}
