/**
 * The circular experience replay buffer of the DDPG agent: five parallel
 * preallocated arrays written at `buffer_count % buffer_size`, and a
 * sampler whose indices stay below `min(buffer_count, buffer_size)`.
 *
 * States and actions are flattened to vectors; the random choice of the
 * batch indices is a parameter of `Sample`.
 */
module ReplayBufferModel {

  import opened Arith

  /** One stored transition. */
  datatype Experience = Experience(state: seq<real>, action: seq<real>, reward: real, newState: seq<real>, terminated: bool)

  /** An unwritten slot: zero arrays, zero reward, not terminated. */
  function EmptySlot(stateSize: nat, nActions: nat): Experience
  {
    Experience(seq(stateSize, _ => 0.0), seq(nActions, _ => 0.0), 0.0, seq(stateSize, _ => 0.0), false)
  }

  /**
   * The sequence number of the most recent of the first `count` stores that
   * went to slot `i`; it is one of the last `size` stores.
   */
  function Latest(count: nat, size: nat, i: nat): (k: nat)
    requires size > 0 && i < size && i < count
    ensures k < count && k % size == i
    ensures forall k' :: k < k' < count ==> k' % size != i
    ensures count - size <= k
    decreases count
  {
    ModSmall(i, size);
    if (count - 1) % size == i then count - 1
    else
      var k := Latest(count - 1, size, i);
      ModShift(k, size);
      k
  }

  /** Once the buffer has wrapped, a store overwrites the entry stored `size` stores earlier, the oldest one kept. */
  lemma OverwritesOldest(count: nat, size: nat)
    requires size > 0 && count >= size
    ensures Latest(count, size, count % size) == count - size
  {
    var k := Latest(count, size, count % size);
    ModShift(count - size, size);
    if k != count - size {
      ModDistinct(k, count, size);
    }
  }

  /** `min(buffer_count, buffer_size)`, the bound of the sampled indices: only written slots lie below it. */
  function MaxIndex(count: nat, size: nat): (m: nat)
    ensures m <= count && m <= size
    ensures m == count || m == size
  {
    if count < size then count else size
  }

  /** One more store moves the latest store of its own slot to it and leaves every other slot's latest store alone. */
  lemma LatestAfterStore(c: nat, size: nat, i: nat)
    requires size > 0 && i < size && i < c + 1
    ensures i == c % size ==> Latest(c + 1, size, i) == c
    ensures i != c % size ==> i < c && Latest(c + 1, size, i) == Latest(c, size, i)
  {
    ModSmall(i, size);
  }

  class ReplayBuffer {
    const bufferSize: nat
    const stateSize: nat
    const nActions: nat
    var bufferCount: nat
    var stateMemory: array<seq<real>>
    var newStateMemory: array<seq<real>>
    var actionMemory: array<seq<real>>
    var rewardMemory: array<real>
    var terminalMemory: array<bool>
    /** Every experience stored so far, in order. */
    ghost var history: seq<Experience>

    /** Slot `i` of the five arrays. */
    function Entry(i: nat): Experience
      requires i < bufferSize && Shaped()
      reads this, stateMemory, newStateMemory, actionMemory, rewardMemory, terminalMemory
    {
      Experience(stateMemory[i], actionMemory[i], rewardMemory[i], newStateMemory[i], terminalMemory[i])
    }

    predicate Shaped()
      reads this
    {
      && stateMemory.Length == bufferSize && newStateMemory.Length == bufferSize
      && actionMemory.Length == bufferSize && rewardMemory.Length == bufferSize
      && terminalMemory.Length == bufferSize
      && stateMemory != newStateMemory && stateMemory != actionMemory && newStateMemory != actionMemory
    }

    /**
     * Each written slot holds the latest store that mapped to it; unwritten
     * slots still hold their initial zeros.
     */
    ghost predicate Valid()
      reads this, stateMemory, newStateMemory, actionMemory, rewardMemory, terminalMemory
    {
      && Shaped()
      && |history| == bufferCount
      && (forall i :: 0 <= i < bufferSize && i < bufferCount ==> Entry(i) == history[Latest(bufferCount, bufferSize, i)])
      && (forall i :: bufferCount <= i < bufferSize ==> Entry(i) == EmptySlot(stateSize, nActions))
    }

    constructor(maxSize: nat, stateSize: nat, nActions: nat)
      ensures Valid() && bufferSize == maxSize && bufferCount == 0 && history == []
      ensures this.stateSize == stateSize && this.nActions == nActions
    {
      bufferSize, this.stateSize, this.nActions := maxSize, stateSize, nActions;
      bufferCount := 0;
      var zs := seq(stateSize, _ => 0.0);
      var za := seq(nActions, _ => 0.0);
      stateMemory := new seq<real>[maxSize](_ => zs);
      newStateMemory := new seq<real>[maxSize](_ => zs);
      actionMemory := new seq<real>[maxSize](_ => za);
      rewardMemory := new real[maxSize](_ => 0.0);
      terminalMemory := new bool[maxSize](_ => false);
      history := [];
    }

    /**
     * `store_experience`: write all five arrays at `buffer_count %
     * buffer_size` and count the store. With a zero-size buffer the modulus
     * raises before anything is written, reported here as `ok == false`.
     */
    method StoreExperience(state: seq<real>, action: seq<real>, reward: real, newState: seq<real>, terminated: bool := false)
      returns (ok: bool)
      requires Valid()
      modifies this, stateMemory, newStateMemory, actionMemory, rewardMemory, terminalMemory
      ensures ok <==> bufferSize > 0
      ensures Valid()
      ensures stateMemory == old(stateMemory) && newStateMemory == old(newStateMemory) && actionMemory == old(actionMemory)
      ensures rewardMemory == old(rewardMemory) && terminalMemory == old(terminalMemory)
      ensures !ok ==> bufferCount == old(bufferCount) && history == old(history)
                      && unchanged(stateMemory, newStateMemory, actionMemory, rewardMemory, terminalMemory)
      ensures ok ==> && bufferCount == old(bufferCount) + 1
                     && history == old(history) + [Experience(state, action, reward, newState, terminated)]
                     && Entry(old(bufferCount) % bufferSize) == Experience(state, action, reward, newState, terminated)
                     && forall i :: 0 <= i < bufferSize && i != old(bufferCount) % bufferSize ==> Entry(i) == old(Entry(i))
    {
      if bufferSize == 0 {
        return false;
      }
      var index := bufferCount % bufferSize;
      ghost var c0 := bufferCount;
      ghost var e := Experience(state, action, reward, newState, terminated);
      WriteSlot(index, state, action, reward, newState, terminated);
      bufferCount := bufferCount + 1;
      history := history + [e];
      ok := true;
      if c0 < bufferSize {
        ModSmall(c0, bufferSize);
      }
      forall i | 0 <= i < bufferSize && i < bufferCount
        ensures Entry(i) == history[Latest(bufferCount, bufferSize, i)]
      {
        LatestAfterStore(c0, bufferSize, i);
      }
      forall i | bufferCount <= i < bufferSize
        ensures Entry(i) == EmptySlot(stateSize, nActions)
      {
        assert index == c0 && i != index;
        assert Entry(i) == old(Entry(i));
      }
    }

    /** Write one transition into slot `index` of all five arrays. */
    method WriteSlot(index: nat, state: seq<real>, action: seq<real>, reward: real, newState: seq<real>, terminated: bool)
      requires Shaped() && index < bufferSize
      modifies stateMemory, newStateMemory, actionMemory, rewardMemory, terminalMemory
      ensures Shaped() && Entry(index) == Experience(state, action, reward, newState, terminated)
      ensures forall i :: 0 <= i < bufferSize && i != index ==> Entry(i) == old(Entry(i))
    {
      stateMemory[index] := state;
      newStateMemory[index] := newState;
      rewardMemory[index] := reward;
      actionMemory[index] := action;
      terminalMemory[index] := terminated;
    }

    /**
     * `buffer_sample(batch_size)`, given the indices the draw returns.
     * `np.random.choice(max_index, batch_size)` raises ValueError when the
     * buffer is empty and samples are asked for, reported as `ok == false`.
     * Otherwise each drawn index is below `MaxIndex()`, so it refers to a
     * written slot, which holds the latest experience stored there.
     */
    method Sample(batchSize: nat, batch: seq<nat>)
      returns (ok: bool, states: seq<seq<real>>, actions: seq<seq<real>>, rewards: seq<real>,
               newStates: seq<seq<real>>, terminated: seq<bool>)
      requires Valid()
      requires MaxIndex(bufferCount, bufferSize) > 0 || batchSize == 0 ==>
                 |batch| == batchSize && forall t :: 0 <= t < |batch| ==> batch[t] < MaxIndex(bufferCount, bufferSize)
      ensures ok <==> MaxIndex(bufferCount, bufferSize) > 0 || batchSize == 0
      ensures !ok ==> states == [] && actions == [] && rewards == [] && newStates == [] && terminated == []
      ensures ok ==> |states| == batchSize && |actions| == batchSize && |rewards| == batchSize
                     && |newStates| == batchSize && |terminated| == batchSize
      ensures ok ==> forall t :: 0 <= t < batchSize ==>
                && batch[t] < MaxIndex(bufferCount, bufferSize)
                && Experience(states[t], actions[t], rewards[t], newStates[t], terminated[t])
                   == history[Latest(bufferCount, bufferSize, batch[t])]
    {
      if MaxIndex(bufferCount, bufferSize) == 0 && batchSize > 0 {
        return false, [], [], [], [], [];
      }
      ok := true;
      states, actions, rewards, newStates, terminated := [], [], [], [], [];
      for t := 0 to |batch|
        invariant |states| == t && |actions| == t && |rewards| == t && |newStates| == t && |terminated| == t
        invariant forall u :: 0 <= u < t ==>
                    Experience(states[u], actions[u], rewards[u], newStates[u], terminated[u]) == Entry(batch[u])
      {
        var b := batch[t];
        states := states + [stateMemory[b]];
        actions := actions + [actionMemory[b]];
        rewards := rewards + [rewardMemory[b]];
        newStates := newStates + [newStateMemory[b]];
        terminated := terminated + [terminalMemory[b]];
      }
    }
  }
}
