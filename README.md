# Verified model of the bookkeeping cores of a reinforcement-learning stack

The repository couples learning agents to two simulated environments: a
maritime collision-avoidance environment (`Dune_Env`) and an urban air
mobility environment with a single vertiport (`UAM`). Around the neural
networks and the simulators sit several small, exact pieces of sequential
bookkeeping. This project models them in Dafny and proves their contracts.

- **Network library** (`nets.py`), in `nets_mlp.dfy` and
  `nets_recurrent.dfy`:
  - how `MLP` validates its structure list, chains its layers and picks each
    layer's activation;
  - the MinAtar convolution output-size arithmetic;
  - the history-selection index and zero mask of the LSTM actor/critic heads;
  - the present-target count, the NaN fill and the selection of the inner
    (over vessels) recurrence;
  - the zero-filled, stacked and rolled `x_tilde` of the outer (over time)
    recurrence, and the pick at `hist_len`.

  Linear and LSTM layers are function parameters. An LSTM is a *causal
  cell*: its output at position k is `cell(xs[..k+1])`.
- **Maritime environment** (`Dune_Env.py`), in `dune_env.dfy`:
  - the clamps of the collision risk;
  - the COLREG situation classifier;
  - discrete heading control;
  - the observation vector (in-sight filter, ghost ship, stable sort by risk,
    NaN padding or highest-risk selection);
  - the collision, COLREG and comfort reward terms;
  - termination.

  The environment's mutable fields live in the class `Dune`.
- **Air mobility environment** (`UAM.py`), in `uam.dfy`:
  - the vertiport's open/closed timer machine (class `Destination`);
  - the single-policy multi-agent history buffer (class `UamEnv`);
  - the per-plane observation, with other planes sorted farthest first and
    NaN-padded;
  - respawn selection;
  - pairwise accident/incident counting;
  - termination.
- **Circular replay buffer** (`agents/DDPG/replay_buffer.py`), in
  `replay_buffer.dfy`: five parallel arrays written at `count % size`, and
  sampling below `min(count, size)`. A ghost history of all stores states
  which store each slot holds.
- Shared pieces:
  - `wrappers.dfy`: `Result` and `Option`;
  - `observations.dfy`: observation values with a NaN sentinel, and flattening,
    reshaping and `np.pad`;
  - `sorting.dfy`: the stable sort Python's `sorted` performs.
  - `arith.dfy`: uniqueness and small facts of Euclidean division and remainder.

How Python behaviour becomes Dafny:

- Floating-point values are `real`.
- A NaN entry is the constructor `NaN` of `Observations.Value`.
- An exception or failed assertion of the source is a `Failure` of a
  `Result`.
- `exp`, `log`, `sqrt`, the layers and the geometry helpers (distances,
  bearings, CPA) are parameters or input values.

Where the docstrings and the code disagree, the model follows the code:

- `_get_COLREG_situation`'s docstring numbers overtaking 5 and starboard
  crossing 2/3, but the code returns 3 for overtaking and 5 for starboard
  crossing.
- The collision-risk cone factor is `1.2 - exp(...)`, which is 0.2 dead ahead
  and 1.0 at 30 degrees.

## Model

Source paths are relative to the repository root.

| member | source | states |
|---|---|---|
| Observations.PadRight | TUD_RL-main/tud_rl/envs/_envs/Dune_Env.py:429-432 | `np.pad(..., constant_values=nan)`. It succeeds iff the vector is not longer than the desired length. On success the result has exactly the desired length, keeps the vector as its prefix and is NaN after it. |
| Observations.PadRightBlocks | TUD_RL-main/tud_rl/envs/_envs/Dune_Env.py:426-432 | Flattening `c <= n` blocks of width w and padding to `n*w` gives the same vector as the blocks followed by `n-c` all-NaN blocks. |
| Observations.FlattenLength | TUD_RL-main/tud_rl/envs/_envs/Dune_Env.py:426 | `flatten(order="C")` of blocks of width w has `|blocks|*w` entries. |
| Observations.FlattenAt | TUD_RL-main/tud_rl/envs/_envs/Dune_Env.py:426 | Row-major layout: feature j of block i is at position `i*w+j`. |
| Observations.ChunksOfFlatten | TUD_RL-main/tud_rl/common/nets.py:668 | `view(-1, num_obs_TS)` of a flattened block list gives back the blocks. |
| Observations.FlattenOfChunks | TUD_RL-main/tud_rl/common/nets.py:668 | Flattening the rows of a reshaped vector gives back the vector, so the two reshapes are inverses. |
| Sorting.StableSort | TUD_RL-main/tud_rl/envs/_envs/Dune_Env.py:418 | `sorted(s, key, reverse=descending)`, defined as insertion of the head into the sorted tail after every element with a key not past it. The lemmas below give its properties; it serves `sorted` here and at UAM.py:313. |
| Sorting.StableSortSorted | TUD_RL-main/tud_rl/envs/_envs/Dune_Env.py:418 | `sorted(..., key)` (with or without `reverse=True`) returns a sequence ordered by the key that is a permutation of its input. |
| Sorting.StableSortStable | TUD_RL-main/tud_rl/envs/_envs/Dune_Env.py:418 | Python's sort is stable: for every key value, the elements with that key keep their input order. |
| Sorting.StableSortLength | TUD_RL-main/tud_rl/envs/_envs/UAM.py:313 | Sorting keeps the number of elements. |
| NetsMlp.LookupActivation | TUD_RL-main/tud_rl/common/nets.py:9-11 | The `ACTIVATIONS` table has exactly the keys "relu", "identity" and "tanh", each mapped to its own activation. |
| NetsMlp.FirstBareString | TUD_RL-main/tud_rl/common/nets.py:30-37 | Finds the first structure element before the last one that is a bare string, where `struc[idx][0]` needed a `[units, act]` pair. None iff there is no such element. |
| NetsMlp.WellFormed | TUD_RL-main/tud_rl/common/nets.py:18-37 | The structures the constructor accepts: at least two elements, `[units, act]` pairs, then a final activation string. |
| NetsMlp.BuildMlp | TUD_RL-main/tud_rl/common/nets.py:18-37 | The three assertions fail in order: not a list, fewer than two elements, last element not a string. Success iff the list is well formed. Then there is one layer per element, the first reads `in_size`, the last writes `out_size`, hidden sizes chain and follow `struc[i][0]`. |
| NetsMlp.Activations | TUD_RL-main/tud_rl/common/nets.py:46-53 | Every layer's activation name is in the table iff the lookup succeeds, and then each activation is the table entry. Otherwise it returns the KeyError of the first unknown name. |
| NetsMlp.ActivationOfLayer | TUD_RL-main/tud_rl/common/nets.py:49-52 | The last layer uses `struc[-1]`; every other layer uses `struc[i][1]`. |
| NetsMlp.Run | TUD_RL-main/tud_rl/common/nets.py:49-58 | The value after the first k layers of the loop: apply the k-th linear layer to the value after k-1 layers, then its activation. |
| NetsMlp.Forward | TUD_RL-main/tud_rl/common/nets.py:39-58 | The loop returns the KeyError of the first unknown activation. If every name is known, it returns the value after applying each layer and then its activation, in order. |
| NetsMlp.FailurePersists | TUD_RL-main/tud_rl/common/nets.py:53 | Once one layer's name is unknown, the whole pass fails with that layer's error, whatever the later layers hold. |
| NetsMlp.FloorDiv | TUD_RL-main/tud_rl/common/nets.py:107 | Python's `//` is the floor of the exact quotient, for either sign of the divisor. |
| NetsMlp.OutputSizeFilter | TUD_RL-main/tud_rl/common/nets.py:102-107 | For a positive stride and a kernel no larger than the input, the side is at least 1. It is the largest r with `(r-1)*stride + kernel <= size`, i.e. the number of kernel placements. |
| NetsMlp.OutputSizeFilterDefaults | TUD_RL-main/tud_rl/common/nets.py:90-93 | With the MinAtar kernel 3 and stride 1, a side of length `size` becomes `size - 2`. |
| NetsMlp.InSizeFC | TUD_RL-main/tud_rl/common/nets.py:100 | `in_size_FC = (height-2) * (width-2) * 16`. |
| NetsRecurrent.SelectionIndex | TUD_RL-main/tud_rl/common/nets.py:260-262 | The index is `max(hist_len, 1) - 1`. It is 0 for an empty history, else the last valid position below `hist_len`. |
| NetsRecurrent.SelectionIndices | TUD_RL-main/tud_rl/common/nets.py:260-262 | The in-place `h_idx` loops leave a fresh array holding `SelectionIndex(hist_len[b])` for every batch element. |
| NetsRecurrent.SelectHiddenMemory | TUD_RL-main/tud_rl/common/nets.py:257-268 | `hidden_mem` has one row per batch element. For `hist_len == 0` the row is exactly a zero vector; otherwise it is the LSTM output at position `hist_len - 1`. The same code is at lines 346-357 and 533-544. |
| NetsRecurrent.ZeroFilled | TUD_RL-main/tud_rl/common/nets.py:682 | `s_TS[isnan(s_TS)] = 0.0`: NaN entries become 0 and every other entry is unchanged. |
| NetsRecurrent.ZeroNaNs | TUD_RL-main/tud_rl/common/nets.py:682 | The in-place masked assignment leaves the array equal to the zero-filled old contents. |
| NetsRecurrent.Slots | TUD_RL-main/tud_rl/common/nets.py:662-668 | `s[:, num_obs_OS:].view(-1, num_obs_TS)` of one element: the target part cut into `N_TSs` slots of width `num_obs_TS`. |
| NetsRecurrent.PresentCount | TUD_RL-main/tud_rl/common/nets.py:671-672 | `N_TS_obs`: the number of slots whose first feature is not NaN, at most the number of slots. |
| NetsRecurrent.InnerRecSpec | TUD_RL-main/tud_rl/common/nets.py:672-675 | The inner recurrence raises "There is no TS" iff some batch element has no slot with a present first feature. Otherwise it yields one output per element. |
| NetsRecurrent.InnerElement | TUD_RL-main/tud_rl/common/nets.py:677-697 | For one element with count c: the own-ship dense output, followed by the target dense layer applied to the LSTM output at index c-1 over the zero-filled slots. |
| NetsRecurrent.InnerRec | TUD_RL-main/tud_rl/common/nets.py:654-697 | `_inner_rec` over a batch equals its specification: the raise when an element has no target, otherwise the per-element outputs. The same computation is at lines 836-887. |
| NetsRecurrent.PresentCountOfRightPadded | TUD_RL-main/tud_rl/common/nets.py:672 | When the present slots come first and the NaN slots after them, `N_TS_obs` is the number of present slots. |
| NetsRecurrent.InnerOutputIgnoresPadding | TUD_RL-main/tud_rl/common/nets.py:678-695 | For right-padded slots the selected target output is the cell run over exactly the present slots, so the padding never influences it. |
| NetsRecurrent.ZeroStepHasTargets | TUD_RL-main/tud_rl/common/nets.py:781-788 | A history step zeroed for a short history has every slot present, so the no-target check does not raise on it. |
| NetsRecurrent.PaddedSlots | TUD_RL-main/tud_rl/common/nets.py:668-672 | An own part followed by blocks NaN-padded to `nSlots` slots is well shaped and right padded, and its present count is the number of blocks. |
| NetsRecurrent.SlotsOfPadded | TUD_RL-main/tud_rl/common/nets.py:668 | The slots of such a state are the blocks followed by all-NaN slots. |
| NetsRecurrent.SlotEntry | TUD_RL-main/tud_rl/common/nets.py:668 | Feature j of slot k is entry `num_obs_OS + k*num_obs_TS + j` of the state. |
| NetsRecurrent.CheckPastActions | TUD_RL-main/tud_rl/common/nets.py:740-741 | The LSTM-Rec constructors raise NotImplementedError exactly when `use_past_actions` is set. The same check is at lines 904-905 and 1082-1083. |
| NetsRecurrent.InnerNetFor | TUD_RL-main/tud_rl/common/nets.py:831-834 | `_inner_rec(s, time)` accepts `time` iff it is in {0,1,2}, and then uses the layers of that time step. Otherwise it fails with "Unknown time step." |
| NetsRecurrent.Roll | TUD_RL-main/tud_rl/common/nets.py:805 | `torch.roll(s, shifts=shift, dims=0)`: entry j of the result is entry `(j - shift) mod n` of the input, with Python's non-negative modulus, and the length is kept. |
| NetsRecurrent.RollCompose | TUD_RL-main/tud_rl/common/nets.py:800-805 | Rolling by a and then by b is rolling by a + b, so the per-element rolls compose like shifts. |
| NetsRecurrent.RollByZero | TUD_RL-main/tud_rl/common/nets.py:803-804 | Skipping the elements with `hist_len == 2` is the same as rolling them by `2 - 2 = 0`. |
| NetsRecurrent.RollPlacesCurrent | TUD_RL-main/tud_rl/common/nets.py:797-813 | For any capacity, after the roll by `hist_len - 2` the entry at index `hist_len` is the current step `x_t`. |
| NetsRecurrent.RollChronological | TUD_RL-main/tud_rl/common/nets.py:799-805 | With capacity 2, the rolled `[x_{t-2}, x_{t-1}, x_t]` up to index `hist_len` is exactly the last `hist_len + 1` steps in time order. |
| NetsRecurrent.Stacked | TUD_RL-main/tud_rl/common/nets.py:778-797 | One element of `x_tilde` after the three writes: `[x_{t-2}, x_{t-1}, x_t]` followed by `history_length - 2` zero rows. |
| NetsRecurrent.FillZeroRows | TUD_RL-main/tud_rl/common/nets.py:778-797 | Writing the three inner outputs into slots 0, 1, 2 of a zero `x_tilde` gives those three rows followed by zero rows. |
| NetsRecurrent.StepT2 | TUD_RL-main/tud_rl/common/nets.py:781-782 | One element's `s_{t-2}`: history entry 0, or a zero row of the same width when `hist_len < 2`. |
| NetsRecurrent.StepT1 | TUD_RL-main/tud_rl/common/nets.py:784-788 | One element's `s_{t-1}` read from a history: the entry at `max(hist_len - 1, 0)`, or a zero row when `hist_len < 1`. |
| NetsRecurrent.ZeroOldest | TUD_RL-main/tud_rl/common/nets.py:781-782 | One element's history after the write through the `s_t2` view: entry 0 becomes `s_{t-2}` and the other entries are kept. |
| NetsRecurrent.ZeroOldestAll | TUD_RL-main/tud_rl/common/nets.py:781-782 | The batch of histories after that write, one `ZeroOldest` per element. |
| NetsRecurrent.GatherT2 | TUD_RL-main/tud_rl/common/nets.py:781-782 | `s_t2` is history entry 0, or a zero row when `hist_len < 2`. |
| NetsRecurrent.GatherT1 | TUD_RL-main/tud_rl/common/nets.py:784-788 | On the history it is given, `s_t1` is the entry at `max(hist_len - 1, 0)`, or a zero row when `hist_len < 1`. The intended pass gives it the stored history; the pass as written gives it the history after the `s_t2` write (see Findings). |
| NetsRecurrent.GatherAliased | TUD_RL-main/tud_rl/common/nets.py:781-788 | As written: the zeroing of the `s_t2` view writes zeros into entry 0 of every history with `hist_len < 2`, in the caller's array. `s_t2` is the old entry 0 or a zero row, and `s_t1` is gathered from the written history. The same code is at lines 944-951 and 1125-1132. |
| NetsRecurrent.AliasedStepT1 | TUD_RL-main/tud_rl/common/nets.py:781-788 | Gathered after that write, `s_{t-1}` is a zero row whenever `hist_len < 2`, including `hist_len == 1`, and the stored entry `hist_len - 1` otherwise. For every `hist_len` other than 1 it equals the intended `s_{t-1}`. |
| NetsRecurrent.AliasedStepT1Differs | TUD_RL-main/tud_rl/common/nets.py:781-788 | With `hist_len == 1` and a stored `s_{t-1}` of 1.0, the intended row is 1.0 but the inner recurrence receives 0.0. |
| NetsRecurrent.AsWrittenDiffersOnlyAtOne | TUD_RL-main/tud_rl/common/nets.py:764-816 | When no batch element has `hist_len == 1`, the pass as written and the intended pass give the same result. |
| NetsRecurrent.Fill | TUD_RL-main/tud_rl/common/nets.py:778-797 | Every element of `x_tilde` holds its t-2, t-1 and t inner outputs in slots 0, 1, 2 and zeros after them. |
| NetsRecurrent.RollEach | TUD_RL-main/tud_rl/common/nets.py:799-805 | The bulk roll for batch size 1 and the element-by-element roll that skips `hist_len == 2` both leave every element rolled by its own `hist_len - 2`. |
| NetsRecurrent.OuterOutput | TUD_RL-main/tud_rl/common/nets.py:797-813 | One element's outer memory: the outer cell's output at position `hist_len` over the stacked rows rolled by `hist_len - 2`. |
| NetsRecurrent.SelectOuter | TUD_RL-main/tud_rl/common/nets.py:808-813 | Each row of `hidden_mem` is the outer LSTM output at position `hist_len`. |
| NetsRecurrent.OuterRec | TUD_RL-main/tud_rl/common/nets.py:764-816 | The intended forward pass up to the outer memory, with `s_{t-1}` read from the stored history, equals its specification. Without a history column `s_hist[:, 0, :]` raises IndexError. Otherwise the raise of the first failing inner recurrence (t-2, then t-1, then t) propagates. Below capacity 2, writing `x_tilde[:, 2, :]` then raises IndexError. Otherwise the result is the outer cell over the filled and rolled `x_tilde`, selected at `hist_len`. The same pass is at lines 929-986 and 1107-1170. |
| NetsRecurrent.OuterRecAsWritten | TUD_RL-main/tud_rl/common/nets.py:764-816 | The pass as the program runs it: the same raises and the same outer pick, with `s_{t-1}` gathered after the `s_t2` write, and the caller's history left with entry 0 zeroed wherever `hist_len < 2`. |
| NetsRecurrent.OuterRecSpec | TUD_RL-main/tud_rl/common/nets.py:776-782 | With no history column the pass raises IndexError; a successful pass has one row per batch element and capacity at least 2. |
| NetsRecurrent.OuterFromSteps | TUD_RL-main/tud_rl/common/nets.py:790-797 | From the gathered rows on, a raise is either the no-target error of an inner recurrence or, below capacity 2, the IndexError of `x_tilde[:, 2, :]`. A success has one row per batch element. |
| NetsRecurrent.OuterPass | TUD_RL-main/tud_rl/common/nets.py:790-813 | The inner recurrences, fill, roll and outer pick from the gathered rows equal `OuterFromSteps`. |
| NetsRecurrent.OuterOutputUsesValidSteps | TUD_RL-main/tud_rl/common/nets.py:799-813 | With capacity 2 the selected outer memory is the outer cell run over `[x_t]`, `[x_{t-1}, x_t]` or `[x_{t-2}, x_{t-1}, x_t]` for `hist_len` 0, 1, 2. With the intended `s_{t-1}` it reads no zero-filled step. As written, at `hist_len == 1` the `x_{t-1}` it reads is the inner output of a zero row (see Findings). |
| NetsRecurrent.OuterOutputEndsWithCurrent | TUD_RL-main/tud_rl/common/nets.py:797-813 | For any capacity, the selected outer memory is the cell over `hist_len + 1` inputs whose last one is `x_t`. |
| DuneEnv.AdjustedDcpa | TUD_RL-main/tud_rl/envs/_envs/Dune_Env.py:523-529 | `max(0, DCPA - min_safe_distance)`, scaled by `1.2 - exp(-ln 5 / 30deg * bng)` when `TCPA >= 0` and the bearing at the CPA is within 30 degrees. |
| DuneEnv.CpaRisk | TUD_RL-main/tud_rl/envs/_envs/Dune_Env.py:531-534 | The CPA term: `exp((DCPA + 1.5*TCPA) * ln(CR_al) / CR_rec_dist)` for `TCPA >= 0`, with factor 20 on `abs(TCPA)` otherwise. |
| DuneEnv.EdRisk | TUD_RL-main/tud_rl/envs/_envs/Dune_Env.py:539 | The distance term: `exp(-(ED - min_safe_distance) / (0.3 * CR_rec_dist))`. |
| DuneEnv.CollisionRisk | TUD_RL-main/tud_rl/envs/_envs/Dune_Env.py:504-547 | The risk is exactly 1.0 inside the safe distance and never exceeds 1. Otherwise it is 1.0 or the larger of the CPA and distance terms, and it is positive when `exp` is. |
| DuneEnv.CollisionRiskSaturates | TUD_RL-main/tud_rl/envs/_envs/Dune_Env.py:511-547 | The risk is 1.0 iff the target is inside the safe distance or one of the two terms reaches 1. |
| DuneEnv.HeadOn | TUD_RL-main/tud_rl/envs/_envs/Dune_Env.py:598 | Head-on rule: both wrapped bearings within 22.5 degrees. |
| DuneEnv.Overtaking | TUD_RL-main/tud_rl/envs/_envs/Dune_Env.py:602 | Overtaking rule: the TS-side bearing in [112.5, 247.5], the wrapped OS-side bearing within 45 degrees, and `V_rel > V_TS`. |
| DuneEnv.Portside | TUD_RL-main/tud_rl/envs/_envs/Dune_Env.py:606 | Portside-crossing rule: the TS-side bearing in [0, 112.5] and the wrapped OS-side bearing in [-112.5, 10]. |
| DuneEnv.Starboard | TUD_RL-main/tud_rl/envs/_envs/Dune_Env.py:610 | Starboard-crossing rule: the OS-side bearing in [0, 112.5] and the wrapped TS-side bearing in [-112.5, 10]. |
| DuneEnv.ColregSituation | TUD_RL-main/tud_rl/envs/_envs/Dune_Env.py:550-614 | Returns only values in {0,1,3,4,5}, and 0 out of sight. The checks run in priority order: head-on gives 1, overtaking 3, portside crossing 4, starboard crossing 5, else 0. Each result holds iff its rule holds and every earlier rule fails. |
| DuneEnv.CrossingRulesDisjoint | TUD_RL-main/tud_rl/envs/_envs/Dune_Env.py:606-611 | An encounter satisfying both crossing rules is head-on, so rule 1 always decides it first. |
| DuneEnv.ColregMirror | TUD_RL-main/tud_rl/envs/_envs/Dune_Env.py:598-611 | Head-on holds for the own ship iff it holds for the target. A portside crossing seen from one ship is a starboard crossing seen from the other. |
| DuneEnv.OvertakingOverlapsAtEdges | TUD_RL-main/tud_rl/envs/_envs/Dune_Env.py:596-614 | The overtaking rule overlaps a crossing rule only on its sector edges: portside exactly at a target-side bearing of 112.5 degrees, starboard exactly at 247.5 degrees. Only there does overtaking taking priority over the crossings change the answer. |
| DuneEnv.Angle2Pi | TUD_RL-main/tud_rl/envs/_envs/Dune_Env.py:453 | The normalisation applied to the new heading, taken as the floor-based wrap `x - 2*pi*floor(x/(2*pi))` (the helper itself is not part of this model): it lands in [0, 2*pi) and leaves an angle already there unchanged. |
| DuneEnv.Angle2PiPeriodic | TUD_RL-main/tud_rl/envs/_envs/Dune_Env.py:453 | Normalising ignores whole turns. |
| DuneEnv.NextHeading | TUD_RL-main/tud_rl/envs/_envs/Dune_Env.py:442-453 | Accepts exactly the actions {0,1,2} and otherwise fails with "Unknown action.". Action 0 keeps a normalised heading, 1 adds `dhead`, 2 subtracts it, and the result is in [0, 2*pi). |
| DuneEnv.RightThenLeft | TUD_RL-main/tud_rl/envs/_envs/Dune_Env.py:448-453 | Steering right and then left returns a normalised heading to itself. |
| DuneEnv.OwnPart | TUD_RL-main/tud_rl/envs/_envs/Dune_Env.py:354-359 | The own-ship and goal part has `num_obs_OS = 4` entries. |
| DuneEnv.TargetBlock | TUD_RL-main/tud_rl/envs/_envs/Dune_Env.py:371-392 | A target block has `num_obs_TS = 6` entries and ends with the target's collision risk, the sort key. |
| DuneEnv.InSightBlocks | TUD_RL-main/tud_rl/envs/_envs/Dune_Env.py:362-392 | There are at most as many blocks as targets, each of width 6. |
| DuneEnv.InSightBlocksSound | TUD_RL-main/tud_rl/envs/_envs/Dune_Env.py:364-392 | Every block is the block of some target within `sight`. |
| DuneEnv.InSightBlocksComplete | TUD_RL-main/tud_rl/envs/_envs/Dune_Env.py:369-392 | Every target within `sight` contributes its block. |
| DuneEnv.InSightBlocksEmpty | TUD_RL-main/tud_rl/envs/_envs/Dune_Env.py:364-392 | There are no blocks iff every target is beyond `sight`. |
| DuneEnv.Blocks | TUD_RL-main/tud_rl/envs/_envs/Dune_Env.py:394-415 | After the ghost-ship step there is at least one block and at most `max(1, N_TS)`, all of width 6. |
| DuneEnv.GhostBlockAlone | TUD_RL-main/tud_rl/envs/_envs/Dune_Env.py:394-415 | With no target in sight the block list is exactly `[1.0, -1.0, -1.0, 0.0, 0, 0.0]`; otherwise it is the in-sight blocks. |
| DuneEnv.SortedBlocks | TUD_RL-main/tud_rl/envs/_envs/Dune_Env.py:418 | `sorted(state_TSs, key=lambda x: x[-1])`: the stable ascending sort of the blocks by their last entry, the risk. |
| DuneEnv.SortedBlocksOrder | TUD_RL-main/tud_rl/envs/_envs/Dune_Env.py:418 | The sorted blocks ascend by risk, are a permutation of the blocks, and keep detection order among equal risks. |
| DuneEnv.SortedBlocksShape | TUD_RL-main/tud_rl/envs/_envs/Dune_Env.py:418 | Sorting keeps the number of blocks and their width. |
| DuneEnv.TargetPart | TUD_RL-main/tud_rl/envs/_envs/Dune_Env.py:423-440 | The target part after sorting: in "RecDQN" mode the flattened blocks NaN-padded to `max(1, N_TSs_max)` slots, where a negative pad width raises; in "maxRisk" mode the last, riskiest block. |
| DuneEnv.StateOf | TUD_RL-main/tud_rl/envs/_envs/Dune_Env.py:350-440 | The observation `_set_state` assigns: the own part followed by the target part of the sorted blocks, or the padding error. |
| DuneEnv.StateSize | TUD_RL-main/tud_rl/envs/_envs/Dune_Env.py:423-440 | In "RecDQN" mode the state exists iff the blocks fit `max(1, N_TSs_max)` slots. In "maxRisk" mode it always exists. When it exists, its length is the `obs_size` the constructor declares (lines 85-89). |
| DuneEnv.StateFits | TUD_RL-main/tud_rl/envs/_envs/Dune_Env.py:429-432 | With at most `max(1, N_TSs_max)` targets the padding never raises. |
| DuneEnv.RecDqnSlots | TUD_RL-main/tud_rl/envs/_envs/Dune_Env.py:423-432 | The "RecDQN" state, cut into slots as the recurrent networks cut it, has its blocks first and NaN slots only at the right end. Its present count equals the number of blocks and is at least 1. |
| DuneEnv.MaxRiskKeepsRiskiest | TUD_RL-main/tud_rl/envs/_envs/Dune_Env.py:434-437 | The "maxRisk" state is the own part followed by one of the blocks, and no block has a higher risk than that one. |
| DuneEnv.CollisionPenalty | TUD_RL-main/tud_rl/envs/_envs/Dune_Env.py:642-649 | -10 at risk 1; otherwise minus the risk when the penalty is linear and minus its square root when it is not. |
| DuneEnv.ColregPenalty | TUD_RL-main/tud_rl/envs/_envs/Dune_Env.py:651-660 | -1 iff the target did not just respawn, is in sight with non-negative TCPA, was previously head-on or starboard crossing, and the action is 2. Otherwise 0. |
| DuneEnv.RewardSums | TUD_RL-main/tud_rl/envs/_envs/Dune_Env.py:636-660 | The collision and COLREG sums: each target adds its collision penalty and its COLREG penalty, in target order. |
| DuneEnv.RewardTerms | TUD_RL-main/tud_rl/envs/_envs/Dune_Env.py:636-660 | The reward loop accumulates exactly the per-target sums of the collision and COLREG terms. |
| DuneEnv.ColregSumBounds | TUD_RL-main/tud_rl/envs/_envs/Dune_Env.py:651-660 | The COLREG sum lies in [-N_TS, 0]. It is 0 when the action is not 2 and when every target just respawned. |
| DuneEnv.CollisionSumLinear | TUD_RL-main/tud_rl/envs/_envs/Dune_Env.py:641-649 | With linear penalties and risks in [0, 1] the collision sum lies in [-10*N_TS, 0]. |
| DuneEnv.SafeSituation | TUD_RL-main/tud_rl/envs/_envs/Dune_Env.py:621 | `safe_sit`: every target's collision risk is at most 0.2. |
| DuneEnv.ComfortReward | TUD_RL-main/tud_rl/envs/_envs/Dune_Env.py:663-672 | Action 0 costs nothing. A steering action costs -1 iff the adaptive comfort reward is off or the situation is safe. |
| DuneEnv.Done | TUD_RL-main/tud_rl/envs/_envs/Dune_Env.py:686-700 | Done iff the goal distance is at most 50 or `step_cnt >= 300`. |
| DuneEnv.DoneAfterLimit | TUD_RL-main/tud_rl/envs/_envs/Dune_Env.py:698-700 | Once the step limit is reached the episode is over at every later step, wherever the ship is. |
| DuneEnv.Dune.HeadingControl | TUD_RL-main/tud_rl/envs/_envs/Dune_Env.py:442-453 | The heading becomes the `NextHeading` of the old heading; an unknown action raises and leaves the heading unchanged. No other field changes. |
| DuneEnv.Dune.SetColregs | TUD_RL-main/tud_rl/envs/_envs/Dune_Env.py:318-328 | The old situations become `TS_COLREGs_old`, and there is one fresh classification per target, in order. |
| DuneEnv.Dune.SetState | TUD_RL-main/tud_rl/envs/_envs/Dune_Env.py:350-440 | The appending loop, ghost ship, sort and padding set `state` to the specified observation. On the padding error the old state stays in place. |
| Uam.Opened | TUD_RL-main/tud_rl/envs/_envs/UAM.py:77-81 | `open()` gives an open destination with both timers at 0. |
| Uam.Closed | TUD_RL-main/tud_rl/envs/_envs/UAM.py:83-87 | `close()` gives a closed destination with `t_nxt_open = t_close = 60` and `t_open_since = 0`. |
| Uam.Tick | TUD_RL-main/tud_rl/envs/_envs/UAM.py:48-58 | While open, `t_open_since` grows by `dt`. While closed, `t_nxt_open` shrinks by `dt` and the destination reopens, timers reset, iff it reaches 0 or less. `was_open` records the resulting status. |
| Uam.Entries | TUD_RL-main/tud_rl/envs/_envs/UAM.py:61-69 | A plane entered the closed (open) destination iff it is within the radius 100 and the destination is closed (open). |
| Uam.StepSpec | TUD_RL-main/tud_rl/envs/_envs/UAM.py:44-75 | One `step(dt)`: the timer update, then the entry masks against the status after it, then `close()` iff someone entered open. Returns the new fields and both masks. |
| Uam.StepKeepsInv | TUD_RL-main/tud_rl/envs/_envs/UAM.py:44-75 | For `dt > 0` a step keeps the timer invariant. Open means `t_nxt_open == 0`; closed means `0 < t_nxt_open <= t_close` and `t_open_since == 0`. |
| Uam.StepEntries | TUD_RL-main/tud_rl/envs/_envs/UAM.py:58-73 | The two masks are disjoint, and a plane is flagged iff it is within the radius. Open entries follow `was_open`, the status after the timer update. Whenever anyone entered it open, the destination ends the step closed for `t_close`. |
| Uam.ClosedCountsDown | TUD_RL-main/tud_rl/envs/_envs/UAM.py:49-52 | A closed destination with more than `dt` left stays closed, counts down by `dt` and admits no open entry. |
| Uam.ClosedReopens | TUD_RL-main/tud_rl/envs/_envs/UAM.py:49-52 | A closed destination whose remaining time is at most `dt` is open, and recorded as open, after the timer update. |
| Uam.Destination.constructor | TUD_RL-main/tud_rl/envs/_envs/UAM.py:22-39 | A new destination is open with both timers at 0 and `was_open` set. |
| Uam.Destination.Open | TUD_RL-main/tud_rl/envs/_envs/UAM.py:77-81 | The fields become `Opened` of the old fields. |
| Uam.Destination.Close | TUD_RL-main/tud_rl/envs/_envs/UAM.py:83-87 | The fields become `Closed` of the old fields. |
| Uam.Destination.Step | TUD_RL-main/tud_rl/envs/_envs/UAM.py:44-75 | The new fields and both returned masks are those of the step specification. The lemmas above hold for the specification. |
| Uam.Entered | TUD_RL-main/tud_rl/envs/_envs/UAM.py:61-69 | The entry loop fills the two masks as `Entries` specifies. |
| Uam.TimerFeatures | TUD_RL-main/tud_rl/envs/_envs/UAM.py:282-283 | The two timer features `1 - t_nxt_open/t_close` and `1 - t_open_since/t_close`. |
| Uam.TimerFeaturesRange | TUD_RL-main/tud_rl/envs/_envs/UAM.py:282-283 | Under the timer invariant, `1 - t_nxt_open/t_close` lies in [0, 1] and is 1 iff the destination is open. `1 - t_open_since/t_close` is 1 while closed. |
| Uam.PrioFlag | TUD_RL-main/tud_rl/envs/_envs/UAM.py:285 | The priority feature is 1.0 iff the plane's living time is the maximum, and -1.0 otherwise. |
| Uam.SomePlaneHasPriority | TUD_RL-main/tud_rl/envs/_envs/UAM.py:285 | Some plane always has the priority flag. |
| Uam.OwnFeatures | TUD_RL-main/tud_rl/envs/_envs/UAM.py:280-285 | The own part has `OS_obs` entries: goal bearing, goal distance relative to the spawn radius, the two timer features and, with priority, the flag. |
| Uam.OtherBlock | TUD_RL-main/tud_rl/envs/_envs/UAM.py:291-308 | An other-plane block has `obs_per_TS` entries, starts with the distance relative to the spawn radius (the sort key) and, with priority, ends with the other plane's flag. |
| Uam.SortedOthersOrder | TUD_RL-main/tud_rl/envs/_envs/UAM.py:313 | The other planes' blocks are sorted farthest first, are a permutation of the blocks, and keep plane order among equal distances. |
| Uam.SortedOthersShape | TUD_RL-main/tud_rl/envs/_envs/UAM.py:313 | Sorting keeps the number of blocks and their width. |
| Uam.OtherPart | TUD_RL-main/tud_rl/envs/_envs/UAM.py:288-319 | The other planes' part: nothing for a single plane; otherwise the blocks sorted farthest first and flattened, and in single-policy mode NaN-padded to `N_agents_max - 1` blocks, where a negative pad width raises. |
| Uam.PlaneState | TUD_RL-main/tud_rl/envs/_envs/UAM.py:280-321 | One plane's observation: its own features followed by the other planes' part, or the padding error. |
| Uam.PlaneStateSize | TUD_RL-main/tud_rl/envs/_envs/UAM.py:313-321 | In single-policy mode the observation exists iff `N_planes - 1 <= N_agents_max - 1`. Its length is then the own part plus `obs_per_TS*(N_agents_max-1)`, i.e. `obs_size` (lines 155-157). |
| Uam.PlaneStateSlots | TUD_RL-main/tud_rl/envs/_envs/UAM.py:315-321 | The padded observation, cut into slots, has the other planes first and NaN slots after them. Its present count is the number of other planes. |
| Uam.Shifted | TUD_RL-main/tud_rl/envs/_envs/UAM.py:248-254 | The buffer after one store: once full, drop entry 0 and append the old state (`np.roll(shift=-1)` plus the last-slot write); otherwise write the old state at `hist_len`. |
| Uam.HoldsRecent | TUD_RL-main/tud_rl/envs/_envs/UAM.py:248-254 | The buffer's first `hist_len` entries are the last `hist_len` stored states in order, and `hist_len` has reached the number of stores while the buffer is not full. |
| Uam.ShiftedHoldsRecent | TUD_RL-main/tud_rl/envs/_envs/UAM.py:248-254 | Storing the old state keeps the buffer's first `hist_len` entries equal to the last `hist_len` stored states, in order. `hist_len` grows by one up to the capacity, with shift-left eviction once full, and slots past the new entry are untouched. |
| Uam.ShiftedValid | TUD_RL-main/tud_rl/envs/_envs/UAM.py:248-254 | Storing into a valid buffer (recent states in front, zeros after) gives a valid buffer. |
| Uam.SeverityOf | TUD_RL-main/tud_rl/envs/_envs/UAM.py:493-496 | A pair at distance at most 10 is an accident, otherwise at most 100 an incident, otherwise clear. |
| Uam.RowCount | TUD_RL-main/tud_rl/envs/_envs/UAM.py:491-496 | For plane i, the number of planes j with `i < j < m` whose distance has the given severity. |
| Uam.PairCount | TUD_RL-main/tud_rl/envs/_envs/UAM.py:489-496 | The number of pairs `i < j` with `i < k` and `j < n` of the given severity: the double loop's count. |
| Uam.MistakesBounded | TUD_RL-main/tud_rl/envs/_envs/UAM.py:489-496 | Every unordered pair `i < j` is classified exactly once: accidents, incidents and clear pairs add up to `n(n-1)/2`. |
| Uam.NoMistakesWhenSeparated | TUD_RL-main/tud_rl/envs/_envs/UAM.py:489-496 | When all pairs are farther apart than the incident distance, there are no accidents and no incidents. |
| Uam.CountTrue | TUD_RL-main/tud_rl/envs/_envs/UAM.py:488 | `sum(entered_close)` is at most the number of planes, and 0 iff nobody entered closed. |
| Uam.RespawnMask | TUD_RL-main/tud_rl/envs/_envs/UAM.py:393-394 | A plane is respawned iff it is at least the respawn radius (1300) from the vertiport or entered it open. |
| Uam.RespawnCausesDisjoint | TUD_RL-main/tud_rl/envs/_envs/UAM.py:393-394 | A plane that entered the open vertiport is never also beyond the respawn radius. |
| Uam.Done | TUD_RL-main/tud_rl/envs/_envs/UAM.py:481-485 | Done iff `step_cnt >= 500`. |
| Uam.DoneAfterLimit | TUD_RL-main/tud_rl/envs/_envs/UAM.py:481-485 | Once the step limit is reached the episode is over at every later step. |
| Uam.UamEnv.UpdateHistory | TUD_RL-main/tud_rl/envs/_envs/UAM.py:244-258 | At step 0 the history is a fresh zero buffer with `hist_len = 0`. Afterwards the previous multi-state is stored, with `hist_len` saturating at 2. Finally the current multi-state becomes the previous one. The buffer stays valid: its first `hist_len` entries are the most recent old states and the rest are zero. The step counter, living times and mistake counters are unchanged. |
| Uam.UamEnv.StoreOld | TUD_RL-main/tud_rl/envs/_envs/UAM.py:248-254 | Slot write while there is room; `np.roll(shift=-1)` and a write of the last slot once full. The contents become the shifted buffer and validity is kept. The previous multi-state, step counter, living times and mistake counters are unchanged. |
| Uam.UamEnv.HandleRespawn | TUD_RL-main/tud_rl/envs/_envs/UAM.py:391-402 | It reports exactly the respawn mask. With priority, only vertiport entries reset the living time to 0 and every other living time is unchanged. |
| Uam.UamEnv.CountMistakes | TUD_RL-main/tud_rl/envs/_envs/UAM.py:487-496 | Closed entries, accidents and incidents grow by their counts over the pairs `i < j`. |
| Uam.Mistakes | TUD_RL-main/tud_rl/envs/_envs/UAM.py:489-496 | The double loop counts exactly the accident pairs (distance at most 10) and the incident pairs (at most 100 but more than 10). |
| ReplayBufferModel.Latest | agents/DDPG/replay_buffer.py:14 | The latest of the first `count` stores that went to slot i: its number is below `count` and congruent to i mod size, no later store maps to i, and it is one of the last `size` stores. |
| ReplayBufferModel.OverwritesOldest | agents/DDPG/replay_buffer.py:14-21 | Once the buffer is full, the slot a store writes held the store made `size` stores earlier, the oldest one kept. |
| ReplayBufferModel.MaxIndex | agents/DDPG/replay_buffer.py:28 | `min(buffer_count, buffer_size)`. |
| ReplayBufferModel.LatestAfterStore | agents/DDPG/replay_buffer.py:14-21 | A store becomes the latest entry of its own slot and leaves the latest entry of every other slot unchanged. |
| ReplayBufferModel.ReplayBuffer.constructor | agents/DDPG/replay_buffer.py:4-11 | Five zero arrays of `max_size` rows, count 0, and an empty store history. |
| ReplayBufferModel.ReplayBuffer.WriteSlot | agents/DDPG/replay_buffer.py:16-20 | All five arrays are written at the same index, and no other slot changes. |
| ReplayBufferModel.ReplayBuffer.StoreExperience | agents/DDPG/replay_buffer.py:13-21 | It writes slot `buffer_count % buffer_size` (in range), the count grows by exactly 1, and the store joins the history. The invariant is kept: each written slot holds the latest store mapped to it and unwritten slots are still zero. `terminated` defaults to false. |
| ReplayBufferModel.ReplayBuffer.Sample | agents/DDPG/replay_buffer.py:27-37 | `np.random.choice(max_index, batch_size)` raises ValueError, reported as `ok == false`, iff the buffer is empty and `batch_size > 0`. Otherwise there are `batch_size` rows, every index is below `min(buffer_count, buffer_size)`, so it refers to a written slot, and each sampled row is the latest experience stored at that index. |

## Findings

| source | as written | input that shows it | evidently intended | confidence | as-written member | corrected member |
|---|---|---|---|---|---|---|
| TUD_RL-main/tud_rl/common/nets.py:781-788 (also 944-951, 1125-1132) | `s_t2 = s_hist[:, 0, :]` is a view, so `s_t2[hist_len < 2, :] = 0.0` zeroes `s_hist[b, 0, :]` before `s_t1` is gathered. At `hist_len == 1`, where `t1_idx` is 0, `s_{t-1}` is a zero row. | batch of one element, capacity 2, `hist_len = [1]`, a stored `s_hist[0][0]` with a non-zero feature: the pass reads `inner_1(zeros)` instead of `inner_1(s_hist[0][0])` | the real `s_{t-1}` from the history, as the comment at line 780 says, with only `s_{t-2}` zeroed | high (not executed) | NetsRecurrent.AliasedStepT1Differs | NetsRecurrent.OuterRec |

`NetsRecurrent.OuterRecAsWritten`, `GatherAliased` and `AliasedStepT1` model the code as written. `AsWrittenDiffersOnlyAtOne` shows that the two passes agree whenever no element has `hist_len == 1`. The rest of the model, with `OuterOutputUsesValidSteps`, is about the intended pass `NetsRecurrent.OuterRec`.

## Left out

- Neural-network numerics are left out: Linear, LSTM, Conv2d, relu/tanh, Gaussian sampling and log-probabilities. Layers are function parameters, and an LSTM is a causal cell started from a zero state.
- Network classes other than those named in the table are not part of this model: Double_MLP, the MinAtar and Bootstrapped DQNs, GaussianActor, TQC_Critics and the double critics. Beyond index selection and masking, the LSTM actor/critic forward passes are not modelled either.
- The feed-forward parts of `RecDQN.forward` and `_final_dense_forward` are left out; they are opaque layer compositions.
- NetsMlp.Forward: when the KeyError is raised the earlier layers have already run, but the model returns only the error because those values are not observable.
- NetsMlp.BuildMlp: an element with a non-integer unit count, or a list that is not a pair, is outside the structure datatype.
- NetsRecurrent.OuterOutputEndsWithCurrent: for a capacity above 2 only the last input is stated. The roll then moves zero rows in front of the history steps, and the code evidently assumes a capacity of 2.
- Tensor aliasing in the outer pass is modelled by `NetsRecurrent.OuterRecAsWritten`. `s_t2 = s_hist[:, 0, :]` is a view, so its zeroing writes into the caller's `s_hist`, and `s_t1` is gathered from the written history (see Findings).
- The NaN fill in `RecDQN._inner_rec` and `LSTMRecDQN._inner_rec` works on a view of its input (nets.py:662 and 838), so it also zeroes NaN entries of the caller's `s`, and through `s_t2` of `s_hist`. The fill runs after the present count and after `s_t1` was gathered, so no value of the pass depends on it. The model's inner recurrence fills a copy and does not capture that side effect on the caller's tensors. `LSTMRecActor` and `LSTMRecCritic` index with a list (lines 1000-1003 and 1183-1186), which copies.
- NetsRecurrent.OuterRecAsWritten: in LSTMRecDQN the NaN fill of the t-2 inner recurrence also writes through `s_t2` into entry 0 of the caller's history (nets.py:844 and 858). The final history there also has the NaN entries of entry 0 replaced by 0. The postcondition on the history does not include that fill, so it is exact only when entry 0 has no NaN, or for LSTMRecActor and LSTMRecCritic, whose list indexing copies. No value the pass computes depends on it.
- NetsRecurrent.OuterRec: requires `0 <= hist_len <= history_length` for every batch element, as the environments supply it. A larger `hist_len` would raise IndexError at the gather of `s_t1`, and a negative one would pick from the end of the outer output.
- The geometry helpers are left out: `ED`, `angle_to_2pi`, `bng_rel`, `head_inter`, `cpa`, `tcpa`, `angle_to_pi`, `qdrdist`, `latlondist` and `to_utm`. Their results are inputs. For `angle_to_pi` the classifier takes the raw and the wrapped bearing, related by a predicate, which leaves open the convention at exactly 180 degrees.
- DuneEnv.Angle2Pi: `angle_to_2pi` comes from `VesselFnc`, which is not part of this model. It is assumed to be the floor-based wrap into [0, 2*pi), and `NextHeading`'s range and `RightThenLeft` rest on that assumption.
- DuneEnv.CollisionRisk: `exp` and `log` are parameters, so the contract states only the clamps and the choice among the two terms, not their values.
- The distance and heading rewards, the weighted reward sum of `_calculate_reward` are left out. The non-linear collision term is `-sqrt(cr)` with `sqrt` a parameter, so its value is not computed.
- The `isinstance(a, int)` part of the `_heading_control` assertion is left out, because actions are integers in the model.
- No `float32` rounding (`astype(np.float32)`) is modelled: values are exact reals.
- Randomness is left out:
  - `_get_TS`, `_spawn_plane`, `reset` and `step`;
  - the sampled positions of respawned planes (only which planes respawn is modelled);
  - `np.random.choice` in `buffer_sample`, whose batch indices are a parameter.
- UAM `_calculate_reward`, `_get_state_multi`, the multi-policy branch of `_set_state` and the `self.state = _get_state(0)` assignment are left out. The per-plane state is modelled by `Uam.PlaneState` and the history by `UamEnv.UpdateHistory`.
- In UAM, bearings and heading intersections enter already wrapped and divided by pi, so the geodesic arithmetic is not modelled.
- Rendering and trajectory plotting are left out.
- The SUMO/traci glue, the placeholder agent wrappers and checkpoint save/load are left out.
- ReplayBufferModel.ReplayBuffer.StoreExperience: with a zero-size buffer, Python's modulus raises ZeroDivisionError before anything is written. The model reports this as `ok == false` with nothing changed.
- The replay buffer does not model numpy's row-shape broadcasting. A stored state is kept as given, with no check against `input_shape`.
- `np.bool` in the replay buffer constructor is not modelled: it is a removed alias on recent numpy releases, and the model takes the buffer's boolean array as given.
