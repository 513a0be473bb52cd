# Offloaded sequential model: shard partitioning and wavefront residency

This project models the core of fairscale's `OffloadModel`
(`fairscale/nn/misc/offload.py`) in Dafny and proves properties of it.
`OffloadModel` wraps a sequential model. It cuts the model into shards, keeps
every shard's parameters on a backing store (the CPU), and streams the shards
onto the fast device (the GPU) one at a time, just ahead of the compute
wavefront. The forward pass and the reverse (gradient) sweep both work this
way.

Three Dafny modules mirror the three parts of the file:

- `Partition` (partition.dfy) models `_split`, the greedy partitioner.
  - A stage is its parameter count (`nat`).
  - The method `Split` is the loop of the source. `SplitPlan` is the function
    it is proved against.
  - The two crashes of the source are modelled as `Err` values:
    - `ZeroDivision`: `total // number_splits` with zero groups.
    - `IndexOutOfRange`: `splits[0]` after a negative split count.
- `Schedule` (schedule.dfy) holds the residency side on values:
  - the event log of loads, drops and computes;
  - each shard's transfer history read off that log;
  - the event lists and residency effects of one forward hook, one backward
    hook and whole sweeps;
  - the lemmas on histories (wavefront, load/drop/load/drop per step,
    alternation).
- `Offload` (offload.dfy) holds the state:
  - The class `OffloadModel` has:
    - the shards (`slices`);
    - a residency array with one `Tier` per shard;
    - the activation table `_activations`, as records of tensors plus a
      device tag;
    - the event log `trace`.
  - `Valid()` ties each shard's residency slot to the last transfer issued for
    it. It also requires that no shard has ever computed while its latest
    transfer was a drop.
  - `ShardSyncLayer.Forward` and `ShardSyncLayer.Backward` are the two hooks.
  - `OffloadModel.Forward` is the forward loop over boundaries `-1 .. N-1`.
  - `ReverseSweep` calls the backward hooks for boundaries `N-1` down to
    `-1`. That the gradient engine calls them in this order, and calls every
    one of them, is an assumption of the model (see "## Left out").

Tensors are an opaque type `T`. A device move (`.cuda()`, `.cpu()`,
`.to(device)`) only changes a `Tier` tag. The compute of shard `i` is an
uninterpreted function `compute(i, tensors)`. `Chain` gives the boundary
values of the shards composed through the forward hook: each shard's output is
wrapped as a tuple and unpacked into the next shard. This is not the same as
running `self.model` without offloading, which passes a shard's output on as
one argument and does not unwrap a final 1-tuple.

The partitioner can leave trailing groups empty:
- `SplitLeavesTrailingEmpty` shows `[100, 1, 1]` with 3 splits giving
  `[[100], [1, 1], []]`.
- So the model promises non-empty groups only up to the final shard pointer,
  not for every group (`SplitFilled`).
- Groups are balanced in the sense `SplitBalance` states, not in stage counts.

## Model

| member | source | states |
|---|---|---|
| Partition.Split | fairscale/nn/misc/offload.py:19-51 | The appending loop returns exactly the plan: `Ok` iff the stage list is non-empty and at least one split is asked for (or the list is empty and the count negative). On success the groups concatenate back to the stages and there are min(len, number_splits) of them. |
| Partition.Place | fairscale/nn/misc/offload.py:37-45 | One step of the walk keeps the group count. It moves the pointer by at most one and keeps it in range. It moves only away from a group of positive volume. |
| Partition.Greedy | fairscale/nn/misc/offload.py:27-45 | The walk yields exactly n groups and a pointer below n. |
| Partition.GreedyStep | fairscale/nn/misc/offload.py:33-45 | Walking one more stage is one more `Place` step. |
| Partition.PlaceShaped | fairscale/nn/misc/offload.py:37-45 | One step preserves the invariant of the walk: coverage, empty groups after the pointer, positive volume before it, per-group balance. |
| Partition.GreedyShaped | fairscale/nn/misc/offload.py:21-45 | The walk over any stage list satisfies that invariant. |
| Partition.SplitCoverage | fairscale/nn/misc/offload.py:20-45 | The groups of a successful split concatenate, in order, to the stage list. Each stage is placed once. There are min(len(modules), number_splits) groups. |
| Partition.PointerSteps | fairscale/nn/misc/offload.py:38-43 | The shard pointer never decreases, advances by at most one per stage and never exceeds number_splits - 1. |
| Partition.SplitFilled | fairscale/nn/misc/offload.py:38-45 | The first group holds the first stage. A group followed by a non-empty group has positive volume. Once a group is empty, every later group is empty. |
| Partition.SplitBalance | fairscale/nn/misc/offload.py:25-43 | Every group but the last has volume at most total // number_splits, unless exactly one of its stages has parameters. So it is at most max(target, largest stage). |
| Partition.GreedyBalance | fairscale/nn/misc/offload.py:38-45 | The same balance for the walk with any target and any number of groups. |
| Partition.ShapedBalance | fairscale/nn/misc/offload.py:38-45 | The invariant of the walk implies that balance for all groups but the last. |
| Partition.GroupBalance | fairscale/nn/misc/offload.py:38-45 | The invariant of the walk implies that balance for one given group. |
| Partition.SplitLeavesTrailingEmpty | fairscale/nn/misc/offload.py:38-45 | Stages [100, 1, 1] with 3 splits give [[100], [1, 1], []]: the last group stays empty. |
| Schedule.ForwardHookEvents | fairscale/nn/misc/offload.py:133-141 | The forward hook at `index` issues a drop of shard `index` iff index >= 0 and a load of shard index+1 iff index+1 < N, the drop first. |
| Schedule.BackwardHookEvents | fairscale/nn/misc/offload.py:164-178 | The backward hook issues a drop of shard index+1 iff index+1 < N and a load of shard `index` iff index >= 0, the drop first. |
| Schedule.ForwardHookTiers | fairscale/nn/misc/offload.py:133-141 | After the forward hook, shard index+1 is on the fast device and shard `index` on the backing store. Every other shard is unchanged. |
| Schedule.BackwardHookTiers | fairscale/nn/misc/offload.py:164-178 | After the backward hook, shard `index` is on the fast device and shard index+1 on the backing store. Every other shard is unchanged. |
| Schedule.ForwardSweepStep | fairscale/nn/misc/offload.py:247-255 | One forward hook advances the residency of the sweep by one boundary: shards passed dropped, the next loaded, the rest untouched. |
| Schedule.ForwardSweepDone | fairscale/nn/misc/offload.py:247-258 | After the hooks of all boundaries, every shard is on the backing store. |
| Schedule.BackwardSweepStep | fairscale/nn/misc/offload.py:151-178 | One backward hook moves the residency of the reverse sweep down by one boundary. |
| Schedule.BackwardSweepDone | fairscale/nn/misc/offload.py:151-178 | After the backward hooks down to the input sentinel, every shard is on the backing store. |
| Schedule.ForwardLogStep | fairscale/nn/misc/offload.py:247-258 | One iteration of the forward loop appends the compute of shard `index` and the hook's events to the log. |
| Schedule.HistoryConcat | fairscale/nn/misc/offload.py:94-109 | A shard's transfer history over two logs in sequence is the concatenation of the two histories. |
| Schedule.HookHistory | fairscale/nn/misc/offload.py:133-178 | The history of a hook's drop-then-load list is the drop's part followed by the load's part. |
| Schedule.TierAfterAppend | fairscale/nn/misc/offload.py:94-109 | A load puts its shard on the fast device and a drop puts it on the backing store. No other shard moves, and a compute moves nothing. |
| Schedule.ComputedAppend | fairscale/nn/misc/offload.py:78-79 | Appending a transfer, or a compute of a shard whose latest transfer is a load, keeps "computed only while loaded". |
| Schedule.ForwardStepHistory | fairscale/nn/misc/offload.py:133-141 | In one forward iteration shard i sees a drop iff i == index and a load iff i == index+1. |
| Schedule.BackwardHookHistory | fairscale/nn/misc/offload.py:164-178 | In one backward hook shard i sees a drop iff i == index+1 and a load iff i == index. |
| Schedule.ForwardHistory | fairscale/nn/misc/offload.py:247-258 | Over the forward sweep up to boundary `upto`, shard i has seen nothing, [Load], or [Load, Drop]. |
| Schedule.BackwardHistory | fairscale/nn/misc/offload.py:151-178 | Over the reverse sweep down to `from`, shard i has seen nothing, [Load], or [Load, Drop]. |
| Schedule.ForwardHistoryStep | fairscale/nn/misc/offload.py:247-258 | The forward history grows by the events of one boundary. |
| Schedule.BackwardHistoryStep | fairscale/nn/misc/offload.py:151-178 | The reverse history grows by the events of one hook. |
| Schedule.ForwardWavefront | fairscale/nn/misc/offload.py:247-258 | Starting from the backing store, during the forward sweep exactly shard `upto` is on the fast device. |
| Schedule.BackwardWavefront | fairscale/nn/misc/offload.py:151-178 | Starting from the backing store, during the reverse sweep exactly shard `from` is on the fast device. |
| Schedule.CycleAlternates | fairscale/nn/misc/offload.py:133-178 | Adding load, drop, load, drop to an alternating history that ends on the backing store keeps it alternating. |
| Schedule.FullCycle | fairscale/nn/misc/offload.py:133-178 | A full forward sweep then a full reverse sweep add exactly load, drop, load, drop to every shard's history. Every shard ends on the backing store, and alternation is preserved. |
| Offload.MoveTo | fairscale/nn/misc/offload.py:162-178 | A device move keeps the tensors and sets only the device. |
| Offload.AsTuple | fairscale/nn/misc/offload.py:148 | The forward hook passes a tuple on unchanged and a single tensor as a 1-tuple holding it. |
| Offload.Unwrap | fairscale/nn/misc/offload.py:264-265 | The result is a single tensor exactly when the last entry is a 1-tuple. Wrapping the result again gives back that tuple. |
| Offload.UnwrapAsTuple | fairscale/nn/misc/offload.py:264-265 | Unwrapping what the hook passed on gives back the shard's own output iff that output is not a 1-tuple. |
| Offload.BoundariesStep | fairscale/nn/misc/offload.py:252-256 | The boundary values of the shards composed through the hook grow by the next shard applied to the previous boundary. |
| Offload.Heads | fairscale/nn/misc/offload.py:182-185 | Entry k of the result is the first gradient of the k-th incoming gradient tuple. |
| Offload.DevicesMove | fairscale/nn/misc/offload.py:162-178 | Moving one table entry changes the device column at that entry only. |
| Offload.PayloadsMove | fairscale/nn/misc/offload.py:162-178 | Moving one table entry changes no payload. |
| Offload.PayloadsChain | fairscale/nn/misc/offload.py:251-256 | A table whose payloads are the first boundaries holds, entry by entry, the boundary values of the shards composed through the hook. |
| Offload.ForwardDevicesStep | fairscale/nn/misc/offload.py:251-258 | One forward boundary sends the consumed entry to the backing store and appends the new entry on the fast device (the input entry on the input's device). |
| Offload.ForwardDevicesDone | fairscale/nn/misc/offload.py:256-264 | After the forward loop, entries 0..N-1 are on the backing store and entry N is on the fast device (with N = 0, the input's device). |
| Offload.BackwardHookDevices | fairscale/nn/misc/offload.py:159-178 | The backward hook puts entry `index` on the fast device and entry index+1 on the backing store. If index+1 is the last entry, it puts that entry on the fast device instead. Other entries are unchanged. |
| Offload.BackwardDevicesStep | fairscale/nn/misc/offload.py:159-178 | One backward hook moves the device pattern of the reverse sweep down by one boundary. |
| Offload.BackwardDevicesDone | fairscale/nn/misc/offload.py:159-178 | After the reverse sweep every entry is on the backing store except the last, which is on the fast device. |
| Offload.OffloadModel.constructor | fairscale/nn/misc/offload.py:212-242 | The shards are the groups of `_split`, concatenating back to the stages. Every shard starts on the backing store, and the table and log are empty. |
| Offload.OffloadModel.LoadShard | fairscale/nn/misc/offload.py:94-101 | Shard i moves to the fast device, the log records the load, and no other shard moves. |
| Offload.OffloadModel.DropShard | fairscale/nn/misc/offload.py:103-109 | Shard i moves to the backing store, the log records the drop, and no other shard moves. |
| Offload.OffloadModel.RunShard | fairscale/nn/misc/offload.py:78-79 | The shard's forward is the compute of that shard on the given tensors. It is callable only while the shard is on the fast device, and the log records it. |
| Offload.OffloadModel.Forward | fairscale/nn/misc/offload.py:244-265 | The log grows by exactly the forward sweep's events and every shard ends on the backing store. The table holds the N+1 boundary values of the shards composed through the hook, entries 0..N-1 on the backing store and entry N left on the fast device. The result is the last boundary unwrapped. |
| Offload.OffloadModel.ForwardBoundary | fairscale/nn/misc/offload.py:248-258 | One iteration computes shard `index` on the previous boundary and runs the forward hook. It appends the synced output and moves the consumed entry to the backing store. |
| Offload.OffloadModel.ReverseSweep | fairscale/nn/misc/offload.py:151-185 | The backward hooks for N-1 down to -1 grow the log by the reverse sweep's events and leave every shard on the backing store. Payloads stay the same; only the last entry is on the fast device. The gradients passed on are the first of each incoming tuple. |
| Offload.OffloadModel.BackwardBoundary | fairscale/nn/misc/offload.py:151-185 | One backward hook moves residency and devices down by one boundary, keeps the payloads and passes the first gradient on. |
| Offload.ShardSyncLayer.Forward | fairscale/nn/misc/offload.py:128-148 | The hook issues exactly its drop/load events, updates residency accordingly, and returns its input as a tuple (a single tensor as a 1-tuple). |
| Offload.ShardSyncLayer.Backward | fairscale/nn/misc/offload.py:151-185 | The hook issues exactly its drop/load events, updates residency and the table's devices accordingly, and keeps every payload. It returns the first gradient followed by three `None`s. |
| Offload.TrainingStep | fairscale/nn/misc/offload.py:128-185 | A forward pass then the reverse sweep give each shard exactly load, drop, load, drop, keeping alternation. All shards end on the backing store. The result is the last boundary of the shards composed through the hook, unwrapped. |

## Left out

- CUDA streams and the `non_blocking` flag (offload.py:74-76, 94-109): these exist only for concurrency. Each load or drop is one atomic event.
- Real `torch` devices and tensors: a device is the tag `Fast` or `Backing`, and tensors are an opaque type.
- The floating-point arithmetic of a shard's forward: it is the uninterpreted function `compute`.
- The autograd engine (`torch.autograd.Function`, `ShardSyncLayer.apply`) and when it fires the backward hook. `ReverseSweep` fixes the order N-1 down to -1. The hook's saving of `ctx` is reduced to the `index` argument.
- `logging.info` and its float-formatted summaries (offload.py:29-31, 47-49, 135, 140, 166, 174).
- `ModelShard.to`, `train` and `to_device` (offload.py:81-92): thin wrappers over torch, which this model does not call.
- `forward_load` and `backward_load`, and likewise the two drops, have identical effects. Each pair is modelled by the one method `LoadShard` or `DropShard`.
- `ModelShard.__init__`'s move to the offload device (offload.py:73) appears only as every shard starting on the backing store.
- `nn.Sequential` wrapping of the shards and `self.model` (offload.py:232-239): only the group of stage volumes each shard holds is kept.
- Offload.ShardSyncLayer.Forward: requires -1 <= index < N, the range the forward loop uses. It does not model Python's negative indexing for an index below -1.
- Offload.ShardSyncLayer.Backward: requires -1 <= index < N and a non-empty gradient tuple, which the gradient engine always supplies.
- Offload.OffloadModel.constructor: requires `_split` to succeed. The two exceptions are modelled in `Partition.Split` but not raised by the constructor.
- Offload.OffloadModel.ReverseSweep: requires the table to have N+1 entries, i.e. a forward pass to have run. This is a precondition, not a check of the source.
- Offload.OffloadModel.Forward: `self._activations[index]` is overwritten by a fresh tuple of moved tensors. The model keeps the same payload and changes only the tag.
- Offload.OffloadModel.ReverseSweep: assumes the gradient engine calls the backward hook for every boundary from N-1 down to -1. At offload.py:255 the hook for index -1 receives the plain tuple `inputs`, which autograd may not track, so that call may never happen. Then shard 0 would not be dropped and entry 0 would not go to the backing store (offload.py:164-170).
- Offload.TrainingStep: "every shard ends on the backing store" and shard 0's load, drop, load, drop rest on that same assumed call for index -1.
- Offload.OffloadModel.Forward: `compute` accepts any number of tensors and always returns. In the source each shard is an `nn.Sequential` (offload.py:234), which takes exactly one input, so line 253 fails with a `TypeError` when a boundary holds zero or several tensors.
- The defaults `n_slices = 5` and `offload_device = cpu` of the constructor (offload.py:216-217) are not modelled: the split count is a parameter and the backing store is the one `Backing` tier.
- The `**_` keyword arguments of `forward` (offload.py:244) are ignored by the source and absent from the model.
