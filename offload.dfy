/** The offloading wrapper: a sequential model cut into shards whose
    parameters live on the backing store and are streamed onto the fast device
    one shard ahead of the compute wavefront, in the forward sweep and,
    mirrored, in the reverse sweep. Tensors are opaque values of type `T`;
    device moves change only a residency tag; the compute of a shard is an
    uninterpreted function. */
module Offload {
  import opened Partition
  import opened Schedule

  datatype Option<T> = None | Some(value: T)

  /** What a shard returns: one tensor, or a tuple of them. */
  datatype Output<T> = Single(value: T) | Tuple(values: seq<T>)

  /** The boundary value stored in the activation table: its tensors and the
      device they are on. */
  datatype Activation<T> = Activation(values: seq<T>, device: Tier)

  /** A device move: `tuple([a.cuda() for a in ...])` or `.cpu()`. */
  function MoveTo<T>(a: Activation<T>, device: Tier): (b: Activation<T>)
    ensures b.values == a.values && b.device == device
  {
    a.(device := device)
  }

  /** The value the forward hook passes on: a tuple as it is, a single tensor
      as a 1-tuple. */
  function AsTuple<T>(o: Output<T>): (r: seq<T>)
    ensures o.Tuple? ==> r == o.values
    ensures o.Single? ==> |r| == 1 && r[0] == o.value
  {
    match o
    case Single(x) => [x]
    case Tuple(xs) => xs
  }

  /** The unwrapping at the end of the forward pass: the sole element of a
      1-tuple, otherwise the whole tuple. Wrapping the result again gives
      back the tuple. */
  function Unwrap<T>(xs: seq<T>): (r: Output<T>)
    ensures r.Single? <==> |xs| == 1
    ensures AsTuple(r) == xs
  {
    if |xs| == 1 then
      assert [xs[0]] == xs;
      Single(xs[0])
    else Tuple(xs)
  }

  /** Unwrapping what the hook passed on gives back the shard's own output,
      exactly when that output is not a 1-tuple. */
  lemma UnwrapAsTuple<T>(o: Output<T>)
    ensures Unwrap(AsTuple(o)) == o <==> !(o.Tuple? && |o.values| == 1)
  {
  }

  /** The boundary values of the shards composed through the forward hook:
      the inputs, then each shard applied to the previous boundary's tensors,
      its output wrapped as a tuple. Residency plays no part in them. */
  function Chain<T>(compute: (nat, seq<T>) -> Output<T>, inputs: seq<T>, k: nat): seq<T> {
    if k == 0 then inputs else AsTuple(compute(k - 1, Chain(compute, inputs, k - 1)))
  }

  /** The first `m` boundary values of the shards composed through the hook. */
  function Boundaries<T>(compute: (nat, seq<T>) -> Output<T>, inputs: seq<T>, m: nat): seq<seq<T>> {
    seq(m, k requires 0 <= k => Chain(compute, inputs, k))
  }

  /** One more boundary value is the next shard applied to the last one. */
  lemma BoundariesStep<T>(compute: (nat, seq<T>) -> Output<T>, inputs: seq<T>, m: nat)
    ensures Boundaries(compute, inputs, m + 1) == Boundaries(compute, inputs, m) + [Chain(compute, inputs, m)]
  {
  }

  /** The tensors of each entry of an activation table, without the devices. */
  function Payloads<T>(acts: seq<Activation<T>>): seq<seq<T>> {
    seq(|acts|, k requires 0 <= k < |acts| => acts[k].values)
  }

  /** The first gradient of each incoming gradient tuple, in order. */
  function Heads<T>(xs: seq<seq<T>>): (h: seq<T>)
    requires forall k :: 0 <= k < |xs| ==> xs[k] != []
    ensures |h| == |xs|
    ensures forall k :: 0 <= k < |xs| ==> h[k] == xs[k][0]
  {
    if xs == [] then [] else Heads(xs[..|xs| - 1]) + [xs[|xs| - 1][0]]
  }

  /** The device of every entry of the activation table. */
  function Devices<T>(acts: seq<Activation<T>>): (d: seq<Tier>)
    ensures |d| == |acts|
  {
    seq(|acts|, k requires 0 <= k < |acts| => acts[k].device)
  }

  /** Moving one entry of the table changes the device of that entry only. */
  lemma DevicesMove<T>(acts: seq<Activation<T>>, i: nat, device: Tier)
    requires i < |acts|
    ensures Devices(acts[i := MoveTo(acts[i], device)]) == Devices(acts)[i := device]
  {
  }

  /** Devices of the table once the forward sweep has stored boundaries
      -1 .. upto-1: every consumed entry on the backing store, the newest on
      the fast device, or where the caller put the inputs when it is them. */
  function ForwardSweepDevices(upto: int, inputDevice: Tier): (d: seq<Tier>)
    requires upto >= -1
    ensures |d| == upto + 1
  {
    seq(upto + 1, k requires 0 <= k <= upto => if k < upto then Backing else if k == 0 then inputDevice else Fast)
  }

  /** One forward boundary extends the device pattern of the forward sweep:
      the consumed entry goes to the backing store and the new entry lands on
      the fast device (the caller's device for the inputs). */
  lemma ForwardDevicesStep(index: int, inputDevice: Tier)
    requires index >= -1
    ensures index >= 0 ==>
      (ForwardSweepDevices(index, inputDevice)[index := Fast] + [Fast])[index := Backing]
      == ForwardSweepDevices(index + 1, inputDevice)
    ensures index == -1 ==>
      ForwardSweepDevices(index, inputDevice) + [inputDevice] == ForwardSweepDevices(index + 1, inputDevice)
  {
  }

  /** After the forward sweep the consumed entries are on the backing store and
      the output is on the fast device, or where the caller put the inputs when
      there are no shards. */
  lemma ForwardDevicesDone(n: nat, inputDevice: Tier)
    ensures ForwardSweepDevices(n, inputDevice) == seq(n, _ => Backing) + [if n == 0 then inputDevice else Fast]
  {
  }

  /** Devices of a table of N+1 entries after the backward hook at boundary
      `index`: entry `index + 1` goes to the backing store, or to the fast
      device when it is the output; entry `index` goes to the fast device. */
  function BackwardHookDevices(d: seq<Tier>, index: int): (e: seq<Tier>)
    requires -1 <= index < |d| - 1
    ensures |e| == |d|
    ensures forall k :: 0 <= k < |e| ==>
      e[k] == (if k == index || k == index + 1 == |d| - 1 then Fast
               else if k == index + 1 then Backing
               else d[k])
  {
    var dropped := d[index + 1 := if index + 1 == |d| - 1 then Fast else Backing];
    if index >= 0 then dropped[index := Fast] else dropped
  }

  /** Devices of a table of N+1 entries after the backward hooks of boundaries
      N-1 down to `from`, starting from `d0`: the output and entry `from` on
      the fast device, the entries passed on the backing store, the entries
      below `from` as they were. */
  function BackwardSweepDevices(d0: seq<Tier>, from: int): (d: seq<Tier>)
    ensures |d| == |d0|
  {
    seq(|d0|, k requires 0 <= k < |d0| =>
      if k < from then d0[k]
      else if k == |d0| - 1 then (if from < |d0| - 1 then Fast else d0[k])
      else if k == from then Fast
      else Backing)
  }

  /** After the reverse sweep every entry is on the backing store except the
      output, which the first backward hook brought to the fast device. */
  lemma BackwardDevicesDone(d0: seq<Tier>)
    requires |d0| >= 1
    ensures BackwardSweepDevices(d0, -1) == seq(|d0| - 1, _ => Backing) + [Fast]
  {
  }

  /** One backward hook moves the device pattern of the reverse sweep down by
      one boundary. */
  lemma BackwardDevicesStep(d0: seq<Tier>, index: int)
    requires -1 <= index < |d0| - 1
    ensures BackwardHookDevices(BackwardSweepDevices(d0, index + 1), index) == BackwardSweepDevices(d0, index)
  {
  }

  /** A table whose payloads are the first boundaries holds the boundary values entry by entry. */
  lemma PayloadsChain<T>(acts: seq<Activation<T>>, compute: (nat, seq<T>) -> Output<T>, inputs: seq<T>)
    requires Payloads(acts) == Boundaries(compute, inputs, |acts|)
    ensures forall k :: 0 <= k < |acts| ==> acts[k].values == Chain(compute, inputs, k)
  {
    forall k | 0 <= k < |acts|
      ensures acts[k].values == Chain(compute, inputs, k)
    {
      assert Payloads(acts)[k] == acts[k].values;
    }
  }

  /** Moving one entry of the table to another device leaves every payload as it was. */
  lemma PayloadsMove<T>(acts: seq<Activation<T>>, i: nat, device: Tier)
    requires i < |acts|
    ensures Payloads(acts[i := MoveTo(acts[i], device)]) == Payloads(acts)
  {
  }

  /** The wrapper: its shards' residency, the activation table and the log of
      the transfers and computes it has issued. */
  class OffloadModel<T> {
    /** The stage volumes each shard holds, as `_split` grouped them. */
    const slices: seq<seq<nat>>
    /** Where each shard's parameters are. */
    const residency: array<Tier>
    /** The forward of shard `i` on a tuple of tensors. */
    const compute: (nat, seq<T>) -> Output<T>
    /** `_activations`: one entry per boundary. */
    var activations: seq<Activation<T>>
    /** Every load, drop and compute issued so far, in order. */
    var trace: seq<Event>

    /** The residency array agrees with the last transfer issued for each
        shard, and no shard has computed while dropped. */
    ghost predicate Valid()
      reads this, residency
    {
      && residency.Length == |slices|
      && (forall i {:trigger TierAfter(trace, i)} :: 0 <= i < residency.Length ==> residency[i] == TierAfter(trace, i))
      && ComputedWhileLoaded(trace)
    }

    /** Split the stages into shards and place every shard on the backing store. */
    constructor (stages: seq<nat>, nSlices: int, compute: (nat, seq<T>) -> Output<T>)
      requires SplitPlan(stages, nSlices).Ok?
      ensures Valid() && fresh(residency)
      ensures slices == SplitPlan(stages, nSlices).value && Flatten(slices) == stages
      ensures forall i :: 0 <= i < residency.Length ==> residency[i] == Backing
      ensures activations == [] && trace == [] && this.compute == compute
    {
      var r := Split(stages, nSlices);
      slices := r.value;
      residency := new Tier[|r.value|](_ => Backing);
      this.compute := compute;
      activations := [];
      trace := [];
    }

    /** The forward pass: boundaries -1 .. N-1 in order; each shard computes on
        the tensors of the previous boundary, the hook streams the shards, the
        consumed entry goes to the backing store and the last stays put. */
    method Forward(inputs: seq<T>, inputDevice: Tier) returns (result: Output<T>)
      requires Valid()
      modifies this, residency
      ensures Valid()
      ensures trace == old(trace) + ForwardEvents(residency.Length, residency.Length)
      ensures residency[..] == seq(residency.Length, _ => Backing)
      ensures Payloads(activations) == Boundaries(compute, inputs, residency.Length + 1)
      ensures Devices(activations) ==
        seq(residency.Length, _ => Backing) + [if residency.Length == 0 then inputDevice else Fast]
      ensures result == Unwrap(Chain(compute, inputs, residency.Length))
    {
      var n := residency.Length;
      ghost var r0 := residency[..];
      assert ForwardSweepTiers(r0, -1) == r0;
      activations := [];
      var index := -1;
      while index < n
        invariant -1 <= index <= n
        invariant Valid()
        invariant trace == old(trace) + ForwardEvents(n, index)
        invariant residency[..] == ForwardSweepTiers(r0, index)
        invariant Payloads(activations) == Boundaries(compute, inputs, index + 1)
        invariant Devices(activations) == ForwardSweepDevices(index, inputDevice)
      {
        ghost var t1 := trace;
        ForwardBoundary(index, inputs, inputDevice, r0);
        assert trace == old(trace) + ForwardEvents(n, index + 1) by {
          ghost var c: seq<Event> := if index >= 0 then [Compute(index)] else [];
          ForwardLogStep(old(trace), t1, t1 + c, trace, n, index);
        }
        index := index + 1;
      }
      ForwardSweepDone(r0);
      ForwardDevicesDone(n, inputDevice);
      PayloadsChain(activations, compute, inputs);
      result := Unwrap(activations[n].values);
    }

    /** One iteration of the forward loop at boundary `index`: bring the
        entry `index` onto the fast device and run shard `index` on it (not at
        the input sentinel), fire the hook, append the synced value, and send
        the consumed entry to the backing store. */
    method ForwardBoundary(index: int, inputs: seq<T>, inputDevice: Tier, ghost r0: seq<Tier>)
      requires Valid() && -1 <= index < residency.Length
      requires residency[..] == ForwardSweepTiers(r0, index)
      requires Payloads(activations) == Boundaries(compute, inputs, index + 1)
      requires Devices(activations) == ForwardSweepDevices(index, inputDevice)
      modifies this`activations, this`trace, residency
      ensures Valid()
      ensures trace == old(trace) + ForwardStep(index, residency.Length)
      ensures residency[..] == ForwardSweepTiers(r0, index + 1)
      ensures Payloads(activations) == Boundaries(compute, inputs, index + 2)
      ensures Devices(activations) == ForwardSweepDevices(index + 1, inputDevice)
    {
      var out: Output<T>;
      if index >= 0 {
        PayloadsMove(activations, index, Fast);
        DevicesMove(activations, index, Fast);
        activations := activations[index := MoveTo(activations[index], Fast)];
        assert activations[index].values == Payloads(activations)[index] == Chain(compute, inputs, index);
        out := RunShard(index, activations[index].values);
      } else {
        out := Tuple(inputs);
      }
      assert AsTuple(out) == Chain(compute, inputs, index + 1);
      ghost var payloads := Payloads(activations);
      ghost var devices := Devices(activations);
      var synced := ShardSyncLayer.Forward(out, index, this);
      var entry := Activation(synced, if index >= 0 then Fast else inputDevice);
      activations := activations + [entry];
      assert Payloads(activations) == payloads + [synced];
      assert Devices(activations) == devices + [entry.device];
      if index >= 0 {
        PayloadsMove(activations, index, Backing);
        DevicesMove(activations, index, Backing);
        activations := activations[index := MoveTo(activations[index], Backing)];
      }
      BoundariesStep(compute, inputs, index + 1);
      ForwardDevicesStep(index, inputDevice);
      ForwardSweepStep(r0, index);
      assert trace == old(trace) + ForwardStep(index, residency.Length);
    }

    /** `ModelShard.forward_load` / `backward_load`: shard `i` moves to the
        fast device; the log records the transfer and no other shard moves. */
    method LoadShard(i: nat)
      requires Valid() && i < residency.Length
      modifies this`trace, residency
      ensures Valid()
      ensures trace == old(trace) + [Load(i)]
      ensures residency[..] == old(residency[..])[i := Fast]
    {
      ComputedAppend(trace, Load(i));
      TierAfterAppend(trace, Load(i));
      residency[i] := Fast;
      trace := trace + [Load(i)];
    }

    /** `ModelShard.forward_drop` / `backward_drop`: shard `i` moves to the
        backing store; the log records the transfer and no other shard moves. */
    method DropShard(i: nat)
      requires Valid() && i < residency.Length
      modifies this`trace, residency
      ensures Valid()
      ensures trace == old(trace) + [Drop(i)]
      ensures residency[..] == old(residency[..])[i := Backing]
    {
      ComputedAppend(trace, Drop(i));
      TierAfterAppend(trace, Drop(i));
      residency[i] := Backing;
      trace := trace + [Drop(i)];
    }

    /** `ModelShard.forward`: shard `index` computes on the tensors `args`; it
        may only do so while its parameters are on the fast device. */
    method RunShard(index: nat, args: seq<T>) returns (out: Output<T>)
      requires Valid() && index < residency.Length && residency[index] == Fast
      modifies this`trace
      ensures Valid()
      ensures out == compute(index, args)
      ensures trace == old(trace) + [Compute(index)]
    {
      ComputedAppend(trace, Compute(index));
      TierAfterAppend(trace, Compute(index));
      trace := trace + [Compute(index)];
      out := compute(index, args);
    }

    /** The reverse sweep, assumed to call the backward hook for boundaries
        N-1 down to -1, the k-th call receiving `incoming[k]` and passing on
        its first gradient. */
    method ReverseSweep(incoming: seq<seq<T>>) returns (passed: seq<T>)
      requires Valid() && |activations| == residency.Length + 1
      requires |incoming| == residency.Length + 1
      requires forall k :: 0 <= k < |incoming| ==> incoming[k] != []
      modifies this, residency
      ensures Valid()
      ensures trace == old(trace) + BackwardEvents(residency.Length, -1)
      ensures residency[..] == seq(residency.Length, _ => Backing)
      ensures Payloads(activations) == old(Payloads(activations))
      ensures Devices(activations) == seq(residency.Length, _ => Backing) + [Fast]
      ensures passed == Heads(incoming)
    {
      var n := residency.Length;
      ghost var r0 := residency[..];
      ghost var d0 := Devices(activations);
      ghost var p0 := Payloads(activations);
      assert BackwardSweepTiers(r0, n) == r0;
      assert BackwardSweepDevices(d0, n) == d0;
      var index := n - 1;
      passed := [];
      while index >= -1
        invariant -2 <= index <= n - 1
        invariant Valid()
        invariant trace == old(trace) + BackwardEvents(n, index + 1)
        invariant residency[..] == BackwardSweepTiers(r0, index + 1)
        invariant Payloads(activations) == p0
        invariant Devices(activations) == BackwardSweepDevices(d0, index + 1)
        invariant passed == Heads(incoming[..n - 1 - index])
      {
        var g := BackwardBoundary(incoming[n - 1 - index], index, r0, d0);
        assert incoming[..n - index][..n - 1 - index] == incoming[..n - 1 - index];
        passed := passed + [g];
        index := index - 1;
      }
      assert incoming[..n + 1] == incoming;
      BackwardSweepDone(r0);
      BackwardDevicesDone(d0);
    }

    /** One backward hook of the reverse sweep, at boundary `index`: residency
        and devices move on by one boundary, the payloads stay, and the first
        gradient is passed on. */
    method BackwardBoundary(grads: seq<T>, index: int, ghost r0: seq<Tier>, ghost d0: seq<Tier>) returns (g: T)
      requires Valid() && -1 <= index < residency.Length
      requires |activations| == residency.Length + 1 && grads != []
      requires |r0| == residency.Length && |d0| == residency.Length + 1
      requires residency[..] == BackwardSweepTiers(r0, index + 1)
      requires Devices(activations) == BackwardSweepDevices(d0, index + 1)
      modifies this, residency
      ensures Valid()
      ensures trace == old(trace) + BackwardHookEvents(index, residency.Length)
      ensures residency[..] == BackwardSweepTiers(r0, index)
      ensures Payloads(activations) == old(Payloads(activations))
      ensures Devices(activations) == BackwardSweepDevices(d0, index)
      ensures g == grads[0]
    {
      var r := ShardSyncLayer.Backward(grads, index, this);
      BackwardSweepStep(r0, index);
      BackwardDevicesStep(d0, index);
      g := r[0].value;
    }
  }

  /** The synchronisation point between two shards (an autograd function with
      no state of its own). */
  class ShardSyncLayer {

    /** Forward hook at boundary `index`: drop shard `index` unless it is the
        input sentinel, then load shard `index + 1` unless it is the output
        sentinel; pass the value on as a tuple. */
    static method Forward<T>(inputs: Output<T>, index: int, model: OffloadModel<T>) returns (r: seq<T>)
      requires model.Valid() && -1 <= index < model.residency.Length
      modifies model`trace, model.residency
      ensures model.Valid()
      ensures r == AsTuple(inputs)
      ensures model.trace == old(model.trace) + ForwardHookEvents(index, model.residency.Length)
      ensures model.residency[..] == ForwardHookTiers(old(model.residency[..]), index)
    {
      var n := model.residency.Length;
      if index >= 0 {
        model.DropShard(index);
      }
      if index + 1 < n {
        model.LoadShard(index + 1);
      }
      r := AsTuple(inputs);
    }

    /** Backward hook at boundary `index`: bring the final activation onto the
        fast device when `index + 1` is the output sentinel; otherwise drop
        shard `index + 1` and send its activation to the backing store; then,
        unless `index` is the input sentinel, load shard `index` and bring its
        activation onto the fast device. Only the first gradient flows on. */
    static method Backward<T>(grads: seq<T>, index: int, model: OffloadModel<T>) returns (r: seq<Option<T>>)
      requires model.Valid() && -1 <= index < model.residency.Length
      requires |model.activations| == model.residency.Length + 1
      requires grads != []
      modifies model, model.residency
      ensures model.Valid()
      ensures r == [Some(grads[0]), None, None, None]
      ensures model.trace == old(model.trace) + BackwardHookEvents(index, model.residency.Length)
      ensures model.residency[..] == BackwardHookTiers(old(model.residency[..]), index)
      ensures Payloads(model.activations) == old(Payloads(model.activations))
      ensures Devices(model.activations) == BackwardHookDevices(old(Devices(model.activations)), index)
    {
      var n := model.residency.Length;
      var dropIndex := index + 1;
      if dropIndex == n {
        PayloadsMove(model.activations, n, Fast);
        DevicesMove(model.activations, n, Fast);
        model.activations := model.activations[n := MoveTo(model.activations[n], Fast)];
      }
      if dropIndex < n {
        model.DropShard(dropIndex);
        PayloadsMove(model.activations, dropIndex, Backing);
        DevicesMove(model.activations, dropIndex, Backing);
        model.activations := model.activations[dropIndex := MoveTo(model.activations[dropIndex], Backing)];
      }
      if index >= 0 {
        model.LoadShard(index);
        PayloadsMove(model.activations, index, Fast);
        DevicesMove(model.activations, index, Fast);
        model.activations := model.activations[index := MoveTo(model.activations[index], Fast)];
      }
      r := [Some(grads[0]), None, None, None];
    }
  }

  /** One training step as a caller runs it: the forward pass, then the reverse
      sweep with the backward hooks for boundaries N-1 down to -1. Every shard
      is loaded and dropped once per sweep, ends on the backing store, and the
      activations keep the boundary values of the shards composed through the
      hook. */
  method TrainingStep<T>(model: OffloadModel<T>, inputs: seq<T>, inputDevice: Tier, incoming: seq<seq<T>>)
    returns (result: Output<T>, passed: seq<T>)
    requires model.Valid()
    requires |incoming| == model.residency.Length + 1
    requires forall k :: 0 <= k < |incoming| ==> incoming[k] != []
    modifies model, model.residency
    ensures model.Valid()
    ensures result == Unwrap(Chain(model.compute, inputs, model.residency.Length))
    ensures forall i :: 0 <= i < model.residency.Length ==>
      History(model.trace, i) == History(old(model.trace), i) + [Load(i), Drop(i), Load(i), Drop(i)]
    ensures forall i :: 0 <= i < model.residency.Length ==>
      (Alternates(History(old(model.trace), i)) && old(model.residency[i]) == Backing ==>
       Alternates(History(model.trace, i)))
    ensures model.residency[..] == seq(model.residency.Length, _ => Backing)
    ensures Payloads(model.activations) == Boundaries(model.compute, inputs, model.residency.Length + 1)
    ensures Devices(model.activations) == seq(model.residency.Length, _ => Backing) + [Fast]
    ensures passed == Heads(incoming)
  {
    ghost var t0 := model.trace;
    result := model.Forward(inputs, inputDevice);
    passed := model.ReverseSweep(incoming);
    forall i | 0 <= i < model.residency.Length
      ensures History(model.trace, i) == History(t0, i) + [Load(i), Drop(i), Load(i), Drop(i)]
      ensures Alternates(History(t0, i)) && TierAfter(t0, i) == Backing ==> Alternates(History(model.trace, i))
    {
      FullCycle(t0, model.residency.Length, i);
    }
  }
}
