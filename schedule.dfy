/** The residency side of the wavefront scheduler, on values: the log of
    transfer and compute events the hooks issue, each shard's transfer history
    read off that log, and the event lists one hook call and one whole sweep
    produce. */
module Schedule {

  /** Where a shard's parameters (or an activation's tensors) live. */
  datatype Tier = Fast | Backing

  /** One entry of the event log: a load of a shard onto the fast device, a
      drop of a shard to the backing store, or the compute of a shard. */
  datatype Event =
    | Load(shard: nat)
    | Drop(shard: nat)
    | Compute(shard: nat)

  /** `e` moves the parameters of shard `i`. */
  predicate Moves(e: Event, i: nat) {
    !e.Compute? && e.shard == i
  }

  /** The transfers of shard `i` among the first `k` events of the log, in order. */
  function Transfers(t: seq<Event>, k: nat, i: nat): (h: seq<Event>)
    requires k <= |t|
    ensures |h| <= k
  {
    if k == 0 then [] else Transfers(t, k - 1, i) + (if Moves(t[k - 1], i) then [t[k - 1]] else [])
  }

  /** The transfers of shard `i`, in the order the log holds them. */
  function History(t: seq<Event>, i: nat): (h: seq<Event>)
    ensures |h| <= |t|
  {
    Transfers(t, |t|, i)
  }

  /** Where a shard is after the transfers `h`, starting from the backing store
      (every shard is placed there when it is built). */
  function Settled(h: seq<Event>): Tier {
    if h != [] && h[|h| - 1].Load? then Fast else Backing
  }

  function TierAfter(t: seq<Event>, i: nat): Tier {
    Settled(History(t, i))
  }

  /** Transfers strictly alternate in direction. */
  predicate Alternates(h: seq<Event>) {
    forall k :: 0 <= k < |h| - 1 ==> h[k].Load? != h[k + 1].Load?
  }

  /** Every compute of a shard in the log happens while the latest transfer
      issued for that shard is a load. */
  ghost predicate ComputedWhileLoaded(t: seq<Event>) {
    forall p {:trigger TierAfter(t[..p], t[p].shard)} :: 0 <= p < |t| && t[p].Compute? ==> TierAfter(t[..p], t[p].shard) == Fast
  }

  // ---------------------------------------------------------------------------
  // Event lists of the hooks

  /** What the forward hook at boundary `index` issues among `n` shards:
      drop shard `index` unless it is the input sentinel, then load shard
      `index + 1` unless it is the output sentinel. */
  function ForwardHookEvents(index: int, n: nat): (ev: seq<Event>)
    requires -1 <= index < n
    ensures |ev| == (if index >= 0 then 1 else 0) + (if index + 1 < n then 1 else 0)
    ensures index >= 0 ==> ev[0] == Drop(index)
    ensures index + 1 < n ==> ev[|ev| - 1] == Load(index + 1)
  {
    (if index >= 0 then [Drop(index)] else []) + (if index + 1 < n then [Load(index + 1)] else [])
  }

  /** What the backward hook at boundary `index` issues among `n` shards:
      drop shard `index + 1` unless it is the output sentinel, then load shard
      `index` unless it is the input sentinel. */
  function BackwardHookEvents(index: int, n: nat): (ev: seq<Event>)
    requires -1 <= index < n
    ensures |ev| == (if index + 1 < n then 1 else 0) + (if index >= 0 then 1 else 0)
    ensures index + 1 < n ==> ev[0] == Drop(index + 1)
    ensures index >= 0 ==> ev[|ev| - 1] == Load(index)
  {
    (if index + 1 < n then [Drop(index + 1)] else []) + (if index >= 0 then [Load(index)] else [])
  }

  /** One iteration of the forward sweep at boundary `index`: shard `index`
      computes unless `index` is the input sentinel, then the hook fires. */
  function ForwardStep(index: int, n: nat): seq<Event>
    requires -1 <= index < n
  {
    (if index >= 0 then [Compute(index)] else []) + ForwardHookEvents(index, n)
  }

  /** The log of the forward sweep after boundaries -1 .. upto-1. */
  function ForwardEvents(n: nat, upto: int): seq<Event>
    requires -1 <= upto <= n
    decreases upto + 1
  {
    if upto == -1 then [] else ForwardEvents(n, upto - 1) + ForwardStep(upto - 1, n)
  }

  /** The log of the reverse sweep after the backward hooks for boundaries
      n-1 down to `from`. */
  function BackwardEvents(n: nat, from: int): seq<Event>
    requires -1 <= from <= n
    decreases n - from
  {
    if from == n then []
    else BackwardEvents(n, from + 1) + BackwardHookEvents(from, n)
  }

  // ---------------------------------------------------------------------------
  // Residency of the shards under the hooks

  /** Where the shards are after the forward hook at boundary `index`: shard
      `index` dropped, shard `index + 1` loaded, every other shard untouched. */
  function ForwardHookTiers(r: seq<Tier>, index: int): (s: seq<Tier>)
    requires -1 <= index < |r|
    ensures |s| == |r|
    ensures forall i :: 0 <= i < |s| ==>
      s[i] == (if i == index + 1 then Fast else if i == index then Backing else r[i])
  {
    var dropped := if index >= 0 then r[index := Backing] else r;
    if index + 1 < |r| then dropped[index + 1 := Fast] else dropped
  }

  /** Where the shards are after the backward hook at boundary `index`: shard
      `index + 1` dropped, shard `index` loaded, every other shard untouched. */
  function BackwardHookTiers(r: seq<Tier>, index: int): (s: seq<Tier>)
    requires -1 <= index < |r|
    ensures |s| == |r|
    ensures forall i :: 0 <= i < |s| ==>
      s[i] == (if i == index then Fast else if i == index + 1 then Backing else r[i])
  {
    var dropped := if index + 1 < |r| then r[index + 1 := Backing] else r;
    if index >= 0 then dropped[index := Fast] else dropped
  }

  /** Residency after the forward hooks of boundaries -1 .. upto-1, starting
      from `r0`: the shards already passed are dropped, shard `upto` is loaded
      and the shards ahead are as they were. */
  function ForwardSweepTiers(r0: seq<Tier>, upto: int): (r: seq<Tier>)
    ensures |r| == |r0|
  {
    seq(|r0|, i requires 0 <= i < |r0| => if i < upto then Backing else if i == upto then Fast else r0[i])
  }

  /** Residency after the backward hooks of boundaries n-1 down to `from`,
      starting from `r0`: the shards already passed are dropped, shard `from`
      is loaded and the shards below it are as they were. */
  function BackwardSweepTiers(r0: seq<Tier>, from: int): (r: seq<Tier>)
    ensures |r| == |r0|
  {
    seq(|r0|, i requires 0 <= i < |r0| => if i < from then r0[i] else if i == from then Fast else Backing)
  }

  /** One forward hook moves the sweep on by one boundary. */
  lemma ForwardSweepStep(r0: seq<Tier>, index: int)
    requires -1 <= index < |r0|
    ensures ForwardHookTiers(ForwardSweepTiers(r0, index), index) == ForwardSweepTiers(r0, index + 1)
  {
  }

  /** After the forward hooks of every boundary, every shard is back on the backing store. */
  lemma ForwardSweepDone(r0: seq<Tier>)
    ensures ForwardSweepTiers(r0, |r0|) == seq(|r0|, _ => Backing)
  {
  }

  /** After the backward hooks of every boundary, every shard is back on the backing store. */
  lemma BackwardSweepDone(r0: seq<Tier>)
    ensures BackwardSweepTiers(r0, -1) == seq(|r0|, _ => Backing)
  {
  }

  /** One backward hook moves the reverse sweep down by one boundary. */
  lemma BackwardSweepStep(r0: seq<Tier>, index: int)
    requires -1 <= index < |r0|
    ensures BackwardHookTiers(BackwardSweepTiers(r0, index + 1), index) == BackwardSweepTiers(r0, index)
  {
  }

  // ---------------------------------------------------------------------------
  // Lemmas about the log

  /** The log grows by one forward iteration: the compute, then the hook. */
  lemma ForwardLogStep(t0: seq<Event>, t1: seq<Event>, t2: seq<Event>, t3: seq<Event>, n: nat, index: int)
    requires -1 <= index < n
    requires t1 == t0 + ForwardEvents(n, index)
    requires t2 == t1 + (if index >= 0 then [Compute(index)] else [])
    requires t3 == t2 + ForwardHookEvents(index, n)
    ensures t3 == t0 + ForwardEvents(n, index + 1)
  {
  }

  /** Events past the first `k` do not change the transfers among them. */
  lemma {:induction false} TransfersPrefix(a: seq<Event>, b: seq<Event>, k: nat, i: nat)
    requires k <= |a|
    ensures Transfers(a + b, k, i) == Transfers(a, k, i)
    decreases k
  {
    if k > 0 {
      TransfersPrefix(a, b, k - 1, i);
      assert (a + b)[k - 1] == a[k - 1];
    }
  }

  /** Past a prefix `a`, the transfers continue with those of what follows it. */
  lemma {:induction false} TransfersSuffix(a: seq<Event>, b: seq<Event>, k: nat, i: nat)
    requires k <= |b|
    ensures Transfers(a + b, |a| + k, i) == History(a, i) + Transfers(b, k, i)
    decreases k
  {
    if k == 0 {
      TransfersPrefix(a, b, |a|, i);
    } else {
      TransfersSuffix(a, b, k - 1, i);
      assert (a + b)[|a| + k - 1] == b[k - 1];
    }
  }

  /** The history of a concatenated log is the concatenation of the histories. */
  lemma HistoryConcat(a: seq<Event>, b: seq<Event>, i: nat)
    ensures History(a + b, i) == History(a, i) + History(b, i)
  {
    TransfersSuffix(a, b, |b|, i);
  }

  lemma HistoryOne(e: Event, i: nat)
    ensures History([e], i) == if Moves(e, i) then [e] else []
  {
  }

  /** The history of shard `i` in a hook's event list. */
  lemma HookHistory(d: seq<Event>, l: seq<Event>, i: nat)
    requires |d| <= 1 && |l| <= 1
    ensures History(d + l, i) == History(d, i) + History(l, i)
    ensures History(d, i) == if d != [] && Moves(d[0], i) then d else []
    ensures History(l, i) == if l != [] && Moves(l[0], i) then l else []
  {
    if l != [] {
      var y := l[0];
      assert l == [y];
      HistoryOne(y, i);
    }
    if d != [] {
      var x := d[0];
      assert d == [x];
      HistoryOne(x, i);
    }
    if d == [] {
      assert d + l == l;
    } else if l == [] {
      assert d + l == d;
    } else {
      HistoryConcat(d, l, i);
    }
  }


  /** What a single appended event does to every shard's place. */
  lemma TierAfterAppend(t: seq<Event>, e: Event)
    ensures forall i: nat :: History(t + [e], i) == History(t, i) + (if Moves(e, i) then [e] else [])
    ensures forall i: nat :: TierAfter(t + [e], i) == (if Moves(e, i) then Settled([e]) else TierAfter(t, i))
  {
    forall i: nat
      ensures History(t + [e], i) == History(t, i) + (if Moves(e, i) then [e] else [])
    {
      HistoryConcat(t, [e], i);
      HistoryOne(e, i);
    }
  }

  /** Appending a transfer, or a compute of a loaded shard, keeps every compute
      covered by a load. */
  lemma {:induction false} ComputedAppend(t: seq<Event>, e: Event)
    requires ComputedWhileLoaded(t)
    requires e.Compute? ==> TierAfter(t, e.shard) == Fast
    ensures ComputedWhileLoaded(t + [e])
  {
    var t' := t + [e];
    forall p | 0 <= p < |t'| && t'[p].Compute?
      ensures TierAfter(t'[..p], t'[p].shard) == Fast
    {
      if p < |t| {
        assert t'[..p] == t[..p] && t'[p] == t[p];
      } else {
        assert t'[..p] == t;
      }
    }
  }

  /** The transfers of shard `i` in one forward iteration. */
  lemma ForwardStepHistory(index: int, n: nat, i: nat)
    requires -1 <= index < n && i < n
    ensures History(ForwardStep(index, n), i) ==
      (if index == i then [Drop(i)] else []) + (if index + 1 == i then [Load(i)] else [])
  {
    var c: seq<Event> := if index >= 0 then [Compute(index)] else [];
    var d: seq<Event> := if index >= 0 then [Drop(index)] else [];
    var l: seq<Event> := if index + 1 < n then [Load(index + 1)] else [];
    assert ForwardStep(index, n) == c + (d + l);
    HistoryConcat(c, d + l, i);
    if index >= 0 {
      HistoryOne(Compute(index), i);
    } else {
      assert c == [];
    }
    assert History(c, i) == [];
    HookHistory(d, l, i);
    assert History(d, i) == if index == i then [Drop(i)] else [];
    assert History(l, i) == if index + 1 == i then [Load(i)] else [];
  }

  /** The transfers of shard `i` in one backward hook. */
  lemma BackwardHookHistory(index: int, n: nat, i: nat)
    requires -1 <= index < n && i < n
    ensures History(BackwardHookEvents(index, n), i) ==
      (if index + 1 == i then [Drop(i)] else []) + (if index == i then [Load(i)] else [])
  {
    var d: seq<Event> := if index + 1 < n then [Drop(index + 1)] else [];
    var l: seq<Event> := if index >= 0 then [Load(index)] else [];
    assert BackwardHookEvents(index, n) == d + l;
    HookHistory(d, l, i);
  }

  /** Over the forward sweep each shard is loaded at the boundary before it and
      dropped at its own boundary, and nothing else. */
  lemma {:induction false} ForwardHistory(n: nat, upto: int, i: nat)
    requires -1 <= upto <= n && i < n
    ensures History(ForwardEvents(n, upto), i) ==
      if upto < i then [] else if upto == i then [Load(i)] else [Load(i), Drop(i)]
    decreases upto + 1
  {
    if upto >= 0 {
      ForwardHistory(n, upto - 1, i);
      ForwardStepHistory(upto - 1, n, i);
      ForwardEventsHistory(n, upto, i);
      ForwardHistoryStep(History(ForwardEvents(n, upto - 1), i), History(ForwardStep(upto - 1, n), i), upto, i);
    }
  }

  /** The history over the forward log after one more boundary. */
  lemma ForwardEventsHistory(n: nat, upto: int, i: nat)
    requires 0 <= upto <= n
    ensures History(ForwardEvents(n, upto), i) ==
      History(ForwardEvents(n, upto - 1), i) + History(ForwardStep(upto - 1, n), i)
  {
    assert ForwardEvents(n, upto) == ForwardEvents(n, upto - 1) + ForwardStep(upto - 1, n);
    HistoryConcat(ForwardEvents(n, upto - 1), ForwardStep(upto - 1, n), i);
  }

  /** How the history of shard `i` grows when the forward sweep passes
      boundary `upto - 1`. */
  lemma ForwardHistoryStep(hp: seq<Event>, hs: seq<Event>, upto: int, i: nat)
    requires hp == if upto - 1 < i then [] else if upto - 1 == i then [Load(i)] else [Load(i), Drop(i)]
    requires hs == (if upto - 1 == i then [Drop(i)] else []) + (if upto == i then [Load(i)] else [])
    ensures hp + hs == if upto < i then [] else if upto == i then [Load(i)] else [Load(i), Drop(i)]
  {
  }

  /** Over the reverse sweep each shard is loaded at its own boundary and
      dropped at the boundary before it, and nothing else. */
  lemma {:induction false} BackwardHistory(n: nat, from: int, i: nat)
    requires -1 <= from <= n && i < n
    ensures History(BackwardEvents(n, from), i) ==
      if from > i then [] else if from == i then [Load(i)] else [Load(i), Drop(i)]
    decreases n - from
  {
    if from < n {
      BackwardHistory(n, from + 1, i);
      BackwardHookHistory(from, n, i);
      BackwardEventsHistory(n, from, i);
      BackwardHistoryStep(History(BackwardEvents(n, from + 1), i), History(BackwardHookEvents(from, n), i), from, i);
    }
  }

  /** The history over the reverse log after one more backward hook. */
  lemma BackwardEventsHistory(n: nat, from: int, i: nat)
    requires -1 <= from < n
    ensures History(BackwardEvents(n, from), i) ==
      History(BackwardEvents(n, from + 1), i) + History(BackwardHookEvents(from, n), i)
  {
    assert BackwardEvents(n, from) == BackwardEvents(n, from + 1) + BackwardHookEvents(from, n);
    HistoryConcat(BackwardEvents(n, from + 1), BackwardHookEvents(from, n), i);
  }

  /** How the history of shard `i` grows when the reverse sweep passes
      boundary `from`. */
  lemma BackwardHistoryStep(hp: seq<Event>, hh: seq<Event>, from: int, i: nat)
    requires hp == if from + 1 > i then [] else if from + 1 == i then [Load(i)] else [Load(i), Drop(i)]
    requires hh == (if from + 1 == i then [Drop(i)] else []) + (if from == i then [Load(i)] else [])
    ensures hp + hh == if from > i then [] else if from == i then [Load(i)] else [Load(i), Drop(i)]
  {
  }

  /** The wavefront of the forward sweep: from every shard on the backing
      store, after the hooks of boundaries -1 .. upto-1 the only shard on the
      fast device is shard `upto`, the next to compute. */
  lemma ForwardWavefront(t0: seq<Event>, n: nat, upto: int, i: nat)
    requires -1 <= upto <= n && i < n
    requires TierAfter(t0, i) == Backing
    ensures TierAfter(t0 + ForwardEvents(n, upto), i) == if i == upto then Fast else Backing
  {
    HistoryConcat(t0, ForwardEvents(n, upto), i);
    ForwardHistory(n, upto, i);
  }

  /** The wavefront of the reverse sweep: after the backward hooks for
      boundaries n-1 down to `from`, the only shard on the fast device is
      shard `from`, whose reverse compute comes next. */
  lemma BackwardWavefront(t0: seq<Event>, n: nat, from: int, i: nat)
    requires -1 <= from <= n && i < n
    requires TierAfter(t0, i) == Backing
    ensures TierAfter(t0 + BackwardEvents(n, from), i) == if i == from then Fast else Backing
  {
    HistoryConcat(t0, BackwardEvents(n, from), i);
    BackwardHistory(n, from, i);
  }

  /** Appending load, drop, load, drop to an alternating history that ends
      on the backing store keeps it alternating. */
  lemma CycleAlternates(h0: seq<Event>, i: nat)
    requires Alternates(h0) && Settled(h0) == Backing
    ensures Alternates(h0 + [Load(i), Drop(i), Load(i), Drop(i)])
  {
  }

  /** A full forward sweep then a full reverse sweep gives every shard exactly
      load, drop, load, drop: the directions alternate, every shard ends on the
      backing store, and a shard that was settled there before keeps an
      alternating history. */
  lemma FullCycle(t0: seq<Event>, n: nat, i: nat)
    requires i < n
    ensures History(t0 + ForwardEvents(n, n) + BackwardEvents(n, -1), i)
            == History(t0, i) + [Load(i), Drop(i), Load(i), Drop(i)]
    ensures TierAfter(t0 + ForwardEvents(n, n) + BackwardEvents(n, -1), i) == Backing
    ensures Alternates(History(t0, i)) && TierAfter(t0, i) == Backing ==>
            Alternates(History(t0 + ForwardEvents(n, n) + BackwardEvents(n, -1), i))
  {
    var f := ForwardEvents(n, n);
    var b := BackwardEvents(n, -1);
    var h0 := History(t0, i);
    HistoryConcat(t0 + f, b, i);
    HistoryConcat(t0, f, i);
    ForwardHistory(n, n, i);
    BackwardHistory(n, -1, i);
    assert History(f, i) == [Load(i), Drop(i)];
    assert History(b, i) == [Load(i), Drop(i)];
    var h := History(t0 + f + b, i);
    assert h == h0 + [Load(i), Drop(i)] + [Load(i), Drop(i)];
    assert h == h0 + [Load(i), Drop(i), Load(i), Drop(i)];
    assert h[|h| - 1] == Drop(i);
    if Alternates(h0) && Settled(h0) == Backing {
      CycleAlternates(h0, i);
    }
  }
}
