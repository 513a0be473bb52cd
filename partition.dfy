/** The stage partitioner `_split`: a greedy walk over the stages of a
    sequential model that cuts it into contiguous groups ("shards") of roughly
    equal parameter volume. A stage is represented by its parameter count. */
module Partition {

  /** The two ways `_split` fails on degenerate arguments. */
  datatype SplitError =
    | ZeroDivision      // `total // number_splits` when min(len(modules), number_splits) == 0
    | IndexOutOfRange   // `splits[0]` when a negative count left no group to fill

  datatype Result<T> = Ok(value: T) | Err(error: SplitError)

  function Min(a: int, b: int): int { if a < b then a else b }

  function Max(a: int, b: int): int { if a < b then b else a }

  /** Total parameter volume of a run of stages. */
  function Sum(s: seq<nat>): nat {
    if s == [] then 0 else Sum(s[..|s| - 1]) + s[|s| - 1]
  }

  /** Number of stages in a run that hold at least one parameter. */
  function Positives(s: seq<nat>): nat {
    if s == [] then 0 else Positives(s[..|s| - 1]) + (if s[|s| - 1] > 0 then 1 else 0)
  }

  /** Volume of the largest stage of a run (0 for an empty run). */
  function Largest(s: seq<nat>): nat {
    if s == [] then 0 else Max(Largest(s[..|s| - 1]), s[|s| - 1])
  }

  /** The groups laid end to end. */
  function Flatten(gs: seq<seq<nat>>): seq<nat> {
    if gs == [] then [] else Flatten(gs[..|gs| - 1]) + gs[|gs| - 1]
  }

  /** State of the greedy walk: the groups filled so far and the shard pointer. */
  datatype Fill = Fill(groups: seq<seq<nat>>, cur: nat)

  /** One step of the walk: move the pointer on when the current group already
      holds parameters, the next stage would take it past the target and a
      later group exists; then append the stage to the group pointed at. */
  function Place(f: Fill, m: nat, target: nat): (g: Fill)
    requires f.cur < |f.groups|
    ensures |g.groups| == |f.groups|
    ensures f.cur <= g.cur <= f.cur + 1 && g.cur < |g.groups|
    ensures g.cur == f.cur + 1 ==> Sum(f.groups[f.cur]) > 0
  {
    var vol := Sum(f.groups[f.cur]);
    var c := if vol > 0 && vol + m > target && f.cur < |f.groups| - 1 then f.cur + 1 else f.cur;
    Fill(f.groups[c := f.groups[c] + [m]], c)
  }

  /** The walk over all the stages, starting from n empty groups and pointer 0. */
  function Greedy(vols: seq<nat>, n: nat, target: nat): (f: Fill)
    requires n >= 1
    ensures |f.groups| == n && f.cur < n
  {
    if vols == [] then Fill(seq(n, _ => []), 0)
    else Place(Greedy(vols[..|vols| - 1], n, target), vols[|vols| - 1], target)
  }

  /** The per-shard target: the total volume floor-divided by the number of groups. */
  function PerShard(total: nat, n: nat): nat
    requires n >= 1
  {
    total / n
  }

  /** What `_split(modules, number_splits)` returns or raises. */
  function SplitPlan(vols: seq<nat>, numberSplits: int): Result<seq<seq<nat>>> {
    var n := Min(|vols|, numberSplits);
    if n == 0 then Err(ZeroDivision)
    else if n < 0 then (if vols == [] then Ok([]) else Err(IndexOutOfRange))
    else Ok(Greedy(vols, n, PerShard(Sum(vols), n)).groups)
  }

  /** `_split` itself: build the groups by appending inside one loop. */
  method Split(vols: seq<nat>, numberSplits: int) returns (r: Result<seq<seq<nat>>>)
    ensures r == SplitPlan(vols, numberSplits)
    ensures r.Ok? <==> (vols != [] && numberSplits >= 1) || (vols == [] && numberSplits < 0)
    ensures r.Ok? ==> Flatten(r.value) == vols
    ensures r.Ok? && vols != [] ==> |r.value| == Min(|vols|, numberSplits)
  {
    var n := Min(|vols|, numberSplits);
    var splits: seq<seq<nat>> := if n > 0 then seq(n, _ => []) else [];
    var total := Sum(vols);
    if n == 0 {
      return Err(ZeroDivision);
    }
    // With n < 0 the target is never consulted: the first stage fails on `splits[0]`.
    var target: nat := if n > 0 then PerShard(total, n) else 0;
    var cur := 0;
    for j := 0 to |vols|
      invariant n < 0 ==> j == 0 && splits == [] && cur == 0
      invariant n > 0 ==> Fill(splits, cur) == Greedy(vols[..j], n, target)
    {
      if cur >= |splits| {
        return Err(IndexOutOfRange);
      }
      ghost var before := Fill(splits, cur);
      var vol := Sum(splits[cur]);
      if vol > 0 && vol + vols[j] > target && cur < n - 1 {
        cur := cur + 1;
      }
      splits := splits[cur := splits[cur] + [vols[j]]];
      assert Fill(splits, cur) == Place(before, vols[j], target);
      GreedyStep(vols, n, target, j);
    }
    assert vols[..|vols|] == vols;
    r := Ok(splits);
    if n > 0 {
      SplitCoverage(vols, numberSplits);
    }
  }

  /** The walk over one more stage is one more step. */
  lemma GreedyStep(vols: seq<nat>, n: nat, target: nat, j: nat)
    requires n >= 1 && j < |vols|
    ensures Greedy(vols[..j + 1], n, target) == Place(Greedy(vols[..j], n, target), vols[j], target)
  {
    assert vols[..j + 1][..j] == vols[..j];
  }

  // ---------------------------------------------------------------------------
  // The invariant of the walk

  /** What holds of the walk after it has placed the stages `vols`. */
  ghost predicate Shaped(f: Fill, vols: seq<nat>, target: nat) {
    && f.cur < |f.groups|
    && Flatten(f.groups) == vols
    && (forall i :: f.cur < i < |f.groups| ==> f.groups[i] == [])
    && (forall i :: 0 <= i < f.cur ==> Sum(f.groups[i]) > 0)
    && (forall i :: 0 <= i < f.cur ==> Sum(f.groups[i]) <= target || Positives(f.groups[i]) == 1)
    && (vols != [] ==> f.groups[f.cur] != [])
    && (vols == [] ==> f.cur == 0)
    && (f.cur < |f.groups| - 1 ==> Sum(f.groups[f.cur]) <= target || Positives(f.groups[f.cur]) <= 1)
  }

  lemma {:induction false} FlattenEmpty(gs: seq<seq<nat>>)
    requires forall i :: 0 <= i < |gs| ==> gs[i] == []
    ensures Flatten(gs) == []
  {
    if gs != [] {
      FlattenEmpty(gs[..|gs| - 1]);
    }
  }

  /** Appending to a group with only empty groups after it appends to the flattening. */
  lemma {:induction false} FlattenAppendAt(gs: seq<seq<nat>>, c: nat, m: nat)
    requires c < |gs|
    requires forall i :: c < i < |gs| ==> gs[i] == []
    ensures Flatten(gs[c := gs[c] + [m]]) == Flatten(gs) + [m]
  {
    var gs' := gs[c := gs[c] + [m]];
    var k := |gs| - 1;
    if c == k {
      assert gs'[..k] == gs[..k];
    } else {
      assert gs'[..k] == gs[..k][c := gs[c] + [m]];
      FlattenAppendAt(gs[..k], c, m);
    }
  }

  lemma SumAppend(s: seq<nat>, m: nat)
    ensures Sum(s + [m]) == Sum(s) + m
    ensures Positives(s + [m]) == Positives(s) + (if m > 0 then 1 else 0)
    ensures Largest(s + [m]) == Max(Largest(s), m)
  {
  }

  lemma {:induction false} NoPositivesNoVolume(s: seq<nat>)
    ensures Positives(s) == 0 <==> Sum(s) == 0
  {
    if s != [] {
      NoPositivesNoVolume(s[..|s| - 1]);
    }
  }

  /** One step of the walk keeps the invariant. */
  lemma PlaceShaped(f: Fill, vols: seq<nat>, target: nat, m: nat)
    requires Shaped(f, vols, target)
    ensures Shaped(Place(f, m, target), vols + [m], target)
  {
    var g := Place(f, m, target);
    var c := g.cur;
    FlattenAppendAt(f.groups, c, m);
    SumAppend(f.groups[c], m);
    if c == f.cur + 1 {
      var old' := f.groups[f.cur];
      assert Sum(old') > 0;
      if Sum(old') > target {
        if Positives(old') == 0 {
          NoPositivesNoVolume(old');
        }
      }
    } else if f.cur < |f.groups| - 1 {
      NoPositivesNoVolume(f.groups[f.cur]);
    }
  }

  lemma {:induction false} GreedyShaped(vols: seq<nat>, n: nat, target: nat)
    requires n >= 1
    ensures Shaped(Greedy(vols, n, target), vols, target)
  {
    if vols == [] {
      FlattenEmpty(seq(n, _ => []));
    } else {
      var k := |vols| - 1;
      GreedyShaped(vols[..k], n, target);
      PlaceShaped(Greedy(vols[..k], n, target), vols[..k], target, vols[k]);
      assert vols[..k] + [vols[k]] == vols;
    }
  }

  // ---------------------------------------------------------------------------
  // What `_split` guarantees

  /** Exactly min(len(modules), number_splits) groups, whose concatenation in
      order is the module list, each module placed once. */
  lemma SplitCoverage(vols: seq<nat>, numberSplits: int)
    requires SplitPlan(vols, numberSplits).Ok?
    ensures Flatten(SplitPlan(vols, numberSplits).value) == vols
    ensures vols != [] ==> |SplitPlan(vols, numberSplits).value| == Min(|vols|, numberSplits)
  {
    var n := Min(|vols|, numberSplits);
    if n > 0 {
      GreedyShaped(vols, n, PerShard(Sum(vols), n));
    }
  }

  /** The shard pointer never decreases, moves on by at most one per module and
      stays below the number of groups. */
  lemma PointerSteps(vols: seq<nat>, n: nat, target: nat, j: nat)
    requires n >= 1 && j < |vols|
    ensures Greedy(vols[..j], n, target).cur <= Greedy(vols[..j + 1], n, target).cur
    ensures Greedy(vols[..j + 1], n, target).cur <= Greedy(vols[..j], n, target).cur + 1
    ensures Greedy(vols[..j + 1], n, target).cur <= n - 1
  {
    assert vols[..j + 1][..j] == vols[..j];
  }

  /** The first group holds the first module, every group before the final
      pointer has positive volume, and the empty groups, if any, come last. */
  lemma SplitFilled(vols: seq<nat>, numberSplits: int)
    requires SplitPlan(vols, numberSplits).Ok? && vols != []
    ensures var g := SplitPlan(vols, numberSplits).value;
      && g[0] != [] && g[0][0] == vols[0]
      && (forall i :: 0 <= i < |g| - 1 && g[i + 1] != [] ==> Sum(g[i]) > 0)
      && (forall i, j :: 0 <= i < j < |g| && g[i] == [] ==> g[j] == [])
  {
    var n := Min(|vols|, numberSplits);
    GreedyShaped(vols, n, PerShard(Sum(vols), n));
    FlattenHead(SplitPlan(vols, numberSplits).value);
  }

  /** The flattening starts with the first element of a non-empty first group. */
  lemma {:induction false} FlattenHead(gs: seq<seq<nat>>)
    requires gs != [] && gs[0] != []
    ensures Flatten(gs) != [] && Flatten(gs)[0] == gs[0][0]
  {
    var k := |gs| - 1;
    if k > 0 {
      assert gs[..k][0] == gs[0];
      FlattenHead(gs[..k]);
    } else {
      assert gs[..k] == [];
    }
  }

  lemma {:induction false} FewPositivesBoundedByLargest(s: seq<nat>)
    requires Positives(s) <= 1
    ensures Sum(s) <= Largest(s)
  {
    if s != [] {
      var k := |s| - 1;
      assert s[..k] + [s[k]] == s;
      SumAppend(s[..k], s[k]);
      if s[k] > 0 {
        NoPositivesNoVolume(s[..k]);
      } else {
        FewPositivesBoundedByLargest(s[..k]);
      }
    }
  }

  lemma {:induction false} LargestConcat(a: seq<nat>, b: seq<nat>)
    ensures Largest(a + b) == Max(Largest(a), Largest(b))
  {
    if b == [] {
      assert a + b == a;
    } else {
      var k := |b| - 1;
      assert a + b == (a + b[..k]) + [b[k]];
      assert b == b[..k] + [b[k]];
      SumAppend(a + b[..k], b[k]);
      SumAppend(b[..k], b[k]);
      LargestConcat(a, b[..k]);
    }
  }

  lemma {:induction false} LargestOfGroup(gs: seq<seq<nat>>, i: nat)
    requires i < |gs|
    ensures Largest(gs[i]) <= Largest(Flatten(gs))
  {
    var k := |gs| - 1;
    LargestConcat(Flatten(gs[..k]), gs[k]);
    if i < k {
      LargestOfGroup(gs[..k], i);
    }
  }

  /** Every group but the last stays within `target` unless a single stage
      carries all of its volume, and so never exceeds the larger of `target`
      and `largest`. */
  ghost predicate Balanced(gs: seq<seq<nat>>, target: nat, largest: nat) {
    && (forall i :: 0 <= i < |gs| - 1 ==> Sum(gs[i]) <= target || Positives(gs[i]) == 1)
    && (forall i :: 0 <= i < |gs| - 1 ==> Sum(gs[i]) <= Max(target, largest))
  }

  /** Balance of `_split`: measured against the per-shard target
      total // number_splits and the largest stage. */
  lemma SplitBalance(vols: seq<nat>, numberSplits: int)
    requires SplitPlan(vols, numberSplits).Ok? && vols != []
    ensures var g := SplitPlan(vols, numberSplits).value;
      Balanced(g, PerShard(Sum(vols), |g|), Largest(vols))
  {
    var n: nat := Min(|vols|, numberSplits);
    GreedyBalance(vols, n, PerShard(Sum(vols), n));
  }

  /** The balance of the walk, for any number of groups and any target. */
  lemma GreedyBalance(vols: seq<nat>, n: nat, target: nat)
    requires n >= 1
    ensures Balanced(Greedy(vols, n, target).groups, target, Largest(vols))
  {
    GreedyShaped(vols, n, target);
    ShapedBalance(Greedy(vols, n, target), vols, target);
  }

  /** Every group of a finished walk but the last. */
  lemma ShapedBalance(f: Fill, vols: seq<nat>, target: nat)
    requires Shaped(f, vols, target)
    ensures forall i :: 0 <= i < |f.groups| - 1 ==>
      Sum(f.groups[i]) <= target || Positives(f.groups[i]) == 1
    ensures forall i :: 0 <= i < |f.groups| - 1 ==> Sum(f.groups[i]) <= Max(target, Largest(vols))
  {
    forall i | 0 <= i < |f.groups| - 1
      ensures Sum(f.groups[i]) <= target || Positives(f.groups[i]) == 1
      ensures Sum(f.groups[i]) <= Max(target, Largest(vols))
    {
      GroupBalance(f, vols, target, i);
    }
  }

  /** One group of a finished walk, other than the last. */
  lemma GroupBalance(f: Fill, vols: seq<nat>, target: nat, i: nat)
    requires Shaped(f, vols, target) && i < |f.groups| - 1
    ensures Sum(f.groups[i]) <= target || Positives(f.groups[i]) == 1
    ensures Sum(f.groups[i]) <= Max(target, Largest(vols))
  {
    var g := f.groups[i];
    if f.cur < i {
      assert g == [];
    } else if i == f.cur && Positives(g) == 0 {
      NoPositivesNoVolume(g);
    }
    if Sum(g) > target {
      assert Positives(g) <= 1;
      FewPositivesBoundedByLargest(g);
      LargestOfGroup(f.groups, i);
    }
  }

  /** Trailing groups can stay empty: one heavy stage followed by two light ones. */
  lemma SplitLeavesTrailingEmpty()
    ensures SplitPlan([100, 1, 1], 3) == Ok([[100], [1, 1], []])
  {
    var vols: seq<nat> := [100, 1, 1];
    assert vols[..2] == [100, 1] && vols[..2][..1] == [100] && vols[..1] == [100];
    assert [100, 1][..1] == [100] && [100][..0] == [];
    assert Sum(vols) == 102;
    var empty: seq<seq<nat>> := seq(3, _ => []);
    assert empty == [[], [], []];
    var f0 := Greedy(vols[..0], 3, 34);
    assert f0 == Fill([[], [], []], 0);
    assert Sum([]) == 0 && [] + [100] == [100];
    var f1 := Greedy(vols[..1], 3, 34);
    assert f1 == Fill([[100], [], []], 0);
    var f2 := Greedy(vols[..2], 3, 34);
    assert Sum([100]) == 100;
    assert f2 == Place(f1, 1, 34);
    assert [] + [1] == [1];
    assert f2 == Fill([[100], [1], []], 1);
    assert Sum([1]) == 1 && [1] + [1] == [1, 1];
    assert Greedy(vols, 3, 34) == Place(f2, 1, 34);
    assert Greedy(vols, 3, 34) == Fill([[100], [1, 1], []], 1);
  }
}
