/**
 * The greedy online bin-packing policy of the sticker-set download handler,
 * on values: artifacts are registered one after another; an artifact that
 * would bring a non-empty batch to the limit first closes that batch, and an
 * empty batch admits any artifact, however large.
 */
module Batching {

  const MB: nat := 1048576
  /** The archive limit the batch manager is created with: 50 MB. */
  const MaxBatchSize: nat := 50 * MB

  /** A converted file waiting in the temporary folder: its path and its size in bytes. */
  datatype Artifact = Artifact(path: string, size: nat)

  function Sum(batch: seq<Artifact>): nat {
    if batch == [] then 0 else Sum(batch[..|batch| - 1]) + batch[|batch| - 1].size
  }

  function Paths(batch: seq<Artifact>): (r: seq<string>)
    ensures |r| == |batch|
    ensures forall i :: 0 <= i < |batch| ==> r[i] == batch[i].path
  {
    if batch == [] then [] else Paths(batch[..|batch| - 1]) + [batch[|batch| - 1].path]
  }

  lemma SumAppend(batch: seq<Artifact>, a: Artifact)
    ensures Sum(batch + [a]) == Sum(batch) + a.size
  {
    assert (batch + [a])[..|batch|] == batch;
  }

  lemma PathsAppend(batch: seq<Artifact>, a: Artifact)
    ensures Paths(batch + [a]) == Paths(batch) + [a.path]
  {
    assert (batch + [a])[..|batch|] == batch;
  }

  /** The decision that sends a registering worker off to flush: the batch is non-empty and would reach the limit. */
  predicate MustFlush(open: seq<Artifact>, size: nat, max: int) {
    |open| > 0 && Sum(open) + size >= max
  }

  /** The batch invariant: only a batch holding a single artifact may reach the limit. */
  predicate WithinLimit(batch: seq<Artifact>, max: int) {
    |batch| >= 2 ==> Sum(batch) < max
  }

  /** The batches closed so far, in the order they were closed, and the batch still open. */
  datatype Packing = Packing(flushed: seq<seq<Artifact>>, open: seq<Artifact>)

  /** One registration, with the retry loop of the worker: flush if needed, then admit. */
  function Step(p: Packing, a: Artifact, max: int): Packing {
    if MustFlush(p.open, a.size, max) then Packing(p.flushed + [p.open], [a])
    else Packing(p.flushed, p.open + [a])
  }

  /** Registering `items` one after another against an empty batch manager. */
  function Pack(items: seq<Artifact>, max: int): Packing {
    if items == [] then Packing([], []) else Step(Pack(items[..|items| - 1], max), items[|items| - 1], max)
  }

  lemma PackAppend(items: seq<Artifact>, a: Artifact, max: int)
    ensures Pack(items + [a], max) == Step(Pack(items, max), a, max)
  {
    assert (items + [a])[..|items|] == items;
  }

  function Flatten(bs: seq<seq<Artifact>>): seq<Artifact> {
    if bs == [] then [] else Flatten(bs[..|bs| - 1]) + bs[|bs| - 1]
  }

  /** The batch that follows closed batch k: the next closed one, or the open one. */
  function Successor(p: Packing, k: nat): seq<Artifact>
    requires k < |p.flushed|
  {
    if k + 1 < |p.flushed| then p.flushed[k + 1] else p.open
  }

  /** Every closed batch was closed only because the first artifact after it did not fit. */
  predicate Greedy(p: Packing, max: int) {
    forall k :: 0 <= k < |p.flushed| ==>
      |Successor(p, k)| > 0 && Sum(p.flushed[k]) + Successor(p, k)[0].size >= max
  }

  predicate WellPacked(p: Packing, max: int) {
    && (forall k :: 0 <= k < |p.flushed| ==> |p.flushed[k]| > 0 && WithinLimit(p.flushed[k], max))
    && WithinLimit(p.open, max)
    && (|p.flushed| > 0 ==> |p.open| > 0)
    && Greedy(p, max)
  }

  lemma StepFlushWellPacked(p: Packing, a: Artifact, max: int)
    requires WellPacked(p, max) && MustFlush(p.open, a.size, max)
    ensures WellPacked(Step(p, a, max), max)
  {
    var q := Packing(p.flushed + [p.open], [a]);
    assert Step(p, a, max) == q;
    assert [a] == [] + [a];
    SumAppend([], a);
    forall k | 0 <= k < |q.flushed|
      ensures |Successor(q, k)| > 0 && Sum(q.flushed[k]) + Successor(q, k)[0].size >= max
    {
      if k + 1 < |p.flushed| {
        assert Successor(q, k) == Successor(p, k);
      } else if k + 1 == |p.flushed| {
        assert Successor(q, k) == p.open == Successor(p, k);
      } else {
        assert Successor(q, k) == [a];
      }
    }
  }

  lemma StepAdmitWellPacked(p: Packing, a: Artifact, max: int)
    requires WellPacked(p, max) && !MustFlush(p.open, a.size, max)
    ensures WellPacked(Step(p, a, max), max)
  {
    var q := Packing(p.flushed, p.open + [a]);
    assert Step(p, a, max) == q;
    SumAppend(p.open, a);
    forall k | 0 <= k < |q.flushed|
      ensures |Successor(q, k)| > 0 && Sum(q.flushed[k]) + Successor(q, k)[0].size >= max
    {
      if k + 1 < |p.flushed| {
        assert Successor(q, k) == Successor(p, k);
      } else {
        assert Successor(p, k) == p.open;
        assert Successor(q, k)[0] == p.open[0];
      }
    }
  }

  lemma StepWellPacked(p: Packing, a: Artifact, max: int)
    requires WellPacked(p, max)
    ensures WellPacked(Step(p, a, max), max)
  {
    if MustFlush(p.open, a.size, max) {
      StepFlushWellPacked(p, a, max);
    } else {
      StepAdmitWellPacked(p, a, max);
    }
  }

  lemma FlattenAppend(bs: seq<seq<Artifact>>, b: seq<Artifact>)
    ensures Flatten(bs + [b]) == Flatten(bs) + b
  {
    assert (bs + [b])[..|bs|] == bs;
  }

  /** No artifact is lost, duplicated or reordered: the closed batches and then the open one are the input. */
  lemma {:induction false} PackKeepsOrder(items: seq<Artifact>, max: int)
    ensures Flatten(Pack(items, max).flushed) + Pack(items, max).open == items
  {
    if items != [] {
      var init, a := items[..|items| - 1], items[|items| - 1];
      assert items == init + [a];
      PackKeepsOrder(init, max);
      PackAppend(init, a, max);
      var p := Pack(init, max);
      if MustFlush(p.open, a.size, max) {
        FlattenAppend(p.flushed, p.open);
      }
    }
  }

  /**
   * What the policy promises about every run: no closed batch is empty;
   * every batch of two or more artifacts stays below the limit; every batch
   * was closed only when the next artifact did not fit; and once anything is
   * registered the open batch is non-empty.
   */
  lemma {:induction false} PackWellPacked(items: seq<Artifact>, max: int)
    ensures WellPacked(Pack(items, max), max)
  {
    if items != [] {
      var init, a := items[..|items| - 1], items[|items| - 1];
      assert items == init + [a];
      PackWellPacked(init, max);
      PackAppend(init, a, max);
      StepWellPacked(Pack(init, max), a, max);
    }
  }

  /** After any registration the open batch holds at least the last artifact. */
  lemma OpenNonEmpty(items: seq<Artifact>, max: int)
    requires items != []
    ensures |Pack(items, max).open| > 0
  {
    var init, a := items[..|items| - 1], items[|items| - 1];
    assert items == init + [a];
    PackAppend(init, a, max);
  }

  lemma {:induction false} FlattenLength(bs: seq<seq<Artifact>>)
    requires forall k :: 0 <= k < |bs| ==> |bs[k]| > 0
    ensures |Flatten(bs)| >= |bs|
  {
    if bs != [] {
      FlattenLength(bs[..|bs| - 1]);
    }
  }

  /** The retry loop closes at most one batch per artifact, and never before the first one is admitted. */
  lemma FlushesFewerThanItems(items: seq<Artifact>, max: int)
    requires items != []
    ensures |Pack(items, max).flushed| < |items|
  {
    PackWellPacked(items, max);
    PackKeepsOrder(items, max);
    OpenNonEmpty(items, max);
    FlattenLength(Pack(items, max).flushed);
  }

  lemma {:induction false} SumAtLeastMember(batch: seq<Artifact>, i: nat)
    requires i < |batch|
    ensures Sum(batch) >= batch[i].size
  {
    if i < |batch| - 1 {
      SumAtLeastMember(batch[..|batch| - 1], i);
    }
  }

  /** An artifact at or above the limit never shares a batch: it is always alone. */
  lemma OversizedAlone(items: seq<Artifact>, max: int)
    ensures forall k, i ::
      (0 <= k < |Pack(items, max).flushed| && 0 <= i < |Pack(items, max).flushed[k]| &&
       Pack(items, max).flushed[k][i].size >= max) ==> |Pack(items, max).flushed[k]| == 1
    ensures forall i :: 0 <= i < |Pack(items, max).open| && Pack(items, max).open[i].size >= max ==>
      |Pack(items, max).open| == 1
  {
    var p := Pack(items, max);
    PackWellPacked(items, max);
    forall k, i | 0 <= k < |p.flushed| && 0 <= i < |p.flushed[k]| && p.flushed[k][i].size >= max
      ensures |p.flushed[k]| == 1
    {
      SumAtLeastMember(p.flushed[k], i);
    }
    forall i | 0 <= i < |p.open| && p.open[i].size >= max
      ensures |p.open| == 1
    {
      SumAtLeastMember(p.open, i);
    }
  }

  // ---- Artifacts of one uniform size ----

  predicate Uniform(batch: seq<Artifact>, s: nat) {
    forall i :: 0 <= i < |batch| ==> batch[i].size == s
  }

  lemma {:induction false} SumUniform(batch: seq<Artifact>, s: nat)
    requires Uniform(batch, s)
    ensures Sum(batch) == |batch| * s
  {
    if batch != [] {
      SumUniform(batch[..|batch| - 1], s);
    }
  }

  /** With k*s < max <= (k+1)*s, a batch of r <= k artifacts of size s takes one more iff r < k. */
  lemma FitsBelowLimit(r: nat, k: nat, s: nat, max: int)
    requires r <= k && k * s < max <= (k + 1) * s
    ensures r * s + s >= max <==> r == k
  {
    assert (k + 1) * s == k * s + s;
    if r < k {
      var d: nat := k - r - 1;
      assert k == (r + 1) + d;
      assert k * s == (r + 1) * s + d * s;
      assert (r + 1) * s == r * s + s;
    }
  }

  /** Every closed batch holds k artifacts; the open one between 1 and k, all of size s. */
  ghost predicate UniformShape(p: Packing, s: nat, k: nat) {
    && (forall j :: 0 <= j < |p.flushed| ==> |p.flushed[j]| == k)
    && 1 <= |p.open| <= k && Uniform(p.open, s)
  }

  /** Under k*s < max <= (k+1)*s, a uniform open batch is flushed exactly when it holds k artifacts. */
  lemma UniformFlushIff(open: seq<Artifact>, s: nat, k: nat, max: int)
    requires Uniform(open, s) && 1 <= |open| <= k && k * s < max <= (k + 1) * s
    ensures MustFlush(open, s, max) <==> |open| == k
  {
    SumUniform(open, s);
    FitsBelowLimit(|open|, k, s, max);
  }

  /** One registration of an artifact of size s keeps the uniform shape, given the flush rule for it. */
  lemma UniformStep(p: Packing, a: Artifact, s: nat, k: nat, max: int)
    requires UniformShape(p, s, k) && a.size == s && k >= 1
    requires MustFlush(p.open, s, max) <==> |p.open| == k
    ensures UniformShape(Step(p, a, max), s, k)
  {
  }

  /**
   * When every artifact has size s and exactly k of them fit below the limit,
   * every closed batch holds exactly k artifacts and the open batch between 1
   * and k.
   */
  lemma {:induction false} UniformPacking(items: seq<Artifact>, s: nat, k: nat, max: int)
    requires items != [] && Uniform(items, s)
    requires k >= 1 && k * s < max <= (k + 1) * s
    ensures forall j :: 0 <= j < |Pack(items, max).flushed| ==> |Pack(items, max).flushed[j]| == k
    ensures 1 <= |Pack(items, max).open| <= k && Uniform(Pack(items, max).open, s)
  {
    UniformPackingShape(items, s, k, max);
  }

  lemma {:induction false} UniformPackingShape(items: seq<Artifact>, s: nat, k: nat, max: int)
    requires items != [] && Uniform(items, s)
    requires k >= 1 && k * s < max <= (k + 1) * s
    ensures UniformShape(Pack(items, max), s, k)
  {
    var init, a := items[..|items| - 1], items[|items| - 1];
    assert items == init + [a];
    PackAppend(init, a, max);
    if init == [] {
      assert Pack(items, max) == Packing([], [a]);
    } else {
      assert Uniform(init, s) by {
        forall i | 0 <= i < |init| ensures init[i].size == s {
          assert init[i] == items[i];
        }
      }
      UniformPackingShape(init, s, k, max);
      UniformFlushIff(Pack(init, max).open, s, k, max);
      UniformStep(Pack(init, max), a, s, k, max);
    }
  }

  /** Closed batches of k artifacts each hold |bs| * k artifacts together. */
  lemma {:induction false} FlattenUniformLength(bs: seq<seq<Artifact>>, k: nat)
    requires forall j :: 0 <= j < |bs| ==> |bs[j]| == k
    ensures |Flatten(bs)| == |bs| * k
  {
    if bs != [] {
      var init, n := bs[..|bs| - 1], |bs| - 1;
      FlattenUniformLength(init, k);
      assert |Flatten(bs)| == |Flatten(init)| + |bs[n]|;
      assert |bs[n]| == k;
      assert n * k + k == (n + 1) * k;
    }
  }

  /**
   * 120 stickers of 6 MB against the 50 MB limit: eight fit (48 MB), the ninth
   * would reach 54 MB, so the run closes 14 batches of 8 and leaves a last
   * batch of 8 for the terminal flush: 15 archives in all.
   */
  lemma SixMegabyteScenario(items: seq<Artifact>)
    requires |items| == 120 && Uniform(items, 6 * MB)
    ensures |Pack(items, MaxBatchSize).flushed| == 14
    ensures forall j :: 0 <= j < 14 ==> |Pack(items, MaxBatchSize).flushed[j]| == 8
    ensures |Pack(items, MaxBatchSize).open| == 8
  {
    var p := Pack(items, MaxBatchSize);
    UniformPacking(items, 6 * MB, 8, MaxBatchSize);
    PackKeepsOrder(items, MaxBatchSize);
    FlattenUniformLength(p.flushed, 8);
    assert |Flatten(p.flushed)| + |p.open| == 120;
  }
}
