/** How fast successful ticks close the gap to a fixed sync height, and when they do not come to an end. */
module CatchUp {
  import opened Types
  import opened ExecutorSteps

  /** The height after a tick that meets no failure, if such a tick ends. */
  function TickHeight(h: nat, batch: nat, sync: nat): Option<nat> {
    if sync <= h then Some(h)
    else
      var end := EndBlock(h, batch, sync);
      if After(h, end).Idle? then Some(h)
      else if end == LAST then None
      else Some(end)
  }

  function Ticks(h: nat, batch: nat, sync: nat, k: nat): Option<nat>
    decreases k
  {
    if k == 0 then Some(h)
    else
      var t := TickHeight(h, batch, sync);
      if t.None? then None else Ticks(t.value, batch, sync, k - 1)
  }

  /** No batch that is still needed ends at 2^64 or beyond. */
  predicate NoWrap(h: nat, batch: nat, sync: nat, k: nat)
    decreases k
  {
    k == 0 || sync <= h || (h + batch < TWO_64 && NoWrap(h + batch, batch, sync, k - 1))
  }

  /** k batches further, but not beyond the sync height. */
  function Target(h: nat, batch: nat, sync: nat, k: nat): nat {
    if h + k * batch <= sync then h + k * batch else sync
  }

  lemma {:induction false} Stays(h: nat, batch: nat, sync: nat, k: nat)
    requires TickHeight(h, batch, sync) == Some(h)
    ensures Ticks(h, batch, sync, k) == Some(h)
    decreases k
  {
    if k > 0 {
      Stays(h, batch, sync, k - 1);
    }
  }

  lemma TargetCases(h: nat, batch: nat, sync: nat, k: nat)
    requires batch > 0 && h <= sync
    ensures k == 0 ==> Target(h, batch, sync, k) == h
    ensures h == sync ==> Target(h, batch, sync, k) == sync
    ensures k > 0 && h + batch >= sync ==> Target(h, batch, sync, k) == sync
    ensures k > 0 && h + batch < sync ==> Target(h, batch, sync, k) == Target(h + batch, batch, sync, k - 1)
  {
    if k > 0 {
      assert k * batch == batch + (k - 1) * batch;
      assert (k - 1) * batch >= 0;
    }
  }

  /** One tick, by where its batch ends. */
  lemma TickCases(h: nat, batch: nat, sync: nat)
    requires 1 <= batch < TWO_64 && h < sync < TWO_64
    ensures h + batch >= TWO_64 ==> TickHeight(h, batch, sync) == Some(h)
    ensures sync <= h + batch < TWO_64 ==> TickHeight(h, batch, sync) == if sync == LAST then None else Some(sync)
    ensures h + batch < sync ==> TickHeight(h, batch, sync) == Some(h + batch)
  {
    assert NextBlock(h) == h + 1;
    if h + batch >= TWO_64 {
      assert (h + batch) % TWO_64 == h + batch - TWO_64;
    }
  }

  /**
   k ticks gain exactly k batches, and stop at the sync height, as long as no batch wraps and the
   last block number is not reached; a batch that wraps leaves the height where it is for ever, and
   one that ends at the last block number does not end.
   */
  lemma {:induction false} CatchUpExactness(h: nat, batch: nat, sync: nat, k: nat)
    requires 1 <= batch < TWO_64 && h <= sync < TWO_64
    ensures Ticks(h, batch, sync, k) == Some(Target(h, batch, sync, k)) <==>
      NoWrap(h, batch, sync, k) && (h == sync || Target(h, batch, sync, k) < LAST)
    decreases k
  {
    TargetCases(h, batch, sync, k);
    hide Target;
    if k == 0 {
    } else if sync <= h {
      Stays(h, batch, sync, k);
    } else {
      TickCases(h, batch, sync);
      hide TickHeight, EndBlock, After;
      if h + batch >= TWO_64 {
        Stays(h, batch, sync, k);
      } else if h + batch >= sync {
        if sync < LAST {
          AtSync(batch, sync);
          Stays(sync, batch, sync, k - 1);
        }
      } else {
        CatchUpExactness(h + batch, batch, sync, k - 1);
      }
    }
  }

  lemma AtSync(batch: nat, sync: nat)
    ensures TickHeight(sync, batch, sync) == Some(sync)
  {
  }

  /** Heights this far below 2^64 never wrap. */
  lemma {:induction false} LowHeightsDoNotWrap(h: nat, batch: nat, sync: nat, k: nat)
    requires sync + batch <= TWO_64
    ensures NoWrap(h, batch, sync, k)
    decreases k
  {
    if k > 0 && h < sync {
      LowHeightsDoNotWrap(h + batch, batch, sync, k - 1);
    }
  }

  /** The recorded height of the uninterrupted run to the end of a batch that ends. */
  lemma IdealTick(p: Processor, start: Store, batch: nat, sync: nat)
    requires Height(start) < sync < TWO_64
    requires After(Height(start), EndBlock(Height(start), batch, sync)).Idle? ||
        EndBlock(Height(start), batch, sync) < LAST
    ensures Some(Height(Ideal(p, start, EndBlock(Height(start), batch, sync)))) ==
        TickHeight(Height(start), batch, sync)
  {
    var end := EndBlock(Height(start), batch, sync);
    assert NextBlock(Height(start)) == Height(start) + 1;
    if end > Height(start) {
      FinishHeight(p, Ideal(p, start, end - 1), end);
    }
  }

  lemma FinishHeight(p: Processor, store: Store, n: nat)
    ensures Height(Finish(p, store, n)) == n
  {
  }
}
