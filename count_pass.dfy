/** GeexieCountPass: a function pass that adds, to five global statistics, the
    counts GeexieFunctionAnalysis computes for each function it runs on. */
module CountPass {
  import opened IR
  import opened FunctionAnalysis

  /** The five STATISTIC counters of the pass; they start at zero and only grow. */
  class Statistics {
    var totalFuncs: nat
    var totalBBs: nat
    var totalLoops: nat
    var totalMulAndAdds: nat
    var totalPhis: nat

    constructor ()
      ensures totalFuncs == 0 && totalBBs == 0 && totalLoops == 0 && totalMulAndAdds == 0 && totalPhis == 0
    {
      totalFuncs, totalBBs, totalLoops, totalMulAndAdds, totalPhis := 0, 0, 0, 0, 0;
    }

    /** handleLoop: one increment of TotalLoops per loop of the subtree rooted at `l`. */
    method HandleLoop(l: Loop)
      modifies this
      ensures totalLoops == old(totalLoops) + |Subtree(l)|
      ensures totalFuncs == old(totalFuncs) && totalBBs == old(totalBBs)
      ensures totalMulAndAdds == old(totalMulAndAdds) && totalPhis == old(totalPhis)
      decreases l
    {
      totalLoops := totalLoops + 1;
      var i := 0;
      while i < |l.subLoops|
        invariant 0 <= i <= |l.subLoops|
        invariant totalLoops == old(totalLoops) + 1 + |Forest(l.subLoops[..i])|
        invariant totalFuncs == old(totalFuncs) && totalBBs == old(totalBBs)
        invariant totalMulAndAdds == old(totalMulAndAdds) && totalPhis == old(totalPhis)
      {
        HandleLoop(l.subLoops[i]);
        ForestAppend(l.subLoops[..i], l.subLoops[i]);
        assert l.subLoops[..i + 1] == l.subLoops[..i] + [l.subLoops[i]];
        i := i + 1;
      }
      assert l.subLoops[..i] == l.subLoops;
    }

    /** The block loop of run: TotalBBs grows by one per block, TotalMulAndAdds by
        one per Add, FAdd, Mul or FMul binary operator inside them. */
    method CountBlocks(f: Function)
      modifies this
      ensures totalBBs == old(totalBBs) + |f.blocks|
      ensures totalMulAndAdds == old(totalMulAndAdds) + CountOf(MulOrAdd, f.insts, Flatten(f.blocks))
      ensures totalFuncs == old(totalFuncs) && totalLoops == old(totalLoops) && totalPhis == old(totalPhis)
    {
      var b := 0;
      while b < |f.blocks|
        invariant 0 <= b <= |f.blocks|
        invariant totalBBs == old(totalBBs) + b
        invariant totalMulAndAdds == old(totalMulAndAdds) + CountOf(MulOrAdd, f.insts, Flatten(f.blocks[..b]))
        invariant totalFuncs == old(totalFuncs) && totalLoops == old(totalLoops) && totalPhis == old(totalPhis)
      {
        totalBBs := totalBBs + 1;
        var block := f.blocks[b];
        totalMulAndAdds := AddMulAndAdds(f.insts, block, totalMulAndAdds);
        FlattenAppend(f.blocks[..b], block);
        CountOfConcat(MulOrAdd, f.insts, Flatten(f.blocks[..b]), block);
        assert f.blocks[..b + 1] == f.blocks[..b] + [block];
        b := b + 1;
      }
      assert f.blocks[..b] == f.blocks;
    }

    /** The loop-forest loop of run: handleLoop on every top-level loop. */
    method CountLoops(loops: seq<Loop>)
      modifies this
      ensures totalLoops == old(totalLoops) + |Forest(loops)|
      ensures totalFuncs == old(totalFuncs) && totalBBs == old(totalBBs)
      ensures totalMulAndAdds == old(totalMulAndAdds) && totalPhis == old(totalPhis)
    {
      var j := 0;
      while j < |loops|
        invariant 0 <= j <= |loops|
        invariant totalLoops == old(totalLoops) + |Forest(loops[..j])|
        invariant totalFuncs == old(totalFuncs) && totalBBs == old(totalBBs)
        invariant totalMulAndAdds == old(totalMulAndAdds) && totalPhis == old(totalPhis)
      {
        HandleLoop(loops[j]);
        ForestAppend(loops[..j], loops[j]);
        assert loops[..j + 1] == loops[..j] + [loops[j]];
        j := j + 1;
      }
      assert loops[..j] == loops;
    }

    /** The instruction loop of run: TotalPhis grows by one per PHI node. */
    method CountPhis(f: Function)
      modifies this
      ensures totalPhis == old(totalPhis) + CountOf(PhiNode, f.insts, Flatten(f.blocks))
      ensures totalFuncs == old(totalFuncs) && totalBBs == old(totalBBs)
      ensures totalMulAndAdds == old(totalMulAndAdds) && totalLoops == old(totalLoops)
    {
      var all := Flatten(f.blocks);
      var k := 0;
      while k < |all|
        invariant 0 <= k <= |all|
        invariant totalPhis == old(totalPhis) + CountOf(PhiNode, f.insts, all[..k])
        invariant totalFuncs == old(totalFuncs) && totalBBs == old(totalBBs)
        invariant totalMulAndAdds == old(totalMulAndAdds) && totalLoops == old(totalLoops)
      {
        if all[k] in f.insts && f.insts[all[k]].kind.Phi? {
          totalPhis := totalPhis + 1;
        }
        CountOfAppend(PhiNode, f.insts, all[..k], all[k]);
        assert all[..k + 1] == all[..k] + [all[k]];
        k := k + 1;
      }
      assert all[..k] == all;
    }

    /** GeexieCountPass::run: every counter grows by what GeexieFunctionAnalysis
        computes for `f` (TotalFuncs by one), so none ever decreases, and all
        analyses are preserved. */
    method Run(f: Function) returns (pa: Preserved)
      modifies this
      ensures pa == PreservedAll
      ensures totalFuncs == old(totalFuncs) + 1
      ensures totalBBs == old(totalBBs) + Counts(f).bbsCount
      ensures totalLoops == old(totalLoops) + Counts(f).loopsCount
      ensures totalMulAndAdds == old(totalMulAndAdds) + Counts(f).mulAndAddsCount
      ensures totalPhis == old(totalPhis) + Counts(f).phisCount
    {
      totalFuncs := totalFuncs + 1;
      CountBlocks(f);
      CountLoops(f.loops);
      CountPhis(f);
      pa := PreservedAll;
    }
  }
}
