/** GeexieFunctionAnalysis: per-function counts of basic blocks, loops,
    multiply/add binary operators and PHI nodes. */
module FunctionAnalysis {
  import opened IR

  /** The binary operators counted as "multiply and add": Add, FAdd, Mul and FMul. */
  predicate IsMulOrAdd(k: Kind)
  {
    k.BinOp? && k.opcode in {Add, FAdd, Mul, FMul}
  }

  /** The two instruction categories the analysis counts. */
  datatype Category = MulOrAdd | PhiNode

  predicate InCategory(c: Category, insts: map<InstId, Instr>, id: InstId)
  {
    && id in insts
    && match c
       case MulOrAdd => IsMulOrAdd(insts[id].kind)
       case PhiNode => insts[id].kind.Phi?
  }

  /** How many entries of `ids` fall in category `c`. */
  function CountOf(c: Category, insts: map<InstId, Instr>, ids: seq<InstId>): nat
  {
    if ids == [] then 0
    else CountOf(c, insts, ids[..|ids| - 1]) + (if InCategory(c, insts, ids[|ids| - 1]) then 1 else 0)
  }

  lemma CountOfAppend(c: Category, insts: map<InstId, Instr>, ids: seq<InstId>, id: InstId)
    ensures CountOf(c, insts, ids + [id]) == CountOf(c, insts, ids) + (if InCategory(c, insts, id) then 1 else 0)
  {
    assert (ids + [id])[..|ids|] == ids;
  }

  /** Each instruction of the category is counted once per position, and nothing else is counted. */
  lemma {:induction false} CountOfIsCardinality(c: Category, insts: map<InstId, Instr>, ids: seq<InstId>)
    ensures CountOf(c, insts, ids) == |set k | 0 <= k < |ids| && InCategory(c, insts, ids[k])|
  {
    if ids != [] {
      var n := |ids| - 1;
      var front := ids[..n];
      CountOfIsCardinality(c, insts, front);
      var before := set k | 0 <= k < |front| && InCategory(c, insts, front[k]);
      var all := set k | 0 <= k < |ids| && InCategory(c, insts, ids[k]);
      if InCategory(c, insts, ids[n]) {
        assert all == before + {n};
      } else {
        assert all == before;
      }
    }
  }

  /** Counting distributes over concatenation. */
  lemma {:induction false} CountOfConcat(c: Category, insts: map<InstId, Instr>, a: seq<InstId>, b: seq<InstId>)
    ensures CountOf(c, insts, a + b) == CountOf(c, insts, a) + CountOf(c, insts, b)
  {
    if b == [] {
      assert a + b == a;
    } else {
      var n := |b| - 1;
      CountOfConcat(c, insts, a, b[..n]);
      CountOfAppend(c, insts, a + b[..n], b[n]);
      assert a + b == (a + b[..n]) + [b[n]];
      assert CountOf(c, insts, b) == CountOf(c, insts, b[..n]) + (if InCategory(c, insts, b[n]) then 1 else 0);
    }
  }

  /** The inner loop of run's block loop: `count` grows by one per multiply/add of `block`. */
  method AddMulAndAdds(insts: map<InstId, Instr>, block: Block, count: int) returns (count': int)
    ensures count' == count + CountOf(MulOrAdd, insts, block)
  {
    count' := count;
    var i := 0;
    while i < |block|
      invariant 0 <= i <= |block|
      invariant count' == count + CountOf(MulOrAdd, insts, block[..i])
    {
      var id := block[i];
      if id in insts && insts[id].kind.BinOp? {
        if insts[id].kind.opcode in {Add, FAdd, Mul, FMul} {
          count' := count' + 1;
        }
      }
      CountOfAppend(MulOrAdd, insts, block[..i], id);
      assert block[..i + 1] == block[..i] + [id];
      i := i + 1;
    }
    assert block[..i] == block;
  }

  /** GeexieFunctionAnalysis::Result, fields in declaration order. */
  datatype Result = Result(bbsCount: int, loopsCount: int, mulAndAddsCount: int, phisCount: int)

  /** What the analysis computes for a function. */
  function Counts(f: Function): Result
  {
    Result(|f.blocks|, |Forest(f.loops)|,
           CountOf(MulOrAdd, f.insts, Flatten(f.blocks)),
           CountOf(PhiNode, f.insts, Flatten(f.blocks)))
  }

  /** The static handleLoop: the number of loops in the subtree rooted at `l`. */
  method HandleLoop(l: Loop) returns (loopsCount: int)
    ensures loopsCount == |Subtree(l)|
    ensures loopsCount >= 1
    decreases l
  {
    loopsCount := 1;
    var i := 0;
    while i < |l.subLoops|
      invariant 0 <= i <= |l.subLoops|
      invariant loopsCount == 1 + |Forest(l.subLoops[..i])|
    {
      var n := HandleLoop(l.subLoops[i]);
      loopsCount := loopsCount + n;
      ForestAppend(l.subLoops[..i], l.subLoops[i]);
      assert l.subLoops[..i + 1] == l.subLoops[..i] + [l.subLoops[i]];
      i := i + 1;
    }
    assert l.subLoops[..i] == l.subLoops;
  }

  /** The first loop of run: the basic blocks, and the multiply/add operators inside them. */
  method CountBlocks(f: Function) returns (bbsCount: int, mulAndAddsCount: int)
    ensures bbsCount == |f.blocks|
    ensures mulAndAddsCount == CountOf(MulOrAdd, f.insts, Flatten(f.blocks))
  {
    bbsCount, mulAndAddsCount := 0, 0;
    var b := 0;
    while b < |f.blocks|
      invariant 0 <= b <= |f.blocks|
      invariant bbsCount == b
      invariant mulAndAddsCount == CountOf(MulOrAdd, f.insts, Flatten(f.blocks[..b]))
    {
      bbsCount := bbsCount + 1;
      var block := f.blocks[b];
      mulAndAddsCount := AddMulAndAdds(f.insts, block, mulAndAddsCount);
      FlattenAppend(f.blocks[..b], block);
      CountOfConcat(MulOrAdd, f.insts, Flatten(f.blocks[..b]), block);
      assert f.blocks[..b + 1] == f.blocks[..b] + [block];
      b := b + 1;
    }
    assert f.blocks[..b] == f.blocks;
  }

  /** The second loop of run: the PHI nodes among all instructions of the function. */
  method CountPhis(f: Function) returns (phisCount: int)
    ensures phisCount == CountOf(PhiNode, f.insts, Flatten(f.blocks))
  {
    phisCount := 0;
    var all := Flatten(f.blocks);
    var k := 0;
    while k < |all|
      invariant 0 <= k <= |all|
      invariant phisCount == CountOf(PhiNode, f.insts, all[..k])
    {
      if all[k] in f.insts && f.insts[all[k]].kind.Phi? {
        phisCount := phisCount + 1;
      }
      CountOfAppend(PhiNode, f.insts, all[..k], all[k]);
      assert all[..k + 1] == all[..k] + [all[k]];
      k := k + 1;
    }
    assert all[..k] == all;
  }

  /** The third loop of run: every loop of the forest, nested ones included. */
  method CountLoops(loops: seq<Loop>) returns (loopsCount: int)
    ensures loopsCount == |Forest(loops)|
  {
    loopsCount := 0;
    var j := 0;
    while j < |loops|
      invariant 0 <= j <= |loops|
      invariant loopsCount == |Forest(loops[..j])|
    {
      var n := HandleLoop(loops[j]);
      loopsCount := loopsCount + n;
      ForestAppend(loops[..j], loops[j]);
      assert loops[..j + 1] == loops[..j] + [loops[j]];
      j := j + 1;
    }
    assert loops[..j] == loops;
  }

  /** GeexieFunctionAnalysis::run. */
  method Run(f: Function) returns (res: Result)
    ensures res == Counts(f)
    ensures res.bbsCount >= 0 && res.loopsCount >= 0 && res.mulAndAddsCount >= 0 && res.phisCount >= 0
  {
    var bbsCount, mulAndAddsCount := CountBlocks(f);
    var phisCount := CountPhis(f);
    var loopsCount := CountLoops(f.loops);
    res := Result(bbsCount, loopsCount, mulAndAddsCount, phisCount);
  }
}
