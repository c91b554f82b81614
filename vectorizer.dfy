/** GeexieVecPass: a naive loop vectoriser. For each innermost loop with a
    canonical induction variable it decides whether the loop can be widened to
    VECTOR_SIZE lanes and, if so, rewrites the loop body in place: operands
    become vectors, results become vector-typed, and the induction variable
    steps by VECTOR_SIZE. */
module GeexieVec {
  import opened Wrappers
  import opened IR
  import LoopAnalysis

  /** VECTOR_SIZE in handleLoopVec. */
  const VectorSize: nat := 4

  // ---------------------------------------------------------------------------
  // vectorizeValue
  // ---------------------------------------------------------------------------

  /** The values dyn_cast<ConstantData> accepts. */
  predicate IsConstantData(v: Value)
  {
    v.IntConst? || v.FPConst?
  }

  /** The vector vectorizeValue produces for `val`: `n` lanes each holding `val`,
      plus the stride 0, 1, ..., n-1 when `val` is the induction variable; the null
      pointer for a value that is neither constant data nor an instruction. */
  function VectorOf(val: Value, n: nat, indVar: InstId): Value
  {
    if IsConstantData(val) then Vector(seq(n, i => Lane(val, 0)))
    else if val.Inst? then Vector(seq(n, i => Lane(val, if val == Inst(indVar) then i else 0)))
    else NoValue
  }

  /** A constant becomes a splat, an instruction other than the induction variable
      fills every lane with itself, the induction variable holds iv + i in lane i,
      and every other value yields null. */
  lemma VectorOfLanes(val: Value, n: nat, indVar: InstId)
    ensures VectorOf(val, n, indVar) != NoValue <==> IsConstantData(val) || val.Inst?
    ensures VectorOf(val, n, indVar) != NoValue ==>
      VectorOf(val, n, indVar).Vector? && |VectorOf(val, n, indVar).lanes| == n
    ensures VectorOf(val, n, indVar) != NoValue ==>
      forall i :: 0 <= i < n ==> VectorOf(val, n, indVar).lanes[i] == Lane(val, if val == Inst(indVar) then i else 0)
  {
  }

  /** vectorizeValue: builds the vector by inserting `val` into each lane of a zero
      vector and, for the induction variable, adding the stride vector. */
  method VectorizeValue(val: Value, vectorSize: nat, indVar: InstId) returns (r: Value)
    ensures r == VectorOf(val, vectorSize, indVar)
  {
    if IsConstantData(val) {
      r := Vector(seq(vectorSize, i => Lane(val, 0)));
    } else if val.Inst? {
      var initVec := seq(vectorSize, i => Lane(IntConst(0), 0));
      var curVec := initVec;
      var i := 0;
      while i < vectorSize
        invariant 0 <= i <= vectorSize && |curVec| == vectorSize
        invariant forall k :: 0 <= k < i ==> curVec[k] == Lane(val, 0)
      {
        curVec := curVec[i := Lane(val, 0)];
        i := i + 1;
      }
      if val == Inst(indVar) {
        var strides: seq<int> := [];
        var j := 0;
        while j < vectorSize
          invariant 0 <= j <= vectorSize && |strides| == j
          invariant forall k :: 0 <= k < j ==> strides[k] == k
        {
          strides := strides + [j];
          j := j + 1;
        }
        var resultVec := seq(vectorSize, k requires 0 <= k < vectorSize =>
                               Lane(curVec[k].base, curVec[k].offset + strides[k]));
        assert resultVec == seq(vectorSize, k => Lane(val, if val == Inst(indVar) then k else 0));
        r := Vector(resultVec);
      } else {
        assert curVec == seq(vectorSize, k => Lane(val, if val == Inst(indVar) then k else 0));
        r := Vector(curVec);
      }
    } else {
      r := NoValue;
    }
  }

  // ---------------------------------------------------------------------------
  // The loop shape: exiting compare, induction-variable update, loop bound
  // ---------------------------------------------------------------------------

  /** The terminator of a non-empty block: its last instruction. */
  function Last(b: Block): InstId
    requires |b| > 0
  {
    b[|b| - 1]
  }

  /** getExitingConditional: the ICmp tested by the conditional branch that ends
      the loop's unique exiting block; none when there is no unique exiting block,
      when it does not end in a conditional branch, or when the condition is not an ICmp. */
  function ExitingConditional(insts: map<InstId, Instr>, l: Loop): (cmp: Option<InstId>)
    ensures cmp.Some? ==> KindOf(insts, Inst(cmp.value)) == Some(ICmp)
    ensures cmp.Some? <==>
      && l.exiting.Some? && |l.exiting.value| > 0
      && Last(l.exiting.value) in insts
      && insts[Last(l.exiting.value)].kind == CondBr
      && KindOf(insts, Operand(insts[Last(l.exiting.value)], 0)) == Some(ICmp)
    ensures cmp.Some? ==> Inst(cmp.value) == Operand(insts[Last(l.exiting.value)], 0)
  {
    if l.exiting.None? then None
    else
      var latch := l.exiting.value;
      if |latch| == 0 || latch[|latch| - 1] !in insts then None
      else
        var term := insts[latch[|latch| - 1]];
        var cond := Operand(term, 0);
        if term.kind == CondBr && KindOf(insts, cond) == Some(ICmp) then Some(cond.id) else None
  }

  /** getLoopBound: the operand of the compare opposite the induction variable;
      none when the compare or the induction variable is missing or when neither
      operand is the induction variable. */
  function LoopBound(insts: map<InstId, Instr>, indVar: Option<InstId>, cmp: Option<InstId>): (bound: Option<Value>)
    ensures bound.Some? <==>
      && indVar.Some? && cmp.Some? && cmp.value in insts
      && (Operand(insts[cmp.value], 0) == Inst(indVar.value) || Operand(insts[cmp.value], 1) == Inst(indVar.value))
    ensures bound.Some? ==>
      var c := insts[cmp.value];
      || (Operand(c, 0) == Inst(indVar.value) && bound.value == Operand(c, 1))
      || (Operand(c, 0) != Inst(indVar.value) && Operand(c, 1) == Inst(indVar.value) && bound.value == Operand(c, 0))
  {
    if cmp.Some? && indVar.Some? && cmp.value in insts then
      var op1 := Operand(insts[cmp.value], 0);
      var op2 := Operand(insts[cmp.value], 1);
      if op1 == Inst(indVar.value) then Some(op2)
      else if op2 == Inst(indVar.value) then Some(op1)
      else None
    else None
  }

  /** The result of getIVUpdate: the update of the induction variable when there
      is exactly one. */
  function IVUpdateOf(insts: map<InstId, Instr>, indVar: InstId): (update: Option<InstId>)
    ensures update.Some? <==> |LoopAnalysis.IVUpdates(insts, indVar)| == 1
    ensures update.Some? ==>
      && LoopAnalysis.IsIVUpdate(insts, indVar, Inst(update.value))
      && Inst(update.value) in LoopAnalysis.IncomingValues(insts, indVar)
  {
    var updates := LoopAnalysis.IVUpdates(insts, indVar);
    LoopAnalysis.UpdatesAmongMembers(insts, indVar, LoopAnalysis.IncomingValues(insts, indVar));
    if |updates| == 1 then assert updates[0] in updates; Some(updates[0]) else None
  }

  /** The vectoriser finds an update exactly when GeexieLoopAnalysis counts one. */
  lemma IVUpdateFoundIffAnalysisCountsOne(insts: map<InstId, Instr>, l: Loop)
    requires l.indVar.Some?
    ensures IVUpdateOf(insts, l.indVar.value).Some? <==> LoopAnalysis.InvUpdatesCount(insts, l) == 1
  {
  }

  /** getIVUpdate: collects the updates in incoming-edge order and keeps one only
      when it is the only one. */
  method GetIVUpdate(insts: map<InstId, Instr>, indVar: InstId) returns (update: Option<InstId>)
    ensures update == IVUpdateOf(insts, indVar)
  {
    var incoming := LoopAnalysis.IncomingValues(insts, indVar);
    var updates: seq<InstId> := [];
    var i := 0;
    while i < |incoming|
      invariant 0 <= i <= |incoming|
      invariant updates == LoopAnalysis.UpdatesAmong(insts, indVar, incoming[..i])
    {
      var v := incoming[i];
      if v.Inst? && v.id in insts && insts[v.id].kind.BinOp? {
        var binOp := insts[v.id];
        if Operand(binOp, 0) == Inst(indVar) || Operand(binOp, 1) == Inst(indVar) {
          updates := updates + [v.id];
        }
      }
      assert incoming[..i + 1][..i] == incoming[..i];
      i := i + 1;
    }
    assert incoming[..i] == incoming;
    update := if |updates| == 1 then Some(updates[0]) else None;
  }

  /** C++'s `%` for a positive divisor: the remainder takes the sign of the dividend. */
  function CRem(a: int, b: int): int
    requires b > 0
  {
    if a >= 0 then a % b else -((-a) % b)
  }

  /** The bound check: a ConstantInt whose signed value, taken with C++'s `%`,
      leaves remainder 0 modulo VECTOR_SIZE, which is exactly divisibility by it. */
  function HasVectorizableLoopBound(bound: Value): (r: bool)
    ensures r <==> bound.IntConst? && bound.n % VectorSize == 0
  {
    bound.IntConst? && CRem(bound.n, VectorSize) == 0
  }

  // ---------------------------------------------------------------------------
  // The legality scan
  // ---------------------------------------------------------------------------

  /** The three instructions handleLoopVec leaves to itself: the exiting compare,
      the induction variable and its update. */
  datatype Plan = Plan(indVar: InstId, cmp: InstId, update: InstId)

  predicate Skipped(p: Plan, id: InstId)
  {
    id == p.cmp || id == p.indVar || id == p.update
  }

  /** gep->indices(): the operands after the base pointer. */
  function GEPIndices(i: Instr): seq<Value>
  {
    if |i.operands| == 0 then [] else i.operands[1..]
  }

  /** Whether the scan lets instruction `id` through, given the set of
      instructions it has accepted so far: a GEP needs every index to be the
      induction variable or loop-invariant; a conditional branch needs a condition
      that is not loop-invariant; every other instruction needs each operand to be
      accepted already, loop-invariant, or the induction variable. */
  predicate Acceptable(insts: map<InstId, Instr>, l: Loop, p: Plan, vectorized: set<InstId>, id: InstId)
  {
    if Skipped(p, id) || id !in insts then true
    else
      var i := insts[id];
      match i.kind
      case GEP => forall x :: x in GEPIndices(i) ==> IndexOk(l, p, x)
      case CondBr => !IsLoopInvariant(l, Operand(i, 0))
      case Br => true
      case _ => forall x :: x in i.operands ==> OperandOk(l, p, vectorized, x)
  }

  /** A GEP index the rewrite can handle: the induction variable or loop-invariant. */
  predicate IndexOk(l: Loop, p: Plan, x: Value)
  {
    x == Inst(p.indVar) || IsLoopInvariant(l, x)
  }

  /** An operand the rewrite can handle: accepted already, loop-invariant, or the induction variable. */
  predicate OperandOk(l: Loop, p: Plan, vectorized: set<InstId>, x: Value)
  {
    (x.Inst? && x.id in vectorized) || IsLoopInvariant(l, x) || x == Inst(p.indVar)
  }

  /** What the scan adds to vectorizedSet once it accepts `id`: GEPs and the
      instructions of the generic case, not branches. */
  function Grow(insts: map<InstId, Instr>, p: Plan, vectorized: set<InstId>, id: InstId): set<InstId>
  {
    if Skipped(p, id) || id !in insts || insts[id].kind.CondBr? || insts[id].kind.Br? then vectorized
    else vectorized + {id}
  }

  datatype ScanResult = Accepted(vectorized: set<InstId>) | Rejected(at: InstId)

  /** The legality scan over the instructions `ids`, in order, stopping at the first it rejects. */
  function Scan(insts: map<InstId, Instr>, l: Loop, p: Plan, ids: seq<InstId>): ScanResult
  {
    if ids == [] then Accepted({})
    else
      ScanStep(insts, l, p, Scan(insts, l, p, ids[..|ids| - 1]), ids[|ids| - 1])
  }

  /** One step of the scan: a rejection stands; otherwise `id` is checked against
      the set accepted so far. */
  function ScanStep(insts: map<InstId, Instr>, l: Loop, p: Plan, prev: ScanResult, id: InstId): ScanResult
  {
    if prev.Rejected? then prev
    else if Acceptable(insts, l, p, prev.vectorized, id) then Accepted(Grow(insts, p, prev.vectorized, id))
    else Rejected(id)
  }

  lemma ScanAppend(insts: map<InstId, Instr>, l: Loop, p: Plan, ids: seq<InstId>, id: InstId)
    ensures Scan(insts, l, p, ids + [id]) == ScanStep(insts, l, p, Scan(insts, l, p, ids), id)
  {
    assert (ids + [id])[..|ids|] == ids;
  }

  /** Once a prefix is rejected the scan returns at once: the whole scan is that rejection. */
  lemma {:induction false} ScanRejectedPrefix(insts: map<InstId, Instr>, l: Loop, p: Plan, ids: seq<InstId>, k: nat)
    requires k <= |ids| && Scan(insts, l, p, ids[..k]).Rejected?
    ensures Scan(insts, l, p, ids) == Scan(insts, l, p, ids[..k])
    decreases |ids|
  {
    if k == |ids| {
      assert ids[..k] == ids;
    } else {
      var front := ids[..|ids| - 1];
      assert front[..k] == ids[..k];
      ScanRejectedPrefix(insts, l, p, front, k);
    }
  }

  /** The scan accepts the loop exactly when every instruction is acceptable given
      the instructions accepted before it; it rejects at the first that is not. */
  lemma {:induction false} ScanCharacterization(insts: map<InstId, Instr>, l: Loop, p: Plan, ids: seq<InstId>)
    ensures Scan(insts, l, p, ids).Accepted? ==>
      forall k :: 0 <= k < |ids| ==>
        Scan(insts, l, p, ids[..k]).Accepted? && Acceptable(insts, l, p, Scan(insts, l, p, ids[..k]).vectorized, ids[k])
    ensures Scan(insts, l, p, ids).Rejected? ==>
      exists k :: 0 <= k < |ids| && ids[k] == Scan(insts, l, p, ids).at &&
        Scan(insts, l, p, ids[..k]).Accepted? && !Acceptable(insts, l, p, Scan(insts, l, p, ids[..k]).vectorized, ids[k])
  {
    if ids != [] {
      var n := |ids| - 1;
      var front := ids[..n];
      ScanCharacterization(insts, l, p, front);
      if Scan(insts, l, p, ids).Accepted? {
        forall k | 0 <= k < |ids|
          ensures Scan(insts, l, p, ids[..k]).Accepted? && Acceptable(insts, l, p, Scan(insts, l, p, ids[..k]).vectorized, ids[k])
        {
          if k < n {
            assert front[..k] == ids[..k] && front[k] == ids[k];
          }
        }
      } else if Scan(insts, l, p, front).Rejected? {
        var k :| 0 <= k < |front| && front[k] == Scan(insts, l, p, front).at &&
          Scan(insts, l, p, front[..k]).Accepted? && !Acceptable(insts, l, p, Scan(insts, l, p, front[..k]).vectorized, front[k]);
        assert front[..k] == ids[..k] && front[k] == ids[k];
      }
    }
  }

  /** An accepted scan has accepted exactly the GEPs and generic-case instructions
      of the loop, and no branch. */
  lemma {:induction false} ScanAcceptedSet(insts: map<InstId, Instr>, l: Loop, p: Plan, ids: seq<InstId>)
    requires Scan(insts, l, p, ids).Accepted?
    ensures Scan(insts, l, p, ids).vectorized ==
      set id | id in ids && !Skipped(p, id) && id in insts && !insts[id].kind.CondBr? && !insts[id].kind.Br?
  {
    if ids != [] {
      var n := |ids| - 1;
      ScanAcceptedSet(insts, l, p, ids[..n]);
      assert ids == ids[..n] + [ids[n]];
    }
  }

  /** The scan depends on the order of the body: an add of the induction variable
      followed by a multiply of that sum is accepted, the same two instructions in
      the other order are rejected at the multiply. */
  lemma ScanDependsOnOrder()
    ensures
      var iv, cmp, upd, sum, prod := 0, 1, 2, 3, 4;
      var insts := map[sum := Instr(BinOp(Add), [Inst(iv), IntConst(1)], IntTy(64)),
                       prod := Instr(BinOp(Mul), [Inst(sum), IntConst(2)], IntTy(64))];
      var p := Plan(iv, cmp, upd);
      && Scan(insts, Loop([[sum, prod]], [], Some(iv), None), p, [sum, prod]).Accepted?
      && Scan(insts, Loop([[prod, sum]], [], Some(iv), None), p, [prod, sum]) == Rejected(prod)
  {
    var iv, cmp, upd, sum, prod := 0, 1, 2, 3, 4;
    var insts := map[sum := Instr(BinOp(Add), [Inst(iv), IntConst(1)], IntTy(64)),
                     prod := Instr(BinOp(Mul), [Inst(sum), IntConst(2)], IntTy(64))];
    var p := Plan(iv, cmp, upd);
    var good := Loop([[sum, prod]], [], Some(iv), None);
    var bad := Loop([[prod, sum]], [], Some(iv), None);
    assert Flatten(good.blocks) == [sum, prod];
    assert Flatten(bad.blocks) == [prod, sum];
    assert [sum, prod][..1] == [sum] && [sum][..0] == [];
    assert Scan(insts, good, p, [sum]) == Accepted({sum});
    assert Acceptable(insts, good, p, {sum}, prod);
    assert [prod, sum][..1] == [prod] && [prod][..0] == [];
    assert !Acceptable(insts, bad, p, {}, prod) by {
      assert Inst(sum) in insts[prod].operands;
      assert Contains(bad, sum);
    }
    assert Scan(insts, bad, p, [prod]) == Rejected(prod);
  }

  /** The index loop of the scan's GEP case. */
  method CheckIndices(l: Loop, p: Plan, indices: seq<Value>) returns (ok: bool)
    ensures ok <==> forall x :: x in indices ==> IndexOk(l, p, x)
  {
    var k := 0;
    while k < |indices|
      invariant 0 <= k <= |indices|
      invariant forall x :: x in indices[..k] ==> IndexOk(l, p, x)
    {
      var index := indices[k];
      if index != Inst(p.indVar) && !IsLoopInvariant(l, index) {
        assert index in indices;
        return false;
      }
      assert indices[..k + 1] == indices[..k] + [index];
      k := k + 1;
    }
    assert indices[..k] == indices;
    return true;
  }

  /** The operand loop of the scan's generic case. */
  method CheckOperands(l: Loop, p: Plan, vectorized: set<InstId>, operands: seq<Value>) returns (ok: bool)
    ensures ok <==> forall x :: x in operands ==> OperandOk(l, p, vectorized, x)
  {
    var k := 0;
    while k < |operands|
      invariant 0 <= k <= |operands|
      invariant forall x :: x in operands[..k] ==> OperandOk(l, p, vectorized, x)
    {
      var operand := operands[k];
      if !(operand.Inst? && operand.id in vectorized) && !IsLoopInvariant(l, operand) && operand != Inst(p.indVar) {
        assert operand in operands;
        return false;
      }
      assert operands[..k + 1] == operands[..k] + [operand];
      k := k + 1;
    }
    assert operands[..k] == operands;
    return true;
  }

  /** Whether the scan accepts one instruction. */
  method CheckInstruction(insts: map<InstId, Instr>, l: Loop, p: Plan, vectorized: set<InstId>, id: InstId)
    returns (ok: bool)
    ensures ok == Acceptable(insts, l, p, vectorized, id)
  {
    if Skipped(p, id) || id !in insts {
      return true;
    }
    var i := insts[id];
    match i.kind {
      case GEP =>
        ok := CheckIndices(l, p, GEPIndices(i));
      case CondBr =>
        ok := !IsLoopInvariant(l, Operand(i, 0));
      case Br =>
        ok := true;
      case _ =>
        ok := CheckOperands(l, p, vectorized, i.operands);
    }
  }

  /** The instruction loop of the scan over one block, continuing a scan of
      `done` that has accepted `vectorizedSet` so far. */
  method ScanBlock(insts: map<InstId, Instr>, l: Loop, p: Plan, ghost done: seq<InstId>, block: Block, vectorizedSet: set<InstId>)
    returns (r: ScanResult)
    requires Scan(insts, l, p, done) == Accepted(vectorizedSet)
    ensures r == Scan(insts, l, p, done + block)
  {
    var vectorized := vectorizedSet;
    ghost var whole := done + block;
    var i := 0;
    assert whole[..|done|] == done;
    while i < |block|
      invariant 0 <= i <= |block|
      invariant Scan(insts, l, p, whole[..|done| + i]) == Accepted(vectorized)
    {
      var id := block[i];
      assert whole[|done| + i] == id;
      ScanAppend(insts, l, p, whole[..|done| + i], id);
      assert whole[..|done| + i + 1] == whole[..|done| + i] + [id];
      var ok := CheckInstruction(insts, l, p, vectorized, id);
      if !ok {
        ScanRejectedPrefix(insts, l, p, whole, |done| + i + 1);
        return Rejected(id);
      }
      vectorized := Grow(insts, p, vectorized, id);
      i := i + 1;
    }
    assert whole[..|done| + i] == whole;
    r := Accepted(vectorized);
  }

  /** A scan rejected within the first `m` blocks is rejected over the whole body. */
  lemma ScanRejectedBlocks(insts: map<InstId, Instr>, l: Loop, p: Plan, m: nat)
    requires m <= |l.blocks| && Scan(insts, l, p, Flatten(l.blocks[..m])).Rejected?
    ensures Scan(insts, l, p, Flatten(l.blocks)) == Scan(insts, l, p, Flatten(l.blocks[..m]))
  {
    var all := Flatten(l.blocks);
    var upTo := Flatten(l.blocks[..m]);
    FlattenPrefix(l.blocks, m);
    assert all[..|upTo|] == upTo;
    ScanRejectedPrefix(insts, l, p, all, |upTo|);
  }

  /** The legality scan of handleLoopVec: block by block, instruction by
      instruction, growing vectorizedSet and returning at the first rejection. */
  method LegalityScan(insts: map<InstId, Instr>, l: Loop, p: Plan) returns (r: ScanResult)
    ensures r == Scan(insts, l, p, Flatten(l.blocks))
  {
    var vectorizedSet: set<InstId> := {};
    var b := 0;
    while b < |l.blocks|
      invariant 0 <= b <= |l.blocks|
      invariant Scan(insts, l, p, Flatten(l.blocks[..b])) == Accepted(vectorizedSet)
    {
      var block := l.blocks[b];
      var scanned := ScanBlock(insts, l, p, Flatten(l.blocks[..b]), block, vectorizedSet);
      FlattenAppend(l.blocks[..b], block);
      assert l.blocks[..b + 1] == l.blocks[..b] + [block];
      if scanned.Rejected? {
        ScanRejectedBlocks(insts, l, p, b + 1);
        return scanned;
      }
      vectorizedSet := scanned.vectorized;
      b := b + 1;
    }
    assert l.blocks[..b] == l.blocks;
    r := Accepted(vectorizedSet);
  }

  // ---------------------------------------------------------------------------
  // The rewrite
  // ---------------------------------------------------------------------------

  /** The instructions the rewrite vectorises operand by operand. */
  predicate IsRewrittenKind(k: Kind)
  {
    k.BinOp? || k.ICmp? || k.Load? || k.Store?
  }

  /** Instruction `id` is one whose operands and type the rewrite changes. */
  predicate Rewritten(p: Plan, insts: map<InstId, Instr>, id: InstId)
  {
    !Skipped(p, id) && id in insts && IsRewrittenKind(insts[id].kind)
  }

  /** Whether some index of a GEP varies with the loop. */
  predicate HasVaryingIndex(l: Loop, i: Instr)
  {
    exists x :: x in GEPIndices(i) && !IsLoopInvariant(l, x)
  }

  /** std::map::insert: a key already present keeps its value. */
  function Insert(m: map<Value, Value>, k: Value, v: Value): map<Value, Value>
  {
    if k in m then m else m[k := v]
  }

  /** `m2` holds every entry of `m1` unchanged. */
  predicate Extends(m1: map<Value, Value>, m2: map<Value, Value>)
  {
    forall x :: x in m1 ==> x in m2 && m2[x] == m1[x]
  }

  /** The entries the rewrite of loop `l` can put into valmap, judged against the
      instructions `insts0` it started from: the vector of the key (or null), or,
      for a loop instruction with an entry of its own, that entry (the instruction
      itself, or the vector-pointer cast of a GEP with a varying index). */
  predicate ValmapEntries(insts0: map<InstId, Instr>, l: Loop, p: Plan, m: map<Value, Value>)
  {
    forall x :: x in m ==>
      || m[x] == VectorOf(x, VectorSize, p.indVar)
      || (x.Inst? && Contains(l, x.id) && OwnEntry(insts0, l, p, x.id) && m[x] == OwnValue(insts0, x.id))
  }

  /** The operands after rewriting, with the valmap that results. */
  datatype Mapped = Mapped(operands: seq<Value>, valmap: map<Value, Value>)

  /** The operand loop of the rewrite: each operand is replaced by its valmap entry,
      and an operand without one is vectorised once and recorded. */
  function MapOperands(ops: seq<Value>, valmap: map<Value, Value>, indVar: InstId): (r: Mapped)
    ensures |r.operands| == |ops|
  {
    if ops == [] then Mapped([], valmap)
    else
      var prev := MapOperands(ops[..|ops| - 1], valmap, indVar);
      var x := ops[|ops| - 1];
      if x in prev.valmap then Mapped(prev.operands + [prev.valmap[x]], prev.valmap)
      else
        var v := VectorOf(x, VectorSize, indVar);
        Mapped(prev.operands + [v], prev.valmap[x := v])
  }

  /** Each operand is replaced by the valmap entry it ends up with, so equal
      operands get equal replacements; entries already present are kept, and every
      entry added is the vector of an operand. */
  lemma MapOperandsSpec(ops: seq<Value>, valmap: map<Value, Value>, indVar: InstId)
    ensures |MapOperands(ops, valmap, indVar).operands| == |ops|
    ensures Extends(valmap, MapOperands(ops, valmap, indVar).valmap)
    ensures forall j :: 0 <= j < |ops| ==>
      ops[j] in MapOperands(ops, valmap, indVar).valmap &&
      MapOperands(ops, valmap, indVar).operands[j] == MapOperands(ops, valmap, indVar).valmap[ops[j]]
    ensures forall x :: x in MapOperands(ops, valmap, indVar).valmap && x !in valmap ==>
      x in ops && MapOperands(ops, valmap, indVar).valmap[x] == VectorOf(x, VectorSize, indVar)
  {
    MapOperandsExtends(ops, valmap, indVar);
    MapOperandsLookup(ops, valmap, indVar);
    MapOperandsNew(ops, valmap, indVar);
  }

  /** The valmap only grows: entries present before the operand loop are kept. */
  lemma {:induction false} MapOperandsExtends(ops: seq<Value>, valmap: map<Value, Value>, indVar: InstId)
    ensures Extends(valmap, MapOperands(ops, valmap, indVar).valmap)
  {
    if ops != [] {
      MapOperandsExtends(ops[..|ops| - 1], valmap, indVar);
    }
  }

  /** Every operand ends up with a valmap entry, and is replaced by it. */
  lemma {:induction false} MapOperandsLookup(ops: seq<Value>, valmap: map<Value, Value>, indVar: InstId)
    ensures forall j :: 0 <= j < |ops| ==>
      ops[j] in MapOperands(ops, valmap, indVar).valmap &&
      MapOperands(ops, valmap, indVar).operands[j] == MapOperands(ops, valmap, indVar).valmap[ops[j]]
  {
    if ops != [] {
      var n := |ops| - 1;
      var front := ops[..n];
      MapOperandsLookup(front, valmap, indVar);
      var prev := MapOperands(front, valmap, indVar);
      var r := MapOperands(ops, valmap, indVar);
      assert r.operands[..n] == prev.operands;
      assert Extends(prev.valmap, r.valmap);
      forall j | 0 <= j < n
        ensures ops[j] in r.valmap && r.operands[j] == r.valmap[ops[j]]
      {
        assert ops[j] == front[j];
        assert r.operands[j] == prev.operands[j];
      }
    }
  }

  /** Every entry the operand loop adds is keyed by an operand and holds its vector. */
  lemma {:induction false} MapOperandsNew(ops: seq<Value>, valmap: map<Value, Value>, indVar: InstId)
    ensures forall x :: x in MapOperands(ops, valmap, indVar).valmap && x !in valmap ==>
      x in ops && MapOperands(ops, valmap, indVar).valmap[x] == VectorOf(x, VectorSize, indVar)
  {
    if ops != [] {
      var n := |ops| - 1;
      var front := ops[..n];
      MapOperandsNew(front, valmap, indVar);
      var prev := MapOperands(front, valmap, indVar);
      var r := MapOperands(ops, valmap, indVar);
      forall x | x in r.valmap && x !in valmap
        ensures x in ops && r.valmap[x] == VectorOf(x, VectorSize, indVar)
      {
        if x in prev.valmap {
          var j :| 0 <= j < |front| && front[j] == x;
          assert ops[j] == x;
        }
      }
    }
  }

  /** The rewrite state: the instructions and valmap. */
  datatype RewriteState = RewriteState(insts: map<InstId, Instr>, valmap: map<Value, Value>)

  /** The rewrite of one instruction: a GEP with a varying index is recorded as its
      vector-pointer cast; a binary operator, compare, load or store has its operands
      vectorised, takes a VECTOR_SIZE-wide type unless it is a store, and is recorded
      as its own vector. */
  function RewriteInstr(st: RewriteState, l: Loop, p: Plan, id: InstId): RewriteState
  {
    if Skipped(p, id) || id !in st.insts then st
    else
      var i := st.insts[id];
      if i.kind.GEP? then
        if HasVaryingIndex(l, i) && i.ty.PtrTy? then st.(valmap := Insert(st.valmap, Inst(id), VecPtr(id))) else st
      else if IsRewrittenKind(i.kind) then
        var mapped := MapOperands(i.operands, st.valmap, p.indVar);
        var ty := if i.kind.Store? then i.ty else VecTy(i.ty, VectorSize);
        RewriteState(st.insts[id := Instr(i.kind, mapped.operands, ty)], Insert(mapped.valmap, Inst(id), Inst(id)))
      else st
  }

  /** The rewrite of the instructions `ids`, in order. */
  function RewriteBody(st: RewriteState, l: Loop, p: Plan, ids: seq<InstId>): RewriteState
  {
    if ids == [] then st
    else RewriteInstr(RewriteBody(st, l, p, ids[..|ids| - 1]), l, p, ids[|ids| - 1])
  }

  lemma RewriteBodyAppend(st: RewriteState, l: Loop, p: Plan, ids: seq<InstId>, id: InstId)
    ensures RewriteBody(st, l, p, ids + [id]) == RewriteInstr(RewriteBody(st, l, p, ids), l, p, id)
  {
    assert (ids + [id])[..|ids|] == ids;
  }

  /** The stride update: the operand of the update that is not the induction
      variable becomes VECTOR_SIZE. */
  function SetStride(update: Instr, indVar: InstId): (r: Instr)
    ensures r.kind == update.kind && r.ty == update.ty && |r.operands| == |update.operands|
    ensures Operand(update, 0) == Inst(indVar) && |update.operands| > 1 ==>
      Operand(r, 0) == Inst(indVar) && Operand(r, 1) == IntConst(VectorSize)
    ensures Operand(update, 0) != Inst(indVar) && |update.operands| > 1 ==>
      Operand(r, 0) == IntConst(VectorSize) && Operand(r, 1) == Operand(update, 1)
    ensures forall j :: 2 <= j < |update.operands| ==> r.operands[j] == update.operands[j]
  {
    if Operand(update, 0) == Inst(indVar) then SetOperand(update, 1, IntConst(VectorSize))
    else SetOperand(update, 0, IntConst(VectorSize))
  }

  /** The valmap at the end of the rewrite of loop `l`. */
  function FinalValmap(insts: map<InstId, Instr>, l: Loop, p: Plan): map<Value, Value>
  {
    RewriteBody(RewriteState(insts, map[]), l, p, Flatten(l.blocks)).valmap
  }

  /** The instructions after handleLoopVec vectorises loop `l`. */
  function Transform(insts: map<InstId, Instr>, l: Loop, p: Plan): (r: map<InstId, Instr>)
    ensures r.Keys == insts.Keys
    ensures forall k :: k in insts ==> r[k].kind == insts[k].kind && |r[k].operands| == |insts[k].operands|
  {
    RewriteBodySpec(RewriteState(insts, map[]), l, p, Flatten(l.blocks));
    var rewritten := RewriteBody(RewriteState(insts, map[]), l, p, Flatten(l.blocks)).insts;
    if p.update in rewritten then rewritten[p.update := SetStride(rewritten[p.update], p.indVar)] else rewritten
  }

  /** One rewrite step keeps every instruction but `id`, and every kind; it only
      adds to valmap; and a rewritten instruction's new operands are the valmap
      entries of its old ones. */
  lemma RewriteInstrSpec(st: RewriteState, l: Loop, p: Plan, id: InstId)
    ensures RewriteInstr(st, l, p, id).insts.Keys == st.insts.Keys
    ensures forall k :: k in st.insts && k != id ==> RewriteInstr(st, l, p, id).insts[k] == st.insts[k]
    ensures forall k :: k in st.insts ==>
      RewriteInstr(st, l, p, id).insts[k].kind == st.insts[k].kind &&
      |RewriteInstr(st, l, p, id).insts[k].operands| == |st.insts[k].operands|
    ensures !Rewritten(p, st.insts, id) ==> RewriteInstr(st, l, p, id).insts == st.insts
    ensures Extends(st.valmap, RewriteInstr(st, l, p, id).valmap)
    ensures Rewritten(p, st.insts, id) ==>
      RewrittenWith(st.insts[id], RewriteInstr(st, l, p, id).insts[id], RewriteInstr(st, l, p, id).valmap)
  {
    if Skipped(p, id) || id !in st.insts {
    } else if st.insts[id].kind.GEP? {
      var r := RewriteInstr(st, l, p, id);
      assert r.insts == st.insts;
      if HasVaryingIndex(l, st.insts[id]) && st.insts[id].ty.PtrTy? && Inst(id) !in st.valmap {
        assert r.valmap == st.valmap[Inst(id) := VecPtr(id)];
      }
    } else if IsRewrittenKind(st.insts[id].kind) {
      RewriteOperandsSpec(st, l, p, id);
    }
  }

  /** The rewrite of a binary operator, compare, load or store. */
  lemma RewriteOperandsSpec(st: RewriteState, l: Loop, p: Plan, id: InstId)
    requires !Skipped(p, id) && id in st.insts && IsRewrittenKind(st.insts[id].kind)
    ensures RewriteInstr(st, l, p, id).insts == st.insts[id := RewriteInstr(st, l, p, id).insts[id]]
    ensures RewriteInstr(st, l, p, id).insts[id].kind == st.insts[id].kind
    ensures |RewriteInstr(st, l, p, id).insts[id].operands| == |st.insts[id].operands|
    ensures Extends(st.valmap, RewriteInstr(st, l, p, id).valmap)
    ensures RewrittenWith(st.insts[id], RewriteInstr(st, l, p, id).insts[id], RewriteInstr(st, l, p, id).valmap)
  {
    var r := RewriteInstr(st, l, p, id);
    var i := st.insts[id];
    MapOperandsSpec(i.operands, st.valmap, p.indVar);
    var mapped := MapOperands(i.operands, st.valmap, p.indVar);
    assert r.valmap == Insert(mapped.valmap, Inst(id), Inst(id));
    assert Extends(mapped.valmap, r.valmap);
  }

  /** The rewrite of a body keeps every instruction outside it, every kind and every
      key; valmap only grows; and, when no
      instruction is listed twice, every rewritten instruction's operands are the
      final valmap entries of its original operands, so each original operand is
      vectorised once and every later use shares that vector. */
  lemma {:induction false} RewriteBodySpec(st: RewriteState, l: Loop, p: Plan, ids: seq<InstId>)
    ensures RewriteBody(st, l, p, ids).insts.Keys == st.insts.Keys
    ensures forall k :: k in st.insts ==>
      RewriteBody(st, l, p, ids).insts[k].kind == st.insts[k].kind &&
      |RewriteBody(st, l, p, ids).insts[k].operands| == |st.insts[k].operands|
    ensures forall k :: k in st.insts && (k !in ids || !Rewritten(p, st.insts, k)) ==>
      RewriteBody(st, l, p, ids).insts[k] == st.insts[k]
    ensures Extends(st.valmap, RewriteBody(st, l, p, ids).valmap)
    ensures NoDuplicates(ids) ==> forall k :: k in ids && Rewritten(p, st.insts, k) ==>
      RewrittenWith(st.insts[k], RewriteBody(st, l, p, ids).insts[k], RewriteBody(st, l, p, ids).valmap)
  {
    if ids != [] {
      var n := |ids| - 1;
      var front := ids[..n];
      var id := ids[n];
      RewriteBodySpec(st, l, p, front);
      var mid := RewriteBody(st, l, p, front);
      RewriteInstrSpec(mid, l, p, id);
      var r := RewriteBody(st, l, p, ids);
      assert r == RewriteInstr(mid, l, p, id);
      forall k | k in st.insts && (k !in ids || !Rewritten(p, st.insts, k))
        ensures r.insts[k] == st.insts[k]
      {
        if k != id {
          assert k !in ids ==> k !in front;
        } else {
          assert mid.insts[k] == st.insts[k];
        }
      }
      if NoDuplicates(ids) {
        assert NoDuplicates(front);
        forall k | k in ids && Rewritten(p, st.insts, k)
          ensures RewrittenWith(st.insts[k], r.insts[k], r.valmap)
        {
          if k == id {
            assert mid.insts[id] == st.insts[id];
          } else {
            var a :| 0 <= a < |ids| && ids[a] == k;
            assert k in front by { assert a < n && front[a] == k; }
            RewrittenWithExtends(st.insts[k], mid.insts[k], mid.valmap, r.valmap);
          }
        }
      }
    }
  }

  /** `after` is `before` with each operand replaced by its entry in `valmap`, and
      with a VECTOR_SIZE-wide type unless it is a store. */
  predicate RewrittenWith(before: Instr, after: Instr, valmap: map<Value, Value>)
  {
    && after.kind == before.kind
    && |after.operands| == |before.operands|
    && (forall j :: 0 <= j < |before.operands| ==>
          before.operands[j] in valmap && after.operands[j] == valmap[before.operands[j]])
    && after.ty == (if before.kind.Store? then before.ty else VecTy(before.ty, VectorSize))
  }

  lemma RewrittenWithExtends(before: Instr, after: Instr, m1: map<Value, Value>, m2: map<Value, Value>)
    requires RewrittenWith(before, after, m1) && Extends(m1, m2)
    ensures RewrittenWith(before, after, m2)
  {
  }

  /** What vectorising loop `l` does to the instructions: those outside the loop,
      and those the rewrite leaves alone, are unchanged but for the update of the
      induction variable, which takes the stride VECTOR_SIZE; kinds never change;
      and each rewritten instruction takes the final valmap entries of its operands
      and a VECTOR_SIZE-wide type unless it is a store. */
  lemma TransformSpec(insts: map<InstId, Instr>, l: Loop, p: Plan)
    ensures Transform(insts, l, p).Keys == insts.Keys
    ensures forall k :: k in insts ==> Transform(insts, l, p)[k].kind == insts[k].kind
    ensures forall k :: k in insts && k != p.update && !(Contains(l, k) && Rewritten(p, insts, k)) ==>
      Transform(insts, l, p)[k] == insts[k]
    ensures p.update in insts ==> Transform(insts, l, p)[p.update] == SetStride(insts[p.update], p.indVar)
    ensures ValmapEntries(insts, l, p, FinalValmap(insts, l, p))
    ensures NoDuplicates(Flatten(l.blocks)) ==> forall k :: Contains(l, k) && Rewritten(p, insts, k) ==>
      RewrittenWith(insts[k], Transform(insts, l, p)[k], FinalValmap(insts, l, p))
  {
    var st := RewriteState(insts, map[]);
    RewriteBodySpec(st, l, p, Flatten(l.blocks));
    assert forall k :: k in Flatten(l.blocks) ==> Contains(l, k);
    ValmapEntriesBody(insts, l, p, Flatten(l.blocks));
  }

  /** One rewrite step of a loop instruction adds only entries ValmapEntries allows,
      as long as the instruction still has its original kind, and a GEP is as it was. */
  lemma ValmapEntriesStep(insts0: map<InstId, Instr>, st: RewriteState, l: Loop, p: Plan, id: InstId)
    requires ValmapEntries(insts0, l, p, st.valmap)
    requires Contains(l, id)
    requires id in st.insts <==> id in insts0
    requires id in insts0 ==> st.insts[id].kind == insts0[id].kind
    requires id in insts0 && insts0[id].kind.GEP? ==> st.insts[id] == insts0[id]
    ensures ValmapEntries(insts0, l, p, RewriteInstr(st, l, p, id).valmap)
  {
    var r := RewriteInstr(st, l, p, id);
    if Skipped(p, id) || id !in st.insts {
    } else if st.insts[id].kind.GEP? {
      if HasVaryingIndex(l, st.insts[id]) && st.insts[id].ty.PtrTy? && Inst(id) !in st.valmap {
        assert OwnEntry(insts0, l, p, id);
        assert r.valmap == st.valmap[Inst(id) := VecPtr(id)];
      }
    } else if IsRewrittenKind(st.insts[id].kind) {
      var i := st.insts[id];
      MapOperandsExtends(i.operands, st.valmap, p.indVar);
      MapOperandsNew(i.operands, st.valmap, p.indVar);
      var mapped := MapOperands(i.operands, st.valmap, p.indVar);
      assert ValmapEntries(insts0, l, p, mapped.valmap);
      assert OwnEntry(insts0, l, p, id) && OwnValue(insts0, id) == Inst(id);
      assert r.valmap == Insert(mapped.valmap, Inst(id), Inst(id));
    }
  }

  /** The rewrite of loop instructions, from an empty valmap, only ever records
      entries ValmapEntries allows. */
  lemma {:induction false} ValmapEntriesBody(insts0: map<InstId, Instr>, l: Loop, p: Plan, ids: seq<InstId>)
    requires forall k :: k in ids ==> Contains(l, k)
    ensures ValmapEntries(insts0, l, p, RewriteBody(RewriteState(insts0, map[]), l, p, ids).valmap)
  {
    if ids != [] {
      var st0 := RewriteState(insts0, map[]);
      var n := |ids| - 1;
      var front := ids[..n];
      ValmapEntriesBody(insts0, l, p, front);
      RewriteBodySpec(st0, l, p, front);
      var mid := RewriteBody(st0, l, p, front);
      ValmapEntriesStep(insts0, mid, l, p, ids[n]);
    }
  }

  /** Every operand of a vectorised instruction becomes the vector of the original
      operand (a splat for a constant or for an instruction defined outside the loop
      or not vectorised, the strided vector for the induction variable, null for an
      argument or global), or, for a loop instruction with an entry of its own, that
      instruction or its vector-pointer cast; and equal original operands get equal
      replacements, however many instructions use them. */
  lemma RewrittenOperands(insts: map<InstId, Instr>, l: Loop, p: Plan, k1: InstId, j1: nat, k2: InstId, j2: nat)
    requires NoDuplicates(Flatten(l.blocks))
    requires Contains(l, k1) && Rewritten(p, insts, k1) && j1 < |insts[k1].operands|
    requires Contains(l, k2) && Rewritten(p, insts, k2) && j2 < |insts[k2].operands|
    ensures
      var x, y := insts[k1].operands[j1], Transform(insts, l, p)[k1].operands[j1];
      || y == VectorOf(x, VectorSize, p.indVar)
      || (x.Inst? && Contains(l, x.id) && OwnEntry(insts, l, p, x.id) && y == OwnValue(insts, x.id))
    ensures
      var x := insts[k1].operands[j1];
      !(x.Inst? && Contains(l, x.id) && OwnEntry(insts, l, p, x.id)) ==>
        Transform(insts, l, p)[k1].operands[j1] == VectorOf(x, VectorSize, p.indVar)
    ensures !insts[k1].operands[j1].Inst? ==>
      Transform(insts, l, p)[k1].operands[j1] == VectorOf(insts[k1].operands[j1], VectorSize, p.indVar)
    ensures insts[k1].operands[j1] == Inst(p.indVar) ==>
      Transform(insts, l, p)[k1].operands[j1] == Vector(seq(VectorSize, i => Lane(Inst(p.indVar), i)))
    ensures insts[k1].operands[j1] == insts[k2].operands[j2] ==>
      Transform(insts, l, p)[k1].operands[j1] == Transform(insts, l, p)[k2].operands[j2]
  {
    TransformSpec(insts, l, p);
  }

  /** Instruction `y` of the loop gets a valmap entry of its own when the rewrite
      reaches it: a vectorised binary operator, compare, load or store maps to
      itself, a GEP with a varying index to its vector-pointer cast. */
  predicate OwnEntry(insts: map<InstId, Instr>, l: Loop, p: Plan, y: InstId)
  {
    && !Skipped(p, y) && y in insts
    && (IsRewrittenKind(insts[y].kind) || (insts[y].kind.GEP? && HasVaryingIndex(l, insts[y]) && insts[y].ty.PtrTy?))
  }

  function OwnValue(insts: map<InstId, Instr>, y: InstId): Value
    requires y in insts
  {
    if insts[y].kind.GEP? then VecPtr(y) else Inst(y)
  }

  /** After the rewrite of `ids`, valmap holds the own entry of each instruction of
      `ids` that has one, and no other loop instruction that has one. */
  ghost predicate OwnEntriesSoFar(insts: map<InstId, Instr>, l: Loop, p: Plan, ids: seq<InstId>, m: map<Value, Value>)
  {
    && (forall y :: y in ids && OwnEntry(insts, l, p, y) ==> Inst(y) in m && m[Inst(y)] == OwnValue(insts, y))
    && (forall y :: (OwnEntry(insts, l, p, y) && Contains(l, y) && Inst(y) in m) ==> y in ids)
  }

  /** One rewrite step keeps OwnEntriesSoFar when the instruction is new, in the
      loop, untouched so far, and accepted given instructions already passed. */
  lemma OwnEntriesStep(insts: map<InstId, Instr>, l: Loop, p: Plan, done: seq<InstId>, mid: RewriteState,
                       vectorized: set<InstId>, id: InstId)
    requires OwnEntriesSoFar(insts, l, p, done, mid.valmap)
    requires id !in done && Contains(l, id)
    requires id in mid.insts <==> id in insts
    requires id in insts ==> mid.insts[id] == insts[id]
    requires forall y :: y in vectorized ==> y in done
    requires Acceptable(insts, l, p, vectorized, id)
    ensures OwnEntriesSoFar(insts, l, p, done + [id], RewriteInstr(mid, l, p, id).valmap)
  {
    var r := RewriteInstr(mid, l, p, id);
    RewriteInstrSpec(mid, l, p, id);
    if OwnEntry(insts, l, p, id) {
      var i := insts[id];
      assert Inst(id) !in mid.valmap;
      if i.kind.GEP? {
        assert r.valmap == mid.valmap[Inst(id) := VecPtr(id)];
      } else {
        OwnEntriesOperands(insts, l, p, done, mid.valmap, vectorized, id);
        var mapped := MapOperands(i.operands, mid.valmap, p.indVar);
        assert r.valmap == mapped.valmap[Inst(id) := Inst(id)];
      }
    } else {
      assert r.valmap == mid.valmap;
    }
  }

  /** The operand loop of an accepted instruction gives no loop instruction an own
      entry early: each such operand was accepted, hence passed, before. */
  lemma OwnEntriesOperands(insts: map<InstId, Instr>, l: Loop, p: Plan, done: seq<InstId>, m: map<Value, Value>,
                           vectorized: set<InstId>, id: InstId)
    requires OwnEntriesSoFar(insts, l, p, done, m)
    requires id !in done && Contains(l, id) && id in insts && !Skipped(p, id) && IsRewrittenKind(insts[id].kind)
    requires forall y :: y in vectorized ==> y in done
    requires Acceptable(insts, l, p, vectorized, id)
    ensures OwnEntriesSoFar(insts, l, p, done, MapOperands(insts[id].operands, m, p.indVar).valmap)
    ensures Inst(id) !in MapOperands(insts[id].operands, m, p.indVar).valmap
  {
    var i := insts[id];
    MapOperandsSpec(i.operands, m, p.indVar);
    var mapped := MapOperands(i.operands, m, p.indVar);
    forall x | x in mapped.valmap && x !in m && x.Inst?
      ensures !(OwnEntry(insts, l, p, x.id) && Contains(l, x.id))
    {
      assert x in i.operands;
    }
  }

  /** Over a body the legality scan accepts, once the rewrite has passed an
      instruction with an entry of its own, valmap holds that entry; and no such
      instruction of the loop is given an entry before the rewrite reaches it: an
      accepted instruction only uses loop instructions accepted before it. */
  lemma {:induction false} AcceptedBodyKeepsOwnEntries(insts: map<InstId, Instr>, l: Loop, p: Plan, ids: seq<InstId>)
    requires NoDuplicates(ids) && Scan(insts, l, p, ids).Accepted?
    requires forall k :: 0 <= k < |ids| ==> Contains(l, ids[k])
    ensures OwnEntriesSoFar(insts, l, p, ids, RewriteBody(RewriteState(insts, map[]), l, p, ids).valmap)
  {
    if ids != [] {
      var st0 := RewriteState(insts, map[]);
      var n := |ids| - 1;
      var front := ids[..n];
      var id := ids[n];
      assert NoDuplicates(front);
      assert id !in front;
      AcceptedBodyKeepsOwnEntries(insts, l, p, front);
      var mid := RewriteBody(st0, l, p, front);
      RewriteBodySpec(st0, l, p, front);
      var vectorized := Scan(insts, l, p, front).vectorized;
      ScanAcceptedSet(insts, l, p, front);
      OwnEntriesStep(insts, l, p, front, mid, vectorized, id);
      assert front + [id] == ids;
    }
  }

  /** In a loop handleLoopVec vectorises, an instruction that uses a loop
      instruction already vectorised in place uses it as it is, and one that uses a
      GEP with a varying index uses its vector-pointer cast: neither is splatted again. */
  lemma AcceptedOperandsReused(insts: map<InstId, Instr>, l: Loop)
    requires l.indVar.Some? && Decide(insts, l).Vectorize? && NoDuplicates(Flatten(l.blocks))
    ensures
      var p := Decide(insts, l).plan;
      forall y :: Contains(l, y) && OwnEntry(insts, l, p, y) ==>
        Inst(y) in FinalValmap(insts, l, p) && FinalValmap(insts, l, p)[Inst(y)] == OwnValue(insts, y)
    ensures
      var p := Decide(insts, l).plan;
      forall k, j ::
        (&& Contains(l, k) && Rewritten(p, insts, k) && 0 <= j < |insts[k].operands|
         && insts[k].operands[j].Inst? && Contains(l, insts[k].operands[j].id)
         && OwnEntry(insts, l, p, insts[k].operands[j].id)) ==>
          Transform(insts, l, p)[k].operands[j] == OwnValue(insts, insts[k].operands[j].id)
  {
    var p := Decide(insts, l).plan;
    var body := Flatten(l.blocks);
    AcceptedBodyKeepsOwnEntries(insts, l, p, body);
    TransformSpec(insts, l, p);
  }

  // ---------------------------------------------------------------------------
  // handleLoopVec
  // ---------------------------------------------------------------------------

  /** Where handleLoopVec stops, in the order it checks. */
  datatype Decision =
    | NoIVUpdate               // "update for induction variable is not found"
    | NoLoopBound              // "loop bound cannot be determined"
    | NoCompare                // "cmp for induction variable is not found"
    | BoundNotVectorizable     // "loop bound is not vectorizable"
    | Illegal(at: InstId)      // the legality scan rejected instruction `at`
    | Vectorize(plan: Plan)

  /** The decision handleLoopVec takes for loop `l`. */
  function Decide(insts: map<InstId, Instr>, l: Loop): Decision
    requires l.indVar.Some?
  {
    var indVar := l.indVar.value;
    var cmp := ExitingConditional(insts, l);
    var loopBound := LoopBound(insts, l.indVar, cmp);
    var indVarUpdate := IVUpdateOf(insts, indVar);
    if indVarUpdate.None? then NoIVUpdate
    else if loopBound.None? then NoLoopBound
    else if cmp.None? then NoCompare
    else if !HasVectorizableLoopBound(loopBound.value) then BoundNotVectorizable
    else
      var p := Plan(indVar, cmp.value, indVarUpdate.value);
      var scan := Scan(insts, l, p, Flatten(l.blocks));
      if scan.Rejected? then Illegal(scan.at) else Vectorize(p)
  }

  /** The compare `c` tests the induction variable against a constant divisible by VECTOR_SIZE. */
  predicate BoundedByMultiple(c: Instr, indVar: InstId)
  {
    || (Operand(c, 0) == Inst(indVar) && Operand(c, 1).IntConst? && Operand(c, 1).n % VectorSize == 0)
    || (Operand(c, 0) != Inst(indVar) && Operand(c, 1) == Inst(indVar) && Operand(c, 0).IntConst? && Operand(c, 0).n % VectorSize == 0)
  }

  /** The check for a missing compare is never the one that stops handleLoopVec:
      a missing compare already leaves the bound undetermined. */
  lemma DecideNeverNoCompare(insts: map<InstId, Instr>, l: Loop)
    requires l.indVar.Some?
    ensures Decide(insts, l) != NoCompare
  {
  }

  /** handleLoopVec vectorises a loop exactly when the induction variable has one
      update (the count GeexieLoopAnalysis reports is 1), the loop exits through a
      compare of the induction variable with a constant divisible by VECTOR_SIZE,
      and every instruction of the body passes the legality check given those
      accepted before it. */
  lemma DecideVectorizes(insts: map<InstId, Instr>, l: Loop)
    requires l.indVar.Some?
    ensures Decide(insts, l).Vectorize? <==>
      && LoopAnalysis.InvUpdatesCount(insts, l) == 1
      && ExitingConditional(insts, l).Some?
      && BoundedByMultiple(insts[ExitingConditional(insts, l).value], l.indVar.value)
      && var p := Plan(l.indVar.value, ExitingConditional(insts, l).value, IVUpdateOf(insts, l.indVar.value).value);
         forall k :: 0 <= k < |Flatten(l.blocks)| ==>
           Scan(insts, l, p, Flatten(l.blocks)[..k]).Accepted? &&
           Acceptable(insts, l, p, Scan(insts, l, p, Flatten(l.blocks)[..k]).vectorized, Flatten(l.blocks)[k])
  {
    var cmp := ExitingConditional(insts, l);
    var update := IVUpdateOf(insts, l.indVar.value);
    IVUpdateFoundIffAnalysisCountsOne(insts, l);
    if update.Some? && cmp.Some? {
      var p := Plan(l.indVar.value, cmp.value, update.value);
      ScanCharacterization(insts, l, p, Flatten(l.blocks));
      BoundIsMultiple(insts, l.indVar.value, cmp.value);
    }
  }

  /** The bound check passes exactly when the compare tests the induction variable
      against a constant divisible by VECTOR_SIZE. */
  lemma BoundIsMultiple(insts: map<InstId, Instr>, indVar: InstId, cmp: InstId)
    requires cmp in insts
    ensures
      var bound := LoopBound(insts, Some(indVar), Some(cmp));
      bound.Some? && HasVectorizableLoopBound(bound.value) <==> BoundedByMultiple(insts[cmp], indVar)
  {
  }

  /** A loop handleLoopVec vectorises leaves aside its induction variable, the
      compare its exiting branch tests, and the one update of the induction variable. */
  lemma DecidePlan(insts: map<InstId, Instr>, l: Loop)
    requires l.indVar.Some?
    ensures Decide(insts, l).Vectorize? ==>
      && Decide(insts, l).plan.indVar == l.indVar.value
      && KindOf(insts, Inst(Decide(insts, l).plan.cmp)) == Some(ICmp)
      && LoopAnalysis.IsIVUpdate(insts, l.indVar.value, Inst(Decide(insts, l).plan.update))
  {
  }

  /** A loop the legality scan rejects is rejected at one of its own instructions. */
  lemma DecideIllegalAtBodyInstruction(insts: map<InstId, Instr>, l: Loop)
    requires l.indVar.Some?
    ensures Decide(insts, l).Illegal? ==>
      exists k :: 0 <= k < |Flatten(l.blocks)| && Flatten(l.blocks)[k] == Decide(insts, l).at
  {
    var cmp := ExitingConditional(insts, l);
    if IVUpdateOf(insts, l.indVar.value).Some? && cmp.Some? {
      var p := Plan(l.indVar.value, cmp.value, IVUpdateOf(insts, l.indVar.value).value);
      ScanCharacterization(insts, l, p, Flatten(l.blocks));
    }
  }

  /** The outcome of handling one loop, or a sequence of loops: what is preserved,
      and the instructions afterwards. */
  datatype Outcome = Outcome(pa: Preserved, insts: map<InstId, Instr>)

  /** handleLoopVec as a function of the instructions. */
  function HandleLoop(insts: map<InstId, Instr>, l: Loop): Outcome
    requires l.indVar.Some?
  {
    var d := Decide(insts, l);
    if d.Vectorize? then Outcome(PreservedNone, Transform(insts, l, d.plan)) else Outcome(PreservedAll, insts)
  }

  /** The operand loop of the rewrite: each operand is replaced by its valmap entry,
      or vectorised and recorded when it has none. */
  method VectorizeOperands(ops: seq<Value>, valmap: map<Value, Value>, indVar: InstId)
    returns (operands: seq<Value>, valmap': map<Value, Value>)
    ensures operands == MapOperands(ops, valmap, indVar).operands
    ensures valmap' == MapOperands(ops, valmap, indVar).valmap
  {
    operands := ops;
    valmap' := valmap;
    var k := 0;
    while k < |operands|
      invariant 0 <= k <= |ops| && |operands| == |ops|
      invariant operands[..k] == MapOperands(ops[..k], valmap, indVar).operands
      invariant operands[k..] == ops[k..]
      invariant valmap' == MapOperands(ops[..k], valmap, indVar).valmap
    {
      var operand := operands[k];
      assert operand == ops[k] by {
        assert operands[k..][0] == ops[k..][0];
      }
      MapOperandsStep(ops, k, valmap, indVar);
      var newOperand;
      if operand in valmap' {
        newOperand := valmap'[operand];
      } else {
        newOperand := VectorizeValue(operand, VectorSize, indVar);
        valmap' := Insert(valmap', operand, newOperand);
      }
      ghost var before := operands;
      operands := operands[k := newOperand];
      assert operands[..k + 1] == before[..k] + [newOperand];
      assert operands[k + 1..] == before[k..][1..];
      k := k + 1;
    }
    assert ops[..k] == ops;
    assert operands[..k] == operands;
  }

  /** One more operand: the mapping of `ops[..k + 1]` extends that of `ops[..k]`. */
  lemma MapOperandsStep(ops: seq<Value>, k: nat, valmap: map<Value, Value>, indVar: InstId)
    requires k < |ops|
    ensures
      var prev := MapOperands(ops[..k], valmap, indVar);
      MapOperands(ops[..k + 1], valmap, indVar) ==
        if ops[k] in prev.valmap then Mapped(prev.operands + [prev.valmap[ops[k]]], prev.valmap)
        else Mapped(prev.operands + [VectorOf(ops[k], VectorSize, indVar)], prev.valmap[ops[k] := VectorOf(ops[k], VectorSize, indVar)])
  {
    assert ops[..k + 1][..k] == ops[..k];
  }

  /** The rewrite of one instruction: the varying-GEP check, the operand loop, the
      type change and the valmap entries. */
  method RewriteInstruction(fn: FunctionIR, l: Loop, p: Plan, id: InstId, valmap: map<Value, Value>)
    returns (valmap': map<Value, Value>)
    modifies fn
    ensures RewriteState(fn.insts, valmap') == RewriteInstr(RewriteState(old(fn.insts), valmap), l, p, id)
  {
    valmap' := valmap;
    if id == p.cmp || id == p.indVar || id == p.update || id !in fn.insts {
      return;
    }
    var i := fn.insts[id];
    if i.kind.GEP? {
      var indices := GEPIndices(i);
      var isGEPLoopInvariant := true;
      var k := 0;
      while k < |indices|
        invariant 0 <= k <= |indices|
        invariant isGEPLoopInvariant <==> forall x :: x in indices[..k] ==> IsLoopInvariant(l, x)
      {
        isGEPLoopInvariant := isGEPLoopInvariant && IsLoopInvariant(l, indices[k]);
        assert indices[..k + 1] == indices[..k] + [indices[k]];
        k := k + 1;
      }
      assert indices[..k] == indices;
      if !isGEPLoopInvariant && i.ty.PtrTy? {
        valmap' := Insert(valmap', Inst(id), VecPtr(id));
      }
    } else if IsRewrittenKind(i.kind) {
      var operands;
      operands, valmap' := VectorizeOperands(i.operands, valmap', p.indVar);
      var retType := if i.kind.Store? then i.ty else VecTy(i.ty, VectorSize);
      fn.insts := fn.insts[id := Instr(i.kind, operands, retType)];
      valmap' := Insert(valmap', Inst(id), Inst(id));
    }
  }

  /** The instruction loop of the rewrite over one block, continuing the rewrite of `done`. */
  method RewriteBlock(fn: FunctionIR, l: Loop, p: Plan, ghost st0: RewriteState, ghost done: seq<InstId>,
                      block: Block, valmap: map<Value, Value>)
    returns (valmap': map<Value, Value>)
    requires RewriteState(fn.insts, valmap) == RewriteBody(st0, l, p, done)
    modifies fn
    ensures RewriteState(fn.insts, valmap') == RewriteBody(st0, l, p, done + block)
  {
    valmap' := valmap;
    var i := 0;
    assert done + block[..0] == done;
    while i < |block|
      invariant 0 <= i <= |block|
      invariant RewriteState(fn.insts, valmap') == RewriteBody(st0, l, p, done + block[..i])
    {
      RewriteBodyAppend(st0, l, p, done + block[..i], block[i]);
      assert done + block[..i + 1] == done + block[..i] + [block[i]];
      valmap' := RewriteInstruction(fn, l, p, block[i], valmap');
      i := i + 1;
    }
    assert block[..i] == block;
  }

  /** The rewrite loop of handleLoopVec, block by block, instruction by instruction. */
  method RewriteLoop(fn: FunctionIR, l: Loop, p: Plan) returns (valmap: map<Value, Value>)
    modifies fn
    ensures RewriteState(fn.insts, valmap) == RewriteBody(RewriteState(old(fn.insts), map[]), l, p, Flatten(l.blocks))
  {
    ghost var st0 := RewriteState(fn.insts, map[]);
    valmap := map[];
    var b := 0;
    while b < |l.blocks|
      invariant 0 <= b <= |l.blocks|
      invariant RewriteState(fn.insts, valmap) == RewriteBody(st0, l, p, Flatten(l.blocks[..b]))
    {
      var block := l.blocks[b];
      valmap := RewriteBlock(fn, l, p, st0, Flatten(l.blocks[..b]), block, valmap);
      FlattenAppend(l.blocks[..b], block);
      assert l.blocks[..b + 1] == l.blocks[..b] + [block];
      b := b + 1;
    }
    assert l.blocks[..b] == l.blocks;
  }

  /** handleLoopVec: decides whether loop `l` can be vectorised and, if so,
      rewrites it in place and reports that no analysis is preserved. */
  method HandleLoopVec(fn: FunctionIR, l: Loop) returns (pa: Preserved)
    requires l.indVar.Some?
    modifies fn
    ensures Outcome(pa, fn.insts) == HandleLoop(old(fn.insts), l)
  {
    var indVar := l.indVar.value;
    var cmp := ExitingConditional(fn.insts, l);
    var loopBound := LoopBound(fn.insts, l.indVar, cmp);
    var indVarUpdate := GetIVUpdate(fn.insts, indVar);
    if indVarUpdate.None? {
      return PreservedAll;
    }
    if loopBound.None? {
      return PreservedAll;
    }
    if cmp.None? {
      return PreservedAll;
    }
    if !HasVectorizableLoopBound(loopBound.value) {
      return PreservedAll;
    }
    var p := Plan(indVar, cmp.value, indVarUpdate.value);
    var scan := LegalityScan(fn.insts, l, p);
    if scan.Rejected? {
      return PreservedAll;
    }
    ghost var insts0 := fn.insts;
    var _ := RewriteLoop(fn, l, p);
    RewriteBodySpec(RewriteState(insts0, map[]), l, p, Flatten(l.blocks));
    var update := fn.insts[p.update];
    if Operand(update, 0) == Inst(indVar) {
      fn.insts := fn.insts[p.update := SetOperand(update, 1, IntConst(VectorSize))];
    } else {
      fn.insts := fn.insts[p.update := SetOperand(update, 0, IntConst(VectorSize))];
    }
    pa := PreservedNone;
  }

  /** handleLoopVec never reports that analyses are preserved after changing the
      instructions. */
  lemma HandleLoopPreservesSoundly(insts: map<InstId, Instr>, l: Loop)
    requires l.indVar.Some?
    ensures HandleLoop(insts, l).pa == PreservedAll ==> HandleLoop(insts, l).insts == insts
    ensures HandleLoop(insts, l).pa == PreservedNone <==> Decide(insts, l).Vectorize?
  {
  }

  // ---------------------------------------------------------------------------
  // collectIntermostLoops and run
  // ---------------------------------------------------------------------------

  /** The loops collectIntermostLoops gathers from the tree rooted at `l`, in
      depth-first order: the innermost loops that have a canonical induction variable. */
  function InnermostWithIV(l: Loop): seq<Loop>
    decreases l
  {
    if IsInnermost(l) then (if l.indVar.Some? then [l] else [])
    else InnermostForest(l.subLoops)
  }

  /** The same over a forest, tree after tree. */
  function InnermostForest(ls: seq<Loop>): seq<Loop>
    decreases ls
  {
    if ls == [] then [] else InnermostForest(ls[..|ls| - 1]) + InnermostWithIV(ls[|ls| - 1])
  }

  lemma InnermostForestAppend(ls: seq<Loop>, l: Loop)
    ensures InnermostForest(ls + [l]) == InnermostForest(ls) + InnermostWithIV(l)
  {
    assert (ls + [l])[..|ls|] == ls;
  }

  /** A loop is collected from a tree exactly when it is in the tree, innermost,
      and has a canonical induction variable. */
  lemma {:induction false} InnermostWithIVMembers(l: Loop, x: Loop)
    ensures x in InnermostWithIV(l) <==> x in Subtree(l) && IsInnermost(x) && x.indVar.Some?
    decreases l, 1
  {
    SubtreeMembers(l, x);
    if !IsInnermost(l) {
      InnermostForestMembers(l.subLoops, x);
    } else {
      assert Forest(l.subLoops) == [];
    }
  }

  /** A loop is collected from a forest exactly when it is in the forest, innermost,
      and has a canonical induction variable. */
  lemma {:induction false} InnermostForestMembers(ls: seq<Loop>, x: Loop)
    ensures x in InnermostForest(ls) <==> x in Forest(ls) && IsInnermost(x) && x.indVar.Some?
    decreases ls, 0
  {
    if ls != [] {
      var front := ls[..|ls| - 1];
      var last := ls[|ls| - 1];
      InnermostForestMembers(front, x);
      InnermostWithIVMembers(last, x);
    }
  }

  /** What collectIntermostLoops keeps: an innermost loop with a canonical induction variable. */
  predicate Collectable(l: Loop)
  {
    IsInnermost(l) && l.indVar.Some?
  }

  /** The collectable loops of `ls`, in the order of `ls`. */
  function KeepCollectable(ls: seq<Loop>): seq<Loop>
  {
    if ls == [] then [] else KeepCollectable(ls[..|ls| - 1]) + (if Collectable(ls[|ls| - 1]) then [ls[|ls| - 1]] else [])
  }

  lemma {:induction false} KeepCollectableConcat(a: seq<Loop>, b: seq<Loop>)
    ensures KeepCollectable(a + b) == KeepCollectable(a) + KeepCollectable(b)
  {
    if b == [] {
      assert a + b == a;
    } else {
      var n := |b| - 1;
      KeepCollectableConcat(a, b[..n]);
      assert (a + b)[..|a + b| - 1] == a + b[..n];
    }
  }

  /** The loops collected from a tree are its depth-first pre-order listing with
      everything but the innermost loops with an induction variable removed. */
  lemma {:induction false} InnermostWithIVOrder(l: Loop)
    ensures InnermostWithIV(l) == KeepCollectable(Subtree(l))
    decreases l, 1
  {
    KeepCollectableConcat([l], Forest(l.subLoops));
    assert KeepCollectable([l]) == KeepCollectable([]) + (if Collectable(l) then [l] else []);
    if IsInnermost(l) {
      assert Forest(l.subLoops) == [];
    } else {
      InnermostForestOrder(l.subLoops);
    }
  }

  /** The same over a forest: the work set lists the collectable loops in the
      depth-first pre-order of the whole forest. */
  lemma {:induction false} InnermostForestOrder(ls: seq<Loop>)
    ensures InnermostForest(ls) == KeepCollectable(Forest(ls))
    decreases ls, 0
  {
    if ls != [] {
      var front := ls[..|ls| - 1];
      var last := ls[|ls| - 1];
      InnermostForestOrder(front);
      InnermostWithIVOrder(last);
      KeepCollectableConcat(Forest(front), Subtree(last));
    }
  }

  /** Every collected loop has a canonical induction variable. */
  lemma CollectedHaveIV(ls: seq<Loop>)
    ensures forall k :: 0 <= k < |InnermostForest(ls)| ==> InnermostForest(ls)[k].indVar.Some?
  {
    forall k | 0 <= k < |InnermostForest(ls)|
      ensures InnermostForest(ls)[k].indVar.Some?
    {
      InnermostForestMembers(ls, InnermostForest(ls)[k]);
    }
  }

  /** collectIntermostLoops: appends to `v` the loops gathered from the tree rooted at `l`. */
  method CollectIntermostLoops(l: Loop, v: seq<Loop>) returns (v': seq<Loop>)
    ensures v' == v + InnermostWithIV(l)
    decreases l
  {
    if IsInnermost(l) {
      if l.indVar.Some? {
        v' := v + [l];
      } else {
        v' := v;
      }
      return;
    }
    v' := v;
    var k := 0;
    while k < |l.subLoops|
      invariant 0 <= k <= |l.subLoops|
      invariant v' == v + InnermostForest(l.subLoops[..k])
    {
      var innerL := l.subLoops[k];
      v' := CollectIntermostLoops(innerL, v');
      assert v' == v + (InnermostForest(l.subLoops[..k]) + InnermostWithIV(innerL));
      InnermostForestAppend(l.subLoops[..k], innerL);
      assert l.subLoops[..k + 1] == l.subLoops[..k] + [innerL];
      k := k + 1;
    }
    assert l.subLoops[..k] == l.subLoops;
  }

  /** The loop of run: the loops left in the work set are handled from the back,
      each on the instructions as the previous ones left them, and the results are
      intersected. */
  function Drain(out: Outcome, workSet: seq<Loop>): Outcome
    requires forall k :: 0 <= k < |workSet| ==> workSet[k].indVar.Some?
    decreases |workSet|
  {
    if workSet == [] then out
    else
      var l := workSet[|workSet| - 1];
      var h := HandleLoop(out.insts, l);
      Drain(Outcome(Intersect(out.pa, h.pa), h.insts), workSet[..|workSet| - 1])
  }

  /** What GeexieVecPass::run does to a function. */
  function RunSpec(f: Function): Outcome
  {
    CollectedHaveIV(f.loops);
    Drain(Outcome(PreservedAll, f.insts), InnermostForest(f.loops))
  }

  /** The pass reports that analyses are preserved only when it changed nothing, and
      a result of "none preserved" is never undone by later loops. */
  lemma {:induction false} DrainPreservesSoundly(out: Outcome, workSet: seq<Loop>)
    requires forall k :: 0 <= k < |workSet| ==> workSet[k].indVar.Some?
    ensures Drain(out, workSet).pa == PreservedAll ==> out.pa == PreservedAll && Drain(out, workSet).insts == out.insts
    decreases |workSet|
  {
    if workSet != [] {
      var l := workSet[|workSet| - 1];
      var h := HandleLoop(out.insts, l);
      HandleLoopPreservesSoundly(out.insts, l);
      DrainPreservesSoundly(Outcome(Intersect(out.pa, h.pa), h.insts), workSet[..|workSet| - 1]);
    }
  }

  /** A work set none of whose loops can be vectorised leaves the function as it was. */
  lemma {:induction false} DrainNothingToVectorize(out: Outcome, workSet: seq<Loop>)
    requires forall k :: 0 <= k < |workSet| ==> workSet[k].indVar.Some?
    requires forall k :: 0 <= k < |workSet| ==> !Decide(out.insts, workSet[k]).Vectorize?
    ensures Drain(out, workSet) == out
    decreases |workSet|
  {
    if workSet != [] {
      var n := |workSet| - 1;
      var l := workSet[n];
      assert !Decide(out.insts, l).Vectorize?;
      assert Intersect(out.pa, PreservedAll) == out.pa;
      DrainNothingToVectorize(Outcome(out.pa, out.insts), workSet[..n]);
    }
  }

  /** The first loop run handles is the last one collected; if it is vectorised, the
      pass reports that no analysis is preserved. */
  lemma DrainFirstVectorized(out: Outcome, workSet: seq<Loop>)
    requires forall k :: 0 <= k < |workSet| ==> workSet[k].indVar.Some?
    requires workSet != [] && Decide(out.insts, workSet[|workSet| - 1]).Vectorize?
    ensures Drain(out, workSet).pa == PreservedNone
  {
    var l := workSet[|workSet| - 1];
    var h := HandleLoop(out.insts, l);
    DrainPreservesSoundly(Outcome(Intersect(out.pa, h.pa), h.insts), workSet[..|workSet| - 1]);
  }

  /** GeexieVecPass::run: collects the innermost loops with a canonical induction
      variable from every top-level loop, then pops and handles them one by one. */
  method Run(fn: FunctionIR) returns (pa: Preserved)
    modifies fn
    ensures Outcome(pa, fn.insts) == RunSpec(old(fn.Snapshot()))
  {
    ghost var f := fn.Snapshot();
    pa := PreservedAll;
    var workSet: seq<Loop> := [];
    var t := 0;
    while t < |fn.loops|
      invariant 0 <= t <= |fn.loops|
      invariant workSet == InnermostForest(fn.loops[..t])
      invariant fn.insts == f.insts
    {
      workSet := CollectIntermostLoops(fn.loops[t], workSet);
      InnermostForestAppend(fn.loops[..t], fn.loops[t]);
      assert fn.loops[..t + 1] == fn.loops[..t] + [fn.loops[t]];
      t := t + 1;
    }
    assert fn.loops[..t] == fn.loops;
    CollectedHaveIV(fn.loops);
    while workSet != []
      invariant forall k :: 0 <= k < |workSet| ==> workSet[k].indVar.Some?
      invariant Drain(Outcome(pa, fn.insts), workSet) == RunSpec(f)
      decreases |workSet|
    {
      var l := workSet[|workSet| - 1];
      workSet := workSet[..|workSet| - 1];
      var result := HandleLoopVec(fn, l);
      pa := Intersect(pa, result);
    }
  }

  /** GeexieVecPass::run returns "all preserved" only when it left the instructions
      unchanged; when none of the collected loops can be vectorised it changes nothing. */
  lemma RunPreservesSoundly(f: Function)
    ensures RunSpec(f).pa == PreservedAll ==> RunSpec(f).insts == f.insts
    ensures (forall l :: l in Forest(f.loops) && IsInnermost(l) && l.indVar.Some? ==> !Decide(f.insts, l).Vectorize?) ==>
      RunSpec(f) == Outcome(PreservedAll, f.insts)
  {
    CollectedHaveIV(f.loops);
    var w := InnermostForest(f.loops);
    DrainPreservesSoundly(Outcome(PreservedAll, f.insts), w);
    if forall l :: l in Forest(f.loops) && IsInnermost(l) && l.indVar.Some? ==> !Decide(f.insts, l).Vectorize? {
      forall k | 0 <= k < |w|
        ensures !Decide(f.insts, w[k]).Vectorize?
      {
        InnermostForestMembers(f.loops, w[k]);
      }
      DrainNothingToVectorize(Outcome(PreservedAll, f.insts), w);
    }
  }
}
