/** The part of LLVM IR that the Geexie passes look at: instructions addressed by
    identity, basic blocks as ordered lists of instructions, functions, and the
    loop forest that LoopInfo builds over them. Only what the passes test with
    isa/dyn_cast or read through getOperand is represented. */
module IR {
  import opened Wrappers

  /** The identity of an instruction (its address in LLVM). */
  type InstId = nat

  /** The opcodes of LLVM's BinaryOperator class. */
  datatype BinaryOpcode =
    | Add | FAdd | Sub | FSub | Mul | FMul
    | UDiv | SDiv | FDiv | URem | SRem | FRem
    | Shl | LShr | AShr | And | Or | Xor

  /** The instruction classes the passes distinguish. */
  datatype Kind =
    | GEP                          // operand 0 is the base pointer, the rest are the indices
    | CondBr                       // a conditional branch; operand 0 is the condition
    | Br                           // an unconditional branch
    | BinOp(opcode: BinaryOpcode)  // operands 0 and 1
    | ICmp                         // operands 0 and 1
    | Load
    | Store
    | Phi                          // one incoming value per incoming edge, as operands
    | Other                        // calls, casts, selects and everything else

  datatype Ty = IntTy(bits: nat) | FloatTy | PtrTy | VoidTy | VecTy(elem: Ty, width: nat)

  /** One lane of a vector that the vectoriser builds: the scalar `base` plus the integer `offset`. */
  datatype Lane = Lane(base: Value, offset: int)

  datatype Value =
    | Inst(id: InstId)             // the result of an instruction
    | IntConst(n: int)             // a ConstantInt, by its sign-extended value
    | FPConst(bits: int)           // any other ConstantData (ConstantFP, ...)
    | Arg(index: nat)              // a function argument or a global: neither ConstantData nor an Instruction
    | Vector(lanes: seq<Lane>)     // a vector value built by the vectoriser
    | VecPtr(gep: InstId)          // a GEP result bitcast to a pointer to a vector
    | NoValue                      // the null pointer

  datatype Instr = Instr(kind: Kind, operands: seq<Value>, ty: Ty)

  /** A basic block: its instructions in order. */
  type Block = seq<InstId>

  /** A natural loop as LoopInfo describes it: its blocks (those of its sub-loops
      included), its sub-loops, its canonical induction variable (a PHI) if it has
      one, and its unique exiting block if it has one. */
  datatype Loop = Loop(blocks: seq<Block>, subLoops: seq<Loop>, indVar: Option<InstId>, exiting: Option<Block>)

  /** A function: its blocks in layout order, the instructions they name, and the
      top-level loops of its loop forest. */
  datatype Function = Function(blocks: seq<Block>, insts: map<InstId, Instr>, loops: seq<Loop>)

  /** PreservedAnalyses, reduced to the two values the passes return. */
  datatype Preserved = PreservedAll | PreservedNone

  /** PreservedAnalyses::intersect: what both results preserve. */
  function Intersect(a: Preserved, b: Preserved): (r: Preserved)
    ensures r == PreservedAll <==> a == PreservedAll && b == PreservedAll
  {
    match a
    case PreservedAll => b
    case PreservedNone => PreservedNone
  }

  /** getOperand(k). A well-formed instruction is never asked for an operand it
      lacks; such a read yields the null pointer. */
  function Operand(i: Instr, k: nat): Value
  {
    if k < |i.operands| then i.operands[k] else NoValue
  }

  /** setOperand(k, v); an operand the instruction lacks is left alone. */
  function SetOperand(i: Instr, k: nat, v: Value): (r: Instr)
    ensures r.kind == i.kind && r.ty == i.ty && |r.operands| == |i.operands|
    ensures k < |i.operands| ==> Operand(r, k) == v
    ensures forall j :: 0 <= j < |i.operands| && j != k ==> r.operands[j] == i.operands[j]
  {
    if k < |i.operands| then i.(operands := i.operands[k := v]) else i
  }

  /** The kind of the instruction a value is, if it is one. */
  function KindOf(insts: map<InstId, Instr>, v: Value): Option<Kind>
  {
    if v.Inst? && v.id in insts then Some(insts[v.id].kind) else None
  }

  /** The instructions of a sequence of blocks, block after block. */
  function Flatten(blocks: seq<Block>): seq<InstId>
  {
    if blocks == [] then [] else Flatten(blocks[..|blocks| - 1]) + blocks[|blocks| - 1]
  }

  lemma FlattenAppend(blocks: seq<Block>, b: Block)
    ensures Flatten(blocks + [b]) == Flatten(blocks) + b
  {
    assert (blocks + [b])[..|blocks|] == blocks;
  }

  /** A prefix of the blocks flattens to a prefix of the instructions. */
  lemma {:induction false} FlattenPrefix(blocks: seq<Block>, m: nat)
    requires m <= |blocks|
    ensures Flatten(blocks[..m]) <= Flatten(blocks)
    decreases |blocks| - m
  {
    if m < |blocks| {
      FlattenPrefix(blocks, m + 1);
      assert blocks[..m + 1][..m] == blocks[..m];
    } else {
      assert blocks[..m] == blocks;
    }
  }

  /** No instruction appears twice. */
  predicate NoDuplicates(ids: seq<InstId>)
  {
    forall a, b :: 0 <= a < b < |ids| ==> ids[a] != ids[b]
  }

  /** Loop::contains for an instruction. */
  predicate Contains(l: Loop, id: InstId)
  {
    id in Flatten(l.blocks)
  }

  /** Loop::isLoopInvariant: a value is invariant unless it is an instruction of the loop. */
  predicate IsLoopInvariant(l: Loop, v: Value)
  {
    !(v.Inst? && Contains(l, v.id))
  }

  /** Loop::isInnermost. */
  predicate IsInnermost(l: Loop)
  {
    |l.subLoops| == 0
  }

  /** A loop and all the loops nested in it, in depth-first pre-order. */
  function Subtree(l: Loop): (r: seq<Loop>)
    decreases l
  {
    [l] + Forest(l.subLoops)
  }

  /** The loops of a forest and all their nested loops, tree after tree. */
  function Forest(ls: seq<Loop>): seq<Loop>
    decreases ls
  {
    if ls == [] then [] else Forest(ls[..|ls| - 1]) + Subtree(ls[|ls| - 1])
  }

  lemma ForestAppend(ls: seq<Loop>, l: Loop)
    ensures Forest(ls + [l]) == Forest(ls) + Subtree(l)
  {
    assert (ls + [l])[..|ls|] == ls;
  }

  /** A loop is in a forest exactly when it is in the subtree of one of the forest's roots. */
  lemma {:induction false} ForestMembers(ls: seq<Loop>, x: Loop)
    ensures x in Forest(ls) <==> exists k :: 0 <= k < |ls| && x in Subtree(ls[k])
  {
    if ls != [] {
      var front := ls[..|ls| - 1];
      ForestMembers(front, x);
      if x in Forest(front) {
        var k :| 0 <= k < |front| && x in Subtree(front[k]);
        assert ls[k] == front[k];
      }
      if exists k :: 0 <= k < |ls| && x in Subtree(ls[k]) {
        var k :| 0 <= k < |ls| && x in Subtree(ls[k]);
        if k < |front| {
          assert front[k] == ls[k];
        }
      }
    }
  }

  /** A loop's subtree holds the loop itself and the subtrees of its sub-loops, nothing else. */
  lemma SubtreeMembers(l: Loop, x: Loop)
    ensures x in Subtree(l) <==> x == l || exists k :: 0 <= k < |l.subLoops| && x in Subtree(l.subLoops[k])
  {
    ForestMembers(l.subLoops, x);
  }

  /** The function as the IR substrate holds it while a transformation pass runs:
      blocks and loops are fixed, instructions are rewritten in place. */
  class FunctionIR {
    const blocks: seq<Block>
    const loops: seq<Loop>
    var insts: map<InstId, Instr>

    /** The function as a value, as the analyses read it. */
    function Snapshot(): (f: Function)
      reads this
      ensures f.blocks == blocks && f.insts == insts && f.loops == loops
    {
      Function(blocks, insts, loops)
    }
  }
}
