/** GeexieLoopAnalysis: how many incoming values of a loop's canonical induction
    variable are binary operators that update it. */
module LoopAnalysis {
  import opened Wrappers
  import opened IR

  /** The incoming values of the PHI `iv`, one per incoming edge. */
  function IncomingValues(insts: map<InstId, Instr>, iv: InstId): seq<Value>
  {
    if iv in insts then insts[iv].operands else []
  }

  /** `v` is a binary operator whose operand 0 or operand 1 is the induction variable `iv`. */
  predicate IsIVUpdate(insts: map<InstId, Instr>, iv: InstId, v: Value)
  {
    && v.Inst? && v.id in insts && insts[v.id].kind.BinOp?
    && (Operand(insts[v.id], 0) == Inst(iv) || Operand(insts[v.id], 1) == Inst(iv))
  }

  /** The updates of `iv` among `vals`, in order, one entry per value that is one. */
  function UpdatesAmong(insts: map<InstId, Instr>, iv: InstId, vals: seq<Value>): seq<InstId>
  {
    if vals == [] then []
    else
      var last := vals[|vals| - 1];
      UpdatesAmong(insts, iv, vals[..|vals| - 1]) + (if IsIVUpdate(insts, iv, last) then [last.id] else [])
  }

  /** The `updates` vector both GeexieLoopAnalysis and the vectoriser collect. */
  function IVUpdates(insts: map<InstId, Instr>, iv: InstId): seq<InstId>
  {
    UpdatesAmong(insts, iv, IncomingValues(insts, iv))
  }

  /** The value GeexieLoopAnalysis reports: -1 without a canonical induction
      variable, otherwise the number of its updates. */
  function InvUpdatesCount(insts: map<InstId, Instr>, l: Loop): int
  {
    if l.indVar.None? then -1 else |IVUpdates(insts, l.indVar.value)|
  }

  /** The updates are counted per incoming edge: their number is the number of
      edge positions whose value is an update, so a value arriving on two edges
      counts twice. */
  lemma {:induction false} UpdatesAmongCountsEdges(insts: map<InstId, Instr>, iv: InstId, vals: seq<Value>)
    ensures |UpdatesAmong(insts, iv, vals)| == |set k | 0 <= k < |vals| && IsIVUpdate(insts, iv, vals[k])|
  {
    if vals != [] {
      var n := |vals| - 1;
      var front := vals[..n];
      UpdatesAmongCountsEdges(insts, iv, front);
      var before := set k | 0 <= k < |front| && IsIVUpdate(insts, iv, front[k]);
      var all := set k | 0 <= k < |vals| && IsIVUpdate(insts, iv, vals[k]);
      assert forall k :: 0 <= k < n ==> front[k] == vals[k];
      assert UpdatesAmong(insts, iv, vals) ==
        UpdatesAmong(insts, iv, front) + (if IsIVUpdate(insts, iv, vals[n]) then [vals[n].id] else []);
      if IsIVUpdate(insts, iv, vals[n]) {
        assert all == before + {n};
      } else {
        assert all == before;
      }
    }
  }

  /** Exactly the incoming values that are updates are collected, and no more
      entries than there are incoming values. */
  lemma {:induction false} UpdatesAmongMembers(insts: map<InstId, Instr>, iv: InstId, vals: seq<Value>)
    ensures |UpdatesAmong(insts, iv, vals)| <= |vals|
    ensures forall x :: x in UpdatesAmong(insts, iv, vals) <==> Inst(x) in vals && IsIVUpdate(insts, iv, Inst(x))
  {
    if vals != [] {
      var n := |vals| - 1;
      UpdatesAmongMembers(insts, iv, vals[..n]);
      assert vals == vals[..n] + [vals[n]];
    }
  }

  /** -1 exactly when there is no canonical induction variable; otherwise a count
      between 0 and the number of incoming edges. */
  lemma InvUpdatesCountBounds(insts: map<InstId, Instr>, l: Loop)
    ensures InvUpdatesCount(insts, l) == -1 <==> l.indVar.None?
    ensures l.indVar.Some? ==> 0 <= InvUpdatesCount(insts, l) <= |IncomingValues(insts, l.indVar.value)|
  {
    if l.indVar.Some? {
      UpdatesAmongMembers(insts, l.indVar.value, IncomingValues(insts, l.indVar.value));
    }
  }

  /** GeexieLoopAnalysis::Result. */
  datatype Result = Result(invUpdatesCount: int)

  /** GeexieLoopAnalysis::run. */
  method Run(l: Loop, insts: map<InstId, Instr>) returns (res: Result)
    ensures res.invUpdatesCount == InvUpdatesCount(insts, l)
  {
    var invUpdatesCount := -1;
    if l.indVar.Some? {
      var indVar := l.indVar.value;
      var incoming := IncomingValues(insts, indVar);
      var updates: seq<InstId> := [];
      var i := 0;
      while i < |incoming|
        invariant 0 <= i <= |incoming|
        invariant updates == UpdatesAmong(insts, indVar, incoming[..i])
      {
        var v := incoming[i];
        if v.Inst? && v.id in insts && insts[v.id].kind.BinOp? {
          var binOp := insts[v.id];
          if Operand(binOp, 0) == Inst(indVar) || Operand(binOp, 1) == Inst(indVar) {
            updates := updates + [v.id];
          }
        }
        assert incoming[..i + 1][..i] == incoming[..i];
        i := i + 1;
      }
      assert incoming[..i] == incoming;
      invUpdatesCount := |updates|;
    }
    res := Result(invUpdatesCount);
  }

  /** An update reached along two incoming edges is counted twice. */
  lemma DuplicateEdgesCountTwice()
    ensures
      var iv := 0;
      var upd := 1;
      var insts := map[iv := Instr(Phi, [IntConst(0), Inst(upd), Inst(upd)], IntTy(64)),
                       upd := Instr(BinOp(Add), [Inst(iv), IntConst(1)], IntTy(64))];
      InvUpdatesCount(insts, Loop([[iv, upd]], [], Some(iv), None)) == 2
  {
    var iv, upd := 0, 1;
    var insts := map[iv := Instr(Phi, [IntConst(0), Inst(upd), Inst(upd)], IntTy(64)),
                     upd := Instr(BinOp(Add), [Inst(iv), IntConst(1)], IntTy(64))];
    var vals := IncomingValues(insts, iv);
    assert vals[..2][..1] == vals[..1] && vals[..1][..0] == [];
    assert UpdatesAmong(insts, iv, vals[..1]) == [];
    assert UpdatesAmong(insts, iv, vals[..2]) == [upd];
    assert UpdatesAmong(insts, iv, vals) == [upd, upd];
  }
}
