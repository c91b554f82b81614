/** The options record that selects how the vector dialect's lowering patterns
    rewrite vector.contract, vector.transpose and vector.transfer operations. */
module VectorOptions {
  import Wrappers

  /** How vector.contract is lowered. */
  datatype VectorContractLowering = Dot | Matmul | OuterProduct

  /** How vector.transpose is lowered. */
  datatype VectorTransposeLowering = EltWise | Flat

  /** How vector.transfer operations are split into masked and unmasked variants. */
  datatype VectorTransferSplit = None | VectorTransfer | LinalgCopy | ForceUnmasked

  /** The fixed discriminants of the three enums. */
  function ContractLoweringValue(c: VectorContractLowering): int
  {
    match c
    case Dot => 0
    case Matmul => 1
    case OuterProduct => 2
  }

  function TransposeLoweringValue(t: VectorTransposeLowering): int
  {
    match t
    case EltWise => 0
    case Flat => 1
  }

  function TransferSplitValue(s: VectorTransferSplit): int
  {
    match s
    case None => 0
    case VectorTransfer => 1
    case LinalgCopy => 2
    case ForceUnmasked => 3
  }

  /** The enumerator with a given discriminant, if there is one. */
  function ContractLoweringOf(n: int): Wrappers.Option<VectorContractLowering>
  {
    if n == 0 then Wrappers.Some(Dot)
    else if n == 1 then Wrappers.Some(Matmul)
    else if n == 2 then Wrappers.Some(OuterProduct)
    else Wrappers.None
  }

  function TransposeLoweringOf(n: int): Wrappers.Option<VectorTransposeLowering>
  {
    if n == 0 then Wrappers.Some(EltWise)
    else if n == 1 then Wrappers.Some(Flat)
    else Wrappers.None
  }

  function TransferSplitOf(n: int): Wrappers.Option<VectorTransferSplit>
  {
    if n == 0 then Wrappers.Some(None)
    else if n == 1 then Wrappers.Some(VectorTransfer)
    else if n == 2 then Wrappers.Some(LinalgCopy)
    else if n == 3 then Wrappers.Some(ForceUnmasked)
    else Wrappers.None
  }

  /** Each enum's discriminants are exactly 0 up to its size minus one, one per
      enumerator: converting either way and back is the identity. */
  lemma DiscriminantsRoundTrip(c: VectorContractLowering, t: VectorTransposeLowering, s: VectorTransferSplit, n: int)
    ensures ContractLoweringOf(ContractLoweringValue(c)) == Wrappers.Some(c)
    ensures TransposeLoweringOf(TransposeLoweringValue(t)) == Wrappers.Some(t)
    ensures TransferSplitOf(TransferSplitValue(s)) == Wrappers.Some(s)
    ensures ContractLoweringOf(n).Some? <==> 0 <= n < 3
    ensures TransposeLoweringOf(n).Some? <==> 0 <= n < 2
    ensures TransferSplitOf(n).Some? <==> 0 <= n < 4
    ensures ContractLoweringOf(n).Some? ==> ContractLoweringValue(ContractLoweringOf(n).value) == n
    ensures TransposeLoweringOf(n).Some? ==> TransposeLoweringValue(TransposeLoweringOf(n).value) == n
    ensures TransferSplitOf(n).Some? ==> TransferSplitValue(TransferSplitOf(n).value) == n
  {
  }

  /** VectorTransformsOptions: three fields with fixed defaults, each set in place
      by a setter that returns the record itself so that calls chain. */
  class VectorTransformsOptions {
    var vectorContractLowering: VectorContractLowering
    var vectorTransposeLowering: VectorTransposeLowering
    var vectorTransferSplit: VectorTransferSplit

    /** A default-constructed record, as populateVectorContractLoweringPatterns
        receives when its options argument is omitted. */
    constructor ()
      ensures vectorContractLowering == Dot
      ensures vectorTransposeLowering == EltWise
      ensures vectorTransferSplit == None
    {
      vectorContractLowering := Dot;
      vectorTransposeLowering := EltWise;
      vectorTransferSplit := None;
    }

    /** setVectorTransformsOptions: despite its name, sets only the contraction lowering. */
    method SetVectorTransformsOptions(opt: VectorContractLowering) returns (r: VectorTransformsOptions)
      modifies this
      ensures r == this
      ensures vectorContractLowering == opt
      ensures vectorTransposeLowering == old(vectorTransposeLowering)
      ensures vectorTransferSplit == old(vectorTransferSplit)
    {
      vectorContractLowering := opt;
      r := this;
    }

    method SetVectorTransposeLowering(opt: VectorTransposeLowering) returns (r: VectorTransformsOptions)
      modifies this
      ensures r == this
      ensures vectorTransposeLowering == opt
      ensures vectorContractLowering == old(vectorContractLowering)
      ensures vectorTransferSplit == old(vectorTransferSplit)
    {
      vectorTransposeLowering := opt;
      r := this;
    }

    method SetVectorTransferSplit(opt: VectorTransferSplit) returns (r: VectorTransformsOptions)
      modifies this
      ensures r == this
      ensures vectorTransferSplit == opt
      ensures vectorContractLowering == old(vectorContractLowering)
      ensures vectorTransposeLowering == old(vectorTransposeLowering)
    {
      vectorTransferSplit := opt;
      r := this;
    }
  }

  /** A chain of setter calls on one record: each call acts on the record the
      previous one returned, a later call to the same setter overrides an earlier
      one, and repeating a call with the same value changes nothing more. */
  method SetterChain(o: VectorTransformsOptions, c1: VectorContractLowering, c2: VectorContractLowering,
                     t: VectorTransposeLowering, s: VectorTransferSplit)
    modifies o
    ensures o.vectorContractLowering == c2
    ensures o.vectorTransposeLowering == t
    ensures o.vectorTransferSplit == s
  {
    var r := o.SetVectorTransformsOptions(c1);
    r := r.SetVectorTransposeLowering(t);
    r := r.SetVectorTransformsOptions(c2);
    r := r.SetVectorTransferSplit(s);
    r := r.SetVectorTransferSplit(s);
    assert r == o;
  }
}
