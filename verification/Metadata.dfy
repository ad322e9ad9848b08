/** Resolving the thresholds and the cosigner roster an instruction is voted under. */
module Metadata {
  import opened Foundations
  import opened Quorum
  import opened Instructions

  const MAX_BIPS: nat := 10000
  const FDC_MINIMUM_BIPS: nat := 4000

  datatype MetaError =
    | MalformedFDCRequest | FDCThresholdTooLow | FDCThresholdBelowHalf | FDCThresholdTooHigh
    | ZeroPolicyThreshold | InvalidThreshold
    | DuplicateCosigners | UnresolvedRoster | CosignerMismatch | CosignerThresholdMismatch
    | InvalidCosignerThreshold

  /** Decoding of an FDC request header: foreign code, of which only the declared BIPS matter. */
  type FDCDecoder = Bytes -> Option<uint16>

  /** The roster the wallet cache or the backup metadata holds, when the command consults one. */
  datatype Roster = Roster(cosigners: set<Address>, threshold: uint64)

  /** A signing policy: voter weights, their uint16 total and the policy's own threshold. */
  datatype Policy = Policy(weights: Weights, totalWeight: uint16, threshold: uint16)

  /** What the chain guarantees of a policy: the recorded total is the sum of the weights. */
  ghost predicate ValidPolicy(p: Policy) {
    Total(p.weights, p.weights.Keys) == p.totalWeight
  }

  // ---------------------------------------------------------------- provider threshold

  /** cosignersThreshold * 2 is a uint64 product in the source, so it can wrap. */
  function CheckFDCThreshold(bips: uint16, cosignersThreshold: uint64, cosignerCount: nat): (e: Option<MetaError>) {
    if bips < FDC_MINIMUM_BIPS then Some(FDCThresholdTooLow)
    else if bips < MAX_BIPS / 2 && MulU64(cosignersThreshold, 2) <= cosignerCount then Some(FDCThresholdBelowHalf)
    else if bips >= MAX_BIPS then Some(FDCThresholdTooHigh)
    else None
  }

  /** None stands for the source's -1: the policy's own threshold applies. */
  function ThresholdBIPS(d: DataFixed, decode: FDCDecoder): (r: Result<Option<uint16>, MetaError>) {
    if d.opType == FDC2Op && d.opCommand == Prove then
      var header := decode(d.originalMessage);
      if header.None? then Err(MalformedFDCRequest)
      else if header.value == 0 then Ok(None)
      else
        var e := CheckFDCThreshold(header.value, d.cosignersThreshold, |d.cosigners|);
        if e.Some? then Err(e.value) else Ok(Some(header.value))
    else Ok(None)
  }

  function ComputeThreshold(total: uint16, bips: nat): (r: uint16)
    requires bips <= MAX_BIPS
  {
    ScaleBounded(total, bips);
    total * bips / MAX_BIPS
  }

  lemma ScaleBounded(total: nat, bips: nat)
    requires bips <= MAX_BIPS
    ensures total * bips / MAX_BIPS <= total
  {
    assert total * bips <= total * MAX_BIPS;
  }

  /** Flooring loses nothing: exceeding the floored threshold is exceeding the exact BIPS share. */
  lemma StrictFloor(weight: nat, total: uint16, bips: nat)
    requires bips <= MAX_BIPS
    ensures weight > ComputeThreshold(total, bips) <==> weight * MAX_BIPS > total * bips
  {
    var product := total * bips;
    assert product == product / MAX_BIPS * MAX_BIPS + product % MAX_BIPS;
    if weight > product / MAX_BIPS {
      assert weight * MAX_BIPS >= (product / MAX_BIPS + 1) * MAX_BIPS;
    } else {
      assert weight * MAX_BIPS <= product / MAX_BIPS * MAX_BIPS;
    }
  }

  function ResolveThreshold(p: Policy, d: DataFixed, decode: FDCDecoder): (r: Result<uint16, MetaError>) {
    var bips := ThresholdBIPS(d, decode);
    if bips.Err? then Err(bips.error)
    else if bips.value.None? then
      if p.threshold == 0 then Err(ZeroPolicyThreshold) else Ok(p.threshold)
    else if bips.value.value > MAX_BIPS then Err(InvalidThreshold)
    else Ok(ComputeThreshold(p.totalWeight, bips.value.value))
  }

  /** Exactly which below-half FDC declarations the check lets through: a true majority, or a wrapped product. */
  lemma FDCMajorityOrWrap(bips: uint16, ct: uint64, count: nat)
    requires FDC_MINIMUM_BIPS <= bips < MAX_BIPS / 2 && count < U64 / 2
    ensures CheckFDCThreshold(bips, ct, count).None? <==>
            (ct < U64 / 2 && 2 * ct > count) || (ct >= U64 / 2 && 2 * (ct - U64 / 2) > count)
  {
    if ct < U64 / 2 {
      assert ct * 2 % U64 == ct * 2;
    } else {
      assert ct * 2 == U64 + 2 * (ct - U64 / 2);
      assert ct * 2 % U64 == 2 * (ct - U64 / 2);
    }
  }

  /** The FDC check alone admits a threshold nobody can meet, because its product wraps. */
  lemma FDCCheckAloneWraps()
    ensures CheckFDCThreshold(4000, 0x8000_0000_0000_0002, 3).None?
    ensures !(0x8000_0000_0000_0002 <= 3)
  {
    assert MulU64(0x8000_0000_0000_0002, 2) == 4;
  }

  /** No wrap survives opening a box, which also demands a threshold the roster can meet. */
  lemma FDCMajority(bips: uint16, ct: uint64, count: nat)
    requires CheckFDCThreshold(bips, ct, count).None?
    requires bips < MAX_BIPS / 2
    requires ct <= count <= MAX_COSIGNERS
    ensures 2 * ct > count
  {
    FDCMajorityOrWrap(bips, ct, count);
  }

  // ---------------------------------------------------------------- cosigner roster

  /** Commands whose roster is authoritative elsewhere: the declared list must match it. */
  predicate HasAuthoritativeRoster(command: OpCommand) {
    command in {Pay, Reissue, VRF, KeyDataProviderRestore}
  }

  /** The containment loop of the source, with its early exit. */
  method CheckCosigner(declared: seq<Address>, roster: Roster, threshold: uint64) returns (e: Option<MetaError>)
    ensures Distinct(declared) ==>
              (e.None? <==> Elems(declared) == roster.cosigners && threshold == roster.threshold)
    ensures e == CosignerCheck(declared, roster, threshold)
  {
    if |declared| != |roster.cosigners| {
      RosterMismatch(declared, roster);
      return Some(CosignerMismatch);
    }
    for i := 0 to |declared|
      invariant forall k :: 0 <= k < i ==> declared[k] in roster.cosigners
    {
      if declared[i] !in roster.cosigners {
        assert declared[i] in Elems(declared);
        return Some(CosignerMismatch);
      }
    }
    RosterMismatch(declared, roster);
    if threshold != roster.threshold {
      return Some(CosignerThresholdMismatch);
    }
    return None;
  }

  function CosignerCheck(declared: seq<Address>, roster: Roster, threshold: uint64): (e: Option<MetaError>) {
    if |declared| != |roster.cosigners| || exists a :: a in declared && a !in roster.cosigners
    then Some(CosignerMismatch)
    else if threshold != roster.threshold then Some(CosignerThresholdMismatch)
    else None
  }

  /** Equal length plus containment is set equality once the declared list repeats nobody. */
  lemma RosterMismatch(declared: seq<Address>, roster: Roster)
    ensures Distinct(declared) ==>
              ((|declared| == |roster.cosigners| && forall a :: a in declared ==> a in roster.cosigners)
               <==> Elems(declared) == roster.cosigners)
  {
    DistinctCardinality(declared);
    if |declared| == |roster.cosigners| && Distinct(declared) && forall a :: a in declared ==> a in roster.cosigners {
      SubsetOfEqualSize(Elems(declared), roster.cosigners);
    }
    if Elems(declared) == roster.cosigners {
      forall a | a in declared ensures a in roster.cosigners { assert a in Elems(declared); }
    }
  }

  /** resolved is what the wallet cache or backup metadata answers; commands without a roster ignore it. */
  function Cosigners(d: DataFixed, resolved: Option<Roster>): (r: Result<Roster, MetaError>) {
    if |Elems(d.cosigners)| != |d.cosigners| then Err(DuplicateCosigners)
    else if !HasAuthoritativeRoster(d.opCommand) then Ok(Roster(Elems(d.cosigners), d.cosignersThreshold))
    else if resolved.None? then Err(UnresolvedRoster)
    else
      var e := CosignerCheck(d.cosigners, resolved.value, d.cosignersThreshold);
      if e.Some? then Err(e.value) else Ok(resolved.value)
  }

  /** Whatever the command and whatever the cache answers, an accepted roster is the declared one. */
  lemma AcceptedRosterIsDeclared(d: DataFixed, resolved: Option<Roster>)
    requires Cosigners(d, resolved).Ok?
    ensures Distinct(d.cosigners)
    ensures Cosigners(d, resolved).value == Roster(Elems(d.cosigners), d.cosignersThreshold)
    ensures |Elems(d.cosigners)| == |d.cosigners|
  {
    DistinctCardinality(d.cosigners);
    if HasAuthoritativeRoster(d.opCommand) {
      RosterMismatch(d.cosigners, resolved.value);
      assert CosignerCheck(d.cosigners, resolved.value, d.cosignersThreshold).None?;
    }
  }

  /**
   * When a roster is accepted: the declared list repeats nobody, and for the four commands whose roster is
   * authoritative elsewhere it and its threshold are exactly those found there. The error otherwise.
   */
  lemma CosignersIff(d: DataFixed, resolved: Option<Roster>)
    ensures var r, declared := Cosigners(d, resolved), Roster(Elems(d.cosigners), d.cosignersThreshold);
            && (r.Ok? <==>
                  && Distinct(d.cosigners)
                  && (d.opCommand in {Pay, Reissue, VRF, KeyDataProviderRestore} ==> resolved == Some(declared)))
            && (r.Ok? ==> r.value == declared)
            && (r.Err? ==>
                  r.error == if !Distinct(d.cosigners) then DuplicateCosigners
                             else if resolved.None? then UnresolvedRoster
                             else if resolved.value.cosigners != declared.cosigners then CosignerMismatch
                             else CosignerThresholdMismatch)
  {
    DistinctCardinality(d.cosigners);
    if resolved.Some? { RosterMismatch(d.cosigners, resolved.value); }
  }

  /**
   * When a provider threshold is resolved, and to what: the floored share of the total weight for an FDC proof that
   * declares one, which must be at least 4000, below 10000, and below 5000 only with more than half of the cosigners
   * (computed modulo 2^64); else the policy's own, which must not be zero. The error otherwise.
   */
  lemma ThresholdIff(p: Policy, d: DataFixed, decode: FDCDecoder)
    ensures var r := ResolveThreshold(p, d, decode);
            if d.opType == FDC2Op && d.opCommand == Prove && decode(d.originalMessage).None?
            then r == Err(MalformedFDCRequest)
            else if d.opType == FDC2Op && d.opCommand == Prove && decode(d.originalMessage).value != 0
            then
              var bips := decode(d.originalMessage).value;
              if bips < 4000 then r == Err(FDCThresholdTooLow)
              else if bips < 5000 && 2 * d.cosignersThreshold % U64 <= |d.cosigners|
              then r == Err(FDCThresholdBelowHalf)
              else if bips >= 10000 then r == Err(FDCThresholdTooHigh)
              else r.Ok? && r.value * 10000 <= p.totalWeight * bips < (r.value + 1) * 10000
            else r == if p.threshold == 0 then Err(ZeroPolicyThreshold) else Ok(p.threshold)
  {
    if d.opType == FDC2Op && d.opCommand == Prove && decode(d.originalMessage).Some? {
      var bips := decode(d.originalMessage).value;
      assert MulU64(d.cosignersThreshold, 2) == 2 * d.cosignersThreshold % U64;
      if bips <= MAX_BIPS { FloorBounds(p.totalWeight, bips); }
    }
  }

  lemma FloorBounds(total: uint16, bips: nat)
    requires bips <= MAX_BIPS
    ensures var t := ComputeThreshold(total, bips); t * 10000 <= total * bips < (t + 1) * 10000
  {
    var product := total * bips;
    assert product == product / MAX_BIPS * MAX_BIPS + product % MAX_BIPS;
  }
}
