/**
 * Instruction payloads, the admission limits on them, and the hashes that name them.
 *
 * Hashes are terms of a free algebra: equal terms come from equal preimages and no hash of data is
 * the zero hash. That is what the proxy relies on Keccak for.
 */
module Instructions {
  import opened Foundations

  datatype OpType = WalletOp | FDC2Op | OtherOp(n: nat)

  datatype OpCommand =
    | InitializePolicy | UpdatePolicy | KeyInfo | TEEInfo | TEEBackup
    | KeyDataProviderRestore | KeyDataProviderRestoreTest
    | Pay | Reissue | TEEAttestation | KeyGenerate | KeyDelete
    | Prove | VRF | OtherCommand(n: nat)

  /** The part of an instruction that every voter must agree on. */
  datatype DataFixed = DataFixed(
    instructionID: ID, rewardEpochID: uint32, opType: OpType, opCommand: OpCommand,
    originalMessage: Bytes, additionalFixedMessage: Bytes,
    cosigners: seq<Address>, cosignersThreshold: uint64, timestamp: uint64)

  /** One submitted vote: the agreed data plus what the voter adds, and the recovered signer. */
  datatype Request = Request(data: DataFixed, additionalVariableMessage: Bytes, signer: Address, signature: Bytes)

  datatype Hash =
    | ZeroHash
    | FixedHash(data: DataFixed)
    | InitialHash(data: DataFixed)
    | NextHash(prev: Hash, sequence: nat, signature: Bytes, message: Bytes, timestamp: nat)

  /** Restores of provider-held key shares: their actions are built only when the voting ends. */
  predicate IsRestore(d: DataFixed) {
    d.opType == WalletOp && d.opCommand == KeyDataProviderRestore
  }

  const KIB: nat := 1024
  const MAX_COSIGNERS: nat := 1024

  datatype SizeError =
    | NonInstructionCommand | TooManyCosigners | OriginalMessageTooBig
    | AdditionalMessageTooBig | AdditionalVariableTooBig

  datatype SizeLimits = SizeLimits(original: nat, fixedPart: nat, variable: nat)

  /** restoreVariable is the restore cap, derived from the configured provider share. */
  function Limits(command: OpCommand, restoreVariable: nat): (r: Result<SizeLimits, SizeError>) {
    match command
    case InitializePolicy | UpdatePolicy | KeyInfo | TEEInfo | TEEBackup => Err(NonInstructionCommand)
    case KeyDataProviderRestore | KeyDataProviderRestoreTest => Ok(SizeLimits(50 * KIB, 100 * KIB, restoreVariable))
    case Pay | Reissue | TEEAttestation | KeyGenerate | KeyDelete => Ok(SizeLimits(50 * KIB, 0, 0))
    case _ => Ok(SizeLimits(50 * KIB, 100 * KIB, 50 * KIB))
  }

  function CheckSize(r: Request, restoreVariable: nat): (e: Option<SizeError>)
    ensures e.None? <==>
              var command, kib := r.data.opCommand, 1024;
              var bare := command in {Pay, Reissue, TEEAttestation, KeyGenerate, KeyDelete};
              && command !in {InitializePolicy, UpdatePolicy, KeyInfo, TEEInfo, TEEBackup}
              && |r.data.cosigners| <= 1024
              && |r.data.originalMessage| <= 50 * kib
              && |r.data.additionalFixedMessage| <= (if bare then 0 else 100 * kib)
              && |r.additionalVariableMessage| <=
                   (if bare then 0
                    else if command in {KeyDataProviderRestore, KeyDataProviderRestoreTest} then restoreVariable
                    else 50 * kib)
  {
    var limits := Limits(r.data.opCommand, restoreVariable);
    if limits.Err? then Some(limits.error)
    else if |r.data.cosigners| > MAX_COSIGNERS then Some(TooManyCosigners)
    else if |r.data.originalMessage| > limits.value.original then Some(OriginalMessageTooBig)
    else if |r.data.additionalFixedMessage| > limits.value.fixedPart then Some(AdditionalMessageTooBig)
    else if |r.additionalVariableMessage| > limits.value.variable then Some(AdditionalVariableTooBig)
    else None
  }
}
