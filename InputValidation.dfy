/** Provenance of a mix input: is it a mustMix (an output of a fee-paying
    tx0), a liquidity (an output of an earlier mix), or rejected? A tx0
    whose discount code is "cascading" is re-checked against the pool its
    output #3 belongs to, by re-entering the same classification.

    The tx0 service (fee-data decoding and fee validation), the node's RPC
    and the pool registry are fields of `Services`. The re-check in the
    implementation has no bound; here every classification carries `fuel`,
    the number of cascading re-checks it may still perform, and a re-check
    that would need more is rejected. */
module InputValidation {
  import opened Base
  import opened Bitcoin
  import opened ServerConfig
  import opened FeePayload

  /** Pool identifiers chosen by the value of a cascading tx0's output #3.
      The 5M tier names the same pool as the 50M tier. */
  const POOL_50M: string := "0.5btc"
  const POOL_5M: string := "0.5btc"
  const POOL_1M: string := "0.01btc"
  const POOL_100K: string := "0.001btc"

  /** Result of validating a tx0's fee: the discount code it used, if any. */
  datatype Tx0Validation = Tx0Validation(scodeConfig: Option<ScodeConfig>)

  datatype Services = Services(
    /** Provenance checks disabled by configuration. */
    testMode: bool,
    /** Fee data of a transaction; Err when it is not a decodable tx0. */
    decodeFeeData: Transaction -> Result<FeeData, string>,
    /** Fee validation of a tx0; Err when its fee is not paid. */
    validateTx0: (Transaction, int64, PoolFee, FeeData) -> Result<Tx0Validation, string>,
    /** The node's raw transaction by txid; None when it cannot be fetched. */
    getRawTransaction: string -> Option<RpcTransaction>,
    /** Pool by identifier; None when the lookup fails. */
    getPool: string -> Option<Pool>)

  /** Why an input is rejected (all with error code INPUT_REJECTED). The
      invalid-fee rejection tells only whether a discount code was present,
      never its value. */
  datatype Rejection =
    | NotPremixOrWhirlpoolInput
    | InvalidFee(txid: string, feeIndice: int32, scodePayloadPresent: bool)
    | JoinedAsLiquidityButMustMix
    | JoinedAsMustMixButLiquidity

  /** Why the cascading re-check fails; each becomes an invalid-fee
      rejection of the tx0 being checked. */
  datatype CascadingFailure =
    | InvalidCascading(txid: string)
    | RawTransactionNotFound(txid: string)
    | MixOutputMissing(txid: string)
    | PoolSizeNotFound(txid: string)
    | PoolNotFound(poolId: string)
    | CascadingDepthExhausted
    | RecheckRejected(rejection: Rejection)

  /** The pool a mix value belongs to, by strict thresholds. */
  function PoolForMixValue(mixValue: int64): (r: Option<string>)
    ensures r.None? <==> mixValue <= 100_000
    ensures r == Some(POOL_50M) <==> mixValue > 5_000_000
    ensures r == Some(POOL_1M) <==> 1_000_000 < mixValue <= 5_000_000
    ensures r == Some(POOL_100K) <==> 100_000 < mixValue <= 1_000_000
  {
    if mixValue > 50_000_000 then Some(POOL_50M)
    else if mixValue > 5_000_000 then Some(POOL_5M)
    else if mixValue > 1_000_000 then Some(POOL_1M)
    else if mixValue > 100_000 then Some(POOL_100K)
    else None
  }

  /** The rejection of a tx0 whose fee (or cascading) check failed. */
  function InvalidFeeFor(tx: Transaction, feeData: FeeData): Rejection
  {
    InvalidFee(tx.txid, feeData.feeIndice, feeData.scodePayload != SCODE_PAYLOAD_NONE)
  }

  /** Classifies an input's transaction: Ok(true) for liquidity, Ok(false)
      for mustMix. Without decodable fee data the input is liquidity when it
      comes from a known mix and rejected otherwise; with fee data it is
      mustMix when the fee (and, for a cascading code, the cascading
      re-check) validates, and rejected otherwise. */
  function CheckInputProvenance(env: Services, tx: Transaction, txTime: int64, poolFee: PoolFee, hasMixTxid: bool, fuel: nat)
    : (r: Result<bool, Rejection>)
    ensures env.decodeFeeData(tx).Err? ==>
              r == if hasMixTxid then Ok(true) else Err(NotPremixOrWhirlpoolInput)
    ensures env.decodeFeeData(tx).Ok? ==>
              r == Ok(false) || r == Err(InvalidFeeFor(tx, env.decodeFeeData(tx).value))
    ensures env.decodeFeeData(tx).Ok? && env.validateTx0(tx, txTime, poolFee, env.decodeFeeData(tx).value).Err? ==>
              r == Err(InvalidFeeFor(tx, env.decodeFeeData(tx).value))
    ensures env.decodeFeeData(tx).Ok? ==>
              (r == Ok(false) <==>
                 && env.validateTx0(tx, txTime, poolFee, env.decodeFeeData(tx).value).Ok?
                 && var scodeConfig := env.validateTx0(tx, txTime, poolFee, env.decodeFeeData(tx).value).value.scodeConfig;
                    (scodeConfig.Some? && scodeConfig.value.cascading ==> ValidateTx0Cascading(env, tx, txTime, fuel).Ok?))
    ensures r == Ok(true) ==> hasMixTxid
    decreases fuel, 1
  {
    match env.decodeFeeData(tx)
    case Err(_) =>
      if !hasMixTxid then Err(NotPremixOrWhirlpoolInput) else Ok(true)
    case Ok(feeData) =>
      match env.validateTx0(tx, txTime, poolFee, feeData)
      case Err(_) => Err(InvalidFeeFor(tx, feeData))
      case Ok(tx0Validation) =>
        var scodeConfig := tx0Validation.scodeConfig;
        if scodeConfig.Some? && scodeConfig.value.cascading then
          match ValidateTx0Cascading(env, tx, txTime, fuel)
          case Err(_) => Err(InvalidFeeFor(tx, feeData))
          case Ok(_) => Ok(false)
        else Ok(false)
  }

  /** The cascading re-check: exactly one input, the transaction fetched
      again by its txid, a pool chosen by output #3's value, and a
      re-classification in that pool as a non-mix input. */
  function ValidateTx0Cascading(env: Services, tx: Transaction, txTime: int64, fuel: nat): (r: Result<(), CascadingFailure>)
    ensures |tx.inputs| != 1 ==> r == Err(InvalidCascading(tx.txid))
    ensures |tx.outputs| < 4 ==> r.Err?
    ensures fuel == 0 ==> r.Err?
    ensures |tx.inputs| == 1 && env.getRawTransaction(tx.txid).None? ==> r == Err(RawTransactionNotFound(tx.txid))
    ensures r.Ok? <==>
      && |tx.inputs| == 1
      && env.getRawTransaction(tx.txid).Some?
      && |tx.outputs| >= 4
      && PoolForMixValue(tx.outputs[3].value).Some?
      && env.getPool(PoolForMixValue(tx.outputs[3].value).value).Some?
      && fuel > 0
      && var rpcTx := env.getRawTransaction(tx.txid).value;
         var pool := env.getPool(PoolForMixValue(tx.outputs[3].value).value).value;
         CheckInputProvenance(env, rpcTx.tx, rpcTx.txTime, pool.poolFee, false, fuel - 1) == Ok(false)
    decreases fuel, 0
  {
    if |tx.inputs| != 1 then Err(InvalidCascading(tx.txid))
    else match env.getRawTransaction(tx.txid)
      case None => Err(RawTransactionNotFound(tx.txid))
      case Some(rpcTransaction) =>
        if |tx.outputs| < 4 then Err(MixOutputMissing(tx.txid))
        else
          var mixValue := tx.outputs[3].value;
          match PoolForMixValue(mixValue)
          case None => Err(PoolSizeNotFound(tx.txid))
          case Some(poolId) =>
            match env.getPool(poolId)
            case None => Err(PoolNotFound(poolId))
            case Some(pool) =>
              if fuel == 0 then Err(CascadingDepthExhausted)
              else match IsValidTx0(env, rpcTransaction, pool, fuel - 1)
                case Err(rejection) => Err(RecheckRejected(rejection))
                case Ok(_) => Ok(())
  }

  /** Re-classifies a fetched transaction as a non-mix input: it can only be
      mustMix (Ok(true), "is a tx0") or rejected. */
  function IsValidTx0(env: Services, tx: RpcTransaction, pool: Pool, fuel: nat): (r: Result<bool, Rejection>)
    ensures r.Ok? ==> r.value
    ensures r.Ok? <==> CheckInputProvenance(env, tx.tx, tx.txTime, pool.poolFee, false, fuel) == Ok(false)
    decreases fuel, 2
  {
    var hasMixTxid := false;
    match CheckInputProvenance(env, tx.tx, tx.txTime, pool.poolFee, hasMixTxid, fuel)
    case Err(rejection) => Err(rejection)
    case Ok(isLiquidity) => Ok(!isLiquidity)
  }

  /** Admission check of an input declared as liquidity or not: accepted in
      test mode; otherwise accepted exactly when the computed class matches
      the declared one. */
  function ValidateProvenance(env: Services, tx: RpcTransaction, liquidity: bool, pool: Pool, hasMixTxid: bool, fuel: nat)
    : (r: Result<(), Rejection>)
    ensures env.testMode ==> r == Ok(())
    ensures !env.testMode ==>
              (r.Ok? <==> CheckInputProvenance(env, tx.tx, tx.txTime, pool.poolFee, hasMixTxid, fuel) == Ok(liquidity))
    ensures !env.testMode && CheckInputProvenance(env, tx.tx, tx.txTime, pool.poolFee, hasMixTxid, fuel) == Ok(!liquidity) ==>
              r == Err(if liquidity then JoinedAsLiquidityButMustMix else JoinedAsMustMixButLiquidity)
    ensures !env.testMode && CheckInputProvenance(env, tx.tx, tx.txTime, pool.poolFee, hasMixTxid, fuel).Err? ==>
              r == Err(CheckInputProvenance(env, tx.tx, tx.txTime, pool.poolFee, hasMixTxid, fuel).error)
  {
    if env.testMode then Ok(())
    else match CheckInputProvenance(env, tx.tx, tx.txTime, pool.poolFee, hasMixTxid, fuel)
      case Err(rejection) => Err(rejection)
      case Ok(isLiquidity) =>
        if !isLiquidity && liquidity then Err(JoinedAsLiquidityButMustMix)
        else if isLiquidity && !liquidity then Err(JoinedAsMustMixButLiquidity)
        else Ok(())
  }

  /** A tx0 whose fee validates is mustMix unless its discount code is
      cascading; only then is the cascading re-check run, and it decides. */
  lemma CascadingRecheckOnlyForCascadingScode(env: Services, tx: Transaction, txTime: int64, poolFee: PoolFee, hasMixTxid: bool, fuel: nat)
    requires env.decodeFeeData(tx).Ok?
    requires env.validateTx0(tx, txTime, poolFee, env.decodeFeeData(tx).value).Ok?
    ensures var scodeConfig := env.validateTx0(tx, txTime, poolFee, env.decodeFeeData(tx).value).value.scodeConfig;
            CheckInputProvenance(env, tx, txTime, poolFee, hasMixTxid, fuel) ==
              if scodeConfig.Some? && scodeConfig.value.cascading && ValidateTx0Cascading(env, tx, txTime, fuel).Err?
              then Err(InvalidFeeFor(tx, env.decodeFeeData(tx).value))
              else Ok(false)
  {
  }

  /** A cascading tx0 that does not have exactly one input is rejected,
      whatever its fee and however deep the re-check may go. */
  lemma CascadingNeedsOneInput(env: Services, tx: Transaction, txTime: int64, poolFee: PoolFee, hasMixTxid: bool, fuel: nat)
    requires env.decodeFeeData(tx).Ok?
    requires env.validateTx0(tx, txTime, poolFee, env.decodeFeeData(tx).value).Ok?
    requires var scodeConfig := env.validateTx0(tx, txTime, poolFee, env.decodeFeeData(tx).value).value.scodeConfig;
             scodeConfig.Some? && scodeConfig.value.cascading
    requires |tx.inputs| != 1
    ensures CheckInputProvenance(env, tx, txTime, poolFee, hasMixTxid, fuel) == Err(InvalidFeeFor(tx, env.decodeFeeData(tx).value))
  {
  }

  /** More fuel never changes an accepted classification. */
  lemma {:induction false} FuelMonotone(env: Services, tx: Transaction, txTime: int64, poolFee: PoolFee, hasMixTxid: bool, fuel: nat, more: nat)
    requires fuel <= more
    requires CheckInputProvenance(env, tx, txTime, poolFee, hasMixTxid, fuel).Ok?
    ensures CheckInputProvenance(env, tx, txTime, poolFee, hasMixTxid, more)
            == CheckInputProvenance(env, tx, txTime, poolFee, hasMixTxid, fuel)
    decreases fuel, 1
  {
    match env.decodeFeeData(tx) {
      case Err(_) =>
      case Ok(feeData) =>
        match env.validateTx0(tx, txTime, poolFee, feeData) {
          case Err(_) =>
          case Ok(tx0Validation) =>
            var scodeConfig := tx0Validation.scodeConfig;
            if scodeConfig.Some? && scodeConfig.value.cascading {
              CascadingRecheckGrows(env, tx, txTime, fuel, more);
            }
        }
    }
  }

  /** The cascading re-check's part of `FuelMonotone`. */
  lemma {:induction false} CascadingRecheckGrows(env: Services, tx: Transaction, txTime: int64, fuel: nat, more: nat)
    requires fuel <= more
    requires ValidateTx0Cascading(env, tx, txTime, fuel).Ok?
    ensures ValidateTx0Cascading(env, tx, txTime, more).Ok?
    decreases fuel, 0
  {
    var rpcTx := env.getRawTransaction(tx.txid).value;
    var pool := env.getPool(PoolForMixValue(tx.outputs[3].value).value).value;
    FuelMonotone(env, rpcTx.tx, rpcTx.txTime, pool.poolFee, false, fuel - 1, more - 1);
  }

  /** The re-check of a cascading tx0 whose fetch returns the same cascading
      tx0 again never succeeds: every amount of fuel is used up. (The
      implementation, which has no bound, recurses without end here.) */
  lemma {:induction false} SameTxRecheckExhausts(env: Services, tx: Transaction, txTime: int64, pool: Pool, fuel: nat)
    requires env.decodeFeeData(tx).Ok?
    requires env.validateTx0(tx, txTime, pool.poolFee, env.decodeFeeData(tx).value).Ok?
    requires var scodeConfig := env.validateTx0(tx, txTime, pool.poolFee, env.decodeFeeData(tx).value).value.scodeConfig;
             scodeConfig.Some? && scodeConfig.value.cascading
    requires env.getRawTransaction(tx.txid) == Some(RpcTransaction(tx, txTime))
    requires |tx.outputs| >= 4 && PoolForMixValue(tx.outputs[3].value).Some?
    requires env.getPool(PoolForMixValue(tx.outputs[3].value).value) == Some(pool)
    ensures ValidateTx0Cascading(env, tx, txTime, fuel).Err?
    ensures CheckInputProvenance(env, tx, txTime, pool.poolFee, false, fuel).Err?
    decreases fuel
  {
    if fuel > 0 {
      SameTxRecheckExhausts(env, tx, txTime, pool, fuel - 1);
    }
  }

  /** Consequently a cascading tx0 whose re-fetch returns itself is rejected,
      in whatever pool it was submitted. */
  lemma SameTxCascadingRejected(env: Services, tx: Transaction, txTime: int64, poolFee: PoolFee, hasMixTxid: bool, pool: Pool, fuel: nat)
    requires env.decodeFeeData(tx).Ok?
    requires env.validateTx0(tx, txTime, poolFee, env.decodeFeeData(tx).value).Ok?
    requires var scodeConfig := env.validateTx0(tx, txTime, poolFee, env.decodeFeeData(tx).value).value.scodeConfig;
             scodeConfig.Some? && scodeConfig.value.cascading
    requires env.validateTx0(tx, txTime, pool.poolFee, env.decodeFeeData(tx).value).Ok?
    requires var scodeConfig := env.validateTx0(tx, txTime, pool.poolFee, env.decodeFeeData(tx).value).value.scodeConfig;
             scodeConfig.Some? && scodeConfig.value.cascading
    requires env.getRawTransaction(tx.txid) == Some(RpcTransaction(tx, txTime))
    requires |tx.outputs| >= 4 && PoolForMixValue(tx.outputs[3].value).Some?
    requires env.getPool(PoolForMixValue(tx.outputs[3].value).value) == Some(pool)
    ensures CheckInputProvenance(env, tx, txTime, poolFee, hasMixTxid, fuel) == Err(InvalidFeeFor(tx, env.decodeFeeData(tx).value))
  {
    SameTxRecheckExhausts(env, tx, txTime, pool, fuel);
  }

  /** A cascading tx0 is mustMix when one step of re-check is available and
      the fetched transaction validates as a non-cascading tx0 in the pool of
      output #3. */
  lemma CascadingTx0Accepted(env: Services, tx: Transaction, txTime: int64, poolFee: PoolFee, hasMixTxid: bool, pool: Pool, fetched: RpcTransaction, fuel: nat)
    requires fuel >= 1
    requires env.decodeFeeData(tx).Ok?
    requires env.validateTx0(tx, txTime, poolFee, env.decodeFeeData(tx).value).Ok?
    requires |tx.inputs| == 1 && |tx.outputs| >= 4 && PoolForMixValue(tx.outputs[3].value).Some?
    requires env.getRawTransaction(tx.txid) == Some(fetched)
    requires env.getPool(PoolForMixValue(tx.outputs[3].value).value) == Some(pool)
    requires env.decodeFeeData(fetched.tx).Ok?
    requires env.validateTx0(fetched.tx, fetched.txTime, pool.poolFee, env.decodeFeeData(fetched.tx).value).Ok?
    requires var scodeConfig := env.validateTx0(fetched.tx, fetched.txTime, pool.poolFee, env.decodeFeeData(fetched.tx).value).value.scodeConfig;
             !(scodeConfig.Some? && scodeConfig.value.cascading)
    ensures CheckInputProvenance(env, tx, txTime, poolFee, hasMixTxid, fuel) == Ok(false)
  {
  }
}
