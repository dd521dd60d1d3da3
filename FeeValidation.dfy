/** Fee validation of a tx0: finding the fee marker (a zero-value
    `OP_RETURN <payload>` output), decoding it, resolving the discount code
    it carries, and checking that some output pays the coordinator fee to an
    address the partner's verification service accepts.

    The collaborators the service calls are fields of `FeeContext`; a
    collaborator that may throw returns a `Result`, one that may return null
    an `Option`. */
module FeeValidation {
  import opened Base
  import opened Bitcoin
  import opened ServerConfig
  import opened FeePayload

  datatype FeeContext = FeeContext(
    /** Length in bytes of the pushed fee payload (a protocol constant). */
    feePayloadLength: nat,
    /** The configured discount codes, keyed by code, in iteration order. */
    scodes: seq<(string, ScodeConfig)>,
    secretAccount: SecretAccount,
    /** Public key of input 0, fetching the spent output when needed. */
    findInputPubkey: Transaction -> Result<seq<byte>, string>,
    /** Partner registry; None when the lookup fails or finds nothing. */
    partnerByPayload: int16 -> Option<Partner>,
    /** The pool's amount check: (pool fee, amount, tx0 time, percent). */
    checkTx0FeePaid: (PoolFee, int64, int64, int32) -> bool,
    /** Bech32 address an output pays to, when it has one. */
    toAddressBech32: TxOutput -> Option<string>,
    /** Remote check that an address is the fee address at an index; Err
        when the service is unreachable. */
    verifyAddressIndex: (XmService, string, int32) -> Result<bool, string>)

  /* ---------------------------------------------------------------------- */
  /* Fee marker                                                              */

  /** A fee marker: a zero-value output whose script is exactly two chunks,
      the OP_RETURN opcode and a push of `payloadLength` bytes. */
  predicate IsFeeMarker(o: TxOutput, payloadLength: nat)
  {
    && o.value == 0
    && o.scriptPubKey.Some?
    && |o.scriptPubKey.value| == 2
    && o.scriptPubKey.value[0].IsOpCode()
    && o.scriptPubKey.value[0].EqualsOpCode(OP_RETURN)
    && o.scriptPubKey.value[1].IsPushData()
    && o.scriptPubKey.value[1].data.Some?
    && |o.scriptPubKey.value[1].data.value| == payloadLength
  }

  function PushedData(o: TxOutput, payloadLength: nat): seq<byte>
    requires IsFeeMarker(o, payloadLength)
  {
    o.scriptPubKey.value[1].data.value
  }

  /** The fee marker of a transaction: the first output, in output order,
      that is a fee marker, with the bytes it pushes. */
  function FeeMarker(outputs: seq<TxOutput>, payloadLength: nat): (r: Option<FeeOutput>)
    ensures r.None? <==> forall i :: 0 <= i < |outputs| ==> !IsFeeMarker(outputs[i], payloadLength)
    ensures r.Some? ==>
      exists i :: 0 <= i < |outputs| && IsFeeMarker(outputs[i], payloadLength)
        && (forall j :: 0 <= j < i ==> !IsFeeMarker(outputs[j], payloadLength))
        && r.value == FeeOutput(PushedData(outputs[i], payloadLength), outputs[i])
  {
    match FirstIndex(outputs, o => IsFeeMarker(o, payloadLength))
    case None => None
    case Some(i) => Some(FeeOutput(PushedData(outputs[i], payloadLength), outputs[i]))
  }

  /** Scans the outputs for the fee marker; an output whose script does not
      parse is skipped. */
  method FindOpReturnValue(tx: Transaction, payloadLength: nat) returns (r: Option<FeeOutput>)
    ensures r == FeeMarker(tx.outputs, payloadLength)
  {
    var i := 0;
    while i < |tx.outputs|
      invariant 0 <= i <= |tx.outputs|
      invariant forall j :: 0 <= j < i ==> !IsFeeMarker(tx.outputs[j], payloadLength)
    {
      var txOutput := tx.outputs[i];
      if txOutput.value == 0 {
        match txOutput.scriptPubKey {
          case None =>
          case Some(chunks) =>
            if |chunks| == 2 {
              var opCode := chunks[0];
              if opCode.IsOpCode() && opCode.EqualsOpCode(OP_RETURN) {
                var pushData := chunks[1];
                if pushData.IsPushData() && pushData.data.Some? && |pushData.data.value| == payloadLength {
                  FirstIndexUnique(tx.outputs, o => IsFeeMarker(o, payloadLength), i);
                  return Some(FeeOutput(pushData.data.value, txOutput));
                }
              }
            }
        }
      }
      i := i + 1;
    }
    return None;
  }

  /* ---------------------------------------------------------------------- */
  /* Decoding the fee data                                                   */

  datatype DecodeFailure =
    | NoInput0
    | PubkeyNotFound(reason: string)
    | PayloadFailure(error: DecodeError)

  /** Outcome of fee-data decoding: not a tx0 (no fee marker), the decoded
      fee data, or a failure (an exception in the service). */
  datatype DecodeOutcome = NotTx0 | Tx0(feeData: FeeData) | Undecodable(failure: DecodeFailure)

  /** Decoding a found fee marker with the key material of input 0. */
  function DecodeMarker(ctx: FeeContext, payloads: FeePayloadService, tx: Transaction, feeOutput: FeeOutput): (r: DecodeOutcome)
    reads payloads.impls
    ensures r != NotTx0
    ensures |tx.inputs| == 0 ==> r == Undecodable(NoInput0)
    ensures r.Tx0? <==>
      && |tx.inputs| > 0
      && ctx.findInputPubkey(tx).Ok?
      && payloads.Decoded(feeOutput, DecryptionKey(ctx.secretAccount, tx.inputs[0].outpoint, ctx.findInputPubkey(tx).value)).Ok?
    ensures r.Tx0? ==>
      r.feeData == payloads.Decoded(feeOutput, DecryptionKey(ctx.secretAccount, tx.inputs[0].outpoint, ctx.findInputPubkey(tx).value)).value
    ensures r.Tx0? ==> payloads.SelectedImpl(feeOutput.opReturnValue).Some?
  {
    if |tx.inputs| == 0 then Undecodable(NoInput0)
    else match ctx.findInputPubkey(tx)
      case Err(e) => Undecodable(PubkeyNotFound(e))
      case Ok(pubkey) =>
        match payloads.Decoded(feeOutput, DecryptionKey(ctx.secretAccount, tx.inputs[0].outpoint, pubkey))
        case Err(e) => Undecodable(PayloadFailure(e))
        case Ok(feeData) => Tx0(feeData)
  }

  /** Returns NotTx0 exactly when the transaction has no fee marker, and then
      without consulting input 0, the key lookup or the decoder. */
  method DecodeFeeData(ctx: FeeContext, payloads: FeePayloadService, tx: Transaction) returns (r: DecodeOutcome)
    requires payloads.Valid()
    ensures r.NotTx0? <==> FeeMarker(tx.outputs, ctx.feePayloadLength).None?
    ensures FeeMarker(tx.outputs, ctx.feePayloadLength).Some? ==>
              r == DecodeMarker(ctx, payloads, tx, FeeMarker(tx.outputs, ctx.feePayloadLength).value)
  {
    var feeOutput := FindOpReturnValue(tx, ctx.feePayloadLength);
    if feeOutput.None? {
      return NotTx0;
    }
    if |tx.inputs| == 0 {
      return Undecodable(NoInput0);
    }
    var input0OutPoint := tx.inputs[0].outpoint;
    var input0Pubkey := ctx.findInputPubkey(tx);
    if input0Pubkey.Err? {
      return Undecodable(PubkeyNotFound(input0Pubkey.error));
    }
    var feeData := payloads.Decode(feeOutput.value, DecryptionKey(ctx.secretAccount, input0OutPoint, input0Pubkey.value));
    if feeData.Err? {
      return Undecodable(PayloadFailure(feeData.error));
    }
    return Tx0(feeData.value);
  }

  /* ---------------------------------------------------------------------- */
  /* Discount codes                                                          */

  /** A code without expiration is always valid; otherwise it is valid up to
      and including its expiration time. */
  predicate IsScodeValid(scodeConfig: ScodeConfig, tx0Time: int64)
    ensures IsScodeValid(scodeConfig, tx0Time) <==>
              scodeConfig.expiration.None? || tx0Time <= scodeConfig.expiration.value
  {
    match scodeConfig.expiration
    case None => true
    case Some(expiration) => !(tx0Time > expiration)
  }

  /** Validity only ever ends: a code valid at some time was valid at every
      earlier time, it is valid at its expiration instant and invalid after. */
  lemma ScodeValidityEndsAtExpiration(scodeConfig: ScodeConfig, earlier: int64, later: int64)
    requires earlier <= later
    ensures scodeConfig.expiration.None? ==> IsScodeValid(scodeConfig, later)
    ensures IsScodeValid(scodeConfig, later) ==> IsScodeValid(scodeConfig, earlier)
    ensures scodeConfig.expiration.Some? ==> IsScodeValid(scodeConfig, scodeConfig.expiration.value)
    ensures scodeConfig.expiration.Some? && later > scodeConfig.expiration.value ==> !IsScodeValid(scodeConfig, later)
  {
  }

  /** The first configured code whose payload value is `scodePayload`. */
  function GetScodeByScodePayload(scodes: seq<(string, ScodeConfig)>, scodePayload: int16): (r: Option<ScodeConfig>)
    ensures r.None? <==> forall i :: 0 <= i < |scodes| ==> scodes[i].1.payload != scodePayload
    ensures r.Some? ==>
      exists i :: 0 <= i < |scodes| && scodes[i].1 == r.value && r.value.payload == scodePayload
        && forall j :: 0 <= j < i ==> scodes[j].1.payload != scodePayload
  {
    match FirstIndex(scodes, (e: (string, ScodeConfig)) => e.1.payload == scodePayload)
    case None => None
    case Some(i) => Some(scodes[i].1)
  }

  /** The discount code a fee payload resolves to at the tx0 time: none for
      the "no code" payload, for an unknown payload, and when the first code
      with that payload has expired. */
  function ValidateScodePayload(scodes: seq<(string, ScodeConfig)>, scodePayload: int16, tx0Time: int64): (r: Option<ScodeConfig>)
    ensures r.None? <==>
      || scodePayload == SCODE_PAYLOAD_NONE
      || GetScodeByScodePayload(scodes, scodePayload).None?
      || !IsScodeValid(GetScodeByScodePayload(scodes, scodePayload).value, tx0Time)
    ensures r.Some? ==> r == GetScodeByScodePayload(scodes, scodePayload)
    ensures r.Some? ==> r.value.payload == scodePayload && IsScodeValid(r.value, tx0Time)
  {
    if scodePayload == SCODE_PAYLOAD_NONE then None
    else
      var scodeConfig := GetScodeByScodePayload(scodes, scodePayload);
      if scodeConfig.None? then None
      else if !IsScodeValid(scodeConfig.value, tx0Time) then None
      else scodeConfig
  }

  /** ASCII upper-casing of one character. */
  function UpperChar(c: char): char
  {
    if 'a' <= c <= 'z' then (c as int - 32) as char else c
  }

  /** ASCII upper-casing of a string: the result has no lower-case ASCII
      letter and differs from its argument in letter case only. */
  function ToUpper(s: string): (r: string)
    ensures forall i :: 0 <= i < |r| ==> !('a' <= r[i] <= 'z')
    ensures EqualsIgnoreCase(r, s)
  {
    seq(|s|, i requires 0 <= i < |s| => UpperChar(s[i]))
  }

  predicate EqualsIgnoreCase(a: string, b: string)
  {
    |a| == |b| && forall i :: 0 <= i < |a| ==> UpperChar(a[i]) == UpperChar(b[i])
  }

  /** Two spellings have the same upper-cased form exactly when they differ
      in (ASCII) letter case only, so the upper-cased key identifies a code
      up to case and no further. */
  lemma {:induction false} ToUpperIdentifiesCase(a: string, b: string)
    ensures ToUpper(a) == ToUpper(b) <==> EqualsIgnoreCase(a, b)
  {
    var ua, ub := ToUpper(a), ToUpper(b);
    if ua == ub {
      forall i | 0 <= i < |a| ensures UpperChar(a[i]) == UpperChar(b[i]) {
        assert ua[i] == UpperChar(a[i]) && ub[i] == UpperChar(b[i]);
      }
    }
    if EqualsIgnoreCase(a, b) {
      forall i | 0 <= i < |ua| ensures ua[i] == ub[i] {
        assert ua[i] == UpperChar(a[i]) && ub[i] == UpperChar(b[i]);
      }
    }
  }

  /** The configuration entry stored under `key`. */
  function ScodeEntry(scodes: seq<(string, ScodeConfig)>, key: string): (r: Option<ScodeConfig>)
    ensures r.None? <==> forall i :: 0 <= i < |scodes| ==> scodes[i].0 != key
    ensures r.Some? ==>
      exists i :: 0 <= i < |scodes| && scodes[i] == (key, r.value)
        && forall j :: 0 <= j < i ==> scodes[j].0 != key
  {
    match FirstIndex(scodes, (e: (string, ScodeConfig)) => e.0 == key)
    case None => None
    case Some(i) => Some(scodes[i].1)
  }

  /** Looks a code up by its upper-cased spelling; an absent or empty code,
      an unknown code and an expired code all give None. */
  function GetScodeConfigByScode(scodes: seq<(string, ScodeConfig)>, scode: Option<string>, tx0Time: int64): (r: Option<ScodeConfig>)
    ensures scode.None? || scode.value == "" ==> r.None?
    ensures r.Some? ==> scode.Some? && IsScodeValid(r.value, tx0Time)
                        && exists i :: 0 <= i < |scodes| && scodes[i] == (ToUpper(scode.value), r.value)
    ensures (&& scode.Some? && scode.value != ""
             && ScodeEntry(scodes, ToUpper(scode.value)).Some?
             && IsScodeValid(ScodeEntry(scodes, ToUpper(scode.value)).value, tx0Time)) ==> r.Some?
    ensures (&& scode.Some? && scode.value != ""
             && ScodeEntry(scodes, ToUpper(scode.value)).Some?
             && !IsScodeValid(ScodeEntry(scodes, ToUpper(scode.value)).value, tx0Time)) ==> r.None?
    ensures r.Some? ==> r == ScodeEntry(scodes, ToUpper(scode.value))
  {
    var scodeUpperCase := if scode.Some? && scode.value != "" then Some(ToUpper(scode.value)) else None;
    if scodeUpperCase.None? then None
    else
      var scodeConfig := ScodeEntry(scodes, scodeUpperCase.value);
      if scodeConfig.None? then None
      else if !IsScodeValid(scodeConfig.value, tx0Time) then None
      else scodeConfig
  }

  /** Spellings of a code that differ only in (ASCII) letter case resolve to
      the same configuration. */
  lemma {:induction false} ScodeLookupIgnoresCase(scodes: seq<(string, ScodeConfig)>, a: string, b: string, tx0Time: int64)
    requires EqualsIgnoreCase(a, b)
    ensures GetScodeConfigByScode(scodes, Some(a), tx0Time) == GetScodeConfigByScode(scodes, Some(b), tx0Time)
  {
    ToUpperIdentifiesCase(a, b);
  }

  /* ---------------------------------------------------------------------- */
  /* Fee payment                                                             */

  /** The fee percentage charged: the resolved code's, or 100 without one. */
  function EffectiveFeePercent(scodes: seq<(string, ScodeConfig)>, scodePayload: int16, tx0Time: int64): (r: int32)
    ensures scodePayload == SCODE_PAYLOAD_NONE ==> r == 100
    ensures (forall i :: 0 <= i < |scodes| ==> scodes[i].1.payload != scodePayload) ==> r == 100
    ensures r != 100 ==>
      exists i :: 0 <= i < |scodes| && scodes[i].1.payload == scodePayload
        && IsScodeValid(scodes[i].1, tx0Time) && scodes[i].1.feeValuePercent == r
    ensures scodePayload != SCODE_PAYLOAD_NONE && GetScodeByScodePayload(scodes, scodePayload).Some? ==>
      r == if IsScodeValid(GetScodeByScodePayload(scodes, scodePayload).value, tx0Time)
           then GetScodeByScodePayload(scodes, scodePayload).value.feeValuePercent
           else 100
  {
    match ValidateScodePayload(scodes, scodePayload, tx0Time)
    case Some(scodeConfig) => scodeConfig.feeValuePercent
    case None => 100
  }

  /** The outcome of an address verification counts as "verified" when the
      service confirms the address or cannot be reached (fail-open). */
  predicate VerifiedOrUnavailable(verification: Result<bool, string>)
  {
    verification.Err? || verification.value
  }

  /** An output is the fee output when its amount passes the pool's check, it
      has a bech32 address, and that address is verified (or verification is
      unavailable). */
  predicate IsFeeOutput(ctx: FeeContext, o: TxOutput, tx0Time: int64, x: int32, poolFee: PoolFee, feeValuePercent: int32, xmService: XmService)
  {
    && ctx.checkTx0FeePaid(poolFee, o.value, tx0Time, feeValuePercent)
    && ctx.toAddressBech32(o).Some?
    && VerifiedOrUnavailable(ctx.verifyAddressIndex(xmService, ctx.toAddressBech32(o).value, x))
  }

  /** The fee is paid when the fee index is not negative and some output is
      the fee output. */
  predicate Tx0FeePaid(ctx: FeeContext, outputs: seq<TxOutput>, tx0Time: int64, x: int32, poolFee: PoolFee, feeValuePercent: int32, xmService: XmService)
  {
    x >= 0 && exists i :: 0 <= i < |outputs| && IsFeeOutput(ctx, outputs[i], tx0Time, x, poolFee, feeValuePercent, xmService)
  }

  /** Scans the outputs for the fee output; a refused address does not stop
      the scan, an unreachable verifier accepts the address. */
  method IsTx0FeePaid(ctx: FeeContext, tx0: Transaction, tx0Time: int64, x: int32, poolFee: PoolFee, feeValuePercent: int32, xmService: XmService)
    returns (paid: bool)
    ensures paid == Tx0FeePaid(ctx, tx0.outputs, tx0Time, x, poolFee, feeValuePercent, xmService)
    ensures x < 0 ==> !paid
  {
    if x < 0 {
      return false;
    }
    var i := 0;
    while i < |tx0.outputs|
      invariant 0 <= i <= |tx0.outputs|
      invariant forall j :: 0 <= j < i ==> !IsFeeOutput(ctx, tx0.outputs[j], tx0Time, x, poolFee, feeValuePercent, xmService)
    {
      var txOutput := tx0.outputs[i];
      var amount := txOutput.value;
      if ctx.checkTx0FeePaid(poolFee, amount, tx0Time, feeValuePercent) {
        var toAddress := ctx.toAddressBech32(txOutput);
        if toAddress.Some? {
          var isFeeAddress := false;
          match ctx.verifyAddressIndex(xmService, toAddress.value, x) {
            case Ok(verified) => isFeeAddress := verified;
            case Err(_) => isFeeAddress := true;
          }
          if isFeeAddress {
            assert IsFeeOutput(ctx, tx0.outputs[i], tx0Time, x, poolFee, feeValuePercent, xmService);
            return true;
          }
        }
      }
      i := i + 1;
    }
    return false;
  }

  /** An output whose address the reachable verifier refuses plays no part in
      the verdict: removing it from the outputs changes nothing. */
  lemma {:induction false} RefusedOutputIsIgnored(ctx: FeeContext, outputs: seq<TxOutput>, k: nat, tx0Time: int64, x: int32, poolFee: PoolFee, feeValuePercent: int32, xmService: XmService)
    requires k < |outputs|
    requires ctx.toAddressBech32(outputs[k]).Some?
    requires ctx.verifyAddressIndex(xmService, ctx.toAddressBech32(outputs[k]).value, x) == Ok(false)
    ensures Tx0FeePaid(ctx, outputs, tx0Time, x, poolFee, feeValuePercent, xmService)
            == Tx0FeePaid(ctx, outputs[..k] + outputs[k + 1..], tx0Time, x, poolFee, feeValuePercent, xmService)
  {
    var rest := outputs[..k] + outputs[k + 1..];
    if Tx0FeePaid(ctx, outputs, tx0Time, x, poolFee, feeValuePercent, xmService) {
      var i :| 0 <= i < |outputs| && IsFeeOutput(ctx, outputs[i], tx0Time, x, poolFee, feeValuePercent, xmService);
      assert i != k;
      var i' := if i < k then i else i - 1;
      assert rest[i'] == outputs[i];
    }
    if Tx0FeePaid(ctx, rest, tx0Time, x, poolFee, feeValuePercent, xmService) {
      var i' :| 0 <= i' < |rest| && IsFeeOutput(ctx, rest[i'], tx0Time, x, poolFee, feeValuePercent, xmService);
      var i := if i' < k then i' else i' + 1;
      assert rest[i'] == outputs[i];
    }
  }

  /** Fail-open: an output of the right amount with an address the verifier
      cannot check makes the fee paid, whatever the other outputs are. */
  lemma UnreachableVerifierAcceptsFeeOutput(ctx: FeeContext, outputs: seq<TxOutput>, k: nat, tx0Time: int64, x: int32, poolFee: PoolFee, feeValuePercent: int32, xmService: XmService)
    requires k < |outputs| && x >= 0
    requires ctx.checkTx0FeePaid(poolFee, outputs[k].value, tx0Time, feeValuePercent)
    requires ctx.toAddressBech32(outputs[k]).Some?
    requires ctx.verifyAddressIndex(xmService, ctx.toAddressBech32(outputs[k]).value, x).Err?
    ensures Tx0FeePaid(ctx, outputs, tx0Time, x, poolFee, feeValuePercent, xmService)
  {
    assert IsFeeOutput(ctx, outputs[k], tx0Time, x, poolFee, feeValuePercent, xmService);
  }

  datatype Tx0Error = PartnerNotFound(partnerPayload: int16)

  /** Whether a tx0 paid its fee: with a fee percentage of 0 (a code that
      waives the fee) it is valid without any partner lookup or output scan;
      otherwise the partner must resolve and the fee must be paid at the
      effective percentage to the partner's fee address. */
  function IsValidTx0(ctx: FeeContext, tx0: Transaction, tx0Time: int64, feeData: FeeData, poolFee: PoolFee): (r: Result<bool, Tx0Error>)
    ensures EffectiveFeePercent(ctx.scodes, feeData.scodePayload, tx0Time) == 0 ==> r == Ok(true)
    ensures r.Err? <==> EffectiveFeePercent(ctx.scodes, feeData.scodePayload, tx0Time) != 0
                        && ctx.partnerByPayload(feeData.partnerPayload).None?
    ensures r == Ok(true) <==>
      || EffectiveFeePercent(ctx.scodes, feeData.scodePayload, tx0Time) == 0
      || (&& ctx.partnerByPayload(feeData.partnerPayload).Some?
          && Tx0FeePaid(ctx, tx0.outputs, tx0Time, feeData.feeIndice, poolFee,
                        EffectiveFeePercent(ctx.scodes, feeData.scodePayload, tx0Time),
                        ctx.partnerByPayload(feeData.partnerPayload).value.xmService))
  {
    var scodeConfig := ValidateScodePayload(ctx.scodes, feeData.scodePayload, tx0Time);
    var feePercent := if scodeConfig.Some? then scodeConfig.value.feeValuePercent else 100;
    if feePercent == 0 then Ok(true)
    else match ctx.partnerByPayload(feeData.partnerPayload)
      case None => Err(PartnerNotFound(feeData.partnerPayload))
      case Some(partner) =>
        Ok(Tx0FeePaid(ctx, tx0.outputs, tx0Time, feeData.feeIndice, poolFee, feePercent, partner.xmService))
  }

  /** A code that does not resolve (unknown, or expired at the tx0 time) is
      treated exactly as no code: the full fee is due. */
  lemma UnresolvedScodeIsNoScode(ctx: FeeContext, tx0: Transaction, tx0Time: int64, feeData: FeeData, poolFee: PoolFee)
    requires ValidateScodePayload(ctx.scodes, feeData.scodePayload, tx0Time).None?
    ensures EffectiveFeePercent(ctx.scodes, feeData.scodePayload, tx0Time) == 100
    ensures IsValidTx0(ctx, tx0, tx0Time, feeData, poolFee)
            == IsValidTx0(ctx, tx0, tx0Time, feeData.(scodePayload := SCODE_PAYLOAD_NONE), poolFee)
  {
  }

  /** When the fee is due and no output passes the pool's amount check, the
      tx0 is never valid, whatever its addresses and the verifier say. */
  lemma NoFeeAmountNoValidTx0(ctx: FeeContext, tx0: Transaction, tx0Time: int64, feeData: FeeData, poolFee: PoolFee)
    requires EffectiveFeePercent(ctx.scodes, feeData.scodePayload, tx0Time) != 0
    requires forall i :: 0 <= i < |tx0.outputs| ==>
      !ctx.checkTx0FeePaid(poolFee, tx0.outputs[i].value, tx0Time, EffectiveFeePercent(ctx.scodes, feeData.scodePayload, tx0Time))
    ensures IsValidTx0(ctx, tx0, tx0Time, feeData, poolFee) != Ok(true)
  {
  }
}
