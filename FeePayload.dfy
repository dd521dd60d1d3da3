/** The fee-payload service: it recognises which fee OP_RETURN codec variant
    accepts a masked payload (V0, then V1), decrypts it with that variant,
    copies the parsed payload fields into a fee-data record, and encodes new
    payloads with the single "current" variant.

    The variants' byte formats and cryptography are not part of this model:
    `CodecSuite` supplies, per variant, whether it accepts a byte string, its
    decryption, its encoder, and the parser of the decrypted payload. */
module FeePayload {
  import opened Base
  import opened Bitcoin

  /** Payload value meaning "no discount code". */
  const SCODE_PAYLOAD_NONE: int16 := 0

  /** The known fee OP_RETURN codec variants. */
  datatype Codec = V0 | V1

  /** What a codec variant recovers from a masked OP_RETURN value: the inner
      fee payload and the OP_RETURN format version. */
  datatype FeeOpReturn = FeeOpReturn(feePayload: seq<byte>, opReturnVersion: int16)

  /** The fields of a parsed fee payload. */
  datatype FeePayloadFields = FeePayloadFields(
    feeIndice: int32,
    scodePayload: int16,
    feePartner: int16,
    version: int16)

  /** The coordinator's secret account, held opaquely. */
  datatype SecretAccount = SecretAccount(keyMaterial: seq<byte>)

  /** Everything a variant needs to unmask a payload: the coordinator's secret
      account and the outpoint and public key of the transaction's input 0. */
  datatype DecryptionKey = DecryptionKey(
    secretAccount: SecretAccount,
    input0OutPoint: OutPoint,
    input0Pubkey: seq<byte>)

  /** A fee marker as found in a transaction: the pushed bytes and the output
      that carries them. */
  datatype FeeOutput = FeeOutput(opReturnValue: seq<byte>, txOutput: TxOutput)

  /** The fee metadata extracted from a tx0. */
  datatype FeeData = FeeData(
    feeIndice: int32,
    scodePayload: int16,
    partnerPayload: int16,
    txOutput: TxOutput,
    opReturnVersion: int16,
    payloadVersion: int16)

  datatype DecodeError =
    | UnknownFeeOpReturnImpl
    | OpReturnUnreadable(reason: string)
    | PayloadUnreadable(reason: string)

  /** The behaviour of the codec variants and of the payload parser. */
  datatype CodecSuite = CodecSuite(
    accepts: (Codec, seq<byte>) -> bool,
    parseOpReturn: (Codec, seq<byte>, DecryptionKey) -> Result<FeeOpReturn, string>,
    parsePayload: seq<byte> -> Result<FeePayloadFields, string>,
    computeFeePayload: (Codec, int32, int16, int16) -> seq<byte>)

  class FeePayloadService {
    const suite: CodecSuite
    /** The variants tried when decoding, in order. */
    const impls: array<Codec>
    /** The variant used when encoding. */
    var current: Codec

    ghost predicate Valid()
      reads impls
    {
      impls.Length == 2 && impls[0] == V0 && impls[1] == V1
    }

    constructor (suite: CodecSuite)
      ensures Valid() && fresh(impls)
      ensures this.suite == suite && current == V1
    {
      this.suite := suite;
      impls := new Codec[2] [V0, V1];
      current := V1;
    }

    /** Replaces the encoding variant; used by tests only. */
    method SetFeeOpReturnImplCurrent(impl: Codec)
      requires Valid()
      modifies this
      ensures Valid() && current == impl
      ensures impls[..] == old(impls[..])
    {
      current := impl;
    }

    /** The variant decoding selects: the first in `impls` that accepts. */
    function SelectedImpl(opReturn: seq<byte>): (r: Option<Codec>)
      reads impls
    {
      match FirstIndex(impls[..], c => suite.accepts(c, opReturn))
      case None => None
      case Some(i) => Some(impls[i])
    }

    method FindOpReturnImpl(opReturn: seq<byte>) returns (r: Option<Codec>)
      requires Valid()
      ensures r == SelectedImpl(opReturn)
      ensures r == if suite.accepts(V0, opReturn) then Some(V0)
                   else if suite.accepts(V1, opReturn) then Some(V1)
                   else None
    {
      var i := 0;
      while i < impls.Length
        invariant 0 <= i <= impls.Length
        invariant forall j :: 0 <= j < i ==> !suite.accepts(impls[j], opReturn)
      {
        if suite.accepts(impls[i], opReturn) {
          FirstIndexUnique(impls[..], c => suite.accepts(c, opReturn), i);
          return Some(impls[i]);
        }
        i := i + 1;
      }
      return None;
    }

    method AcceptsOpReturn(opReturn: seq<byte>) returns (b: bool)
      requires Valid()
      ensures b <==> SelectedImpl(opReturn).Some?
      ensures b <==> suite.accepts(V0, opReturn) || suite.accepts(V1, opReturn)
    {
      var i := 0;
      while i < impls.Length
        invariant 0 <= i <= impls.Length
        invariant forall j :: 0 <= j < i ==> !suite.accepts(impls[j], opReturn)
      {
        if suite.accepts(impls[i], opReturn) {
          FirstIndexUnique(impls[..], c => suite.accepts(c, opReturn), i);
          return true;
        }
        i := i + 1;
      }
      return false;
    }

    /** Builds the fee-data record from a decrypted OP_RETURN: every field is
        taken unchanged from the parsed payload, the OP_RETURN version from the
        codec result, and the output is the one given. */
    function ParseFeePayload(feeOpReturn: FeeOpReturn, txOutput: TxOutput): (r: Result<FeeData, DecodeError>)
      ensures r.Ok? <==> suite.parsePayload(feeOpReturn.feePayload).Ok?
      ensures r.Ok? ==>
        var fields := suite.parsePayload(feeOpReturn.feePayload).value;
        && r.value.feeIndice == fields.feeIndice
        && r.value.scodePayload == fields.scodePayload
        && r.value.partnerPayload == fields.feePartner
        && r.value.payloadVersion == fields.version
        && r.value.opReturnVersion == feeOpReturn.opReturnVersion
        && r.value.txOutput == txOutput
      ensures r.Err? ==> r.error == PayloadUnreadable(suite.parsePayload(feeOpReturn.feePayload).error)
    {
      match suite.parsePayload(feeOpReturn.feePayload)
      case Err(e) => Err(PayloadUnreadable(e))
      case Ok(fp) =>
        Ok(FeeData(fp.feeIndice, fp.scodePayload, fp.feePartner, txOutput,
                   feeOpReturn.opReturnVersion, fp.version))
    }

    /** What decoding a fee marker yields: unknown format when no variant
        accepts the bytes, otherwise the selected variant's decryption
        followed by payload parsing. */
    function Decoded(feeOutput: FeeOutput, key: DecryptionKey): (r: Result<FeeData, DecodeError>)
      reads impls
    {
      match SelectedImpl(feeOutput.opReturnValue)
      case None => Err(UnknownFeeOpReturnImpl)
      case Some(impl) =>
        match suite.parseOpReturn(impl, feeOutput.opReturnValue, key)
        case Err(e) => Err(OpReturnUnreadable(e))
        case Ok(feeOpReturn) => ParseFeePayload(feeOpReturn, feeOutput.txOutput)
    }

    method Decode(feeOutput: FeeOutput, key: DecryptionKey) returns (r: Result<FeeData, DecodeError>)
      requires Valid()
      ensures r == Decoded(feeOutput, key)
    {
      var impl := FindOpReturnImpl(feeOutput.opReturnValue);
      if impl.None? {
        return Err(UnknownFeeOpReturnImpl);
      }
      var parsed := suite.parseOpReturn(impl.value, feeOutput.opReturnValue, key);
      if parsed.Err? {
        return Err(OpReturnUnreadable(parsed.error));
      }
      r := ParseFeePayload(parsed.value, feeOutput.txOutput);
    }

    /** Decoding reports an unknown format exactly when neither variant
        accepts the bytes, and when both accept, V0 is the one used. */
    lemma DecodeDispatch(feeOutput: FeeOutput, key: DecryptionKey)
      requires Valid()
      ensures Decoded(feeOutput, key) == Err(UnknownFeeOpReturnImpl)
              <==> !suite.accepts(V0, feeOutput.opReturnValue) && !suite.accepts(V1, feeOutput.opReturnValue)
      ensures suite.accepts(V0, feeOutput.opReturnValue) ==>
              Decoded(feeOutput, key) == match suite.parseOpReturn(V0, feeOutput.opReturnValue, key)
                                         case Err(e) => Err(OpReturnUnreadable(e))
                                         case Ok(f) => ParseFeePayload(f, feeOutput.txOutput)
    {
      var p := c => suite.accepts(c, feeOutput.opReturnValue);
      assert impls[..] == [V0, V1];
      if p(V0) {
        FirstIndexUnique(impls[..], p, 0);
      } else if p(V1) {
        FirstIndexUnique(impls[..], p, 1);
      }
    }

    /** Encodes a fee payload with the current variant, whatever the variants
        decoding accepts. */
    method ComputeFeePayload(feeIndice: int32, scodePayload: int16, partner: int16) returns (payload: seq<byte>)
      ensures payload == suite.computeFeePayload(current, feeIndice, scodePayload, partner)
    {
      payload := suite.computeFeePayload(current, feeIndice, scodePayload, partner);
    }
  }

  /** A fresh service encodes with V1; switching the encoder to V0 changes what
      is encoded and leaves the variant that decoding selects unchanged. */
  method SwitchEncoder(suite: CodecSuite, opReturn: seq<byte>, feeIndice: int32, scodePayload: int16, partner: int16)
    returns (encodedBefore: seq<byte>, encodedAfter: seq<byte>, decoderBefore: Option<Codec>, decoderAfter: Option<Codec>)
    ensures encodedBefore == suite.computeFeePayload(V1, feeIndice, scodePayload, partner)
    ensures encodedAfter == suite.computeFeePayload(V0, feeIndice, scodePayload, partner)
    ensures decoderBefore == decoderAfter
  {
    var service := new FeePayloadService(suite);
    encodedBefore := service.ComputeFeePayload(feeIndice, scodePayload, partner);
    decoderBefore := service.FindOpReturnImpl(opReturn);
    service.SetFeeOpReturnImplCurrent(V0);
    encodedAfter := service.ComputeFeePayload(feeIndice, scodePayload, partner);
    decoderAfter := service.FindOpReturnImpl(opReturn);
  }
}
