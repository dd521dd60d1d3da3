# Whirlpool input admission, modelled in Dafny

This project models how the Whirlpool CoinJoin coordinator decides whether a
submitted input may join a mix. An input qualifies in one of two ways:

- it is a **mustMix**: it comes from a "tx0" that paid the coordinator fee;
- it is a **liquidity**: it is an output of an earlier mix.

Anything else is rejected. The model covers three services.

- **`FeePayload`** (`FeePayloadService`). This is a class. Its `impls` array
  holds the decode variants in order, `[V0, V1]`; its `current` field is the
  encode variant, V1 by default, and a test setter can reassign it.
  - Decoding uses the first variant that accepts the masked bytes.
  - The parsed payload fields are copied unchanged into a `FeeData` record.
  - Encoding always uses `current`.
- **`FeeValidation`** (`FeeValidationService`).
  - It finds the fee marker: the first zero-value output whose script is
    exactly `OP_RETURN` followed by one push of the payload length.
  - It decodes the marker with the key material of input 0.
  - It resolves the discount code ("scode") carried in the payload. Expiry is
    checked against the tx0 time, and the expiration instant itself still
    counts as valid.
  - It derives the fee percentage. A percentage of 0 waives the fee with no
    further checks.
  - It scans the outputs for one that passes the pool's amount check and has
    a bech32 address that the partner's verification service accepts. When
    that service cannot be reached, the address is accepted (fail-open).
- **`InputValidation`** (`InputValidationService`). It classifies an input's
  transaction and compares the result with the declared liquidity flag.
  - A tx0 with a cascading scode must have exactly one input.
  - It is then re-fetched by its txid, and a pool is chosen from the value of
    its output #3 using strict thresholds.
  - Finally it is re-classified in that pool as a non-mix input.

`Base` holds `Option`/`Result`, Java's integer widths as subset types, and the
first-index search that both scans share. `Bitcoin` holds the transaction and
script shapes. `ServerConfig` holds the scode, partner and pool records.

Collaborators the services call are fields of three records: `CodecSuite`,
`FeeContext` and `Services`. Each field is a function value:

- a collaborator that may throw returns a `Result`;
- one that may return null returns an `Option`.

The collaborators are:

- the codec variants' acceptance, decryption and encoding, and the payload
  parser;
- the public-key lookup of input 0, including its RPC fetch;
- the partner registry;
- the pool's amount check;
- bech32 address derivation;
- the remote address verification;
- the tx0 service (`decodeFeeData`, `validate`; `Tx0ValidationService` is not
  part of this model);
- the node's raw-transaction RPC;
- the pool registry.

**Bounded re-check (a modelling choice).** The cascading re-check in
`InputValidationService.java` has no bound. It re-fetches the same txid
(line 169) and re-enters `checkInputProvenance` (lines 198 and 204). In the
model every classification carries `fuel: nat`, the number of cascading
re-checks still allowed. A re-check that would need more fuel ends in
`CascadingDepthExhausted`, and that becomes a rejection. `FuelMonotone`
shows that more fuel never changes an accepted verdict.
`SameTxRecheckExhausts` shows that when the re-fetch returns the same
cascading tx0, no amount of fuel ever accepts it; the implementation recurses
without end in that case.

The node's `getRawTransaction` is an unconstrained function of the txid.
The code looks up the tx0's own hash (line 169), so a consistent node
returns the tx0 itself. Suppose such a node returns the tx0 with its own
`txTime`, and `validate` resolves a cascading code for it in the pool of
output #3 as well. Then every cascading tx0 that reaches the re-check is
either rejected or recurses without end (`SameTxCascadingRejected`). If
`validate` resolved a non-cascading code in that pool instead, the re-check
would pass. `CascadingTx0Accepted` therefore needs a fetch
that returns a different transaction, which a consistent node never does.

Behaviour of the code worth noting:

- A failure of fee-data decoding, of any kind, makes the input liquidity when
  `hasMixTxid` holds. It is not always a rejection.
- The cascading re-check fetches the transaction itself, not its parent.
- Pool selection uses fixed thresholds on output #3, not a configurable
  strategy.
- `isTx0FeePaid` returns `false` rather than raising a fee-fraud error.

## Model

| member | source | states |
|---|---|---|
| `FeePayload.FeePayloadService.constructor` | src/main/java/com/samourai/whirlpool/server/services/FeePayloadService.java:26-30 | decoding tries exactly `[V0, V1]` in that order; the encoder is V1 |
| `FeePayload.FeePayloadService.SetFeeOpReturnImplCurrent` | src/main/java/com/samourai/whirlpool/server/services/FeePayloadService.java:33-35 | only the encoder changes; the decode list `impls` keeps its contents and order |
| `FeePayload.FeePayloadService.FindOpReturnImpl` | src/main/java/com/samourai/whirlpool/server/services/FeePayloadService.java:51-59 | returns the first variant in `impls` that accepts the bytes (V0 when both accept), and None exactly when none accepts |
| `FeePayload.FeePayloadService.AcceptsOpReturn` | src/main/java/com/samourai/whirlpool/server/services/FeePayloadService.java:42-49 | true exactly when `FindOpReturnImpl` would return a variant, i.e. when V0 or V1 accepts |
| `FeePayload.FeePayloadService.ParseFeePayload` | src/main/java/com/samourai/whirlpool/server/services/FeePayloadService.java:81-91 | succeeds exactly when the payload parses; fee index, scode payload, partner and payload version are copied unchanged, as are the OP_RETURN version and the given output |
| `FeePayload.FeePayloadService.Decode` | src/main/java/com/samourai/whirlpool/server/services/FeePayloadService.java:61-79 | the result equals `Decoded`: unknown format when no variant accepts, otherwise decryption by the selected variant followed by payload parsing |
| `FeePayload.FeePayloadService.DecodeDispatch` | src/main/java/com/samourai/whirlpool/server/services/FeePayloadService.java:61-79 | decoding reports "Unknown FeeOpReturnImpl" if and only if neither variant accepts; when V0 accepts, V0's decryption is the one used |
| `FeePayload.FeePayloadService.ComputeFeePayload` | src/main/java/com/samourai/whirlpool/server/services/FeePayloadService.java:95-97 | encodes with the `current` variant, whatever the decode variants accept |
| `FeePayload.SwitchEncoder` | src/main/java/com/samourai/whirlpool/server/services/FeePayloadService.java:26-35 | a fresh service encodes with V1; after the setter it encodes with V0; the variant decoding selects is the same before and after |
| `FeeValidation.FeeMarker` | src/main/java/com/samourai/whirlpool/server/services/FeeValidationService.java:214-240 | None exactly when no output is a fee marker (value 0, two chunks, OP_RETURN opcode, push of the payload length); otherwise the push data of the first such output in output order |
| `FeeValidation.FindOpReturnValue` | src/main/java/com/samourai/whirlpool/server/services/FeeValidationService.java:214-240 | the loop returns exactly `FeeMarker`; an output whose script does not parse is skipped |
| `FeeValidation.DecodeMarker` | src/main/java/com/samourai/whirlpool/server/services/FeeValidationService.java:92-100 | once a marker is found the outcome is never "not a tx0". It is a tx0 if and only if input 0 exists, its public key is found and the marker decodes with that key material; the fee data is then exactly the decoded record, and some variant accepted the marker. A missing input 0 is the no-input failure |
| `FeeValidation.DecodeFeeData` | src/main/java/com/samourai/whirlpool/server/services/FeeValidationService.java:85-101 | "not a tx0" if and only if there is no fee marker, and then regardless of input 0, the key lookup and the decoder; otherwise decodes the first marker with input 0's key material |
| `FeeValidation.IsScodeValid` | src/main/java/com/samourai/whirlpool/server/services/FeeValidationService.java:261-280 | a code is valid when it has no expiration or the tx0 time is at or before the expiration, so the expiration instant itself is valid |
| `FeeValidation.ScodeValidityEndsAtExpiration` | src/main/java/com/samourai/whirlpool/server/services/FeeValidationService.java:261-280 | validity only ends: valid at a time implies valid earlier; valid at the expiration instant itself; invalid after it; always valid without expiration |
| `FeeValidation.GetScodeByScodePayload` | src/main/java/com/samourai/whirlpool/server/services/FeeValidationService.java:282-298 | None exactly when no configured code has the payload; otherwise the first configured code with that payload |
| `FeeValidation.ValidateScodePayload` | src/main/java/com/samourai/whirlpool/server/services/FeeValidationService.java:242-259 | None if and only if the payload is `SCODE_PAYLOAD_NONE`, matches no code, or its first matching code has expired; otherwise that first matching, valid code |
| `FeeValidation.GetScodeConfigByScode` | src/main/java/com/samourai/whirlpool/server/services/FeeValidationService.java:300-312 | None for an absent or empty code; otherwise the entry stored under the upper-cased code when that entry is valid at the tx0 time, and None when it is missing or expired |
| `FeeValidation.ScodeLookupIgnoresCase` | src/main/java/com/samourai/whirlpool/server/services/FeeValidationService.java:302-304 | two spellings that differ only in letter case resolve to the same configuration |
| `FeeValidation.ToUpper` | src/main/java/com/samourai/whirlpool/server/services/FeeValidationService.java:302 | the upper-cased code has no lower-case letter and differs from the code in letter case only |
| `FeeValidation.ToUpperIdentifiesCase` | src/main/java/com/samourai/whirlpool/server/services/FeeValidationService.java:302-304 | two spellings have the same upper-cased key if and only if they differ in letter case only |
| `FeeValidation.ScodeEntry` | src/main/java/com/samourai/whirlpool/server/services/FeeValidationService.java:303-304 | None exactly when no entry has the key; otherwise the configuration of the first entry stored under that key |
| `FeeValidation.IsTx0FeePaid` | src/main/java/com/samourai/whirlpool/server/services/FeeValidationService.java:126-196 | false for a negative fee index; otherwise true exactly when some output passes the amount check, has a bech32 address and is verified or cannot be verified |
| `FeeValidation.RefusedOutputIsIgnored` | src/main/java/com/samourai/whirlpool/server/services/FeeValidationService.java:147-177 | an output whose address the reachable verifier refuses does not affect the verdict: removing it from the outputs gives the same answer, so the scan goes on past it |
| `FeeValidation.UnreachableVerifierAcceptsFeeOutput` | src/main/java/com/samourai/whirlpool/server/services/FeeValidationService.java:149-160 | fail-open: an output of a fee-paying amount whose address cannot be verified makes the fee paid |
| `FeeValidation.IsValidTx0` | src/main/java/com/samourai/whirlpool/server/services/FeeValidationService.java:107-124 | valid without partner lookup or output scan when the effective percentage is 0; fails exactly when the fee is due and the partner does not resolve; otherwise valid if and only if the fee is paid at the effective percentage to that partner's service |
| `FeeValidation.EffectiveFeePercent` | src/main/java/com/samourai/whirlpool/server/services/FeeValidationService.java:111-113 | 100 for payload NONE and for a payload no code has; when a configured code has the payload, the first such code's own percentage if it is valid at the tx0 time and 100 if it has expired |
| `FeeValidation.UnresolvedScodeIsNoScode` | src/main/java/com/samourai/whirlpool/server/services/FeeValidationService.java:111-113 | an unknown or expired code gives percentage 100 and the same verdict as no code at all |
| `FeeValidation.NoFeeAmountNoValidTx0` | src/main/java/com/samourai/whirlpool/server/services/FeeValidationService.java:139-195 | when the fee is due and no output passes the amount check, the tx0 is never valid |
| `InputValidation.PoolForMixValue` | src/main/java/com/samourai/whirlpool/server/services/InputValidationService.java:179-196 | strict thresholds: above 5,000,000 gives "0.5btc" (both upper tiers name that pool); (1,000,000, 5,000,000] gives "0.01btc"; (100,000, 1,000,000] gives "0.001btc"; 100,000 or less is rejected |
| `InputValidation.CheckInputProvenance` | src/main/java/com/samourai/whirlpool/server/services/InputValidationService.java:83-140 | failed decoding gives liquidity when `hasMixTxid` holds and a rejection when it does not; with fee data, a failed fee validation is the invalid-fee rejection carrying txid, fee index and only a yes/no scode flag, and the result is mustMix if and only if the fee validates and, for a cascading code, the cascading re-check passes; liquidity only when `hasMixTxid` holds |
| `InputValidation.ValidateTx0Cascading` | src/main/java/com/samourai/whirlpool/server/services/InputValidationService.java:142-200 | succeeds if and only if the tx0 has exactly one input, the fetch by its txid succeeds, it has an output #3 whose value selects a pool, that pool exists, fuel remains, and the fetched transaction re-classifies as mustMix (with `hasMixTxid` false) in that pool; an input count other than 1 is the invalid-cascading failure and a failed fetch is the not-found failure |
| `InputValidation.IsValidTx0` | src/main/java/com/samourai/whirlpool/server/services/InputValidationService.java:202-206 | the re-check runs with `hasMixTxid` false, so it yields "is a tx0" or a rejection, never liquidity |
| `InputValidation.ValidateProvenance` | src/main/java/com/samourai/whirlpool/server/services/InputValidationService.java:58-81 | accepts everything in test mode; otherwise accepts if and only if the computed class equals the declared liquidity flag, rejects a mismatch with the matching reason, and passes other rejections through |
| `InputValidation.CascadingRecheckOnlyForCascadingScode` | src/main/java/com/samourai/whirlpool/server/services/InputValidationService.java:108-119 | a tx0 whose fee validates is mustMix unless its resolved code is cascading and the cascading re-check fails |
| `InputValidation.CascadingNeedsOneInput` | src/main/java/com/samourai/whirlpool/server/services/InputValidationService.java:151-163 | a cascading tx0 whose input count is not exactly 1 is rejected, whatever the fuel |
| `InputValidation.FuelMonotone` | src/main/java/com/samourai/whirlpool/server/services/InputValidationService.java:198-206 | the bound is conservative: an accepted classification stays the same with more fuel |
| `InputValidation.SameTxRecheckExhausts` | src/main/java/com/samourai/whirlpool/server/services/InputValidationService.java:167-206 | when the re-fetch by txid returns the same cascading tx0, the re-check fails for every amount of fuel |
| `InputValidation.SameTxCascadingRejected` | src/main/java/com/samourai/whirlpool/server/services/InputValidationService.java:108-139 | such a tx0 is therefore rejected with the invalid-fee reason, in whatever pool it is submitted |
| `InputValidation.CascadingTx0Accepted` | src/main/java/com/samourai/whirlpool/server/services/InputValidationService.java:142-206 | a cascading tx0 is mustMix when it has one input, at least one re-check step is allowed and the fetched transaction validates as a non-cascading tx0 in the pool of output #3 |

## Left out

- Cryptography is represented by opaque `CodecSuite` functions. This covers
  the BIP 47 secret-account derivation (`computeSecretAccount`), the
  internals of the V0/V1 OP_RETURN variants and the byte layout of the fee
  payload. No byte-level encode/decode round trip is claimed.
- `getFeePaymentCode` only returns the secret account's payment code, so it
  is part of that cryptography.
- The RPC callback `computeCallbackFetchOutpointScriptBytes` and
  `txUtil.findInputPubkey` are merged into one function,
  `FeeContext.findInputPubkey`.
- The following are opaque context functions: the XManager client, the
  partner service, `PoolFee.checkTx0FeePaid`, bech32 address derivation, the
  node's RPC and the pool service.
- `PoolFee.computeFeeValue` is not modelled. It only feeds a log line.
- Logging is left out, including the degraded-mode "XMANAGER UNAVAILABLE"
  line. Only the fail-open outcome is modelled.
- `Tx0ValidationService` is not part of this model. Its `decodeFeeData` and
  `validate` are the `Services` fields of the same names.
- `Services.decodeFeeData` reports "not a decodable tx0" as `Err`. The model
  assumes that `Tx0ValidationService` turns the `null` that
  `FeeValidationService.decodeFeeData` returns for a transaction without a
  fee marker (`DecodeOutcome.NotTx0` here) into an exception. If it passed
  the `null` through instead, the code would call `validate` with `null`.
  The catch block would then fail on `feeData.getFeeIndice()`, and the
  liquidity branch would never be reached. That path is not modelled.
- `validateSignature` is left out. It is a thin wrapper over the
  message-signing library.
- Rejection messages are structured reasons. Each carries the data its
  message prints, with the scode presence as a boolean. The message text is
  not modelled.
- `_getFeeOpReturnImplCurrent` is a test getter. The model reads the
  `current` field instead.
- `WhirlpoolProtocol` is not part of this model. Its `FEE_PAYLOAD_LENGTH` is
  the `FeeContext.feePayloadLength` field.
- Unbounded recursion is not modelled. The cascading re-check is bounded by
  `fuel`, so the implementation's endless recursion (and the stack overflow
  error ending it, which the `catch (Exception)` does not intercept) appears
  in the model as a rejection.
- ToUpper: upper-cases ASCII letters only, as stated on the next line.
- GetScodeConfigByScode: upper-casing is modelled for ASCII letters only.
  Java's `toUpperCase` also maps other Unicode letters, depending on the
  locale.
- SetFeeOpReturnImplCurrent: it accepts only the two known variants, not an
  arbitrary test implementation.
- The scode map's iteration order is modelled as the order of
  `FeeContext.scodes`. `getScodeByScodePayload` takes the first match in that
  order.
- Exceptions other than an unparsable script are not modelled inside the
  `try` of `findOpReturnValue`. Nothing else in the modelled check can throw.
