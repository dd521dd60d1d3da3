/** Read-only configuration and registry records consumed by the fee and
    provenance checks: discount codes ("scodes"), partners and pools. */
module ServerConfig {
  import opened Base

  /** Terms of one discount code: its payload value as carried in a fee
      payload, the fee percentage it grants, an optional expiration time and
      whether it allows cascading tx0s. */
  datatype ScodeConfig = ScodeConfig(
    payload: int16,
    feeValuePercent: int32,
    expiration: Option<int64>,
    cascading: bool)

  /** Identifier of a remote fee-address verification service. */
  datatype XmService = XmService(name: string)

  /** A fee-revenue partner and the verification service for its addresses. */
  datatype Partner = Partner(id: string, xmService: XmService)

  /** The fee schedule of a pool; `feeValue` is the fee at 100 percent. */
  datatype PoolFee = PoolFee(feeValue: int64)

  datatype Pool = Pool(poolId: string, poolFee: PoolFee)
}
