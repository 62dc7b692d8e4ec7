/** The price and the refund of one SSTORE (net gas metering, EIP-2200 with EIP-2929 and EIP-3529 constants). */
module StorageGas {
  import opened Base

  const COLD_SLOAD: u64 := 2100
  const WARM_ACCESS: u64 := 100
  const SSTORE_SET: u64 := 20000
  const SSTORE_RESET: u64 := 2900
  const REFUND_CLEAR: u64 := 4800

  function StoreGas(cold: bool, original: Hash, current: Hash, value: Hash): u64 {
    (if cold then COLD_SLOAD else 0) +
    if original == current && current != value then
      if original == ZERO_WORD then SSTORE_SET else SSTORE_RESET
    else WARM_ACCESS
  }

  /** DeductRefund floors at zero. */
  function DeductRefund(refund: u64, amount: u64): u64 {
    if refund > amount then refund - amount else 0
  }

  /** The refund meter after one SSTORE: three independent adjustments, in the order the handler makes them. */
  function RefundAfter(refund: u64, original: Hash, current: Hash, value: Hash): u64 {
    if current == value then refund else
    var r1 := if original != ZERO_WORD && current != ZERO_WORD && value == ZERO_WORD
              then Add64(refund, REFUND_CLEAR) else refund;
    var r2 := if original != ZERO_WORD && current == ZERO_WORD then DeductRefund(r1, REFUND_CLEAR) else r1;
    if value != original then r2
    else if original == ZERO_WORD then Add64(r2, SSTORE_SET - WARM_ACCESS)
    else Add64(r2, SSTORE_RESET - WARM_ACCESS)
  }
}
