/** Unacknowledged segments and their retransmission timing (src/protocol/tcp/pending_segment.rs).
    Times are integers (nanoseconds) without an upper bound. */
module PendingSegments {
  import opened SeqSpace
  import opened Wire

  /** `Duration::MAX` in nanoseconds. */
  const DURATION_MAX: nat := 0xFFFF_FFFF_FFFF_FFFF * 1_000_000_000 + 999_999_999

  datatype RtoConfigRaw = RtoConfigRaw(initial: nat, min: nat, max: nat)

  /** `Duration::clamp` demands `min <= max`. */
  type RtoConfig = c: RtoConfigRaw | c.min <= c.max <= DURATION_MAX && c.initial <= DURATION_MAX
    witness RtoConfigRaw(0, 0, 0)

  datatype PendingSegment = PendingSegment(info: SendInfo, endSeq: u32, lastSentAt: int, retries: u8)

  /** How many sequence numbers a segment consumes: one for SYN or FIN, and its payload. */
  function Consumed(info: SendInfo): (n: nat)
    ensures n <= 0x1_0000
  {
    (if info.flags in {Syn, SynAck, FinAck} then 1 else 0) + |info.payload|
  }

  function NewPending(info: SendInfo, sentAt: int): (p: PendingSegment)
    ensures WrappingSub(p.endSeq, info.seqNum) == Consumed(info)
  {
    var phantom := if info.flags in {Syn, SynAck, FinAck} then 1 else 0;
    PendingSegment(info, WrappingAdd(WrappingAdd(info.seqNum, phantom), |info.payload|), sentAt, 0)
  }

  function Pow2(n: nat): (r: nat)
    ensures r >= 1
  {
    if n == 0 then 1 else 2 * Pow2(n - 1)
  }

  /** `2u32.saturating_pow(retries)`. */
  function SaturatingPow2(retries: u8): u32 {
    if Pow2(retries) < MODULUS then Pow2(retries) else MODULUS - 1
  }

  /** `Duration::saturating_mul`. */
  function SaturatingMul(d: nat, n: u32): nat {
    if d * n <= DURATION_MAX then d * n else DURATION_MAX
  }

  function Clamp(x: nat, lo: nat, hi: nat): nat
    requires lo <= hi
  {
    if x < lo then lo else if x > hi then hi else x
  }

  function Rto(rto: RtoConfig, retries: u8): nat {
    Clamp(SaturatingMul(rto.initial, SaturatingPow2(retries)), rto.min, rto.max)
  }

  function TimeDue(p: PendingSegment, rto: RtoConfig): int {
    p.lastSentAt + Rto(rto, p.retries)
  }

  predicate IsDue(p: PendingSegment, rto: RtoConfig, now: int) {
    TimeDue(p, rto) <= now
  }

  predicate IsCoveredBy(p: PendingSegment, ack: u32) {
    PrecedesOrEq(p.endSeq, ack)
  }

  predicate ExhaustedRetries(p: PendingSegment, maxRetries: u8) {
    p.retries >= maxRetries
  }

  /** The stored segment after `retransmit_info`: `u8::saturating_add`, and a new send time. */
  function Retransmitted(p: PendingSegment, now: int): PendingSegment {
    p.(retries := if p.retries < 0xFF then p.retries + 1 else 0xFF, lastSentAt := now)
  }
}
