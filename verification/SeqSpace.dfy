/** 32-bit circular sequence numbers (src/protocol/tcp/seq_space.rs) and how their
    comparisons refine the order of the unbounded integers. */
module SeqSpace {

  const MODULUS: int := 0x1_0000_0000
  const HALF: int := 0x8000_0000

  type u8 = x: int | 0 <= x < 0x100
  type u16 = x: int | 0 <= x < 0x1_0000
  type u32 = x: int | 0 <= x < 0x1_0000_0000

  /** `Wrapping<u32>` addition. */
  function WrappingAdd(p: u32, n: u32): u32 {
    if p + n < MODULUS then p + n else p + n - MODULUS
  }

  /** `Wrapping<u32>` subtraction. */
  function WrappingSub(p: u32, q: u32): u32 {
    if q <= p then p - q else p - q + MODULUS
  }

  /** Both are the operations of the integers modulo 2^32, and undo each other. */
  lemma WrappingIsModular(p: u32, n: u32)
    ensures WrappingAdd(p, n) == (p + n) % MODULUS
    ensures WrappingSub(p, n) == (p - n) % MODULUS
    ensures WrappingSub(WrappingAdd(p, n), n) == p
    ensures WrappingAdd(WrappingSub(p, n), n) == p
  {
  }

  /** `SeqPoint::precedes`: not transitive, and true both ways between antipodes. */
  predicate Precedes(p: u32, q: u32) {
    WrappingSub(p, q) >= HALF
  }

  predicate PrecedesOrEq(p: u32, q: u32) {
    p == q || Precedes(p, q)
  }

  /** `SeqOffset::saturating_sub`. */
  function SaturatingSub(p: u32, q: u32): u32 {
    if q <= p then p - q else 0
  }

  /** The sequence number `n` places after `base`, for an unbounded `n`. */
  function Point(base: u32, n: nat): u32 {
    (base + n) % MODULUS
  }

  lemma PointAdd(base: u32, n: nat, k: u32)
    ensures WrappingAdd(Point(base, n), k) == Point(base, n + k)
  {
  }

  lemma PointSub(base: u32, n: nat, m: nat)
    requires m <= n < m + MODULUS
    ensures WrappingSub(Point(base, n), Point(base, m)) == n - m
  {
    PointAdd(base, m, n - m);
  }

  /** Circular order refines linear order: positions less than 2^31 apart compare as integers. */
  lemma CircularRefinesLinear(base: u32, m: nat, n: nat)
    requires -HALF < m - n < HALF
    ensures Precedes(Point(base, m), Point(base, n)) <==> m < n
    ensures PrecedesOrEq(Point(base, m), Point(base, n)) <==> m <= n
  {
    if m <= n {
      PointSub(base, n, m);
    } else {
      PointSub(base, m, n);
    }
  }

  /** At the antipode both comparisons hold, so the bound above cannot be relaxed. */
  lemma AntipodesPrecedeEachOther(p: u32)
    ensures Precedes(p, WrappingAdd(p, HALF)) && Precedes(WrappingAdd(p, HALF), p)
  {
  }

  /** SND.UNA <= SEG.ACK <= SND.NXT as the code tests it. */
  predicate AckInFlight(una: u32, ack: u32, nxt: u32) {
    PrecedesOrEq(una, ack) && PrecedesOrEq(ack, nxt)
  }

  /** The acceptance test is the linear one, with exactly one odd point. */
  lemma AcceptanceIsLinear(una: u32, ack: u32, nxt: u32)
    requires WrappingSub(nxt, una) <= HALF
    ensures AckInFlight(una, ack, nxt)
       <==> || WrappingSub(ack, una) <= WrappingSub(nxt, una)
            || (una == nxt && ack == WrappingAdd(nxt, HALF))
  {
  }

  /** The receive window of every reply (`RCV_WND`). */
  const RCV_WND: u16 := 0xFFFF

  /** RCV.NXT <= SEG.SEQ < RCV.NXT + RCV.WND as the code tests it for a RST. */
  predicate InReceiveWindow(rcvNxt: u32, seqNum: u32) {
    PrecedesOrEq(rcvNxt, seqNum) && Precedes(seqNum, WrappingAdd(rcvNxt, RCV_WND))
  }

  lemma ReceiveWindowIsLinear(rcvNxt: u32, seqNum: u32)
    ensures InReceiveWindow(rcvNxt, seqNum) <==> WrappingSub(seqNum, rcvNxt) < 65535
  {
  }
}
