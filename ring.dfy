/**
 * Descriptor layouts and flag bits of the split and packed rings of the
 * OASIS VIRTIO 1.1 specification (section 2.6, Split Virtqueues, and
 * section 2.7, Packed Virtqueues). The constants carry the values that
 * standard gives them; the proofs about them use only that the AVAIL and
 * USED bits are disjoint.
 */
module VirtioRing {
  import opened Bits

  /** Descriptor flags (section 2.6.5 and, for packed rings, 2.7.1). */
  const VRING_DESC_F_NEXT: bv16 := 1
  const VRING_DESC_F_WRITE: bv16 := 2
  const VRING_DESC_F_INDIRECT: bv16 := 4
  const VRING_PACKED_DESC_F_AVAIL: bv16 := 1 << 7
  const VRING_PACKED_DESC_F_USED: bv16 := 1 << 15

  /** Driver-to-device suppression bit in the split avail ring (section 2.6.7). */
  const VRING_AVAIL_F_NO_INTERRUPT: bv16 := 1
  /** Device-to-driver suppression bit in the split used ring (section 2.6.8). */
  const VRING_USED_F_NO_NOTIFY: bv16 := 1

  /** Values of the packed ring's event suppression `flags` field (section 2.7.10). */
  const RING_EVENT_FLAGS_ENABLE: u16 := 0
  const RING_EVENT_FLAGS_DISABLE: u16 := 1
  const RING_EVENT_FLAGS_DESC: u16 := 2

  /** A split-ring descriptor: buffer address, length, flags, chain link. */
  datatype SplitDesc = SplitDesc(addr: u64, len: u32, flags: bv16, next: u16)

  /** A packed-ring descriptor: the buffer id replaces the chain link. */
  datatype PackedDesc = PackedDesc(addr: u64, len: u32, id: u16, flags: bv16)

  /** `!!(flags & mask)`: the bit is set. */
  predicate HasFlag(flags: bv16, mask: bv16) {
    flags & mask != 0
  }

  /** `flags | mask`: sets the bit and keeps every other bit. */
  function SetFlag(flags: bv16, mask: bv16): (r: bv16)
    ensures r & mask == mask
    ensures r & !mask == flags & !mask
  {
    flags | mask
  }

  /** `flags & ~mask`: clears the bit and keeps every other bit. */
  function ClearFlag(flags: bv16, mask: bv16): (r: bv16)
    ensures r & mask == 0
    ensures r & !mask == flags & !mask
  {
    flags & !mask
  }

  /** Setting one bit leaves a disjoint bit alone. */
  lemma SetKeepsDisjointBit(flags: bv16, a: bv16, b: bv16)
    requires a & b == 0
    ensures HasFlag(SetFlag(flags, a), b) == HasFlag(flags, b)
  {
  }

  /** Clearing one bit leaves a disjoint bit alone. */
  lemma ClearKeepsDisjointBit(flags: bv16, a: bv16, b: bv16)
    requires a & b == 0
    ensures HasFlag(ClearFlag(flags, a), b) == HasFlag(flags, b)
  {
  }

  lemma SetFlagIdempotent(flags: bv16, mask: bv16)
    ensures SetFlag(SetFlag(flags, mask), mask) == SetFlag(flags, mask)
  {
  }

  /** The AVAIL/USED pair a driver writes when it makes a packed descriptor
      available on a pass whose wrap counter is w: AVAIL equal to w and USED
      its inverse (section 2.7.1). Other bits are kept. */
  function MarkAvail(flags: bv16, w: bool): (r: bv16)
    ensures HasFlag(r, VRING_PACKED_DESC_F_AVAIL) == w
    ensures HasFlag(r, VRING_PACKED_DESC_F_USED) == !w
  {
    var f := if w then SetFlag(flags, VRING_PACKED_DESC_F_AVAIL)
             else ClearFlag(flags, VRING_PACKED_DESC_F_AVAIL);
    ClearKeepsDisjointBit(f, VRING_PACKED_DESC_F_USED, VRING_PACKED_DESC_F_AVAIL);
    SetKeepsDisjointBit(f, VRING_PACKED_DESC_F_USED, VRING_PACKED_DESC_F_AVAIL);
    if w then ClearFlag(f, VRING_PACKED_DESC_F_USED) else SetFlag(f, VRING_PACKED_DESC_F_USED)
  }

  /** The AVAIL/USED pair a device writes when it marks a packed descriptor
      used on a pass whose device wrap counter is w: both equal to w
      (section 2.7.1). Other bits are kept. */
  function MarkUsed(flags: bv16, w: bool): (r: bv16)
    ensures HasFlag(r, VRING_PACKED_DESC_F_AVAIL) == w
    ensures HasFlag(r, VRING_PACKED_DESC_F_USED) == w
  {
    var f := if w then SetFlag(flags, VRING_PACKED_DESC_F_AVAIL)
             else ClearFlag(flags, VRING_PACKED_DESC_F_AVAIL);
    ClearKeepsDisjointBit(f, VRING_PACKED_DESC_F_USED, VRING_PACKED_DESC_F_AVAIL);
    SetKeepsDisjointBit(f, VRING_PACKED_DESC_F_USED, VRING_PACKED_DESC_F_AVAIL);
    if w then SetFlag(f, VRING_PACKED_DESC_F_USED) else ClearFlag(f, VRING_PACKED_DESC_F_USED)
  }
}
