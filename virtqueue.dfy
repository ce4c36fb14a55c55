/**
 * The driver-side bookkeeping of a virtqueue: the free-descriptor chain laid
 * down at initialisation, the classification of packed-ring slots, the
 * publication of chain heads in the split avail ring, the count of used
 * entries, interrupt suppression and the kick decision.
 */
module VirtioQueue {
  import opened Bits
  import opened VirtioRing

  /** The largest ring has 2^15 entries, so 2^15 is never an index of a
      descriptor table and ends every free chain. */
  const VQ_RING_DESC_CHAIN_END: u16 := 32768

  /** Per-descriptor side table (`struct vq_desc_extra`): the length of the
      chain headed here and, for packed rings, the free-list link. */
  datatype DescExtra = DescExtra(ndescs: u16, next: u16)

  /** The role of a queue among the device's queues. */
  datatype QueueType = Rq | Tq | Cq | Aq

  // ---------------------------------------------------------------------
  // Free chains

  /** The index reached from i after k steps along `next`, stopping early at
      any value that is not an index of the table. */
  function Step(next: seq<int>, i: int, k: nat): int
    decreases k
  {
    if k == 0 || !(0 <= i < |next|) then i else Step(next, next[i], k - 1)
  }

  /** Following `next` from head visits exactly count distinct table indices
      and then reaches the chain terminator. */
  ghost predicate IsFreeChain(next: seq<int>, head: int, count: nat)
  {
    && (forall k :: 0 <= k < count ==> 0 <= Step(next, head, k) < |next|)
    && (forall j, k :: 0 <= j < k < count ==> Step(next, head, j) != Step(next, head, k))
    && Step(next, head, count) == VQ_RING_DESC_CHAIN_END
  }

  /** Entries 0..n-1 of the table are linked 0 -> 1 -> ... -> n-1 -> end. */
  ghost predicate LinkedInOrder(next: seq<int>, n: int)
  {
    && 1 <= n <= |next|
    && (forall i :: 0 <= i < n - 1 ==> next[i] == i + 1)
    && next[n - 1] == VQ_RING_DESC_CHAIN_END
  }

  function SplitLinks(t: seq<SplitDesc>): (r: seq<int>)
    ensures |r| == |t| && forall i :: 0 <= i < |t| ==> r[i] == t[i].next
  {
    seq(|t|, i requires 0 <= i < |t| => t[i].next)
  }

  function ExtraLinks(t: seq<DescExtra>): (r: seq<int>)
    ensures |r| == |t| && forall i :: 0 <= i < |t| ==> r[i] == t[i].next
  {
    seq(|t|, i requires 0 <= i < |t| => t[i].next)
  }

  lemma {:induction false} StepInOrder(next: seq<int>, n: int, i: int, k: nat)
    requires LinkedInOrder(next, n) && 0 <= i < n && i + k <= n
    ensures Step(next, i, k) == if i + k < n then i + k else VQ_RING_DESC_CHAIN_END as int
    decreases k
  {
    if k > 0 && i < n - 1 {
      StepInOrder(next, n, i + 1, k - 1);
    }
  }

  /** A table linked in order is a free chain of all n entries from 0. */
  lemma LinkedInOrderIsFreeChain(next: seq<int>, n: int)
    requires LinkedInOrder(next, n)
    ensures IsFreeChain(next, 0, n)
    ensures forall k :: 0 <= k < n ==> Step(next, 0, k) == k
  {
    forall k | 0 <= k <= n
      ensures Step(next, 0, k) == if k < n then k else VQ_RING_DESC_CHAIN_END as int
    {
      StepInOrder(next, n, 0, k);
    }
  }

  /** In a table no larger than 2^15 the terminator is met exactly after
      count steps: a chain is empty iff its head is the terminator. */
  lemma FreeChainEmptyIffHeadIsEnd(next: seq<int>, head: int, count: nat)
    requires IsFreeChain(next, head, count) && |next| <= VQ_RING_DESC_CHAIN_END as int
    ensures count == 0 <==> head == VQ_RING_DESC_CHAIN_END as int
    ensures forall k :: 0 <= k < count ==> Step(next, head, k) != VQ_RING_DESC_CHAIN_END as int
  {
    if count > 0 {
      assert 0 <= Step(next, head, 0) < |next|;
    }
  }

  // ---------------------------------------------------------------------
  // Descriptor table initialisation

  /** `vring_desc_init_split`: links dp[0..n-1] into one chain ending in the
      terminator and leaves every other field and entry alone. For n == 0 the
      C loop is skipped and dp[0] receives the terminator. */
  method VringDescInitSplit(dp: array<SplitDesc>, n: u16)
    requires (if n == 0 then 1 else n as int) <= dp.Length
    modifies dp
    ensures var last := if n == 0 then 0 else n as int - 1;
      forall i :: 0 <= i < dp.Length ==>
        dp[i] == if i < last then old(dp[i]).(next := i + 1)
                 else if i == last then old(dp[i]).(next := VQ_RING_DESC_CHAIN_END)
                 else old(dp[i])
    ensures n >= 1 ==> LinkedInOrder(SplitLinks(dp[..]), n as int)
    ensures n >= 1 ==> IsFreeChain(SplitLinks(dp[..]), 0, n as nat)
  {
    var i: u16 := 0;
    while i as int < n as int - 1
      invariant i as int <= (if n == 0 then 0 else n as int - 1)
      invariant forall j :: 0 <= j < dp.Length ==>
        dp[j] == if j < i as int then old(dp[j]).(next := j + 1) else old(dp[j])
    {
      dp[i] := dp[i].(next := i + 1);
      i := i + 1;
    }
    dp[i] := dp[i].(next := VQ_RING_DESC_CHAIN_END);
    if n >= 1 {
      LinkedInOrderIsFreeChain(SplitLinks(dp[..]), n as int);
    }
  }

  /** `vring_desc_init_indirect_packed`: gives each of the first n entries
      of an indirect table its position (as a `uint16_t`) as id and the
      device-writable flag, leaving address and length alone. */
  method VringDescInitIndirectPacked(dp: array<PackedDesc>, n: int)
    requires n <= dp.Length
    modifies dp
    ensures forall i :: 0 <= i < dp.Length ==>
      dp[i] == if i < n then old(dp[i]).(id := Wrap16(i), flags := VRING_DESC_F_WRITE) else old(dp[i])
    ensures forall i :: 0 <= i < n && i < U16_MODULUS ==> dp[i].id == i
  {
    var i := 0;
    while i < n
      invariant 0 <= i <= (if n < 0 then 0 else n)
      invariant forall j :: 0 <= j < dp.Length ==>
        dp[j] == if j < i then old(dp[j]).(id := Wrap16(j), flags := VRING_DESC_F_WRITE) else old(dp[j])
    {
      dp[i] := dp[i].(id := Wrap16(i), flags := VRING_DESC_F_WRITE);
      i := i + 1;
    }
  }

  // ---------------------------------------------------------------------
  // Packed-ring slot classification

  /** `desc_is_used`: a packed slot is used when its AVAIL and USED bits are
      equal and equal to the driver's used wrap counter. */
  function DescIsUsed(desc: PackedDesc, usedWrapCounter: bool): (used: bool)
    ensures used <==> && HasFlag(desc.flags, VRING_PACKED_DESC_F_AVAIL) == usedWrapCounter
                      && HasFlag(desc.flags, VRING_PACKED_DESC_F_USED) == usedWrapCounter
  {
    var used := HasFlag(desc.flags, VRING_PACKED_DESC_F_USED);
    var avail := HasFlag(desc.flags, VRING_PACKED_DESC_F_AVAIL);
    avail == used && used == usedWrapCounter
  }

  /** Flipping the wrap counter turns a used slot into a not-used one; it
      turns a not-used slot into a used one exactly when the two bits agree,
      and a slot whose bits disagree is never used. */
  lemma UsedFlipsWithWrap(desc: PackedDesc, w: bool)
    ensures DescIsUsed(desc, w) ==> !DescIsUsed(desc, !w)
    ensures HasFlag(desc.flags, VRING_PACKED_DESC_F_AVAIL) == HasFlag(desc.flags, VRING_PACKED_DESC_F_USED)
      ==> DescIsUsed(desc, w) != DescIsUsed(desc, !w)
    ensures HasFlag(desc.flags, VRING_PACKED_DESC_F_AVAIL) != HasFlag(desc.flags, VRING_PACKED_DESC_F_USED)
      ==> !DescIsUsed(desc, w) && !DescIsUsed(desc, !w)
  {
  }

  /** A slot the driver made available on the pass with wrap counter w is
      not used on any pass; once the device marks it used with w it is used
      on that pass and not on the next one, whose counter is !w. */
  lemma ClassificationFollowsOwnership(desc: PackedDesc, w: bool)
    ensures !DescIsUsed(desc.(flags := MarkAvail(desc.flags, w)), w)
    ensures !DescIsUsed(desc.(flags := MarkAvail(desc.flags, w)), !w)
    ensures DescIsUsed(desc.(flags := MarkUsed(desc.flags, w)), w)
    ensures !DescIsUsed(desc.(flags := MarkUsed(desc.flags, w)), !w)
  {
  }

  // ---------------------------------------------------------------------
  // Queue roles

  /** `virtio_get_queue_type`: the queue after the last receive/transmit
      pair is the control queue; below and above it even indices receive
      and odd indices transmit. The product is computed in C `int`, so it
      does not wrap. */
  function GetQueueType(maxQueuePairs: u16, vqIdx: u16): (t: QueueType)
    ensures t == Cq <==> vqIdx as int == 2 * maxQueuePairs as int
    ensures t == Rq <==> vqIdx as int != 2 * maxQueuePairs as int && vqIdx % 2 == 0
    ensures t == Tq <==> vqIdx as int != 2 * maxQueuePairs as int && vqIdx % 2 == 1
    ensures t != Aq
  {
    if vqIdx as int == maxQueuePairs as int * 2 then Cq
    else if vqIdx % 2 == 0 then Rq
    else Tq
  }

  /** Queue pair p consists of receive queue 2p and transmit queue 2p + 1,
      and the control queue follows the last pair. */
  lemma QueuePairLayout(maxQueuePairs: u16, p: nat)
    requires p < maxQueuePairs as int && 2 * p + 1 < U16_MODULUS
    ensures GetQueueType(maxQueuePairs, 2 * p) == Rq
    ensures GetQueueType(maxQueuePairs, 2 * p + 1) == Tq
    ensures 2 * maxQueuePairs as int < U16_MODULUS ==> GetQueueType(maxQueuePairs, 2 * maxQueuePairs as int) == Cq
  {
  }

  // ---------------------------------------------------------------------
  // Split avail-ring positions

  /** Consecutive values of the 16-bit avail counter name consecutive ring
      slots, also where the counter wraps from 65535 to 0. */
  lemma AvailSlotAdvances(idx: u16, n: int)
    requires IsPow2(n) && n <= VQ_RING_DESC_CHAIN_END as int
    ensures Wrap16(idx + 1) % n == (idx % n + 1) % n
  {
    WrapKeepsResidue(idx + 1, n);
    ModAddMultiple(idx + 1, n, idx / n, idx % n + 1);
  }

  /** n consecutive publications land in n different slots, whatever the
      16-bit counter started at. */
  lemma PublishedSlotsDistinct(idx: u16, n: int, j: nat, k: nat)
    requires IsPow2(n) && n <= VQ_RING_DESC_CHAIN_END as int
    requires j < k < j + n
    ensures Wrap16(idx + j) % n != Wrap16(idx + k) % n
  {
    WrapKeepsResidue(idx + j, n);
    WrapKeepsResidue(idx + k, n);
    ModDistinct(idx + j, k - j, n);
  }

  // ---------------------------------------------------------------------
  // The queue

  /** `struct virtqueue`. The split and packed ring fields share storage in C
      (a union); here both are present and `packed` says which one the
      device negotiated. */
  class Virtqueue {
    /** `virtio_with_packed_queue(vq->hw)`: fixed once features are agreed. */
    const packed: bool
    /** `vq_nentries`: ring depth, a power of two. */
    const vqNentries: u16

    // Split ring, shared with the device.
    const desc: array<SplitDesc>
    var availFlags: bv16
    var availIdx: u16
    const availRing: array<u16>
    var usedFlags: bv16
    var usedIdx: u16

    // Packed ring: descriptors and the two event-suppression areas are
    // shared with the device; the rest is private to the driver.
    const packedDesc: array<PackedDesc>
    var driverEventFlags: u16
    var deviceEventFlags: u16
    var usedWrapCounter: bool
    var cachedFlags: bv16
    var eventFlagsShadow: u16

    // Driver-private cursors and counters.
    var vqUsedConsIdx: u16
    var vqFreeCnt: u16
    var vqAvailIdx: u16
    var vqFreeThresh: u16
    var vqDescHeadIdx: u16
    var vqDescTailIdx: u16
    var vqQueueIndex: u16
    const vqDescx: array<DescExtra>

    /** Number of stores into the shared avail ring, and into the shared
        driver event flags: they make the skipped stores visible. */
    ghost var availRingStores: nat
    ghost var driverEventStores: nat

    ghost predicate Valid()
      reads this
    {
      && IsPow2(vqNentries) && vqNentries <= VQ_RING_DESC_CHAIN_END
      && desc.Length == vqNentries as int && availRing.Length == vqNentries as int
      && packedDesc.Length == vqNentries as int && vqDescx.Length == vqNentries as int
      && vqFreeCnt <= vqNentries
    }

    /** The free list of the layout in use, as a table of links. */
    ghost function FreeLinks(): seq<int>
      reads this, desc, vqDescx
    {
      if packed then ExtraLinks(vqDescx[..]) else SplitLinks(desc[..])
    }

    /** The free list starts at `vq_desc_head_idx` and holds `vq_free_cnt`
        distinct descriptors. */
    ghost predicate FreeChainOk()
      reads this, desc, vqDescx
    {
      Valid() && IsFreeChain(FreeLinks(), vqDescHeadIdx, vqFreeCnt)
    }

    /** The driver shadow equals the shared driver event flags. */
    ghost predicate ShadowInSync()
      reads this
    {
      eventFlagsShadow == driverEventFlags
    }

    /** Zero-filled ring memory of the given depth. */
    constructor (nentries: u16, isPacked: bool)
      requires IsPow2(nentries) && nentries <= VQ_RING_DESC_CHAIN_END
      ensures Valid() && packed == isPacked && vqNentries == nentries
      ensures fresh(desc) && fresh(availRing) && fresh(packedDesc) && fresh(vqDescx)
      ensures vqAvailIdx == 0 && availIdx == 0 && usedIdx == 0 && vqUsedConsIdx == 0
      ensures vqFreeCnt == 0 && eventFlagsShadow == 0 && driverEventFlags == 0
      ensures availRingStores == 0 && driverEventStores == 0
    {
      packed, vqNentries := isPacked, nentries;
      desc := new SplitDesc[nentries](_ => SplitDesc(0, 0, 0, 0));
      availRing := new u16[nentries](_ => 0);
      packedDesc := new PackedDesc[nentries](_ => PackedDesc(0, 0, 0, 0));
      vqDescx := new DescExtra[nentries](_ => DescExtra(0, 0));
      availFlags, availIdx, usedFlags, usedIdx := 0, 0, 0, 0;
      driverEventFlags, deviceEventFlags, usedWrapCounter, cachedFlags, eventFlagsShadow := 0, 0, false, 0, 0;
      vqUsedConsIdx, vqFreeCnt, vqAvailIdx, vqFreeThresh := 0, 0, 0, 0;
      vqDescHeadIdx, vqDescTailIdx, vqQueueIndex := 0, 0, 0;
      availRingStores, driverEventStores := 0, 0;
    }

    /** `vring_desc_init_packed`: every descriptor up to the last gets its
        position as id, and the side table links them 0 -> ... -> n-1 -> end.
        For n <= 0 the C loop is skipped and entry 0 is still written. */
    method VringDescInitPacked(n: int)
      requires Valid() && n <= vqNentries as int
      modifies packedDesc, vqDescx
      ensures Valid()
      ensures var last := if n >= 1 then n - 1 else 0;
        && (forall i :: 0 <= i < packedDesc.Length ==>
              packedDesc[i] == if i <= last then old(packedDesc[i]).(id := i) else old(packedDesc[i]))
        && (forall i :: 0 <= i < vqDescx.Length ==>
              vqDescx[i] == if i < last then old(vqDescx[i]).(next := i + 1)
                            else if i == last then old(vqDescx[i]).(next := VQ_RING_DESC_CHAIN_END)
                            else old(vqDescx[i]))
      ensures n >= 1 ==> IsFreeChain(ExtraLinks(vqDescx[..]), 0, n)
    {
      var i := 0;
      while i < n - 1
        invariant 0 <= i <= (if n >= 1 then n - 1 else 0)
        invariant forall j :: 0 <= j < packedDesc.Length ==>
          packedDesc[j] == if j < i then old(packedDesc[j]).(id := j) else old(packedDesc[j])
        invariant forall j :: 0 <= j < vqDescx.Length ==>
          vqDescx[j] == if j < i then old(vqDescx[j]).(next := j + 1) else old(vqDescx[j])
      {
        packedDesc[i] := packedDesc[i].(id := i);
        vqDescx[i] := vqDescx[i].(next := i + 1);
        i := i + 1;
      }
      packedDesc[i] := packedDesc[i].(id := i);
      vqDescx[i] := vqDescx[i].(next := VQ_RING_DESC_CHAIN_END);
      if n >= 1 {
        LinkedInOrderIsFreeChain(ExtraLinks(vqDescx[..]), n);
      }
    }

    /** `virtqueue_disable_intr_packed`: the shadow becomes DISABLE, and the
        shared flags are stored only when the shadow held something else. */
    method DisableIntrPacked()
      requires Valid()
      modifies this`eventFlagsShadow, this`driverEventFlags, this`driverEventStores
      ensures Valid()
      ensures eventFlagsShadow == RING_EVENT_FLAGS_DISABLE
      ensures old(eventFlagsShadow) != RING_EVENT_FLAGS_DISABLE ==>
        driverEventFlags == RING_EVENT_FLAGS_DISABLE && driverEventStores == old(driverEventStores) + 1
      ensures old(eventFlagsShadow) == RING_EVENT_FLAGS_DISABLE ==>
        driverEventFlags == old(driverEventFlags) && driverEventStores == old(driverEventStores)
      ensures old(ShadowInSync()) ==> ShadowInSync()
    {
      if eventFlagsShadow != RING_EVENT_FLAGS_DISABLE {
        eventFlagsShadow := RING_EVENT_FLAGS_DISABLE;
        driverEventFlags := eventFlagsShadow;
        driverEventStores := driverEventStores + 1;
      }
    }

    /** `virtqueue_enable_intr_packed`: acts only on a DISABLE shadow, which
        becomes ENABLE in the shadow and the shared flags; any other shadow
        (ENABLE, DESC) is left as it is and nothing is stored. */
    method EnableIntrPacked()
      requires Valid()
      modifies this`eventFlagsShadow, this`driverEventFlags, this`driverEventStores
      ensures Valid()
      ensures old(eventFlagsShadow) == RING_EVENT_FLAGS_DISABLE ==>
        && eventFlagsShadow == RING_EVENT_FLAGS_ENABLE && driverEventFlags == RING_EVENT_FLAGS_ENABLE
        && driverEventStores == old(driverEventStores) + 1
      ensures old(eventFlagsShadow) != RING_EVENT_FLAGS_DISABLE ==>
        && eventFlagsShadow == old(eventFlagsShadow) && driverEventFlags == old(driverEventFlags)
        && driverEventStores == old(driverEventStores)
      ensures old(ShadowInSync()) ==> ShadowInSync()
    {
      if eventFlagsShadow == RING_EVENT_FLAGS_DISABLE {
        eventFlagsShadow := RING_EVENT_FLAGS_ENABLE;
        driverEventFlags := eventFlagsShadow;
        driverEventStores := driverEventStores + 1;
      }
    }

    /** `virtqueue_disable_intr_split`: sets NO_INTERRUPT in the avail flags
        and keeps every other bit. */
    method DisableIntrSplit()
      requires Valid()
      modifies this`availFlags
      ensures Valid()
      ensures availFlags == SetFlag(old(availFlags), VRING_AVAIL_F_NO_INTERRUPT)
    {
      availFlags := SetFlag(availFlags, VRING_AVAIL_F_NO_INTERRUPT);
    }

    /** `virtqueue_enable_intr_split`: clears NO_INTERRUPT in the avail flags
        and keeps every other bit. */
    method EnableIntrSplit()
      requires Valid()
      modifies this`availFlags
      ensures Valid()
      ensures availFlags == ClearFlag(old(availFlags), VRING_AVAIL_F_NO_INTERRUPT)
    {
      availFlags := ClearFlag(availFlags, VRING_AVAIL_F_NO_INTERRUPT);
    }

    /** `virtqueue_disable_intr`: the variant of the negotiated layout; the
        other layout's fields are untouched. */
    method DisableIntr()
      requires Valid()
      modifies this`eventFlagsShadow, this`driverEventFlags, this`driverEventStores, this`availFlags
      ensures Valid()
      ensures packed ==> && availFlags == old(availFlags)
                         && eventFlagsShadow == RING_EVENT_FLAGS_DISABLE
                         && driverEventStores <= old(driverEventStores) + 1
                         && (old(eventFlagsShadow) == RING_EVENT_FLAGS_DISABLE ==>
                               driverEventFlags == old(driverEventFlags) && driverEventStores == old(driverEventStores))
                         && (old(eventFlagsShadow) != RING_EVENT_FLAGS_DISABLE ==>
                               driverEventFlags == RING_EVENT_FLAGS_DISABLE && driverEventStores == old(driverEventStores) + 1)
      ensures !packed ==> && eventFlagsShadow == old(eventFlagsShadow) && driverEventFlags == old(driverEventFlags)
                          && driverEventStores == old(driverEventStores)
                          && availFlags == SetFlag(old(availFlags), VRING_AVAIL_F_NO_INTERRUPT)
    {
      if packed {
        DisableIntrPacked();
      } else {
        DisableIntrSplit();
      }
    }

    /** `virtqueue_enable_intr`: the variant of the negotiated layout; the
        other layout's fields are untouched. */
    method EnableIntr()
      requires Valid()
      modifies this`eventFlagsShadow, this`driverEventFlags, this`driverEventStores, this`availFlags
      ensures Valid()
      ensures packed ==> && availFlags == old(availFlags)
                         && (old(eventFlagsShadow) == RING_EVENT_FLAGS_DISABLE ==>
                               && eventFlagsShadow == RING_EVENT_FLAGS_ENABLE && driverEventFlags == RING_EVENT_FLAGS_ENABLE
                               && driverEventStores == old(driverEventStores) + 1)
                         && (old(eventFlagsShadow) != RING_EVENT_FLAGS_DISABLE ==>
                               && eventFlagsShadow == old(eventFlagsShadow) && driverEventFlags == old(driverEventFlags)
                               && driverEventStores == old(driverEventStores))
      ensures !packed ==> && eventFlagsShadow == old(eventFlagsShadow) && driverEventFlags == old(driverEventFlags)
                          && driverEventStores == old(driverEventStores)
                          && availFlags == ClearFlag(old(availFlags), VRING_AVAIL_F_NO_INTERRUPT)
    {
      if packed {
        EnableIntrPacked();
      } else {
        EnableIntrSplit();
      }
    }

    /** `desc_is_used` applied to packed slot i of this queue: it reads the
        slot's flags and the queue's own used wrap counter. */
    function DescIsUsedAt(i: int): (used: bool)
      reads this, packedDesc
      requires 0 <= i < packedDesc.Length
      ensures used <==> && HasFlag(packedDesc[i].flags, VRING_PACKED_DESC_F_AVAIL) == usedWrapCounter
                        && HasFlag(packedDesc[i].flags, VRING_PACKED_DESC_F_USED) == usedWrapCounter
    {
      DescIsUsed(packedDesc[i], usedWrapCounter)
    }

    /** `virtqueue_full`: no descriptor is free. */
    function Full(): (full: bool)
      reads this
      ensures full <==> vqFreeCnt == 0
    {
      vqFreeCnt == 0
    }

    /** `virtqueue_nused`: how many entries the device has added to the used
        ring beyond those the driver consumed, as a 16-bit difference: the
        number of increments that bring the consumer index to the device's. */
    function NUsed(): (n: u16)
      reads this
      ensures Wrap16(vqUsedConsIdx + n) == usedIdx
    {
      Sub16(usedIdx, vqUsedConsIdx)
    }

    /** `vq_update_avail_idx`: publishes the private avail counter. */
    method UpdateAvailIdx()
      requires Valid()
      modifies this`availIdx
      ensures Valid()
      ensures availIdx == vqAvailIdx
    {
      availIdx := vqAvailIdx;
    }

    /** `vq_update_avail_ring`: puts the chain head into the slot named by
        the private avail counter (masked with the ring depth), storing only
        if the slot holds another value, then advances the counter. */
    method UpdateAvailRing(descIdx: u16)
      requires Valid()
      modifies this`vqAvailIdx, this`availRingStores, availRing
      ensures Valid()
      ensures var slot := old(vqAvailIdx) as int % vqNentries as int;
        && availRing[slot] == descIdx
        && (forall j :: 0 <= j < availRing.Length && j != slot ==> availRing[j] == old(availRing[j]))
        && availRingStores == old(availRingStores) + (if old(availRing[slot]) == descIdx then 0 else 1)
      ensures vqAvailIdx == Wrap16(old(vqAvailIdx) + 1)
    {
      MaskIsMod(vqAvailIdx, vqNentries as int);
      var slot := BitAnd(vqAvailIdx, vqNentries as int - 1);
      if availRing[slot] != descIdx {
        availRing[slot] := descIdx;
        availRingStores := availRingStores + 1;
      }
      vqAvailIdx := Wrap16(vqAvailIdx + 1);
    }

    /** `virtqueue_kick_prepare`: the device must be notified unless it set
        NO_NOTIFY in the used flags. */
    function KickPrepare(): (notify: bool)
      reads this
      ensures notify <==> usedFlags & VRING_USED_F_NO_NOTIFY == 0
    {
      !HasFlag(usedFlags, VRING_USED_F_NO_NOTIFY)
    }

    /** `virtqueue_kick_prepare_packed`: the device must be notified unless
        its event flags say DISABLE; ENABLE and DESC both ask for it. */
    function KickPreparePacked(): (notify: bool)
      reads this
      ensures notify <==> deviceEventFlags != RING_EVENT_FLAGS_DISABLE
      ensures deviceEventFlags == RING_EVENT_FLAGS_ENABLE ==> notify
      ensures deviceEventFlags == RING_EVENT_FLAGS_DESC ==> notify
    {
      deviceEventFlags != RING_EVENT_FLAGS_DISABLE
    }
  }

  // ---------------------------------------------------------------------
  // Properties of queues

  /** The chain terminator lies outside every table of a valid queue. */
  lemma ChainEndIsNeverAnIndex(vq: Virtqueue)
    requires vq.Valid()
    ensures VQ_RING_DESC_CHAIN_END as int >= vq.desc.Length
    ensures VQ_RING_DESC_CHAIN_END as int >= vq.packedDesc.Length
    ensures VQ_RING_DESC_CHAIN_END as int >= vq.vqDescx.Length
  {
  }

  /** With a sound free list, the queue is full exactly when the free chain
      head is the terminator. */
  lemma FullIffNoFreeHead(vq: Virtqueue)
    requires vq.FreeChainOk()
    ensures vq.Full() <==> vq.vqDescHeadIdx == VQ_RING_DESC_CHAIN_END
  {
    FreeChainEmptyIffHeadIsEnd(vq.FreeLinks(), vq.vqDescHeadIdx, vq.vqFreeCnt);
  }

  /** Laying down an n-entry table and taking all n entries as free from
      entry 0, as the driver does when it sets a queue up, gives a sound free
      list, so `FullIffNoFreeHead` applies to it. */
  method SetUpFreeList(vq: Virtqueue, n: u16)
    requires vq.Valid() && 1 <= n <= vq.vqNentries
    modifies vq`vqFreeCnt, vq`vqDescHeadIdx, vq.desc, vq.packedDesc, vq.vqDescx
    ensures vq.FreeChainOk()
    ensures vq.vqFreeCnt == n && vq.vqDescHeadIdx == 0
  {
    vq.vqFreeCnt := n;
    vq.vqDescHeadIdx := 0;
    if vq.packed {
      vq.VringDescInitPacked(n as int);
    } else {
      VringDescInitSplit(vq.desc, n);
    }
  }

  /** When the device has produced and the driver consumed counts that are
      less than 2^16 apart, the used count is their exact difference, even
      though both 16-bit indices may have wrapped. */
  lemma NUsedCountsOutstanding(vq: Virtqueue, produced: nat, consumed: nat)
    requires consumed <= produced < consumed + U16_MODULUS
    requires vq.usedIdx == Wrap16(produced) && vq.vqUsedConsIdx == Wrap16(consumed)
    ensures vq.NUsed() == produced - consumed
  {
    Sub16AcrossWrap(produced, consumed);
  }

  /** Notification suppression seen from the driver: with NO_NOTIFY set by
      the device, publishing three chains needs no kick; once the device
      clears it, publishing one more does. */
  method NotificationScenario(vq: Virtqueue, heads: seq<u16>) returns (first: bool, second: bool)
    requires vq.Valid() && !vq.packed && |heads| == 4
    modifies vq, vq.availRing
    ensures !first && second
    ensures vq.availIdx == Wrap16(old(vq.vqAvailIdx) + 4)
  {
    ghost var start: int := vq.vqAvailIdx;
    vq.usedFlags := SetFlag(vq.usedFlags, VRING_USED_F_NO_NOTIFY);
    vq.UpdateAvailRing(heads[0]);
    vq.UpdateAvailRing(heads[1]);
    Wrap16AddWrap(start + 1, 1);
    vq.UpdateAvailRing(heads[2]);
    Wrap16AddWrap(start + 2, 1);
    vq.UpdateAvailIdx();
    first := vq.KickPrepare();
    vq.usedFlags := ClearFlag(vq.usedFlags, VRING_USED_F_NO_NOTIFY);
    vq.UpdateAvailRing(heads[3]);
    Wrap16AddWrap(start + 3, 1);
    vq.UpdateAvailIdx();
    second := vq.KickPrepare();
  }

  /** Disabling interrupts twice leaves the queue as one disable does, and
      stores to the shared packed event flags at most once. */
  method DisableIntrTwice(vq: Virtqueue)
    requires vq.Valid()
    modifies vq`eventFlagsShadow, vq`driverEventFlags, vq`driverEventStores, vq`availFlags
    ensures vq.Valid()
    ensures vq.packed ==> && vq.eventFlagsShadow == RING_EVENT_FLAGS_DISABLE
                          && vq.availFlags == old(vq.availFlags)
                          && (old(vq.eventFlagsShadow) != RING_EVENT_FLAGS_DISABLE ==>
                                vq.driverEventFlags == RING_EVENT_FLAGS_DISABLE
                                && vq.driverEventStores == old(vq.driverEventStores) + 1)
                          && (old(vq.eventFlagsShadow) == RING_EVENT_FLAGS_DISABLE ==>
                                vq.driverEventFlags == old(vq.driverEventFlags)
                                && vq.driverEventStores == old(vq.driverEventStores))
    ensures !vq.packed ==> && vq.eventFlagsShadow == old(vq.eventFlagsShadow)
                           && vq.driverEventFlags == old(vq.driverEventFlags)
                           && vq.driverEventStores == old(vq.driverEventStores)
                           && vq.availFlags == SetFlag(old(vq.availFlags), VRING_AVAIL_F_NO_INTERRUPT)
  {
    vq.DisableIntr();
    vq.DisableIntr();
    SetFlagIdempotent(old(vq.availFlags), VRING_AVAIL_F_NO_INTERRUPT);
  }
}
