# Virtqueue bookkeeping, modelled in Dafny

This project models the driver-side bookkeeping of a virtio virtqueue as the
inline functions of `drivers/common/virtio/virtqueue.h` perform it. The ring
formats are those of the OASIS VIRTIO 1.1 specification: section 2.6 (Split
Virtqueues) and section 2.7 (Packed Virtqueues, with the wrap counters of
section 2.7.1). The model covers these pieces:

- laying down the free-descriptor chain of a split table, of a packed table
  with its `vq_desc_extra` side table, and of an indirect packed table;
- classifying a packed slot as used from its AVAIL/USED bits and the
  driver's used wrap counter;
- publishing a chain head in the split avail ring and publishing the avail
  index;
- counting used entries with 16-bit wrap-around;
- interrupt suppression, split and packed, and the kick decision;
- `virtqueue_full` and `virtio_get_queue_type`.

Files:

- `bits.dfy` (module `Bits`). It covers `uint16_t` arithmetic (`Wrap16`,
  `Sub16`) and bitwise AND on naturals. It proves that masking with
  `n - 1` equals reduction modulo `n` when `n` is a power of two, and that
  wrapping a counter at 2^16 keeps its position in such a ring.
- `ring.dfy` (module `VirtioRing`). It holds the descriptor layouts, the
  flag constants of `virtio_ring.h` (which is not part of this model; the
  values are those of VIRTIO 1.1), and the set/clear/test operations on a
  flags word.
- `virtqueue.dfy` (module `VirtioQueue`). It holds free chains, the three
  table initialisers, `desc_is_used`, `virtio_get_queue_type`, and the
  class `Virtqueue` for `struct virtqueue`.

`struct virtqueue` becomes the class `Virtqueue`. Its ring memory is
arrays: the split descriptor table, the avail ring, the packed descriptor
array and `vq_descx`. The shared scalar fields are class fields:
`avail->flags`, `avail->idx`, `used->flags`, `used->idx`, and the driver
and device `desc_event_flags`. Two ghost counters, `availRingStores` and
`driverEventStores`, count the stores into shared memory, so the contracts
can say when a store is skipped. `Valid()` requires `vq_nentries` to be a
power of two no larger than 2^15, with every table of that length. The
comment at `virtqueue.h:114-120` is why 2^15 (`VQ_RING_DESC_CHAIN_END`)
is never an index.

Points where the model is easy to misread:

- The avail and used-consumption counters are 16-bit and wrap. They are
  not monotonic counts. `NUsedCountsOutstanding` states when the 16-bit
  difference still equals the true one.
- On a packed ring, the driver makes a slot available on pass `w` by
  writing AVAIL = `w` and USED = `!w`. It does not write both bits equal to
  `w`. This pattern comes from VIRTIO 1.1 section 2.7.1, not from this
  header; the code that publishes packed descriptors is not part of this
  model. `MarkAvail` and
  `MarkUsed` state the driver's and the device's patterns.
- Flipping the wrap counter turns a not-used slot into a used one only when
  its AVAIL and USED bits agree. `UsedFlipsWithWrap` states the exact rule.
- For `n <= 0` (packed) and `n == 0` (split), the C loops are skipped and
  entry 0 is still written, because the index stays 0. The model does the
  same.

## Model

| member | source | states |
|---|---|---|
| `VirtioQueue.VringDescInitSplit` | drivers/common/virtio/virtqueue.h:376-385 | entries 0..n-2 link to their successor, entry n-1 gets the terminator, no other field or entry changes; for n >= 1 the table is linked in order and is a free chain of n distinct entries from 0 |
| `VirtioQueue.LinkedInOrderIsFreeChain` | drivers/common/virtio/virtqueue.h:376-385 | a table linked 0 -> 1 -> ... -> n-1 -> end visits exactly 0..n-1, in that order and each once, before it reaches the terminator |
| `VirtioQueue.StepInOrder` | drivers/common/virtio/virtqueue.h:376-385 | in a table linked in order, k steps from entry i reach i + k, or the terminator once the chain is exhausted |
| `VirtioQueue.Virtqueue.VringDescInitPacked` | drivers/common/virtio/virtqueue.h:363-374 | every packed descriptor up to the last gets id = its position; `vq_descx` links 0..n-1 and ends in the terminator; nothing else changes; for n >= 1 the side table is a free chain of n entries |
| `VirtioQueue.VringDescInitIndirectPacked` | drivers/common/virtio/virtqueue.h:387-396 | each of the first n entries gets id = its position as a `uint16_t` and flags = WRITE; address, length and later entries are unchanged |
| `VirtioQueue.ChainEndIsNeverAnIndex` | drivers/common/virtio/virtqueue.h:114-120 | in a valid queue every table has at most 2^15 entries, so the terminator is never an index |
| `VirtioQueue.FreeChainEmptyIffHeadIsEnd` | drivers/common/virtio/virtqueue.h:279-284 | in a table of at most 2^15 entries, a free chain is empty exactly when its head is the terminator, and no step before the end reaches the terminator |
| `VirtioQueue.SetUpFreeList` | drivers/common/virtio/virtqueue.h:363-385 | initialising an n-entry table of the negotiated layout and taking all n entries as free from entry 0 gives a sound free list (the precondition of `FullIffNoFreeHead`) |
| `VirtioQueue.FullIffNoFreeHead` | drivers/common/virtio/virtqueue.h:279-284 | for a queue whose free list is sound, `virtqueue_full` holds exactly when `vq_desc_head_idx` is the terminator |
| `VirtioQueue.DescIsUsed` | drivers/common/virtio/virtqueue.h:351-361 | a packed slot is used iff its AVAIL bit and its USED bit both equal the used wrap counter |
| `VirtioQueue.Virtqueue.DescIsUsedAt` | drivers/common/virtio/virtqueue.h:351-361 | slot i of the queue's packed ring is used iff its AVAIL and USED bits both equal the queue's own `used_wrap_counter` |
| `VirtioRing.MarkAvail` | drivers/common/virtio/virtqueue.h:351-361 | helper of `ClassificationFollowsOwnership`: the driver's flag write of VIRTIO 1.1 section 2.7.1 when it makes a slot available on pass w, AVAIL = w and USED = !w |
| `VirtioRing.MarkUsed` | drivers/common/virtio/virtqueue.h:351-361 | helper of `ClassificationFollowsOwnership`: the device's flag write of VIRTIO 1.1 section 2.7.1 when it marks a slot used on pass w, AVAIL = USED = w |
| `VirtioQueue.UsedFlipsWithWrap` | drivers/common/virtio/virtqueue.h:351-361 | a used slot is not used under the flipped counter; flipping changes the verdict exactly when the two bits agree; a slot whose bits disagree is never used |
| `VirtioQueue.ClassificationFollowsOwnership` | drivers/common/virtio/virtqueue.h:351-361 | a slot made available on pass w is not used on either pass; a slot the device marked used with w is used on pass w and not on the next pass (!w) |
| `VirtioQueue.Virtqueue.DisableIntrPacked` | drivers/common/virtio/virtqueue.h:398-409 | the shadow becomes DISABLE; the shared driver flags are stored (with DISABLE) only if the shadow was not DISABLE, otherwise nothing changes; shadow and shared flags stay in step |
| `VirtioQueue.Virtqueue.EnableIntrPacked` | drivers/common/virtio/virtqueue.h:432-443 | a DISABLE shadow becomes ENABLE in the shadow and the shared flags with one store; an ENABLE or DESC shadow is left as is and nothing is stored |
| `VirtioQueue.Virtqueue.DisableIntrSplit` | drivers/common/virtio/virtqueue.h:411-418 | the avail flags become the old flags with NO_INTERRUPT set and every other bit kept |
| `VirtioQueue.Virtqueue.EnableIntrSplit` | drivers/common/virtio/virtqueue.h:445-452 | the avail flags become the old flags with NO_INTERRUPT cleared and every other bit kept |
| `VirtioQueue.Virtqueue.DisableIntr` | drivers/common/virtio/virtqueue.h:420-430 | the packed or the split effect, chosen by the negotiated layout; the other layout's fields are unchanged |
| `VirtioQueue.Virtqueue.EnableIntr` | drivers/common/virtio/virtqueue.h:454-464 | the packed or the split effect, chosen by the negotiated layout; the other layout's fields are unchanged |
| `VirtioQueue.DisableIntrTwice` | drivers/common/virtio/virtqueue.h:398-430 | disabling twice ends as one disable does: split flags equal the old flags with NO_INTERRUPT set and the packed fields are unchanged; packed, the shadow is DISABLE, the shared flags become DISABLE with one store if the shadow was not DISABLE and are otherwise untouched, and the split flags are unchanged; no other field changes |
| `VirtioRing.SetFlag` | drivers/common/virtio/virtqueue.h:417 | the result has the mask bits set and every other bit of the input |
| `VirtioRing.ClearFlag` | drivers/common/virtio/virtqueue.h:451 | the result has the mask bits clear and every other bit of the input |
| `VirtioQueue.Virtqueue.Full` | drivers/common/virtio/virtqueue.h:478-482 | full iff `vq_free_cnt` is 0 |
| `VirtioQueue.GetQueueType` | drivers/common/virtio/virtqueue.h:484-493 | CQ iff idx == 2 * max_queue_pairs (in `int`, no wrap); otherwise RQ iff idx is even and TQ iff idx is odd; never AQ |
| `VirtioQueue.QueuePairLayout` | drivers/common/virtio/virtqueue.h:484-493 | pair p is receive queue 2p and transmit queue 2p + 1, and the queue after the last pair is the control queue |
| `VirtioQueue.Virtqueue.NUsed` | drivers/common/virtio/virtqueue.h:495-521 | the result is the 16-bit count that advances `vq_used_cons_idx` to `used->idx`; reading it changes nothing |
| `Bits.Sub16` | drivers/common/virtio/virtqueue.h:520 | the `uint16_t` difference a - b is the number of 16-bit increments taking b to a |
| `Bits.Sub16AcrossWrap` | drivers/common/virtio/virtqueue.h:520 | when the true counts are less than 2^16 apart, the difference of their wrapped values is their true difference |
| `VirtioQueue.NUsedCountsOutstanding` | drivers/common/virtio/virtqueue.h:495-521 | when the device has produced and the driver consumed counts less than 2^16 apart, `virtqueue_nused` is exactly produced - consumed |
| `VirtioQueue.Virtqueue.UpdateAvailIdx` | drivers/common/virtio/virtqueue.h:528-549 | the shared `avail->idx` becomes `vq_avail_idx`; nothing else changes |
| `VirtioQueue.Virtqueue.UpdateAvailRing` | drivers/common/virtio/virtqueue.h:551-566 | slot old `vq_avail_idx` mod n holds the head afterwards, stored only if it held another value; every other slot is unchanged; `vq_avail_idx` becomes old + 1 mod 2^16 |
| `Bits.MaskIsMod` | drivers/common/virtio/virtqueue.h:562 | for n a power of two, x AND (n - 1) equals x mod n |
| `Bits.Wrap16` | drivers/common/virtio/virtqueue.h:565 | conversion to `uint16_t` yields the value that differs from x by a multiple of 2^16 |
| `Bits.WrapKeepsResidue` | drivers/common/virtio/virtqueue.h:562-565 | wrapping a counter at 2^16 keeps its position modulo any power-of-two ring depth of at most 2^16 |
| `VirtioQueue.AvailSlotAdvances` | drivers/common/virtio/virtqueue.h:562-565 | the next value of the 16-bit avail counter names the next ring slot, also across the wrap from 65535 to 0 |
| `VirtioQueue.PublishedSlotsDistinct` | drivers/common/virtio/virtqueue.h:562-565 | up to n consecutive publications use pairwise different slots, whatever the counter's start |
| `VirtioQueue.Virtqueue.KickPrepare` | drivers/common/virtio/virtqueue.h:568-577 | a notify is needed iff the NO_NOTIFY bit of `used->flags` is clear |
| `VirtioQueue.Virtqueue.KickPreparePacked` | drivers/common/virtio/virtqueue.h:579-591 | a notify is needed iff the device event flags are not DISABLE, so ENABLE and DESC both ask for one |
| `VirtioQueue.NotificationScenario` | drivers/common/virtio/virtqueue.h:551-577 | with NO_NOTIFY set by the device, three publications need no kick; after the device clears it, one more does; the shared avail index ends at the private `vq_avail_idx` it started from plus four, modulo 2^16 |

## Left out

- Memory barriers and atomics (`virtio_mb`, `virtio_rmb`, `virtio_wmb`, the
  fence and atomic-load/store parts of `virtqueue_fetch_flags_packed`,
  `virtqueue_store_flags_packed`, `virtqueue_nused`, `vq_update_avail_idx`
  and the architecture-specific variants). These concern cross-domain
  ordering. Every fetch and store is a plain read or write, and
  `weak_barriers` does not appear.
- `virtqueue_notify`. It is a call through the transport's operations table.
- `vq_ring_free_chain`, `vq_ring_free_chain_packed`, `vq_ring_free_inorder`,
  `virtqueue_rxvq_flush`, `virtqueue_rxvq_reset_packed`,
  `virtqueue_txvq_reset_packed` and `virtqueue_dump`. The header only
  declares them, and their bodies are not part of this model.
- Control, admin and network header structs, `virtio_tx_region`, and the
  packet prefetch macro. They are data layouts with no behaviour.
- Addresses, the buffer cookie and ring sizes in bytes (`vq_ring_mem`,
  `vq_ring_virt_mem`, `notify_addr`, `cookie`), the used-ring entries, and
  the `hw` pointer. Only `max_queue_pairs` (a parameter of `GetQueueType`)
  and the packed-ring feature (the `packed` field) are taken from `hw`.
- Storage sharing between the split and packed fields (the C union). Both
  sets of fields exist, and `packed` selects the one in use.
- Bit-exact struct packing.
- The constructor allocates zero-filled rings of the given depth. The
  driver's own queue setup lies outside this header and is not modelled.
- `drivers/net/bnxt/tf_core/cfa_resource_types.h`. It holds generated
  constants only.
