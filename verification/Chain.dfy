/** Slots, epochs and the chain constants read from the node at startup (src/chain.rs). */
module Chain {
  import opened Wrappers

  type Slot = nat
  type Epoch = nat
  type Validator = nat
  /** Block roots are opaque: only equality is ever used. */
  type Root = nat

  datatype ChainSpec = ChainSpec(
    slotsPerEpoch: nat, syncCommitteeSize: nat, maxCommitteesPerSlot: nat, altairForkEpoch: Epoch)

  /** Any network: every theorem holds for every positive epoch length. */
  type Spec = c: ChainSpec | c.slotsPerEpoch > 0 witness ChainSpec(32, 512, 64, 74240)

  function EpochStart(spec: Spec, epoch: Epoch): Slot {
    epoch * spec.slotsPerEpoch
  }

  function EpochOf(spec: Spec, slot: Slot): Epoch {
    slot / spec.slotsPerEpoch
  }

  function SaturatingSub(a: nat, b: nat): nat {
    if a >= b then a - b else 0
  }

  /** Epoch E may hold attestations through the end of E+1, so checkpoint E+2 anchors it. */
  function FinalizedScanTarget(checkpointEpoch: Epoch): Option<Epoch> {
    if checkpointEpoch >= 2 then Some(checkpointEpoch - 2) else None
  }

  lemma EpochStartMonotone(spec: Spec, a: Epoch, b: Epoch)
    requires a <= b
    ensures EpochStart(spec, a) <= EpochStart(spec, b)
    ensures a < b ==> EpochStart(spec, a) + spec.slotsPerEpoch <= EpochStart(spec, b)
  {
    var n := spec.slotsPerEpoch;
    assert (b - a) * n == b * n - a * n;
    if a < b {
      assert (b - a) * n == (b - a - 1) * n + n;
      assert (b - a - 1) * n >= 0;
    }
  }

  /** `EpochOf` and `EpochStart` are a Galois connection: the only fact about division used below. */
  lemma EpochOfBounds(spec: Spec, slot: Slot, epoch: Epoch)
    ensures EpochOf(spec, slot) < epoch <==> slot < EpochStart(spec, epoch)
    ensures EpochOf(spec, slot) == epoch <==> EpochStart(spec, epoch) <= slot < EpochStart(spec, epoch + 1)
  {
    var n := spec.slotsPerEpoch;
    var e := EpochOf(spec, slot);
    assert slot == e * n + slot % n;
    assert EpochStart(spec, e) <= slot < EpochStart(spec, e) + n;
    if e < epoch {
      EpochStartMonotone(spec, e, epoch);
    } else {
      EpochStartMonotone(spec, epoch, e);
    }
    if e < epoch + 1 {
      EpochStartMonotone(spec, e, epoch + 1);
    } else {
      EpochStartMonotone(spec, epoch + 1, e);
    }
  }
}
