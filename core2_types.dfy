/** The domain types the proxy produces and consumes: Epoch, Slot, Shard,
    BLS keys and signatures, the validator duty, and the (opaque) fork and block. */
module Core2Types {

  /** One byte of a key or signature. */
  type byte = x: int | 0 <= x < 0x100

  /** The C# `ulong` that every chain counter wraps. */
  type uint64 = x: int | 0 <= x < 0x1_0000_0000_0000_0000

  /** An epoch number. `None` is the distinguished "no epoch / unfiltered"
      value; its numeric value is fixed by the library that declares it and is
      deliberately left unspecified here, so every proof holds for any choice. */
  datatype Epoch = Epoch(value: uint64) {
    static const None: Epoch
  }

  /** A slot number, with the same kind of `None` sentinel as Epoch. */
  datatype Slot = Slot(value: uint64) {
    static const None: Slot
  }

  /** A shard number. */
  datatype Shard = Shard(value: uint64)

  /** A validator's BLS public key: the bytes it wraps. No length is enforced. */
  datatype BlsPublicKey = BlsPublicKey(bytes: seq<byte>)

  /** A BLS signature (the RANDAO reveal of a block request). */
  datatype BlsSignature = BlsSignature(bytes: seq<byte>)

  /** One validator's assignment for an epoch: where to attest, and the slot
      at which it proposes a block, or `Slot.None` when it proposes none. */
  datatype ValidatorDuty = ValidatorDuty(
    validatorPublicKey: BlsPublicKey,
    attestationSlot: Slot,
    attestationShard: Shard,
    blockProposalSlot: Slot)

  /** The fork the remote node is on; its structure is not part of this model. */
  datatype Fork = Fork(encoded: seq<byte>)

  /** A beacon block; its structure is not part of this model. */
  datatype BeaconBlock = BeaconBlock(encoded: seq<byte>)
}
