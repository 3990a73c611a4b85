/** The validator client's proxy to a beacon node: how a duties query is
    encoded for the REST client, how the records the node answers with become
    ValidatorDuty values, and the operations that are not implemented yet. */
module BeaconNodeProxy {
  import opened Wrappers
  import opened Core2Types

  // ---------------------------------------------------------------------------
  // Wire shapes of the REST client

  /** One element of the `/validator/duties` answer, as the generated client
      decodes it: the proposal slot is a nullable `ulong`. */
  datatype DutyRecord = DutyRecord(
    validatorPubkey: seq<byte>,
    attestationSlot: uint64,
    attestationShard: uint64,
    blockProposalSlot: Option<uint64>)

  /** The arguments handed to the client's duties call: the keys as raw bytes,
      and the epoch filter, absent (null) when no epoch is asked for. */
  datatype DutiesQuery = DutiesQuery(validatorPubkeys: seq<seq<byte>>, epoch: Option<uint64>)

  /** What can escape from a proxy operation. */
  datatype ProxyError =
    | NotImplemented              // the operation throws NotImplementedException
    | Transport(reason: string)   // the REST client's call threw

  // ---------------------------------------------------------------------------
  // Encoding the query

  /** The keys projected to their bytes (`Select(x => x.Bytes)`): one entry
      per key, in the same order. */
  function EncodePublicKeys(keys: seq<BlsPublicKey>): (r: seq<seq<byte>>)
    ensures |r| == |keys|
    ensures forall i :: 0 <= i < |keys| ==> r[i] == keys[i].bytes
  {
    if keys == [] then [] else [keys[0].bytes] + EncodePublicKeys(keys[1..])
  }

  /** Projecting keys to bytes loses nothing: two key lists encode alike
      exactly when they are the same list. */
  lemma EncodePublicKeysInjective(a: seq<BlsPublicKey>, b: seq<BlsPublicKey>)
    ensures EncodePublicKeys(a) == EncodePublicKeys(b) <==> a == b
  {
  }

  /** Wrapping each encoded entry in a key again gives back the caller's
      keys: the inverse that shows the projection loses nothing. */
  lemma PublicKeysRoundTrip(keys: seq<BlsPublicKey>)
    ensures seq(|keys|, i requires 0 <= i < |keys| => BlsPublicKey(EncodePublicKeys(keys)[i])) == keys
  {
    var rebuilt := seq(|keys|, i requires 0 <= i < |keys| => BlsPublicKey(EncodePublicKeys(keys)[i]));
    forall i | 0 <= i < |keys| ensures rebuilt[i] == keys[i] {
      assert EncodePublicKeys(keys)[i] == keys[i].bytes;
    }
  }

  /** The epoch filter: `Epoch.None` becomes an absent filter, any other
      epoch is sent as its own number. */
  function EncodeEpochFilter(epoch: Epoch): (r: Option<uint64>)
    ensures r.None? <==> epoch == Epoch.None
    ensures r.Some? ==> r.value == epoch.value
  {
    if epoch != Epoch.None then Some(epoch.value) else None
  }

  /** The inverse of the epoch filter, used to show the encoding loses
      nothing: absent stands for `Epoch.None`. */
  function DecodeEpochFilter(filter: Option<uint64>): Epoch
  {
    match filter
    case None => Epoch.None
    case Some(v) => Epoch(v)
  }

  /** The epoch filter loses nothing: the epoch can be recovered from it. */
  lemma EpochFilterRoundTrip(epoch: Epoch)
    ensures DecodeEpochFilter(EncodeEpochFilter(epoch)) == epoch
  {
  }

  /** The sentinel's number is the one filter value no epoch encodes to;
      every other filter, absent or present, is the encoding of the epoch it
      decodes to. */
  lemma EpochFilterImage(filter: Option<uint64>)
    ensures EncodeEpochFilter(DecodeEpochFilter(filter)) == filter <==> filter != Some(Epoch.None.value)
  {
  }

  /** The arguments of the duties call for the given keys and epoch. */
  function BuildDutiesQuery(keys: seq<BlsPublicKey>, epoch: Epoch): (q: DutiesQuery)
    ensures EncodePublicKeys(keys) == q.validatorPubkeys
    ensures q.epoch.None? <==> epoch == Epoch.None
    ensures DecodeEpochFilter(q.epoch) == epoch
  {
    DutiesQuery(EncodePublicKeys(keys), EncodeEpochFilter(epoch))
  }

  // ---------------------------------------------------------------------------
  // Translating the answer

  /** The domain slot of a nullable wire proposal slot: present v is
      `Slot(v)`, absent is `Slot.None`. */
  function ProposalSlot(wire: Option<uint64>): (s: Slot)
    ensures wire.None? ==> s == Slot.None
    ensures wire.Some? ==> s == Slot(wire.value)
  {
    if wire.Some? then Slot(wire.value) else Slot.None
  }

  /** The proposal translation keeps "no proposal" and every concrete slot
      apart, with one exception: a present value equal to the sentinel's own
      number becomes `Slot.None` and is then indistinguishable from absent. */
  lemma ProposalSlotCollisions(a: Option<uint64>, b: Option<uint64>)
    ensures ProposalSlot(a) == ProposalSlot(b) <==>
      (a == b
       || (a.None? && b == Some(Slot.None.value))
       || (b.None? && a == Some(Slot.None.value)))
  {
  }

  /** One record as a ValidatorDuty: the key is built from the record's own
      bytes, the attestation slot and shard are carried unchanged, and the
      proposal slot follows ProposalSlot. */
  function TranslateDuty(record: DutyRecord): (d: ValidatorDuty)
    ensures d.validatorPublicKey.bytes == record.validatorPubkey
    ensures d.attestationSlot.value == record.attestationSlot
    ensures d.attestationShard.value == record.attestationShard
    ensures record.blockProposalSlot.None? ==> d.blockProposalSlot == Slot.None
    ensures record.blockProposalSlot.Some? ==> d.blockProposalSlot.value == record.blockProposalSlot.value
  {
    ValidatorDuty(
      BlsPublicKey(record.validatorPubkey),
      Slot(record.attestationSlot),
      Shard(record.attestationShard),
      ProposalSlot(record.blockProposalSlot))
  }

  /** The wire record a duty would have come from: `Slot.None` is sent as an
      absent proposal slot. */
  function DutyToRecord(duty: ValidatorDuty): DutyRecord
  {
    DutyRecord(
      duty.validatorPublicKey.bytes,
      duty.attestationSlot.value,
      duty.attestationShard.value,
      if duty.blockProposalSlot == Slot.None then None else Some(duty.blockProposalSlot.value))
  }

  /** Every duty is the translation of exactly its own record. */
  lemma DutyRoundTrip(duty: ValidatorDuty)
    ensures TranslateDuty(DutyToRecord(duty)) == duty
  {
  }

  /** A record is recovered from its duty exactly when it does not carry the
      sentinel's number as a present proposal slot. */
  lemma RecordRoundTrip(record: DutyRecord)
    ensures DutyToRecord(TranslateDuty(record)) == record <==>
      record.blockProposalSlot != Some(Slot.None.value)
  {
  }

  /** The whole answer translated: one duty per record, in the node's order,
      nothing dropped, merged or reordered. */
  function TranslateAll(records: seq<DutyRecord>): (duties: seq<ValidatorDuty>)
    ensures |duties| == |records|
    ensures forall i :: 0 <= i < |records| ==> duties[i] == TranslateDuty(records[i])
  {
    if records == [] then [] else [TranslateDuty(records[0])] + TranslateAll(records[1..])
  }

  /** Translating two answers back to back is translating them joined. */
  lemma TranslateAllAppend(a: seq<DutyRecord>, b: seq<DutyRecord>)
    ensures TranslateAll(a + b) == TranslateAll(a) + TranslateAll(b)
  {
  }

  /** A consumer that stops after k duties has seen the translations of the
      first k records and of nothing else. */
  lemma TranslatePrefix(records: seq<DutyRecord>, k: nat)
    requires k <= |records|
    ensures TranslateAll(records[..k]) == TranslateAll(records)[..k]
  {
  }

  /** The `foreach` of the proxy: builds one duty per record and appends it
      to what has already been yielded. */
  method TranslateDuties(records: seq<DutyRecord>) returns (duties: seq<ValidatorDuty>)
    ensures duties == TranslateAll(records)
  {
    duties := [];
    var i := 0;
    while i < |records|
      invariant 0 <= i <= |records|
      invariant |duties| == i
      invariant forall j :: 0 <= j < i ==> duties[j] == TranslateDuty(records[j])
    {
      var record := records[i];
      var publicKey := BlsPublicKey(record.validatorPubkey);
      var proposalSlot := if record.blockProposalSlot.Some? then Slot(record.blockProposalSlot.value) else Slot.None;
      var duty := ValidatorDuty(publicKey, Slot(record.attestationSlot), Shard(record.attestationShard), proposalSlot);
      duties := duties + [duty];
      i := i + 1;
    }
  }

  // ---------------------------------------------------------------------------
  // The proxy operations

  /** The validator duties for the given keys and epoch. `node` stands for the
      REST client's duties call: it receives the encoded query and answers
      with records or with the exception it threw, which the proxy lets
      through unchanged. */
  method ValidatorDuties(
    keys: seq<BlsPublicKey>,
    epoch: Epoch,
    node: DutiesQuery -> Result<seq<DutyRecord>, ProxyError>)
    returns (r: Result<seq<ValidatorDuty>, ProxyError>)
    ensures node(BuildDutiesQuery(keys, epoch)).Failure? <==> r.Failure?
    ensures r.Failure? ==> r.error == node(BuildDutiesQuery(keys, epoch)).error
    ensures r.Success? ==> r.value == TranslateAll(node(BuildDutiesQuery(keys, epoch)).value)
  {
    var answer := node(BuildDutiesQuery(keys, epoch));
    if answer.Failure? {
      return Failure(answer.error);
    }
    var duties := TranslateDuties(answer.value);
    return Success(duties);
  }

  /** Whether the node is syncing: not implemented, always throws. */
  function GetIsSyncing(): (r: Result<bool, ProxyError>)
    ensures r.Failure? && r.error.NotImplemented?
  {
    Failure(NotImplemented)
  }

  /** The node's fork: not implemented, always throws. */
  function GetNodeFork(): (r: Result<Fork, ProxyError>)
    ensures r.Failure? && r.error.NotImplemented?
  {
    Failure(NotImplemented)
  }

  /** A new block for the slot and RANDAO reveal: not implemented, always
      throws, whatever the arguments. */
  function NewBlock(slot: Slot, randaoReveal: BlsSignature): (r: Result<BeaconBlock, ProxyError>)
    ensures r.Failure? && r.error.NotImplemented?
  {
    Failure(NotImplemented)
  }
}
