# Beacon node proxy: duty query encoding and duty translation

This project models the part of the honest validator's `BeaconNodeProxy`
that has logic of its own. When a validator worker asks for its duties, the
proxy encodes the query for the beacon node's REST client: the public keys
become byte arrays and the epoch becomes an optional filter, where
`Epoch.None` means "no filter". It then turns each duty record the node
answers with into a `ValidatorDuty`. A nullable block-proposal slot becomes
either a concrete `Slot` or `Slot.None`. The proxy's sync-status, fork and
new-block operations are stubs that always throw `NotImplementedException`.

Layout:

- `wrappers.dfy` (module `Wrappers`): `Option` (a C# nullable) and `Result`
  (a value, or the exception an operation lets escape).
- `core2_types.dfy` (module `Core2Types`): `Epoch`, `Slot`, `Shard`,
  `BlsPublicKey`, `BlsSignature`, `ValidatorDuty`, and `Fork` and
  `BeaconBlock` as opaque byte strings. `ulong` is the subset type `uint64`.
  `Epoch.None` and `Slot.None` are constants with no stated value. The library
  that defines them is not part of this model, so every proof holds whatever
  number they stand for.
- `beacon_node_proxy.dfy` (module `BeaconNodeProxy`): the wire record and
  query, the encodings, the translation (a pure function and the `foreach`
  loop as a method proved equal to it), `ValidatorDuties`, and the three stubs.

`ValidatorDuties` takes the REST client's duties call as a parameter `node`.
The node gets the encoded query and answers with records or with the
exception it threw. The proxy catches nothing, so a failure comes back
unchanged.

The code passes the record's bytes straight to the `BlsPublicKey` constructor
and checks nothing itself. Whether a wrong-length key is rejected depends on
that constructor, which is not part of this model, so every record
translates.

## Model

| member | source | states |
|---|---|---|
| BeaconNodeProxy.EncodePublicKeys | src/Nethermind/Nethermind.HonestValidator/Services/BeaconNodeProxy.cs:74 | one byte string per key, same length and order, entry i is key i's bytes |
| BeaconNodeProxy.EncodePublicKeysInjective | src/Nethermind/Nethermind.HonestValidator/Services/BeaconNodeProxy.cs:74 | two key lists encode to the same bytes exactly when they are equal |
| BeaconNodeProxy.PublicKeysRoundTrip | src/Nethermind/Nethermind.HonestValidator/Services/BeaconNodeProxy.cs:74 | rebuilding a key from each encoded entry gives back the caller's key list |
| BeaconNodeProxy.EncodeEpochFilter | src/Nethermind/Nethermind.HonestValidator/Services/BeaconNodeProxy.cs:75 | the filter is absent exactly when the epoch is `Epoch.None`; a present filter carries the epoch's number unchanged |
| BeaconNodeProxy.EpochFilterRoundTrip | src/Nethermind/Nethermind.HonestValidator/Services/BeaconNodeProxy.cs:75 | reading the filter back (absent as `Epoch.None`) recovers the epoch, for every epoch |
| BeaconNodeProxy.EpochFilterImage | src/Nethermind/Nethermind.HonestValidator/Services/BeaconNodeProxy.cs:75 | a filter is the encoding of an epoch exactly when it is not the sentinel's number sent as a present value |
| BeaconNodeProxy.BuildDutiesQuery | src/Nethermind/Nethermind.HonestValidator/Services/BeaconNodeProxy.cs:74-77 | the query carries the encoded keys, and an epoch filter that is absent exactly for `Epoch.None` and decodes back to the epoch |
| BeaconNodeProxy.ProposalSlot | src/Nethermind/Nethermind.HonestValidator/Services/BeaconNodeProxy.cs:81 | a present proposal slot v becomes `Slot(v)`; an absent one becomes `Slot.None` |
| BeaconNodeProxy.ProposalSlotCollisions | src/Nethermind/Nethermind.HonestValidator/Services/BeaconNodeProxy.cs:81 | two wire proposal slots translate alike exactly when they are equal, or one is absent and the other is the sentinel's number |
| BeaconNodeProxy.TranslateDuty | src/Nethermind/Nethermind.HonestValidator/Services/BeaconNodeProxy.cs:80-83 | the duty's key has the record's bytes, its attestation slot and shard equal the record's, and its proposal slot follows the present/absent rule |
| BeaconNodeProxy.DutyRoundTrip | src/Nethermind/Nethermind.HonestValidator/Services/BeaconNodeProxy.cs:80-83 | every duty is the translation of the record it maps back to (`Slot.None` as absent) |
| BeaconNodeProxy.RecordRoundTrip | src/Nethermind/Nethermind.HonestValidator/Services/BeaconNodeProxy.cs:80-83 | a record is recovered from its duty exactly when its proposal slot is not the sentinel's number |
| BeaconNodeProxy.TranslateAll | src/Nethermind/Nethermind.HonestValidator/Services/BeaconNodeProxy.cs:78-85 | one duty per record, in order, duty i the translation of record i: nothing filtered, merged or reordered |
| BeaconNodeProxy.TranslateAllAppend | src/Nethermind/Nethermind.HonestValidator/Services/BeaconNodeProxy.cs:78-85 | translating a joined answer gives the two translations joined |
| BeaconNodeProxy.TranslatePrefix | src/Nethermind/Nethermind.HonestValidator/Services/BeaconNodeProxy.cs:78-85 | the first k duties yielded are the translations of the first k records |
| BeaconNodeProxy.TranslateDuties | src/Nethermind/Nethermind.HonestValidator/Services/BeaconNodeProxy.cs:78-85 | the loop that appends one duty per record yields exactly `TranslateAll` of the answer |
| BeaconNodeProxy.ValidatorDuties | src/Nethermind/Nethermind.HonestValidator/Services/BeaconNodeProxy.cs:72-86 | the node is asked with the encoded query; its failure comes back unchanged, and its records come back as their translations |
| BeaconNodeProxy.GetIsSyncing | src/Nethermind/Nethermind.HonestValidator/Services/BeaconNodeProxy.cs:62-65 | never returns a value; always fails with not-implemented |
| BeaconNodeProxy.GetNodeFork | src/Nethermind/Nethermind.HonestValidator/Services/BeaconNodeProxy.cs:67-70 | never returns a value; always fails with not-implemented |
| BeaconNodeProxy.NewBlock | src/Nethermind/Nethermind.HonestValidator/Services/BeaconNodeProxy.cs:88-91 | never returns a block, for any slot and RANDAO reveal; always fails with not-implemented |

## Left out

- `GetNodeVersionAsync` and `GetGenesisTimeAsync` (lines 48-60): each returns the REST client's answer as it is. The only thing to model would be the network call itself.
- Creating the REST client through its factory, and the client's `VersionAsync`, `TimeAsync` and `DutiesAsync` calls: these are network I/O through a generated client. The duties call is the parameter `node` of `ValidatorDuties`.
- Endpoint priority, failover and backoff: the source only mentions them in a comment (lines 43-46) and does not implement them.
- `async`/`await`, `IAsyncEnumerable` suspension, cancellation and `ConfigureAwait`: the stream of duties is a finite sequence. Stopping early is covered by `TranslatePrefix`.
- The internals of `BlsPublicKey`, `Slot`, `Shard` and `Epoch`: this covers any key-length check in the `BlsPublicKey` constructor and the numbers behind `Epoch.None` and `Slot.None`.
- The logger (line 34): nothing in the logic uses it.
- The fields of `Fork` and `BeaconBlock`: the stubs never build either one.
