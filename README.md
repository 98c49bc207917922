# ChainBridge pallet: configuration state machine

A Dafny model of the ChainBridge Substrate pallet (`chainbridge/src/lib.rs`).
The pallet keeps four storage items and a log of events:

- `RelayerThreshold`: a `u32` vote threshold, 0 until first set;
- `Resources`: a map from a 32-byte resource id to a handler method (bytes);
  a missing id reads as the empty vector;
- `ChainNonces`: a map from a `u8` chain id to `Option<u64>`; a missing chain
  reads as `None`, meaning "not whitelisted";
- `Relayers`: a map from account to `bool`; a missing account reads as `false`.

Its operations are the guarded setters `set_relayer_threshold`,
`register_resource`, `unregister_resource`, `whitelist` and
`register_relayer`, the queries `chain_whitelisted` and `is_relayer`, and the
four dispatchables `set_threshold`, `set_resource`, `remove_resource` and
`whitelist_chain`, each of which runs `ensure_admin` (which admits every
origin) and then the matching setter.

Files:

- `types.dfy` (module `Types`): the machine integer widths as newtypes,
  `ChainId`, `DepositNonce`, `ResourceId` (a byte sequence of length 32), `Option`.
- `chainbridge.dfy` (module `ChainBridge`): the `Event` and `Error` enums,
  `DispatchResult`, the storage as a value (`State`, with the `ValueQuery`
  getters), the invariant `Inv`, and every operation as a pure transition
  `State -> Transition(post, result)`. These functions are the specification.
- `runs.dfy` (module `Runs`): a `Call` is one call to a dispatchable or to
  `register_relayer`; `Run` applies a sequence of calls. The lemmas here are
  about whole histories: what is invariant, which call decides the value of
  each storage item, idempotence, and what a fresh pallet can reach.
- `pallet.dfy` (module `ChainBridgePallet`): the pallet as a class whose
  fields are the storage items and whose methods update them in place, each
  proved to perform exactly the transition of the `ChainBridge` function of
  the same name and to keep `Inv`.

The account type is a type parameter `A`, as `T::AccountId` is in the source.
The local chain id (`T::ChainId::get()`) is a parameter `local` of the pure
functions and a `const` field of the class.

## Model

| member | source | states |
|---|---|---|
| ChainBridge.State.Resource | chainbridge/src/lib.rs:47-49 | The `resources` getter reads the stored method of an id, and the empty vector for an id never stored or removed. |
| ChainBridge.State.Chain | chainbridge/src/lib.rs:51-54 | The `chains` getter reads the stored `Option` nonce of a chain, and `None` for a chain never stored. |
| ChainBridge.State.ChainWhitelisted | chainbridge/src/lib.rs:231-234 | A chain is whitelisted exactly when its key is stored with a `Some` nonce. |
| ChainBridge.State.IsRelayer | chainbridge/src/lib.rs:236-238 | An account is a relayer exactly when it is stored with the flag `true`; a missing account is not one. |
| ChainBridge.Genesis | chainbridge/src/lib.rs:42-58 | A fresh pallet has threshold 0, an empty log, every resource empty, no chain whitelisted and no relayer. |
| ChainBridge.EnsureAdmin | chainbridge/src/lib.rs:192-199 | The admin check admits every caller. |
| ChainBridge.SetRelayerThreshold | chainbridge/src/lib.rs:200-205 | Succeeds exactly when the threshold is positive; on success stores it and appends one `RelayerThresholdChanged` event; on failure returns `InvalidThreshold` and changes nothing; never touches the other storage items. |
| ChainBridge.RegisterResource | chainbridge/src/lib.rs:207-211 | Always succeeds; afterwards the id reads as the given method, every other id reads as before, and nothing else changes (no event). |
| ChainBridge.UnregisterResource | chainbridge/src/lib.rs:213-217 | Always succeeds, also for an id never registered; afterwards the id is absent and reads empty, every other id reads as before, nothing else changes. |
| ChainBridge.Whitelist | chainbridge/src/lib.rs:219-229 | Fails with `InvalidChainId` for the local chain, else with `ChainAlreadyWhitelisted` for a whitelisted chain, changing nothing; otherwise the chain's nonce becomes `Some(0)`, it is whitelisted, one `ChainWhitelisted` event is appended, and every other chain reads as before. |
| ChainBridge.RegisterRelayer | chainbridge/src/lib.rs:240-248 | Fails with `RelayerAlreadyExists` (changing nothing) exactly when the account is a relayer; afterwards the account is a relayer, no other account's membership changes, and no event is deposited. |
| ChainBridge.SetThreshold | chainbridge/src/lib.rs:141-147 | The dispatchable behaves exactly as `set_relayer_threshold`, because the admin check never rejects. |
| ChainBridge.SetResource | chainbridge/src/lib.rs:154-163 | The dispatchable behaves exactly as `register_resource`. |
| ChainBridge.RemoveResource | chainbridge/src/lib.rs:173-178 | The dispatchable behaves exactly as `unregister_resource`. |
| ChainBridge.WhitelistChain | chainbridge/src/lib.rs:180-186 | The dispatchable behaves exactly as `whitelist`. |
| Runs.Step | chainbridge/src/lib.rs:142-186 | Any call that fails leaves the storage and log unchanged; every call only appends to the log, only with a positive threshold change or a non-local whitelisting, and keeps `Inv`. |
| Runs.Run | chainbridge/src/lib.rs:62-63 | Over any history the event log is append-only: the old log is a prefix of the new one. |
| Runs.RunPreservesInv | chainbridge/src/lib.rs:219-248 | Every history keeps `Inv`: the local chain is never whitelisted, every stored nonce stays `Some(0)`, every stored relayer flag is `true`. |
| Runs.RunEventsAreConfigEvents | chainbridge/src/lib.rs:200-229 | Every event a history appends is a `RelayerThresholdChanged` with a positive value or a `ChainWhitelisted` of a non-local chain. |
| Runs.ThresholdStaysPositive | chainbridge/src/lib.rs:200-202 | Once the threshold is positive, no history brings it back to 0. |
| Runs.ThresholdIsLastAccepted | chainbridge/src/lib.rs:200-205 | After any history the threshold is the value of the last `set_threshold` with a positive value, or the old one if there was none. |
| Runs.ResourceIsLastWrite | chainbridge/src/lib.rs:207-217 | After any history each id reads as the last write to that id: the method of the last `set_resource`, empty after a later `remove_resource`, or the old value if neither occurred. |
| Runs.RelayerIffRegistered | chainbridge/src/lib.rs:240-248 | After any history an account is a relayer exactly when it was one before or some call registered it. |
| Runs.WhitelistedIffRequested | chainbridge/src/lib.rs:219-234 | After any history a chain is whitelisted exactly when it was before, or it is not the local chain and some call whitelisted it. |
| Runs.WhitelistedNonceUnchanged | chainbridge/src/lib.rs:222-226 | No history changes the nonce of a chain that is already whitelisted. |
| Runs.WhitelistAgainFails | chainbridge/src/lib.rs:222-225 | Whitelisting a non-local chain that some earlier call whitelisted fails with `ChainAlreadyWhitelisted` and changes nothing. |
| Runs.RegisterRelayerAgainFails | chainbridge/src/lib.rs:242-245 | Registering an account that some earlier call registered fails with `RelayerAlreadyExists` and changes nothing. |
| Runs.SetResourceIdempotent | chainbridge/src/lib.rs:208-210 | Setting the same resource twice leaves the same state as setting it once. |
| Runs.RemoveResourceIdempotent | chainbridge/src/lib.rs:214-216 | Removing a resource twice leaves the same state as removing it once. |
| Runs.FromGenesis | chainbridge/src/lib.rs:42-58 | Every history from a fresh pallet keeps `Inv` and never whitelists the local chain; an account is then a relayer exactly when it was registered; the threshold is 0 exactly when no positive threshold was ever proposed. |
| ChainBridgePallet.Pallet.constructor | chainbridge/src/lib.rs:42-58 | A new pallet's storage is `Genesis` and satisfies `Inv`. |
| ChainBridgePallet.Pallet.ChainWhitelisted | chainbridge/src/lib.rs:232-234 | The query on the fields agrees with the getter-based `chain_whitelisted`. |
| ChainBridgePallet.Pallet.IsRelayer | chainbridge/src/lib.rs:236-238 | The query on the fields agrees with the getter-based `is_relayer`. |
| ChainBridgePallet.Pallet.DepositEvent | chainbridge/src/lib.rs:62-63 | Appends one event to the log and changes no storage item. |
| ChainBridgePallet.Pallet.SetRelayerThreshold | chainbridge/src/lib.rs:200-205 | Updates the fields in place exactly as `ChainBridge.SetRelayerThreshold` describes and keeps `Inv`. |
| ChainBridgePallet.Pallet.RegisterResource | chainbridge/src/lib.rs:208-211 | Updates the fields in place exactly as `ChainBridge.RegisterResource` describes and keeps `Inv`. |
| ChainBridgePallet.Pallet.UnregisterResource | chainbridge/src/lib.rs:214-217 | Updates the fields in place exactly as `ChainBridge.UnregisterResource` describes and keeps `Inv`. |
| ChainBridgePallet.Pallet.Whitelist | chainbridge/src/lib.rs:220-229 | Updates the fields in place exactly as `ChainBridge.Whitelist` describes and keeps `Inv`. |
| ChainBridgePallet.Pallet.RegisterRelayer | chainbridge/src/lib.rs:241-248 | Updates the fields in place exactly as `ChainBridge.RegisterRelayer` describes and keeps `Inv`. |
| ChainBridgePallet.Pallet.SetThreshold | chainbridge/src/lib.rs:142-147 | Runs the admin check, then the setter; the result is `ChainBridge.SetThreshold`. |
| ChainBridgePallet.Pallet.SetResource | chainbridge/src/lib.rs:155-163 | Runs the admin check, then the setter; the result is `ChainBridge.SetResource`. |
| ChainBridgePallet.Pallet.RemoveResource | chainbridge/src/lib.rs:174-178 | Runs the admin check, then the setter; the result is `ChainBridge.RemoveResource`. |
| ChainBridgePallet.Pallet.WhitelistChain | chainbridge/src/lib.rs:181-186 | Runs the admin check, then the setter; the result is `ChainBridge.WhitelistChain`. |

## Left out

- Admin authorisation: `ensure_admin` admits every origin in this code (its check is commented out), so origins are not modelled and the dispatchables take no origin argument.
- Proposals, voting, expiry, deposit-nonce increments, fungible/non-fungible/generic transfers, relayer removal and a relayer count: the code declares their events and errors (and a bare `ProposalVotes` struct in `chainbridge/src/types.rs`) but has no operation that uses them. The `Event` and `Error` enums are modelled in full; only their used variants occur.
- `log::info!` calls, dispatch weights, Blake2_256 key hashing and SCALE encoding: logging and framework concerns with no effect on the storage.
- The `U256` payload of `FungibleTransfer` is modelled only as a bounded integer type; no arithmetic on it exists in the code.
- `chainbridge/src/mock.rs`: test-runtime configuration; it sets items (`AdminOrigin`, `PalletId`, `Proposal`, `ProposalLifetime`) that the pallet's `Config` does not declare, so it adds no behaviour to model.
- The block-level rollback of a failed extrinsic: every operation here checks its guards before its first write, so a failed call already leaves the storage unchanged, and that is proved (`Runs.Step`) rather than assumed.

## Where the code and the bridge's design description differ

The model follows the code in each case:

- The threshold is described as never 0; in the code it reads 0 until the first `set_threshold`, and only the setter rejects 0 (`Runs.ThresholdStaysPositive`, `Runs.FromGenesis`).
- Chain nonces are described as incremented per outbound transfer; the code only ever writes `Some(0)` (`Runs.WhitelistedNonceUnchanged`, `ChainBridge.Inv`).
- Adding a relayer is described as incrementing a count and emitting an event; `register_relayer` does neither, and it is not exposed as a dispatchable.
