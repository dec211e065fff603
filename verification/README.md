# pallas-txbuilder: MultiAsset container and TransactionBuilder, in Dafny

This project models two pieces of the Babbage-era transaction builder of the
`pallas` Cardano library:

- **`MultiAsset<T>`**: a two-level map policy id → asset name → amount. `Add` upserts
  an entry and rejects asset names longer than 32 bytes. `Build` flattens the map
  into the wire form, a list of `(policy, [(name, amount)])` pairs.
- **`TransactionBuilder`**: an accumulator with optional and append-only fields,
  updated by consuming setters. Its `Build` resolves inputs and outputs through the
  strategy and converts the validity window to slots. It then assembles a body and
  witness set with `fee = 0`, and patches in the fee computed from that zero-fee
  transaction.

Layout:

- `wrappers.dfy`: `Option`/`Result`.
- `primitives.dfy`: the ledger records the builder fills in (`TransactionBody`,
  `WitnessSet`, `Transaction`, the wire `Multiasset`). The builder never inspects
  outputs or certificates, so those are kept as encoded bytes.
- `listing.dfy`: lists a finite map as key/value pairs in an unspecified order. This
  is what draining a Rust `HashMap` into a `Vec` does. `ToMap` goes the other way,
  and the round trips are proved in both directions.
- `asset.dfy`: the `MultiAsset` container.
- `builder.dfy`: the builder, `ConvertTimestamp`, `OptIfEmpty` and `Build`.

The code's collaborators are fields of a `Collaborators` record that `Default`, `New`
and `Build` take as a parameter. They are uninterpreted values and functions: `Strategy::resolve`,
`NetworkParams::mainnet`, the strategy's default value,
`NetworkParams::timestamp_to_slot`, `network_id`, `NetworkId::from_u64` and
`Fee::linear().calculate`. The contracts state exactly how `Build` routes their
results and errors.

Hash-map iteration order is modelled as a nondeterministic choice (`:|`) inside the
method `Listing.ListEntries`. `Asset.Build` calls it at both levels, and
`Builder.Build` calls `Asset.Build`, so their contracts say only that every entry
appears exactly once. `Builder.Build` is specified against a
declarative predicate, `AssembledFrom(b, env, z)`: "z is a zero-fee transaction that
may be assembled from b". A successful result equals such a `z` with only its fee
replaced, and that fee is the calculator's value on `z`.

What the code does, and therefore what the model does:

- `build` does not sort inputs or mint policies, resolve redeemer indices, check
  collateral, or reject an empty input set. None of this is modelled.
- The mint is flattened in hash-map order. `Asset.BuildOrderNotFixed` shows that two
  policies admit both orders. So the built transaction is determined only up to that
  order (`Builder.AssemblyDeterministicUpToMintOrder`). It is not byte-for-byte
  reproducible.
- On an over-long name, `add` has already taken its container by value. The error
  therefore carries no container at all. The caller keeps nothing to which a partial
  insert could have happened.
- `ValidationError` and `NetworkParams` are defined outside the modelled files. The
  model gives them the variants and fields listed in `builder.dfy`. The builder raises
  only `InvalidTimestamp` itself and reads `NetworkParams` only through the
  collaborators.

## Model

| member | source | states |
|---|---|---|
| Asset.New | pallas-txbuilder/src/asset.rs:18-20 | the new container holds no policy at all, so it answers no lookup |
| Asset.FromMap | pallas-txbuilder/src/asset.rs:22-24 | the container has exactly the given map's policies, including those with an empty inner map, and every lookup answers from the given map exactly |
| Asset.FromMapStoresVerbatim | pallas-txbuilder/src/asset.rs:22-24 | the container built from a map holds exactly that map |
| Asset.NewBuildsEmpty | pallas-txbuilder/src/asset.rs:18-20 | every flattening of the new container is the empty list |
| Asset.FromMapSkipsNameCheck | pallas-txbuilder/src/asset.rs:22-24 | a map holding a name longer than 32 bytes is stored verbatim, so the result breaks the name limit that `Add` keeps |
| Asset.Add | pallas-txbuilder/src/asset.rs:26-37 | fails exactly when the name is longer than 32 bytes, with `InvalidAssetName("name max len exceeded")`; on success the policy becomes a key even if it was absent, lookup of (policy, name) gives the amount, and every other (policy, name) lookup is unchanged |
| Asset.AddIdempotent | pallas-txbuilder/src/asset.rs:31-34 | adding the same (policy, name, amount) twice gives the same container as adding it once |
| Asset.AddLastWriteWins | pallas-txbuilder/src/asset.rs:31-34 | a second add to the same (policy, name) overwrites the first amount: the result equals adding only the second |
| Asset.AddCommutes | pallas-txbuilder/src/asset.rs:31-34 | two accepted adds to different (policy, name) keys give the same container in either order |
| Asset.AddKeepsNamesWithinLimit | pallas-txbuilder/src/asset.rs:27-34 | if every stored name is at most 32 bytes, a successful add keeps it so |
| Asset.Build | pallas-txbuilder/src/asset.rs:39-47 | the result has one pair per policy key, no policy twice, and each inner list holds exactly that policy's (name, amount) entries once each; the order of both levels is unspecified |
| Asset.BuildRoundTrip | pallas-txbuilder/src/asset.rs:39-47 | collecting a flattening back into maps gives the container's map, and it has as many pairs as the container has policies |
| Asset.BuildOrderNotFixed | pallas-txbuilder/src/asset.rs:40-44 | with two distinct policies, both orders are valid flattenings: the flattening order is not determined by the container |
| Asset.SingletonBuild | pallas-txbuilder/src/asset.rs:39-47 | a container with one policy and one name has exactly one flattening, [(policy, [(name, amount)])] |
| Asset.MyAsset2Accepted | pallas-txbuilder/tests/manual.rs:96-98 | adding the 9-byte name "MyAsset 2" under the zero policy to a new container succeeds, and the result flattens to exactly that single entry |
| Listing.ListEntries | pallas-txbuilder/src/asset.rs:43 | draining a map yields a listing: distinct keys, exactly the map's keys, each paired with its value |
| Listing.ToMap | pallas-txbuilder/src/asset.rs:43 | the reverse of the drain at this line, used to state the round trips: collecting pairs into a map yields exactly the keys that occur in the pairs |
| Listing.ListingRoundTrip | pallas-txbuilder/src/asset.rs:43 | collecting a listing of a map gives back the map |
| Listing.DistinctListsToMap | pallas-txbuilder/src/asset.rs:43 | a pair list with distinct keys is a listing of the map it collects into |
| Listing.ListingIffDistinctAndCollects | pallas-txbuilder/src/asset.rs:43 | a pair list lists a map if and only if its keys are distinct and it collects into that map |
| Listing.ListingLength | pallas-txbuilder/src/asset.rs:43 | a listing has as many pairs as the map has entries |
| Listing.SingletonListing | pallas-txbuilder/src/asset.rs:43 | a one-entry map has exactly one listing |
| Listing.FlatteningIffDistinctAndCollects | pallas-txbuilder/src/asset.rs:40-46 | a nested pair list flattens a two-level map if and only if its outer and inner keys are distinct and it collects back into that map |
| Builder.Default | pallas-txbuilder/src/builder.rs:22-35 | the default builder holds the mainnet parameters and default strategy, with no mint, signers, validity bounds or certificates |
| Builder.New | pallas-txbuilder/src/builder.rs:38-43 | the new builder holds the given parameters and the default strategy, with no mint, signers, validity bounds or certificates |
| Builder.Mint | pallas-txbuilder/src/builder.rs:45-49 | the mint becomes the given assets and no other field changes |
| Builder.RequireSigner | pallas-txbuilder/src/builder.rs:51-54 | the signer is appended after all earlier signers, which are preserved in order, and no other field changes |
| Builder.ValidAfter | pallas-txbuilder/src/builder.rs:56-59 | the lower validity bound becomes the timestamp and no other field changes |
| Builder.ValidUntil | pallas-txbuilder/src/builder.rs:61-64 | the upper validity bound becomes the timestamp and no other field changes |
| Builder.AddCertificate | pallas-txbuilder/src/builder.rs:66-69 | the certificate is appended after all earlier certificates, which are preserved in order, and no other field changes |
| Builder.OverwritingSettersLastWins | pallas-txbuilder/src/builder.rs:45-64 | of two `mint`, `valid_after` or `valid_until` calls, the later one wins |
| Builder.RequireSignersAppends | pallas-txbuilder/src/builder.rs:51-54 | chained `require_signer` calls add their keys after the existing ones, in call order, and change nothing else |
| Builder.AddCertificatesAppends | pallas-txbuilder/src/builder.rs:66-69 | chained `certificate` calls add their certificates after the existing ones, in call order, and change nothing else |
| Builder.OptIfEmpty | pallas-txbuilder/src/builder.rs:134-141 | the result is absent exactly when the vector is empty, and otherwise it is the vector unchanged |
| Builder.ConvertTimestamp | pallas-txbuilder/src/builder.rs:111-119 | succeeds exactly when the timestamp is absent or has a slot. The result is absent for an absent timestamp and is the slot otherwise. Failure is always `InvalidTimestamp` |
| Builder.Build | pallas-txbuilder/src/builder.rs:71-109 | the strategy's error comes first and is propagated; otherwise a set validity bound without a slot gives `InvalidTimestamp`; otherwise the result is the fee calculator's error on a zero-fee assembly, or that assembly with only its fee replaced by the calculated fee |
| Builder.AssemblyDeterministicUpToMintOrder | pallas-txbuilder/src/builder.rs:72-104 | two assemblies from the same builder agree on every field except the mint, and their mints collect back into the same map |
| Builder.AssembledMintRoundTrip | pallas-txbuilder/src/builder.rs:84 | the assembled mint collects back into exactly the builder's mint map |
| Builder.NewAssemblesBareBody | pallas-txbuilder/src/builder.rs:38-43 | a builder fresh from `new` assembles with no ttl, validity start, certificates, required signers or mint |
| Builder.ValidUntilSetsTtlOnly | pallas-txbuilder/tests/manual.rs:27-33 | setting only `valid_until` yields a ttl equal to its slot and no validity start |
| Builder.ValidAfterSetsStartOnly | pallas-txbuilder/tests/manual.rs:49-55 | setting only `valid_after` yields a validity start equal to its slot and no ttl |
| Builder.MintMyAsset2 | pallas-txbuilder/tests/manual.rs:96-103 | minting "MyAsset 2" on a new builder puts exactly [(zero policy, [("MyAsset 2", 1000000)])] in the body's mint |

## Left out

- `input`/`output` on `TransactionBuilder<Manual>` only forward to the `Manual` strategy, and that strategy is not part of this model. The strategy is an opaque value `S`, and its resolution is the `resolve` collaborator.
- The bodies of `NetworkParams::timestamp_to_slot`, `network_id`, `NetworkId::from_u64`, `NetworkParams::mainnet`, the strategy's `Default` and `Fee::linear().calculate` are not part of this model. They appear as uninterpreted fields of `Collaborators`.
- The CBOR encoding and the hex golden vectors of the tests depend on the external codec and on the fee function. Transactions are modelled as values, not bytes.
- The flat decoder in `pallas-codec` only forwards to a `Decoder` that is not part of this model.
- `lib.rs` only declares an error enum and re-exports modules, so it has no behaviour to model.
- Rust's move semantics (consuming `self`) are modelled as immutable values.
- Integer widths appear only as the ranges `U64`/`I64`. The builder does no arithmetic on them.
- Builder.Build: the contract does not pin down the order of the mint's flattening, because it follows hash-map iteration order.
