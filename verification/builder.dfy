/**
 * `TransactionBuilder`: an accumulator of optional and append-only fields,
 * updated by consuming setters, and `Build`, which resolves inputs/outputs,
 * converts the validity window to slots, assembles a zero-fee transaction and
 * patches in the fee computed from it.
 */
module Builder {
  import opened Wrappers
  import opened Primitives
  import opened Listing
  import Asset

  /**
   * Stand-in for the crate's `ValidationError`, whose definition lies outside the
   * modelled files. The builder itself raises only `InvalidTimestamp`; the other
   * variants stand for errors the collaborators may report.
   */
  datatype ValidationError =
    | NoInputs
    | InvalidCollateralInput
    | InvalidCollateralReturn
    | InvalidTimestamp
    | RedeemerPurposeMissing

  /**
   * Stand-in for the crate's `NetworkParams`, whose definition lies outside the
   * modelled files. The builder reads it only through the `Collaborators`
   * functions, so its fields are never inspected here.
   */
  datatype NetworkParams = NetworkParams(networkId: U64, genesisTime: U64, slotLength: U64)

  /**
   * The collaborators whose code lies outside the builder, as uninterpreted
   * values and functions: the mainnet parameters, the strategy's default value,
   * the resolution strategy, the network-parameter conversions, the network-id
   * conversion and the linear fee calculation.
   */
  datatype Collaborators<!S> = Collaborators(
    mainnet: NetworkParams,
    defaultStrategy: S,
    resolve: S -> Result<(seq<TransactionInput>, seq<TransactionOutput>), ValidationError>,
    timestampToSlot: (NetworkParams, U64) -> Option<U64>,
    networkId: NetworkParams -> U64,
    networkIdFromU64: U64 -> Option<NetworkId>,
    linearFee: Transaction -> Result<U64, ValidationError>)

  datatype TransactionBuilder<S> = TransactionBuilder(
    strategy: S,
    networkParams: NetworkParams,
    mint: Option<Asset.MultiAsset<I64>>,
    requiredSigners: seq<AddrKeyhash>,
    validAfter: Option<U64>,
    validUntil: Option<U64>,
    certificates: seq<Certificate>)

  /** Nothing has been configured yet beyond the strategy and network parameters. */
  ghost predicate Unconfigured<S>(b: TransactionBuilder<S>)
  {
    && b.mint.None?
    && b.requiredSigners == []
    && b.validAfter.None?
    && b.validUntil.None?
    && b.certificates == []
  }

  /** `Default::default()`: mainnet parameters, the strategy's default, nothing else set. */
  function Default<S>(env: Collaborators<S>): (r: TransactionBuilder<S>)
    ensures Unconfigured(r)
    ensures r.networkParams == env.mainnet && r.strategy == env.defaultStrategy
  {
    TransactionBuilder(env.defaultStrategy, env.mainnet, None, [], None, None, [])
  }

  /** `new(params)`: `Default` with its mainnet parameters replaced by `params`. */
  function New<S>(env: Collaborators<S>, params: NetworkParams): (r: TransactionBuilder<S>)
    ensures Unconfigured(r)
    ensures r.networkParams == params && r.strategy == env.defaultStrategy
  {
    Default(env).(networkParams := params)
  }

  function Mint<S>(b: TransactionBuilder<S>, assets: Asset.MultiAsset<I64>): (r: TransactionBuilder<S>)
    ensures r.mint == Some(assets)
    ensures r.(mint := b.mint) == b
  {
    b.(mint := Some(assets))
  }

  function RequireSigner<S>(b: TransactionBuilder<S>, signer: AddrKeyhash): (r: TransactionBuilder<S>)
    ensures |r.requiredSigners| == |b.requiredSigners| + 1
    ensures r.requiredSigners[..|b.requiredSigners|] == b.requiredSigners
    ensures r.requiredSigners[|b.requiredSigners|] == signer
    ensures r.(requiredSigners := b.requiredSigners) == b
  {
    b.(requiredSigners := b.requiredSigners + [signer])
  }

  function ValidAfter<S>(b: TransactionBuilder<S>, timestamp: U64): (r: TransactionBuilder<S>)
    ensures r.validAfter == Some(timestamp)
    ensures r.(validAfter := b.validAfter) == b
  {
    b.(validAfter := Some(timestamp))
  }

  function ValidUntil<S>(b: TransactionBuilder<S>, timestamp: U64): (r: TransactionBuilder<S>)
    ensures r.validUntil == Some(timestamp)
    ensures r.(validUntil := b.validUntil) == b
  {
    b.(validUntil := Some(timestamp))
  }

  function AddCertificate<S>(b: TransactionBuilder<S>, cert: Certificate): (r: TransactionBuilder<S>)
    ensures |r.certificates| == |b.certificates| + 1
    ensures r.certificates[..|b.certificates|] == b.certificates
    ensures r.certificates[|b.certificates|] == cert
    ensures r.(certificates := b.certificates) == b
  {
    b.(certificates := b.certificates + [cert])
  }

  /** Overwriting setters: of two calls, the later one wins. */
  lemma OverwritingSettersLastWins<S>(b: TransactionBuilder<S>, a1: Asset.MultiAsset<I64>, a2: Asset.MultiAsset<I64>, t1: U64, t2: U64)
    ensures Mint(Mint(b, a1), a2) == Mint(b, a2)
    ensures ValidAfter(ValidAfter(b, t1), t2) == ValidAfter(b, t2)
    ensures ValidUntil(ValidUntil(b, t1), t2) == ValidUntil(b, t2)
  {
  }

  /** `b.require_signer(k1)...require_signer(kn)`. */
  function RequireSigners<S>(b: TransactionBuilder<S>, signers: seq<AddrKeyhash>): TransactionBuilder<S>
    decreases |signers|
  {
    if signers == [] then b
    else RequireSigners(RequireSigner(b, signers[0]), signers[1..])
  }

  /** Chained `require_signer` calls append their keys in call order and touch nothing else. */
  lemma {:induction false} RequireSignersAppends<S>(b: TransactionBuilder<S>, signers: seq<AddrKeyhash>)
    ensures RequireSigners(b, signers).requiredSigners == b.requiredSigners + signers
    ensures RequireSigners(b, signers).(requiredSigners := b.requiredSigners) == b
    decreases |signers|
  {
    if signers != [] {
      RequireSignersAppends(RequireSigner(b, signers[0]), signers[1..]);
      assert b.requiredSigners + [signers[0]] + signers[1..] == b.requiredSigners + signers;
    }
  }

  /** `b.certificate(c1)...certificate(cn)`. */
  function AddCertificates<S>(b: TransactionBuilder<S>, certs: seq<Certificate>): TransactionBuilder<S>
    decreases |certs|
  {
    if certs == [] then b
    else AddCertificates(AddCertificate(b, certs[0]), certs[1..])
  }

  /** Chained `certificate` calls append in call order and touch nothing else. */
  lemma {:induction false} AddCertificatesAppends<S>(b: TransactionBuilder<S>, certs: seq<Certificate>)
    ensures AddCertificates(b, certs).certificates == b.certificates + certs
    ensures AddCertificates(b, certs).(certificates := b.certificates) == b
    decreases |certs|
  {
    if certs != [] {
      AddCertificatesAppends(AddCertificate(b, certs[0]), certs[1..]);
      assert b.certificates + [certs[0]] + certs[1..] == b.certificates + certs;
    }
  }

  /** `o` is what `opt_if_empty` promises for `v`: absent exactly when `v` is empty, else `v` itself. */
  ghost predicate KeptIfNonEmpty<T>(v: seq<T>, o: Option<seq<T>>)
  {
    && (o.None? <==> |v| == 0)
    && (o.Some? ==> o.value == v)
  }

  function OptIfEmpty<T>(v: seq<T>): (r: Option<seq<T>>)
    ensures KeptIfNonEmpty(v, r)
  {
    if |v| == 0 then None else Some(v)
  }

  /** `slot` is the slot of `timestamp` under `params`, absent when no timestamp was set. */
  ghost predicate SlotFor<S>(env: Collaborators<S>, params: NetworkParams, timestamp: Option<U64>, slot: Option<U64>)
  {
    match timestamp
    case None => slot.None?
    case Some(t) => slot.Some? && env.timestampToSlot(params, t) == slot
  }

  /** The timestamp is absent or converts to a slot. */
  ghost predicate Convertible<S>(env: Collaborators<S>, params: NetworkParams, timestamp: Option<U64>)
  {
    timestamp.Some? ==> env.timestampToSlot(params, timestamp.value).Some?
  }

  function ConvertTimestamp<S>(env: Collaborators<S>, params: NetworkParams, timestamp: Option<U64>)
    : (r: Result<Option<U64>, ValidationError>)
    ensures r.Success? <==> Convertible(env, params, timestamp)
    ensures r.Success? ==> SlotFor(env, params, timestamp, r.value)
    ensures r.Failure? ==> r.error == InvalidTimestamp
  {
    match timestamp
    case Some(v) =>
      (match env.timestampToSlot(params, v)
       case Some(slot) => Success(Some(slot))
       case None => Failure(InvalidTimestamp))
    case None => Success(None)
  }

  /** The mint field holds a flattening of the builder's mint, absent exactly when no mint was set. */
  ghost predicate MintFlattened(mint: Option<Asset.MultiAsset<I64>>, flat: Option<Multiasset<I64>>)
  {
    && (flat.None? <==> mint.None?)
    && (mint.Some? ==> flat.Some? && IsFlatteningOf(mint.value.assets, flat.value))
  }

  /** The body fields `build` never populates. */
  ghost predicate HardWiredBodyFields(body: TransactionBody)
  {
    && body.withdrawals.None?
    && body.update.None?
    && body.auxiliaryDataHash.None?
    && body.scriptDataHash.None?
    && body.collateral.None?
    && body.collateralReturn.None?
    && body.totalCollateral.None?
    && body.referenceInputs.None?
  }

  ghost predicate EmptyWitnessSet(w: WitnessSet)
  {
    && w.vkeywitness.None?
    && w.nativeScript.None?
    && w.bootstrapWitness.None?
    && w.plutusV1Script.None?
    && w.plutusData.None?
    && w.redeemer.None?
    && w.plutusV2Script.None?
  }

  /**
   * `z` is a zero-fee transaction that `build` may assemble from `b` before the
   * fee is patched in (it may differ only in the hash-map order of the mint).
   */
  ghost predicate AssembledFrom<S>(b: TransactionBuilder<S>, env: Collaborators<S>, z: Transaction)
  {
    var resolved := env.resolve(b.strategy);
    && resolved.Success?
    && z.body.inputs == resolved.value.0
    && z.body.outputs == resolved.value.1
    && z.body.fee == 0
    && SlotFor(env, b.networkParams, b.validUntil, z.body.ttl)
    && SlotFor(env, b.networkParams, b.validAfter, z.body.validityIntervalStart)
    && KeptIfNonEmpty(b.certificates, z.body.certificates)
    && KeptIfNonEmpty(b.requiredSigners, z.body.requiredSigners)
    && MintFlattened(b.mint, z.body.mint)
    && z.body.networkId == env.networkIdFromU64(env.networkId(b.networkParams))
    && HardWiredBodyFields(z.body)
    && EmptyWitnessSet(z.witnessSet)
    && z.isValid
    && z.auxiliaryData.None?
  }

  /**
   * Assembles the transaction. Fails with the strategy's error when resolution
   * fails, then with `InvalidTimestamp` when a set validity bound has no slot,
   * then with the fee calculator's error; otherwise returns the zero-fee
   * assembly with its fee replaced by the fee computed from that assembly.
   */
  method Build<S>(b: TransactionBuilder<S>, env: Collaborators<S>) returns (r: Result<Transaction, ValidationError>)
    ensures env.resolve(b.strategy).Failure? ==> r == Failure(env.resolve(b.strategy).error)
    ensures env.resolve(b.strategy).Success?
      && !(Convertible(env, b.networkParams, b.validUntil) && Convertible(env, b.networkParams, b.validAfter))
      ==> r == Failure(InvalidTimestamp)
    ensures r.Success? ==>
      && AssembledFrom(b, env, WithFee(r.value, 0))
      && env.linearFee(WithFee(r.value, 0)) == Success(r.value.body.fee)
    ensures r.Failure? && env.resolve(b.strategy).Success?
      && Convertible(env, b.networkParams, b.validUntil) && Convertible(env, b.networkParams, b.validAfter)
      ==> exists z :: AssembledFrom(b, env, z) && env.linearFee(z) == Failure(r.error)
  {
    var resolved := env.resolve(b.strategy);
    if resolved.Failure? {
      return Failure(resolved.error);
    }
    var (inputs, outputs) := resolved.value;
    var ttl := ConvertTimestamp(env, b.networkParams, b.validUntil);
    if ttl.Failure? {
      return Failure(ttl.error);
    }
    var start := ConvertTimestamp(env, b.networkParams, b.validAfter);
    if start.Failure? {
      return Failure(start.error);
    }
    var mint: Option<Multiasset<I64>> := None;
    if b.mint.Some? {
      var flat := Asset.Build(b.mint.value);
      mint := Some(flat);
    }
    var body := TransactionBody(
      inputs := inputs,
      outputs := outputs,
      fee := 0,
      ttl := ttl.value,
      certificates := OptIfEmpty(b.certificates),
      withdrawals := None,
      update := None,
      auxiliaryDataHash := None,
      validityIntervalStart := start.value,
      mint := mint,
      scriptDataHash := None,
      collateral := None,
      requiredSigners := OptIfEmpty(b.requiredSigners),
      networkId := env.networkIdFromU64(env.networkId(b.networkParams)),
      collateralReturn := None,
      totalCollateral := None,
      referenceInputs := None);
    var witnesses := WitnessSet(None, None, None, None, None, None, None);
    var tx := Transaction(body, witnesses, true, None);
    assert AssembledFrom(b, env, tx);
    var fee := env.linearFee(tx);
    if fee.Failure? {
      return Failure(fee.error);
    }
    r := Success(WithFee(tx, fee.value));
    assert WithFee(r.value, 0) == tx;
  }

  /**
   * Two assemblies from the same builder agree on every field but the mint, and
   * their mints collect back into the same map: `build` is deterministic up to
   * hash-map iteration order.
   */
  lemma AssemblyDeterministicUpToMintOrder<S>(b: TransactionBuilder<S>, env: Collaborators<S>, z1: Transaction, z2: Transaction)
    requires AssembledFrom(b, env, z1) && AssembledFrom(b, env, z2)
    ensures z1.(body := z1.body.(mint := None)) == z2.(body := z2.body.(mint := None))
    ensures z1.body.mint.Some? <==> z2.body.mint.Some?
    ensures z1.body.mint.Some? ==> Unflatten(z1.body.mint.value) == Unflatten(z2.body.mint.value)
  {
    var b1, b2 := z1.body, z2.body;
    assert b1.ttl == b2.ttl && b1.validityIntervalStart == b2.validityIntervalStart by {
      SlotForUnique(env, b.networkParams, b.validUntil, b1.ttl, b2.ttl);
      SlotForUnique(env, b.networkParams, b.validAfter, b1.validityIntervalStart, b2.validityIntervalStart);
    }
    assert b1.certificates == b2.certificates && b1.requiredSigners == b2.requiredSigners;
    assert b1.(mint := None) == b2.(mint := None);
    assert z1.witnessSet == z2.witnessSet;
    if b.mint.Some? {
      Asset.BuildRoundTrip(b.mint.value, z1.body.mint.value);
      Asset.BuildRoundTrip(b.mint.value, z2.body.mint.value);
    }
  }

  lemma SlotForUnique<S>(env: Collaborators<S>, params: NetworkParams, timestamp: Option<U64>, s1: Option<U64>, s2: Option<U64>)
    requires SlotFor(env, params, timestamp, s1) && SlotFor(env, params, timestamp, s2)
    ensures s1 == s2
  {
  }

  /** The assembled mint collects back into exactly the builder's mint map. */
  lemma AssembledMintRoundTrip<S>(b: TransactionBuilder<S>, env: Collaborators<S>, z: Transaction)
    requires AssembledFrom(b, env, z)
    requires b.mint.Some?
    ensures z.body.mint.Some? && Unflatten(z.body.mint.value) == b.mint.value.assets
  {
    Asset.BuildRoundTrip(b.mint.value, z.body.mint.value);
  }

  /** A builder fresh from `new` assembles with no validity window, certificates, signers or mint. */
  lemma NewAssemblesBareBody<S>(env: Collaborators<S>, params: NetworkParams, z: Transaction)
    requires AssembledFrom(New(env, params), env, z)
    ensures z.body.ttl.None? && z.body.validityIntervalStart.None?
    ensures z.body.certificates.None? && z.body.requiredSigners.None? && z.body.mint.None?
  {
  }

  /** Only the upper validity bound was set: the ttl is its slot and the start stays absent. */
  lemma ValidUntilSetsTtlOnly<S>(env: Collaborators<S>, params: NetworkParams, t: U64, z: Transaction)
    requires AssembledFrom(ValidUntil(New(env, params), t), env, z)
    ensures z.body.ttl.Some? && z.body.ttl == env.timestampToSlot(params, t)
    ensures z.body.validityIntervalStart.None?
  {
  }

  /** Only the lower validity bound was set: the start is its slot and the ttl stays absent. */
  lemma ValidAfterSetsStartOnly<S>(env: Collaborators<S>, params: NetworkParams, t: U64, z: Transaction)
    requires AssembledFrom(ValidAfter(New(env, params), t), env, z)
    ensures z.body.validityIntervalStart.Some? && z.body.validityIntervalStart == env.timestampToSlot(params, t)
    ensures z.body.ttl.None?
  {
  }

  /** Minting "MyAsset 2" under the zero policy puts exactly that one entry in the body's mint. */
  lemma MintMyAsset2<S>(env: Collaborators<S>, params: NetworkParams, z: Transaction)
    requires Asset.Add(Asset.New<I64>(), Asset.ZeroPolicy, Asset.MyAsset2, 1000000).Success?
    requires AssembledFrom(
      Mint(New(env, params), Asset.Add(Asset.New<I64>(), Asset.ZeroPolicy, Asset.MyAsset2, 1000000).value),
      env, z)
    ensures z.body.mint == Some([(Asset.ZeroPolicy, [(Asset.MyAsset2, 1000000)])])
  {
    Asset.MyAsset2Accepted(z.body.mint.value);
  }
}
