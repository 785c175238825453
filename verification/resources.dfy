/** `config`: the resource bundle (global paths, the cluster network, the
    storage pools and the nodes) assembled from static parameters. */
module Resources {
  import opened Wrappers
  import opened Ints
  import opened Errors
  import Hex
  import Mac
  import Identity

  datatype GlobalPaths = GlobalPaths(src: string, dst: string, boot: string)

  datatype RelativePaths = RelativePaths(pools: string, networks: string, volumes: string, nodes: string)

  datatype Params = Params(
    cluster: u32,
    domain: string,
    masters: u16,
    workers: u16,
    rootpw: string,
    network: string,
    networkIntf: string,
    networkBridge: string,
    networkMacaddressPrefix: string)

  datatype Globals = Globals(
    src: string, dst: string, boot: string,
    pools: string, networks: string, volumes: string, nodes: string)

  datatype Network = Network(
    name: string,
    uuid: string,
    domain: string,
    cluster: string,
    intf: string,
    bridge: string,
    macaddress: string)

  datatype Pool = Pool(name: string, uuid: string)

  datatype Combustion = Combustion(hostname: string, domain: string, packages: string, rootpw: string)

  datatype Node = Node(
    name: string,
    uuid: string,
    cluster: string,
    volsys: string,
    volrc: string,
    network: string,
    macaddress: string,
    combustion: Combustion)

  datatype Config = Config(globals: Globals, network: Network, pools: seq<Pool>, nodes: seq<Node>)

  /** The `globals` record holds the three absolute and four relative paths. */
  predicate PathsCopied(g: Globals, gpaths: GlobalPaths, rpaths: RelativePaths) {
    && g.src == gpaths.src && g.dst == gpaths.dst && g.boot == gpaths.boot
    && g.pools == rpaths.pools && g.networks == rpaths.networks
    && g.volumes == rpaths.volumes && g.nodes == rpaths.nodes
  }

  /** What a `config` result promises about its network record. */
  predicate NetworkDerived(n: Network, cluster: u16, params: Params, uuid5: Identity.NameUuid) {
    && n.name == params.network
    && n.intf == params.networkIntf
    && n.bridge == params.networkBridge
    && n.uuid == uuid5(params.network)
    // `{:04x}` of the 32-bit cluster tag: lower-case hex that reads back as
    // the tag, at least four digits, never truncated
    && Hex.IsLowerHex(n.cluster)
    && Hex.Value(n.cluster) == params.cluster
    && |n.cluster| == Max(4, Hex.Width(params.cluster))
    && n.domain == n.cluster + "." + params.domain
    // the address of node 0 in the `cluster` argument's range, which reads
    // back as (0x0200, cluster, 0)
    && Mac.ParseMac(n.macaddress) == Some((0x0200, cluster, 0))
  }

  /** The two pools: `images` then `combustion`, each with its v1 UUID. */
  predicate PoolsDerived(pools: seq<Pool>, tstamp: Identity.Timestamp, uuid1: Identity.TimeUuid) {
    && |pools| == 2
    && pools[0].name == "images" && Success(pools[0].uuid) == uuid1(tstamp, "images")
    && pools[1].name == "combustion" && Success(pools[1].uuid) == uuid1(tstamp, "combustion")
  }

  /** Everything a successful `config` promises about its result. */
  predicate ConfigDerived(c: Config, cluster: u16, gpaths: GlobalPaths, rpaths: RelativePaths,
                          params: Params, tstamp: Identity.Timestamp,
                          uuid5: Identity.NameUuid, uuid1: Identity.TimeUuid)
  {
    && PathsCopied(c.globals, gpaths, rpaths)
    && NetworkDerived(c.network, cluster, params, uuid5)
    && PoolsDerived(c.pools, tstamp, uuid1)
    && c.nodes == []
  }

  /** The `globals` record: a field-by-field copy of the two path sets. */
  function MakeGlobals(gpaths: GlobalPaths, rpaths: RelativePaths): (g: Globals)
    ensures PathsCopied(g, gpaths, rpaths)
  {
    Globals(gpaths.src, gpaths.dst, gpaths.boot,
            rpaths.pools, rpaths.networks, rpaths.volumes, rpaths.nodes)
  }

  /** The network record. Its MAC address comes from `macaddress(0x0200,
      cluster, 0)`, which cannot fail, so the `?` on it never returns. */
  function MakeNetwork(cluster: u16, params: Params, uuid5: Identity.NameUuid): (n: Network)
    ensures NetworkDerived(n, cluster, params, uuid5)
  {
    Hex.FormatReadsBack(params.cluster, 4);
    Mac.MacRoundTrip(0x0200, cluster, 0);
    Network(
      name := params.network,
      uuid := uuid5(params.network),
      domain := Hex.Format(params.cluster, 4) + "." + params.domain,
      cluster := Hex.Format(params.cluster, 4),
      intf := params.networkIntf,
      bridge := params.networkBridge,
      macaddress := Mac.MacAddress(0x0200, cluster, 0).value)
  }

  /** The error `chain_err` makes of a failed v1 UUID for the pool `name`. */
  function PoolUuidError(name: string, cause: string): Error {
    Chained("failed to generate UUID for pool: " + name, cause)
  }

  /** One pool: its v1 UUID from the shared timestamp with the pool name as
      node id; a failure is wrapped by `chain_err` with the pool's name. */
  function MakePool(name: string, tstamp: Identity.Timestamp, uuid1: Identity.TimeUuid): (r: Result<Pool, Error>)
    ensures r.Success? <==> uuid1(tstamp, name).Success?
    ensures r.Success? ==> r.value.name == name && Success(r.value.uuid) == uuid1(tstamp, name)
    ensures r.Failure? ==> r.error == PoolUuidError(name, uuid1(tstamp, name).error)
  {
    match uuid1(tstamp, name)
    case Success(uuid) => Success(Pool(name, uuid))
    case Failure(cause) => Failure(PoolUuidError(name, cause))
  }

  /** The body of `config` once the timestamp exists. The pools are built in
      order, so a failure of `images` hides one of `combustion`. */
  function Assemble(cluster: u16, gpaths: GlobalPaths, rpaths: RelativePaths, params: Params,
                    tstamp: Identity.Timestamp, uuid5: Identity.NameUuid, uuid1: Identity.TimeUuid)
    : (r: Result<Config, Error>)
    ensures r.Success? <==> uuid1(tstamp, "images").Success? && uuid1(tstamp, "combustion").Success?
    ensures uuid1(tstamp, "images").Failure? ==>
      r.error == PoolUuidError("images", uuid1(tstamp, "images").error)
    ensures uuid1(tstamp, "images").Success? && uuid1(tstamp, "combustion").Failure? ==>
      r.error == PoolUuidError("combustion", uuid1(tstamp, "combustion").error)
    ensures r.Success? ==> ConfigDerived(r.value, cluster, gpaths, rpaths, params, tstamp, uuid5, uuid1)
  {
    var globals := MakeGlobals(gpaths, rpaths);
    var network := MakeNetwork(cluster, params, uuid5);
    var images :- MakePool("images", tstamp, uuid1);
    var combustion :- MakePool("combustion", tstamp, uuid1);
    Success(Config(globals, network, [images, combustion], []))
  }

  /** `config` as written: the timestamp first (its failure is returned
      unchanged), then the records. */
  function BuildConfig(cluster: u16, gpaths: GlobalPaths, rpaths: RelativePaths, params: Params,
                       env: Identity.Env, uuid5: Identity.NameUuid, uuid1: Identity.TimeUuid)
    : (r: Result<Config, Error>)
    ensures r.Success? <==>
      && Identity.CurrentTimestamp(env).Success?
      && uuid1(Identity.CurrentTimestamp(env).value, "images").Success?
      && uuid1(Identity.CurrentTimestamp(env).value, "combustion").Success?
    ensures Identity.CurrentTimestamp(env).Failure? ==> r == Failure(Identity.CurrentTimestamp(env).error)
    ensures r.Success? ==>
      && Identity.CurrentTimestamp(env).Success?
      && ConfigDerived(r.value, cluster, gpaths, rpaths, params, Identity.CurrentTimestamp(env).value, uuid5, uuid1)
  {
    var tstamp :- Identity.CurrentTimestamp(env);
    Assemble(cluster, gpaths, rpaths, params, tstamp, uuid5, uuid1)
  }

  /** `config` with the timestamp as evidently intended. */
  function BuildConfigIntended(cluster: u16, gpaths: GlobalPaths, rpaths: RelativePaths, params: Params,
                               env: Identity.Env, uuid5: Identity.NameUuid, uuid1: Identity.TimeUuid)
    : (r: Result<Config, Error>)
    ensures r.Success? <==>
      && Identity.CurrentTimestampIntended(env).Success?
      && uuid1(Identity.CurrentTimestampIntended(env).value, "images").Success?
      && uuid1(Identity.CurrentTimestampIntended(env).value, "combustion").Success?
    ensures Identity.CurrentTimestampIntended(env).Failure? ==>
      r == Failure(Identity.CurrentTimestampIntended(env).error)
    ensures r.Success? ==>
      && Identity.CurrentTimestampIntended(env).Success?
      && ConfigDerived(r.value, cluster, gpaths, rpaths, params,
                       Identity.CurrentTimestampIntended(env).value, uuid5, uuid1)
  {
    var tstamp :- Identity.CurrentTimestampIntended(env);
    Assemble(cluster, gpaths, rpaths, params, tstamp, uuid5, uuid1)
  }

  /** `macaddress(0x0200, cluster, 0)` never takes its error branch. */
  lemma NetworkMacNeverFails(cluster: u16, params: Params, uuid5: Identity.NameUuid)
    ensures Mac.MacAddress(0x0200, cluster, 0) == Success(MakeNetwork(cluster, params, uuid5).macaddress)
  {
    var local: u16 := 0x0200;
    assert Mac.IsLocal(local);
    assert Mac.MacAddress(local, cluster, 0).Success?;
  }

  /** Nothing but the two path sets feeds `globals`. */
  lemma GlobalsOnlyFromPaths(
    cluster1: u16, params1: Params, env1: Identity.Env, uuid5a: Identity.NameUuid, uuid1a: Identity.TimeUuid,
    cluster2: u16, params2: Params, env2: Identity.Env, uuid5b: Identity.NameUuid, uuid1b: Identity.TimeUuid,
    gpaths: GlobalPaths, rpaths: RelativePaths)
    ensures BuildConfig(cluster1, gpaths, rpaths, params1, env1, uuid5a, uuid1a).Success?
         && BuildConfig(cluster2, gpaths, rpaths, params2, env2, uuid5b, uuid1b).Success?
        ==> (BuildConfig(cluster1, gpaths, rpaths, params1, env1, uuid5a, uuid1a).value.globals
             == BuildConfig(cluster2, gpaths, rpaths, params2, env2, uuid5b, uuid1b).value.globals)
  {
  }

  /** The network's UUID is a function of the network name alone: equal names
      give equal UUIDs whatever the other inputs. */
  lemma NetworkUuidFromNameOnly(
    cluster1: u16, gpaths1: GlobalPaths, rpaths1: RelativePaths, params1: Params, env1: Identity.Env, uuid1a: Identity.TimeUuid,
    cluster2: u16, gpaths2: GlobalPaths, rpaths2: RelativePaths, params2: Params, env2: Identity.Env, uuid1b: Identity.TimeUuid,
    uuid5: Identity.NameUuid)
    requires params1.network == params2.network
    ensures BuildConfig(cluster1, gpaths1, rpaths1, params1, env1, uuid5, uuid1a).Success?
         && BuildConfig(cluster2, gpaths2, rpaths2, params2, env2, uuid5, uuid1b).Success?
        ==> (BuildConfig(cluster1, gpaths1, rpaths1, params1, env1, uuid5, uuid1a).value.network.uuid
             == BuildConfig(cluster2, gpaths2, rpaths2, params2, env2, uuid5, uuid1b).value.network.uuid)
  {
  }

  /** `masters`, `workers`, `rootpw` and `network_macaddress_prefix` do not
      influence `config` at all. */
  lemma UnusedParamsIgnored(cluster: u16, gpaths: GlobalPaths, rpaths: RelativePaths,
                            params1: Params, params2: Params,
                            env: Identity.Env, uuid5: Identity.NameUuid, uuid1: Identity.TimeUuid)
    requires params1.cluster == params2.cluster && params1.domain == params2.domain
    requires params1.network == params2.network && params1.networkIntf == params2.networkIntf
    requires params1.networkBridge == params2.networkBridge
    ensures BuildConfig(cluster, gpaths, rpaths, params1, env, uuid5, uuid1)
         == BuildConfig(cluster, gpaths, rpaths, params2, env, uuid5, uuid1)
  {
    assert MakeNetwork(cluster, params1, uuid5) == MakeNetwork(cluster, params2, uuid5);
  }

  /** The MAC address takes the cluster octets from the `cluster` argument,
      while `Network.cluster` and `Network.domain` print `params.cluster`:
      the two sources of the cluster number are independent. */
  lemma MacFromClusterArgument(cluster: u16, params: Params, uuid5: Identity.NameUuid)
    ensures Mac.ParseMac(MakeNetwork(cluster, params, uuid5).macaddress) == Some((0x0200, cluster, 0))
    ensures Hex.Value(MakeNetwork(cluster, params, uuid5).cluster) == params.cluster
    ensures forall other: u32 ::
      MakeNetwork(cluster, params.(cluster := other), uuid5).macaddress == MakeNetwork(cluster, params, uuid5).macaddress
  {
  }

  /** The network record for the program's own inputs (cluster 0xf900 in both
      places, domain `2mincloud.com`). */
  lemma ShippedNetwork(cluster: u16, params: Params, uuid5: Identity.NameUuid)
    requires cluster == 0xf900 && params.cluster == 0xf900 && params.domain == "2mincloud.com"
    ensures MakeNetwork(cluster, params, uuid5).cluster == "f900"
    ensures MakeNetwork(cluster, params, uuid5).domain == "f900.2mincloud.com"
    ensures MakeNetwork(cluster, params, uuid5).macaddress == "02:00:f9:00:00:00"
  {
    ShippedNetworkText(cluster, params, uuid5);
    ShippedNetworkMac(cluster, params, uuid5);
  }

  lemma ShippedNetworkText(cluster: u16, params: Params, uuid5: Identity.NameUuid)
    requires params.cluster == 0xf900 && params.domain == "2mincloud.com"
    ensures MakeNetwork(cluster, params, uuid5).cluster == "f900"
    ensures MakeNetwork(cluster, params, uuid5).domain == "f900.2mincloud.com"
  {
    assert "f900" + "." + "2mincloud.com" == "f900.2mincloud.com";
    ShippedClusterText(params.cluster);
  }

  lemma ShippedNetworkMac(cluster: u16, params: Params, uuid5: Identity.NameUuid)
    requires cluster == 0xf900
    ensures MakeNetwork(cluster, params, uuid5).macaddress == "02:00:f9:00:00:00"
  {
    ShippedAddress(cluster);
  }

  /** Cluster 0xf900 prints as `f900`. */
  lemma ShippedClusterText(c: u32)
    requires c == 0xf900
    ensures Hex.Format(c, 4) == "f900"
  {
    assert Hex.Format(0xf900, 4) == "f900";
  }

  /** The MAC address of node 0 in cluster 0xf900. */
  lemma ShippedAddress(cluster: u16)
    requires cluster == 0xf900
    ensures Mac.MacAddress(0x0200, cluster, 0) == Success("02:00:f9:00:00:00")
  {
    var local: u16, zero: u16 := 0x0200, 0;
    assert Mac.Spelled(local, cluster, zero) == "02:00:f9:00:00:00";
    assert Mac.IsLocal(local);
    Mac.MacAddressDigits(local, cluster, zero);
  }

  /** As written, `config` fails on any present-day clock: the timestamp's
      nanosecond conversion overflows before any record is built. */
  lemma ConfigFailsOnPresentClock(cluster: u16, gpaths: GlobalPaths, rpaths: RelativePaths, params: Params,
                                  env: Identity.Env, uuid5: Identity.NameUuid, uuid1: Identity.TimeUuid)
    requires env.clock > Identity.LastAcceptedClock
    ensures BuildConfig(cluster, gpaths, rpaths, params, env, uuid5, uuid1) == Failure(IntConversion)
  {
    if env.pid / 0xff <= U16_MAX {
      Identity.TimestampWindow(env);
    }
  }

  /** With the intended timestamp, `config` succeeds on every clock reading
      from the epoch on, as long as the process id seeds a valid context and
      both v1 UUIDs can be made. */
  lemma IntendedConfigSucceeds(cluster: u16, gpaths: GlobalPaths, rpaths: RelativePaths, params: Params,
                               env: Identity.Env, uuid5: Identity.NameUuid, uuid1: Identity.TimeUuid)
    requires env.clock >= 0 && env.pid / 0xff <= U16_MAX
    requires forall ts: Identity.Timestamp :: uuid1(ts, "images").Success? && uuid1(ts, "combustion").Success?
    ensures BuildConfigIntended(cluster, gpaths, rpaths, params, env, uuid5, uuid1).Success?
  {
  }
}
