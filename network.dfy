/**
 The deterministic part of the `/create-network` handler (src/index.js): the
 request defaults, the substitution of each node's address into the
 static-node list, the geth node-type flag written into each node's start
 script, and the docker-compose service generated per node. The genesis tool,
 the file system, docker and the HTTP layer are outside the model: the
 static-node list the genesis tool wrote and the network directory come in
 as parameters.
 */
module Network {
  import opened JsText

  datatype Option<T> = None | Some(value: T)

  /**
   The handler's outcome: the derived configuration, the RangeError
   `Array(n)` throws for a length that is not a 32-bit unsigned integer, or the
   TypeError `.join` throws at the node whose censor targets are not an array.
   The catch block turns either error into a 500 reply.
   */
  datatype Result<T> = Ok(value: T) | RangeError | TypeError(node: nat)

  /**
   A `censorTargets[i]` value as `censorTargets[i] || []` and `.join(',')`
   see it: falsy (absent, null, false, 0, ""), an array of addresses, or any
   other truthy value (a string, a number, an object), which has no `join`.
   */
  datatype TargetsValue = Falsy | TargetArray(addresses: seq<string>) | NotAnArray

  /**
   The request-body fields the handler reads. None stands for a field that is
   missing or falsy (null, false, ""), which the handler replaces by its default.
   */
  datatype CreateNetworkRequest = CreateNetworkRequest(
    nodes: Option<int>,
    nodeTypes: Option<seq<string>>,
    censorTargets: Option<map<nat, TargetsValue>>)

  // ---------------------------------------------------------------------------
  // Defaults
  // ---------------------------------------------------------------------------

  const DefaultNodeCount := 3

  /** `req.body.nodes || 3`: a count of 0 is falsy and is replaced as well. */
  function NodeCount(nodes: Option<int>): int {
    if nodes.None? || nodes.value == 0 then DefaultNodeCount else nodes.value
  }

  /** `Array(n)` accepts exactly the lengths 0 .. 2^32 - 1. */
  const ArrayLengthLimit := 0x1_0000_0000

  /** `req.body.nodeTypes || Array(NODES_NB).fill('normal')`. */
  function NodeTypes(given: Option<seq<string>>, count: int): Result<seq<string>> {
    match given
    case Some(types) => Ok(types)
    case None =>
      if count < 0 || count >= ArrayLengthLimit then RangeError
      else Ok(seq(count, _ => "normal"))
  }

  /** `req.body.censorTargets || {}`. */
  function CensorTargetMap(given: Option<map<nat, TargetsValue>>): map<nat, TargetsValue> {
    if given.Some? then given.value else map[]
  }

  // ---------------------------------------------------------------------------
  // Node type and start-script flag
  // ---------------------------------------------------------------------------

  /** `nodeTypes[i]`: undefined past the end of the array. */
  function NodeTypeAt(types: seq<string>, i: nat): Option<string> {
    if i < |types| then Some(types[i]) else None
  }

  /** `censorTargets[i]`: undefined, which is falsy, for a missing key. */
  function ConfiguredTargets(targets: map<nat, TargetsValue>, i: nat): TargetsValue {
    if i in targets then targets[i] else Falsy
  }

  /** `nodeType === 'censor' ? censorTargets[i] || [] : []`. */
  function CensorTargetsFor(nodeType: Option<string>, targets: map<nat, TargetsValue>, i: nat): TargetsValue {
    if nodeType == Some("censor") && !ConfiguredTargets(targets, i).Falsy? then ConfiguredTargets(targets, i)
    else TargetArray([])
  }

  const DisplaceFlag: string := "--nodetype displace"
  const CensorFlagPrefix: string := "--nodetype censor --censored \"["
  const CensorFlagSuffix: string := "]\""

  /**
   The flag a node of this type gets on its geth command line; None when the
   censor targets have no `join`, which throws a TypeError.
   */
  function NodeTypeFlag(nodeType: Option<string>, targets: TargetsValue): Option<string> {
    if nodeType == Some("censor") then
      if targets.TargetArray? then Some(CensorFlagPrefix + Join(targets.addresses) + CensorFlagSuffix)
      else None
    else if nodeType == Some("displace") then Some(DisplaceFlag)
    else Some("")
  }

  /** Building node i's flag throws. */
  predicate JoinFails(types: seq<string>, targets: map<nat, TargetsValue>, i: nat) {
    NodeTypeFlag(NodeTypeAt(types, i), CensorTargetsFor(NodeTypeAt(types, i), targets, i)).None?
  }

  /** What geth is told to be. */
  datatype Role = Normal | Displace | Censor(targets: seq<string>)

  /** Reads a node-type flag back (the partner of NodeTypeFlag). */
  function ParseFlag(flag: string): Option<Role> {
    if flag == "" then Some(Normal)
    else if flag == DisplaceFlag then Some(Displace)
    else if |flag| >= |CensorFlagPrefix| + |CensorFlagSuffix|
         && flag[..|CensorFlagPrefix|] == CensorFlagPrefix
         && flag[|flag| - |CensorFlagSuffix|..] == CensorFlagSuffix
    then
      var inner := flag[|CensorFlagPrefix|..|flag| - |CensorFlagSuffix|];
      Some(Censor(if inner == "" then [] else Split(inner)))
    else None
  }

  /** Censor targets as the handler expects them: non-empty addresses without commas. */
  predicate WellFormedTargets(targets: seq<string>) {
    forall k :: 0 <= k < |targets| ==> targets[k] != "" && CommaFree(targets[k])
  }

  // ---------------------------------------------------------------------------
  // Addresses, ports and the compose service of node i
  // ---------------------------------------------------------------------------

  const SubnetPrefix: string := "172.16.239."

  /** `172.16.239.${10 + i}`. */
  function NodeIp(i: nat): string {
    SubnetPrefix + Decimal(10 + i)
  }

  /** The host port mapped to node i's HTTP-RPC port. */
  function HttpPort(i: nat): nat {
    8545 + i
  }

  /** The compose service key `node${i}`. */
  function ServiceName(i: nat): string {
    "node" + Decimal(i)
  }

  /** `path.join(networkDir, 'Node-' + i, 'data')`, for a directory without a trailing slash. */
  function NodeDataPath(networkDir: string, i: nat): string {
    networkDir + "/Node-" + Decimal(i) + "/data"
  }

  datatype Service = Service(
    image: string,
    ports: seq<string>,
    volumes: seq<string>,
    ipv4Address: string,
    entrypoint: string)

  /** The compose service generated for node i. */
  function ServiceFor(networkDir: string, i: nat): Service {
    Service(
      "your-quorum-image",
      ["30303", "8546", Decimal(HttpPort(i)) + ":8545"],
      [NodeDataPath(networkDir, i) + ":/data"],
      NodeIp(i),
      "/data/start-node.sh")
  }

  /** The docker-compose document: version, services, and the one bridge network. */
  datatype Compose = Compose(
    version: string,
    services: map<string, Service>,
    networkName: string,
    driver: string,
    subnet: string)

  // ---------------------------------------------------------------------------
  // The static-node list
  // ---------------------------------------------------------------------------

  /** `staticNodes.map((node, index) => node.replace(/<HOST>/g, `172.16.239.${10 + index}`))`. */
  function SubstituteHosts(entries: seq<string>): seq<string> {
    seq(|entries|, i requires 0 <= i < |entries| => ReplaceHost(entries[i], NodeIp(i)))
  }

  // ---------------------------------------------------------------------------
  // The per-node loop and the handler
  // ---------------------------------------------------------------------------

  function NonNegative(n: int): nat {
    if n < 0 then 0 else n
  }

  /** One compose service per node, keyed `node0` .. `node(count-1)`, and no other key. */
  predicate ServicesBuilt(count: nat, networkDir: string, services: map<string, Service>) {
    && |services| == count
    && services.Keys == (set i: nat | i < count :: ServiceName(i))
    && forall i :: 0 <= i < count ==>
         ServiceName(i) in services && services[ServiceName(i)] == ServiceFor(networkDir, i)
  }

  /** One start-script flag per node, in node order (so no node's flag threw). */
  predicate FlagsBuilt(count: nat, types: seq<string>, targets: map<nat, TargetsValue>, flags: seq<string>) {
    && |flags| == count
    && forall i :: 0 <= i < count ==>
         NodeTypeFlag(NodeTypeAt(types, i), CensorTargetsFor(NodeTypeAt(types, i), targets, i)) == Some(flags[i])
  }

  /** What the node loop leaves behind for `count` nodes. */
  predicate NodesBuilt(
    count: nat, types: seq<string>, targets: map<nat, TargetsValue>, networkDir: string,
    services: map<string, Service>, flags: seq<string>)
  {
    ServicesBuilt(count, networkDir, services) && FlagsBuilt(count, types, targets, flags)
  }

  /** The compose services and the start-script flags of all nodes. */
  datatype Nodes = Nodes(services: map<string, Service>, flags: seq<string>)

  /**
   The `for` loop over the nodes: computes each node's flag (the `let
   nodeTypeFlag` reassignment) and adds its service to the compose services.
   The first node whose censor targets have no `join` ends the loop with a
   TypeError.
   */
  method BuildNodes(count: int, types: seq<string>, targets: map<nat, TargetsValue>, networkDir: string)
    returns (r: Result<Nodes>)
    ensures !r.RangeError?
    ensures r.Ok? <==> forall j :: 0 <= j < NonNegative(count) ==> !JoinFails(types, targets, j)
    ensures r.Ok? ==> NodesBuilt(NonNegative(count), types, targets, networkDir, r.value.services, r.value.flags)
    ensures r.TypeError? ==>
      && r.node < NonNegative(count)
      && JoinFails(types, targets, r.node)
      && forall j :: 0 <= j < r.node ==> !JoinFails(types, targets, j)
  {
    var services := map[];
    var flags := [];
    var i := 0;
    while i < count
      invariant 0 <= i <= NonNegative(count)
      invariant ServicesBuilt(i, networkDir, services)
      invariant FlagsBuilt(i, types, targets, flags)
    {
      var nodeType := NodeTypeAt(types, i);
      var censorTargetAddresses := CensorTargetsFor(nodeType, targets, i);
      var nodeTypeFlag := "";
      if nodeType == Some("censor") {
        if !censorTargetAddresses.TargetArray? {
          FlagsBuiltHaveNoFailure(i, types, targets, flags);
          assert JoinFails(types, targets, i);
          return TypeError(i);
        }
        nodeTypeFlag := CensorFlagPrefix + Join(censorTargetAddresses.addresses) + CensorFlagSuffix;
      } else if nodeType == Some("displace") {
        nodeTypeFlag := DisplaceFlag;
      }
      ServicesBuiltExtend(i, networkDir, services);
      FlagsBuiltExtend(i, types, targets, flags, nodeTypeFlag);
      flags := flags + [nodeTypeFlag];
      services := services[ServiceName(i) := ServiceFor(networkDir, i)];
      i := i + 1;
    }
    FlagsBuiltHaveNoFailure(NonNegative(count), types, targets, flags);
    return Ok(Nodes(services, flags));
  }

  /** Nodes whose flags were built did not throw. */
  lemma FlagsBuiltHaveNoFailure(i: nat, types: seq<string>, targets: map<nat, TargetsValue>, flags: seq<string>)
    requires FlagsBuilt(i, types, targets, flags)
    ensures forall j :: 0 <= j < i ==> !JoinFails(types, targets, j)
  {
  }

  /** Appending node i's flag to the flags of nodes 0 .. i-1. */
  lemma FlagsBuiltExtend(i: nat, types: seq<string>, targets: map<nat, TargetsValue>, flags: seq<string>, flag: string)
    requires FlagsBuilt(i, types, targets, flags)
    requires NodeTypeFlag(NodeTypeAt(types, i), CensorTargetsFor(NodeTypeAt(types, i), targets, i)) == Some(flag)
    ensures FlagsBuilt(i + 1, types, targets, flags + [flag])
  {
    assert forall j :: 0 <= j < i ==> (flags + [flag])[j] == flags[j];
  }

  /** Adding node i's service to the services of nodes 0 .. i-1 overwrites none of them. */
  lemma ServicesBuiltExtend(i: nat, networkDir: string, services: map<string, Service>)
    requires ServicesBuilt(i, networkDir, services)
    ensures ServicesBuilt(i + 1, networkDir, services[ServiceName(i) := ServiceFor(networkDir, i)])
  {
    NodeKeysExtend(i, services, ServiceFor(networkDir, i));
  }

  /** The keys of nodes 0 .. i-1. */
  function NodeNames(i: nat): set<string> {
    set j: nat | j < i :: ServiceName(j)
  }

  /** The key `node${i}` is new among the keys of nodes 0 .. i-1. */
  lemma NodeNamesExtend(i: nat)
    ensures ServiceName(i) !in NodeNames(i)
    ensures NodeNames(i + 1) == NodeNames(i) + {ServiceName(i)}
  {
    forall j: nat | j < i
      ensures ServiceName(j) != ServiceName(i)
    {
      ServiceNamesDistinct(i, j);
    }
    forall x | x in NodeNames(i + 1)
      ensures x in NodeNames(i) + {ServiceName(i)}
    {
      var j: nat :| j < i + 1 && x == ServiceName(j);
    }
  }

  /** Adding the entry for node i to a map keyed by the nodes 0 .. i-1 overwrites nothing. */
  lemma NodeKeysExtend<V>(i: nat, m: map<string, V>, v: V)
    requires m.Keys == (set j: nat | j < i :: ServiceName(j)) && |m| == i
    ensures m[ServiceName(i) := v].Keys == (set j: nat | j < i + 1 :: ServiceName(j))
    ensures |m[ServiceName(i) := v]| == i + 1
    ensures forall j :: 0 <= j < i ==> m[ServiceName(i) := v][ServiceName(j)] == m[ServiceName(j)]
  {
    NodeNamesExtend(i);
    assert m.Keys == NodeNames(i);
    assert (set j: nat | j < i + 1 :: ServiceName(j)) == NodeNames(i + 1);
  }

  /** The configuration the handler derives before writing it out. */
  datatype NetworkConfig = NetworkConfig(
    nodeCount: int,
    staticNodes: seq<string>,
    startFlags: seq<string>,
    compose: Compose)

  /**
   The `/create-network` handler without its I/O: applies the defaults,
   substitutes the node addresses into the static-node list the genesis tool
   wrote, and builds one start flag and one compose service per node.
   */
  method CreateNetwork(req: CreateNetworkRequest, staticNodes: seq<string>, networkDir: string)
    returns (r: Result<NetworkConfig>)
    ensures r.RangeError? <==>
      req.nodeTypes.None? && (NodeCount(req.nodes) < 0 || NodeCount(req.nodes) >= ArrayLengthLimit)
    ensures NodeTypes(req.nodeTypes, NodeCount(req.nodes)).Ok? ==>
      var n := NonNegative(NodeCount(req.nodes));
      var types := NodeTypes(req.nodeTypes, NodeCount(req.nodes)).value;
      var targets := CensorTargetMap(req.censorTargets);
      && (r.Ok? <==> forall j :: 0 <= j < n ==> !JoinFails(types, targets, j))
      && (r.TypeError? ==>
            r.node < n && JoinFails(types, targets, r.node) &&
            forall j :: 0 <= j < r.node ==> !JoinFails(types, targets, j))
    ensures r.Ok? ==>
      var n := NodeCount(req.nodes);
      && r.value.nodeCount == n
      && r.value.staticNodes == SubstituteHosts(staticNodes)
      && r.value.compose.version == "3"
      && r.value.compose.networkName == "quorum_network"
      && r.value.compose.driver == "bridge"
      && r.value.compose.subnet == "172.16.239.0/24"
      && NodeTypes(req.nodeTypes, n).Ok?
      && NodesBuilt(NonNegative(n), NodeTypes(req.nodeTypes, n).value, CensorTargetMap(req.censorTargets),
                    networkDir, r.value.compose.services, r.value.startFlags)
  {
    var nodesNb := NodeCount(req.nodes);
    var nodeTypes := NodeTypes(req.nodeTypes, nodesNb);
    if nodeTypes.RangeError? {
      return RangeError;
    }
    var censorTargets := CensorTargetMap(req.censorTargets);
    var entries := SubstituteHosts(staticNodes);
    var nodes := BuildNodes(nodesNb, nodeTypes.value, censorTargets, networkDir);
    if nodes.TypeError? {
      return TypeError(nodes.node);
    }
    var compose := Compose("3", nodes.value.services, "quorum_network", "bridge", "172.16.239.0/24");
    return Ok(NetworkConfig(nodesNb, entries, nodes.value.flags, compose));
  }

  // ---------------------------------------------------------------------------
  // Lemmas
  // ---------------------------------------------------------------------------

  /** Service keys of different nodes differ. */
  lemma ServiceNamesDistinct(i: nat, j: nat)
    requires i != j
    ensures ServiceName(i) != ServiceName(j)
  {
    if ServiceName(i) == ServiceName(j) {
      assert ServiceName(i)[4..] == Decimal(i) && ServiceName(j)[4..] == Decimal(j);
      DecimalInjective(i, j);
    }
  }

  /**
   Node i's address is in the 172.16.239.0/24 subnet with last field 10 + i,
   so different nodes get different addresses; its HTTP port mapping reads back
   as host port 8545 + i onto container port 8545.
   */
  lemma NodeAddressing(networkDir: string, i: nat)
    ensures var s := ServiceFor(networkDir, i);
      && s.ipv4Address == NodeIp(i)
      && IsDottedNumeric(NodeIp(i))
      && NodeIp(i)[..|SubnetPrefix|] == SubnetPrefix
      && AllDigits(NodeIp(i)[|SubnetPrefix|..])
      && ParseDecimal(NodeIp(i)[|SubnetPrefix|..]) == 10 + i
      && |s.ports| == 3
      && |s.ports[2]| > 5
      && s.ports[2][|s.ports[2]| - 5..] == ":8545"
      && AllDigits(s.ports[2][..|s.ports[2]| - 5])
      && ParseDecimal(s.ports[2][..|s.ports[2]| - 5]) == 8545 + i
  {
    var ip := NodeIp(i);
    assert ip[|SubnetPrefix|..] == Decimal(10 + i);
    ParseDecimalOfDecimal(10 + i);
    var m := Decimal(HttpPort(i)) + ":8545";
    assert m[..|m| - 5] == Decimal(8545 + i);
    ParseDecimalOfDecimal(8545 + i);
  }

  /**
   Each static-node entry gets its own node's address: every placeholder in
   entry i becomes the address of compose service i, the text around the
   placeholders is kept, an entry without a placeholder is unchanged, and no
   placeholder is left anywhere.
   */
  lemma StaticNodesUseServiceAddresses(entries: seq<string>, networkDir: string)
    ensures |SubstituteHosts(entries)| == |entries|
    ensures forall i :: 0 <= i < |entries| ==>
      !HasPlaceholder(SubstituteHosts(entries)[i])
    ensures forall i :: 0 <= i < |entries| && !HasPlaceholder(entries[i]) ==>
      SubstituteHosts(entries)[i] == entries[i]
    ensures forall i, a, b :: 0 <= i < |entries| && entries[i] == a + Placeholder + b && !HasPlaceholder(a) ==>
      SubstituteHosts(entries)[i] == a + ServiceFor(networkDir, i).ipv4Address + ReplaceHost(b, NodeIp(i))
  {
    var r := SubstituteHosts(entries);
    forall i | 0 <= i < |entries|
      ensures !HasPlaceholder(r[i])
      ensures !HasPlaceholder(entries[i]) ==> r[i] == entries[i]
    {
      NodeAddressing(networkDir, i);
      ReplaceHostLeavesNoPlaceholder(entries[i], NodeIp(i));
      if !HasPlaceholder(entries[i]) {
        ReplaceHostWithoutPlaceholder(entries[i], NodeIp(i));
      }
    }
    forall i, a, b | 0 <= i < |entries| && entries[i] == a + Placeholder + b && !HasPlaceholder(a)
      ensures r[i] == a + ServiceFor(networkDir, i).ipv4Address + ReplaceHost(b, NodeIp(i))
    {
      ReplaceHostAtFirstPlaceholder(a, b, NodeIp(i));
    }
  }

  /**
   The flag says what the node is told to be: a censor node's flag carries its
   configured targets in order (none if its entry is falsy), and throws when
   they are not an array; a 'displace' node's flag is exactly
   `--nodetype displace`; any other or missing type gets the empty flag.
   */
  lemma NodeTypeFlagEncodesRole(types: seq<string>, targets: map<nat, TargetsValue>, i: nat)
    requires NodeTypeAt(types, i) == Some("censor") && ConfiguredTargets(targets, i).TargetArray? ==>
      WellFormedTargets(ConfiguredTargets(targets, i).addresses)
    ensures var t := NodeTypeAt(types, i);
      var c := ConfiguredTargets(targets, i);
      var flag := NodeTypeFlag(t, CensorTargetsFor(t, targets, i));
      && (JoinFails(types, targets, i) <==> t == Some("censor") && c.NotAnArray?)
      && (t == Some("censor") && c.TargetArray? ==> ParseFlag(flag.value) == Some(Censor(c.addresses)))
      && (t == Some("censor") && c.Falsy? ==> ParseFlag(flag.value) == Some(Censor([])))
      && (t == Some("displace") ==> flag == Some(DisplaceFlag) && ParseFlag(flag.value) == Some(Displace))
      && (t != Some("censor") && t != Some("displace") ==> flag == Some("") && ParseFlag(flag.value) == Some(Normal))
      && (t != Some("censor") ==> CensorTargetsFor(t, targets, i) == TargetArray([]))
  {
    var t := NodeTypeAt(types, i);
    var c := CensorTargetsFor(t, targets, i);
    if t == Some("censor") && c.TargetArray? {
      CensorFlagRoundTrip(c.addresses);
    }
  }

  /**
   The join escapes nothing, so the flag loses information outside
   WellFormedTargets: an empty address vanishes, and an address containing a
   comma reads as two.
   */
  lemma CensorFlagMergesTargets()
    ensures NodeTypeFlag(Some("censor"), TargetArray([""])) == NodeTypeFlag(Some("censor"), TargetArray([]))
    ensures NodeTypeFlag(Some("censor"), TargetArray(["a,b"])) == NodeTypeFlag(Some("censor"), TargetArray(["a", "b"]))
    ensures ParseFlag(NodeTypeFlag(Some("censor"), TargetArray(["a,b"])).value) == Some(Censor(["a", "b"]))
  {
    assert Join(["a", "b"]) == "a,b";
    CensorFlagRoundTrip(["a", "b"]);
  }

  /** For non-empty, comma-free targets the censor flag reads back as exactly those targets. */
  lemma CensorFlagRoundTrip(targets: seq<string>)
    requires WellFormedTargets(targets)
    ensures ParseFlag(CensorFlagPrefix + Join(targets) + CensorFlagSuffix) == Some(Censor(targets))
  {
    var j := Join(targets);
    var flag := CensorFlagPrefix + j + CensorFlagSuffix;
    assert flag[..|CensorFlagPrefix|] == CensorFlagPrefix;
    assert flag[|flag| - |CensorFlagSuffix|..] == CensorFlagSuffix;
    assert flag[|CensorFlagPrefix|..|flag| - |CensorFlagSuffix|] == j;
    assert flag != DisplaceFlag by {
      assert |flag| > |DisplaceFlag|;
    }
    if targets != [] {
      assert |j| > 0 by {
        if |targets| > 1 {
          assert j == targets[0] + "," + Join(targets[1..]);
        }
      }
      SplitJoin(targets);
    }
  }

  /**
   A request without `nodes` (or with 0) and without `nodeTypes` gives three
   nodes, `node0`..`node2`, all of type 'normal' and so all with the empty flag.
   */
  lemma DefaultRequestGivesThreeNormalNodes(
    req: CreateNetworkRequest, networkDir: string, services: map<string, Service>, flags: seq<string>)
    requires req.nodes == None || req.nodes == Some(0)
    requires req.nodeTypes == None
    requires NodesBuilt(3, NodeTypes(req.nodeTypes, NodeCount(req.nodes)).value,
                        CensorTargetMap(req.censorTargets), networkDir, services, flags)
    ensures NodeTypes(req.nodeTypes, NodeCount(req.nodes)) == Ok(["normal", "normal", "normal"])
    ensures |services| == 3 && flags == ["", "", ""]
    ensures services.Keys == {"node0", "node1", "node2"}
  {
    var types := NodeTypes(req.nodeTypes, 3).value;
    assert types == ["normal", "normal", "normal"];
    DefaultTypesGiveEmptyFlags(types, CensorTargetMap(req.censorTargets), flags);
    DefaultServiceKeys(networkDir, services);
  }

  lemma DefaultTypesGiveEmptyFlags(types: seq<string>, targets: map<nat, TargetsValue>, flags: seq<string>)
    requires types == ["normal", "normal", "normal"]
    requires FlagsBuilt(3, types, targets, flags)
    ensures flags == ["", "", ""]
  {
    forall i | 0 <= i < 3
      ensures flags[i] == ""
    {
      assert NodeTypeAt(types, i) == Some("normal");
    }
  }

  lemma DefaultServiceKeys(networkDir: string, services: map<string, Service>)
    requires ServicesBuilt(3, networkDir, services)
    ensures services.Keys == {"node0", "node1", "node2"}
  {
    assert ServiceName(0) == "node0" && ServiceName(1) == "node1" && ServiceName(2) == "node2";
    assert (set i: nat | i < 3 :: ServiceName(i)) == {ServiceName(0), ServiceName(1), ServiceName(2)};
  }
}
