/** The node store: no two listeners collide, and every reference is live. */
module Nodes {
  import opened Wrappers
  import opened Prefixes
  import opened Hosts
  import opened Netmasks

  datatype Kind = Snell | SS2022 | ShadowTLS | AnyConnect

  datatype Config = Config(mode: string, udpEnabled: bool, vpnNetwork: string)

  datatype Node = Node(kind: Kind, host: string, port: int, backend: string, config: Config, running: bool)

  // A request to create or change a node. fieldsOk tells whether the checks of the
  // fields that this model does not have pass.
  datatype Request = Request(host: string, port: int, backend: string, config: Config, fieldsOk: bool)

  datatype NodeError = Invalid | PortConflict | PoolConflict | BadBackend | Exists | Missing | HasDependents | BadId

  // ----- Validation

  function Normalize(kind: Kind, req: Request): Request {
    var hosted := if req.host == "" then req.(host := "0.0.0" + ".0") else req;
    if kind == AnyConnect && hosted.config.vpnNetwork == "" then
      hosted.(config := hosted.config.(vpnNetwork := "192.168.144.0" + "/24"))
    else hosted
  }

  lemma NormalizeAgain(kind: Kind, req: Request)
    ensures Normalize(kind, Normalize(kind, req)) == Normalize(kind, req)
  {}

  // A private IPv4 address.
  predicate IsPrivate(a: int) {
    0x0A00_0000 <= a < 0x0B00_0000 || 0xAC10_0000 <= a < 0xAC20_0000 || 0xC0A8_0000 <= a < 0xC0A9_0000
  }

  predicate ValidPool(text: string) {
    match ParsePrefix(text)
    case None => false
    case Some(p) => p == p.Masked() && 16 <= p.bits <= 29 && IsPrivate(p.base)
  }

  predicate Validate(kind: Kind, req: Request) {
    && req.fieldsOk && ValidHost(req.host)
    && 1 <= req.port <= 65535
    && (kind == SS2022 ==> req.config.mode in {"tcp_and_udp", "tcp_only", "udp_only"})
    && (kind == ShadowTLS ==> req.backend != "")
    && (kind == AnyConnect ==> ValidPool(req.config.vpnNetwork))
  }

  predicate IsAlphanumeric(c: char) {
    'a' <= c <= 'z' || 'A' <= c <= 'Z' || '0' <= c <= '9'
  }

  // The ids that portable imports may bring; generated ids have this form too.
  predicate ValidNodeId(id: string) {
    && 1 <= |id| <= 128 && IsAlphanumeric(id[0])
    && forall i :: 0 <= i < |id| ==> IsAlphanumeric(id[i]) || id[i] == '.' || id[i] == '_' || id[i] == '-'
  }

  // ----- Conflicts

  function Protocols(kind: Kind, config: Config): seq<string> {
    if kind == AnyConnect then (if config.udpEnabled then ["tcp", "udp"] else ["tcp"])
    else if kind != SS2022 then ["tcp"]
    else if config.mode == "tcp_only" then ["tcp"]
    else if config.mode == "udp_only" then ["udp"]
    else ["tcp", "udp"]
  }

  predicate ShareProtocol(a: Node, b: Node) {
    exists p :: p in Protocols(a.kind, a.config) && p in Protocols(b.kind, b.config)
  }

  // Two nodes that could not listen at the same time, as far as the texts of their hosts tell.
  predicate Collide(a: Node, b: Node) {
    a.port == b.port && HostsOverlap(a.host, b.host) && ShareProtocol(a, b)
  }

  function PoolOf(n: Node): (p: Option<Prefix>)
    ensures p.Some? ==> p.value.InRange()
  {
    if n.kind == AnyConnect then ParsePrefix(n.config.vpnNetwork) else None
  }

  // The test of the store: one of the base addresses lies in the other pool.
  predicate PoolsTouch(a: Node, b: Node) {
    var p, q := PoolOf(a), PoolOf(b);
    p.Some? && q.Some? && (p.value.Contains(q.value.base) || q.value.Contains(p.value.base))
  }

  ghost function PoolAddrs(n: Node): set<int> {
    if PoolOf(n).Some? then PoolOf(n).value.Addrs() else {}
  }

  predicate PoolAligned(n: Node) {
    n.kind == AnyConnect ==> PoolOf(n).Some? && PoolOf(n).value.Aligned()
  }

  // Two containment tests of base addresses decide whether the pools share an address.
  lemma PoolTestExact(a: Node, b: Node)
    requires PoolAligned(a) && PoolAligned(b)
    ensures PoolsTouch(a, b) <==> !(PoolAddrs(a) !! PoolAddrs(b))
  {
    if PoolOf(a).Some? && PoolOf(b).Some? {
      OverlapByBases(PoolOf(a).value, PoolOf(b).value);
    }
  }

  lemma ValidPoolAligned(n: Node)
    requires n.kind == AnyConnect ==> ValidPool(n.config.vpnNetwork)
    ensures PoolAligned(n)
  {
    if n.kind == AnyConnect {
      MaskedAligned(PoolOf(n).value);
    }
  }

  predicate IsBackendKind(kind: Kind) {
    kind == Snell || kind == SS2022
  }

  // ----- The invariant

  ghost predicate PortsFree(nodes: map<string, Node>) {
    forall a, b {:trigger Collide(nodes[a], nodes[b])} ::
      a in nodes && b in nodes && a != b ==> !Collide(nodes[a], nodes[b])
  }

  ghost predicate PoolsDisjoint(nodes: map<string, Node>) {
    forall a, b {:trigger PoolAddrs(nodes[a]), PoolAddrs(nodes[b])} ::
      a in nodes && b in nodes && a != b ==> PoolAddrs(nodes[a]) !! PoolAddrs(nodes[b])
  }

  ghost predicate BackendsLive(nodes: map<string, Node>) {
    forall a :: a in nodes && nodes[a].kind == ShadowTLS ==>
      nodes[a].backend in nodes && IsBackendKind(nodes[nodes[a].backend].kind)
  }

  // A stored node, read as a request, is valid and complete.
  predicate Complete(n: Node) {
    Validate(n.kind, RequestOf(n, true)) && Normalize(n.kind, RequestOf(n, true)) == RequestOf(n, true)
  }

  ghost predicate Sound(nodes: map<string, Node>) {
    && PortsFree(nodes) && PoolsDisjoint(nodes) && BackendsLive(nodes)
    && (forall a {:trigger ValidNodeId(a)} :: a in nodes ==> ValidNodeId(a))
    && (forall a {:trigger nodes[a].port} :: a in nodes ==> 1 <= nodes[a].port <= 65535)
    && (forall a {:trigger PoolAligned(nodes[a])} :: a in nodes ==> PoolAligned(nodes[a]))
    && (forall a {:trigger Complete(nodes[a])} :: a in nodes ==> Complete(nodes[a]))
  }

  // Nothing in the store except the excluded node is in the way of the node.
  predicate Fits(nodes: map<string, Node>, exclude: string, n: Node) {
    && (forall a :: a in nodes && a != exclude ==> !Collide(nodes[a], n))
    && (forall a :: a in nodes && a != exclude ==> !PoolsTouch(nodes[a], n))
  }

  lemma PutPorts(nodes: map<string, Node>, id: string, n: Node)
    requires PortsFree(nodes) && forall a :: a in nodes && a != id ==> !Collide(nodes[a], n)
    ensures PortsFree(nodes[id := n])
  {
    forall a | a in nodes && a != id
      ensures !Collide(n, nodes[a])
    {
      assert ShareProtocol(n, nodes[a]) ==> ShareProtocol(nodes[a], n);
    }
  }

  lemma PutPools(nodes: map<string, Node>, id: string, n: Node)
    requires PoolsDisjoint(nodes) && PoolAligned(n)
    requires forall a :: a in nodes && a != id ==> PoolAligned(nodes[a]) && !PoolsTouch(nodes[a], n)
    ensures PoolsDisjoint(nodes[id := n])
  {
    forall a | a in nodes && a != id
      ensures PoolAddrs(nodes[a]) !! PoolAddrs(n)
    {
      PoolTestExact(nodes[a], n);
    }
  }

  lemma PutBackends(nodes: map<string, Node>, id: string, n: Node)
    requires BackendsLive(nodes) && (id in nodes ==> nodes[id].kind == n.kind)
    requires n.kind == ShadowTLS ==> n.backend in nodes && IsBackendKind(nodes[n.backend].kind)
    ensures BackendsLive(nodes[id := n])
  {}

  // Putting a node that fits into a sound store keeps the store sound.
  lemma {:induction false} PutKeepsSound(nodes: map<string, Node>, id: string, n: Node)
    requires Sound(nodes) && Fits(nodes, id, n) && ValidNodeId(id)
    requires PoolAligned(n) && 1 <= n.port <= 65535 && Complete(n)
    requires id in nodes ==> nodes[id].kind == n.kind
    requires n.kind == ShadowTLS ==> n.backend in nodes && IsBackendKind(nodes[n.backend].kind)
    ensures Sound(nodes[id := n])
  {
    PutPorts(nodes, id, n);
    PutPools(nodes, id, n);
    PutBackends(nodes, id, n);
  }

  lemma FitsNew(nodes: map<string, Node>, id: string, n: Node)
    requires Fits(nodes, "", n) && Sound(nodes)
    ensures Fits(nodes, id, n)
  {
    assert !ValidNodeId("");
  }

  // The request is valid and the node it describes is in the way of no other.
  predicate Storable(nodes: map<string, Node>, exclude: string, kind: Kind, req: Request, running: bool) {
    && Validate(kind, req)
    && Fits(nodes, exclude, NodeOf(kind, req, running))
    && (kind == ShadowTLS ==> req.backend in nodes && IsBackendKind(nodes[req.backend].kind))
  }

  function NodeOf(kind: Kind, req: Request, running: bool): Node {
    Node(kind, req.host, req.port, req.backend, req.config, running)
  }

  function RequestOf(n: Node, fieldsOk: bool): Request {
    Request(n.host, n.port, n.backend, n.config, fieldsOk)
  }

  function Updated(n: Node, request: Request): Node {
    NodeOf(n.kind, Normalize(n.kind, request), n.running)
  }

  // The store takes the changed node.
  predicate Accepts(nodes: map<string, Node>, id: string, request: Request) {
    id in nodes && Storable(nodes, id, nodes[id].kind, Normalize(nodes[id].kind, request), nodes[id].running)
  }

  // In a sound store every other node keeps out of the way of the node.
  lemma SoundFits(nodes: map<string, Node>, id: string, after: map<string, Node>)
    requires Sound(nodes) && id in nodes
    requires forall a :: a in after && a != id ==> a in nodes && after[a] == nodes[a]
    ensures Fits(after, id, nodes[id])
  {
    forall a | a in after && a != id
      ensures !PoolsTouch(after[a], nodes[id])
    {
      PoolTestExact(nodes[a], nodes[id]);
    }
  }

  lemma CompleteAgain(n: Node, fieldsOk: bool)
    requires Complete(n)
    ensures Normalize(n.kind, RequestOf(n, fieldsOk)) == RequestOf(n, fieldsOk)
    ensures Validate(n.kind, RequestOf(n, fieldsOk)) <==> fieldsOk
  {}

  lemma SoundNode(nodes: map<string, Node>, id: string, after: map<string, Node>)
    requires Sound(nodes) && id in nodes && nodes.Keys == after.Keys
    requires forall a :: a in after ==> after[a].kind == nodes[a].kind && (a == id || after[a] == nodes[a])
    ensures var n := nodes[id];
            && Complete(n) && Fits(after, id, n)
            && (n.kind == ShadowTLS ==> n.backend in after && IsBackendKind(after[n.backend].kind))
  {
    SoundFits(nodes, id, after);
  }

  lemma StorableAgain(nodes: map<string, Node>, id: string, n: Node, fieldsOk: bool)
    requires Complete(n) && Fits(nodes, id, n)
    requires n.kind == ShadowTLS ==> n.backend in nodes && IsBackendKind(nodes[n.backend].kind)
    ensures Storable(nodes, id, n.kind, RequestOf(n, fieldsOk), n.running) <==> fieldsOk
    ensures NodeOf(n.kind, RequestOf(n, fieldsOk), n.running) == n
  {
    CompleteAgain(n, fieldsOk);
  }

  // After a node has been changed, its old values are taken back exactly when their other
  // fields still pass the checks, and then the store is the one before.
  lemma RollbackRestores(nodes: map<string, Node>, id: string, changed: Node, fieldsOk: bool)
    requires Sound(nodes) && id in nodes
    requires changed.kind == nodes[id].kind && changed.running == nodes[id].running
    ensures var after, back := nodes[id := changed], RequestOf(nodes[id], fieldsOk);
            && Normalize(changed.kind, back) == back
            && (Storable(after, id, changed.kind, back, changed.running) <==> fieldsOk)
            && after[id := NodeOf(changed.kind, back, changed.running)] == nodes
  {
    SoundNode(nodes, id, nodes[id := changed]);
    StorableAgain(nodes[id := changed], id, nodes[id], fieldsOk);
    CompleteAgain(nodes[id], fieldsOk);
  }

  lemma StorableKeepsSound(nodes: map<string, Node>, id: string, exclude: string, kind: Kind, req: Request,
                           running: bool)
    requires Normalize(kind, req) == req && Sound(nodes) && ValidNodeId(id)
             && Storable(nodes, exclude, kind, req, running)
    requires if id in nodes then exclude == id && nodes[id].kind == kind else exclude == ""
    ensures Sound(nodes[id := NodeOf(kind, req, running)])
  {
    var n := NodeOf(kind, req, running);
    ValidPoolAligned(n);
    if id !in nodes {
      FitsNew(nodes, id, n);
    }
    PutKeepsSound(nodes, id, n);
  }

  // The conflict check can read the pool of a valid request.
  lemma ValidPoolReads(kind: Kind, req: Request, running: bool)
    requires Validate(kind, req)
    ensures kind == AnyConnect ==> PoolOf(NodeOf(kind, req, running)).Some?
  {}

  // ----- What a node listens to

  // A node listens to UDP if it is AnyConnect with UDP or Shadowsocks in a mode with UDP, and
  // to TCP unless it is Shadowsocks with UDP only.
  predicate ListensUdp(n: Node) {
    (n.kind == AnyConnect && n.config.udpEnabled)
    || (n.kind == SS2022 && (n.config.mode == "tcp_and_udp" || n.config.mode == "udp_only"))
  }

  predicate ListensTcp(n: Node) {
    !(n.kind == SS2022 && n.config.mode == "udp_only")
  }

  predicate Listens(n: Node, protocol: string) {
    (protocol == "tcp" && ListensTcp(n)) || (protocol == "udp" && ListensUdp(n))
  }

  lemma ProtocolsListen(n: Node, protocol: string)
    requires Complete(n)
    ensures protocol in Protocols(n.kind, n.config) <==> Listens(n, protocol)
  {}

  predicate UdpOnly(n: Node) {
    n.kind == SS2022 && n.config.mode == "udp_only"
  }

  // Snell, ShadowTLS, AnyConnect without UDP, and Shadowsocks with TCP only.
  predicate WithoutUdp(n: Node) {
    || n.kind == Snell || n.kind == ShadowTLS
    || (n.kind == AnyConnect && !n.config.udpEnabled) || (n.kind == SS2022 && n.config.mode == "tcp_only")
  }

  // Two nodes share no protocol exactly when one listens to UDP only and the other not to UDP.
  lemma SharedProtocols(a: Node, b: Node)
    requires Complete(a) && Complete(b)
    ensures !ShareProtocol(a, b) <==> (UdpOnly(a) && WithoutUdp(b)) || (UdpOnly(b) && WithoutUdp(a))
    ensures ShareProtocol(a, b) <==> (ListensTcp(a) && ListensTcp(b)) || (ListensUdp(a) && ListensUdp(b))
  {
    ProtocolsListen(a, "tcp");
    ProtocolsListen(b, "tcp");
    ProtocolsListen(a, "udp");
    ProtocolsListen(b, "udp");
    forall p | p in Protocols(a.kind, a.config) && p in Protocols(b.kind, b.config)
      ensures p == "tcp" || p == "udp"
    {
      ProtocolsListen(a, p);
    }
  }

  // ----- What the conflict test means for the addresses

  // Two nodes that listen on one port and protocol of a common address.
  ghost predicate ShareEndpoint(a: Node, b: Node) {
    && a.port == b.port && ((ListensTcp(a) && ListensTcp(b)) || (ListensUdp(a) && ListensUdp(b)))
    && ValidHost(a.host) && ValidHost(b.host)
    && AddressesOverlap(ParseIP(a.host).value, ParseIP(b.host).value)
  }

  // The test never refuses without a reason.
  lemma CollideSound(a: Node, b: Node)
    requires Collide(a, b) && Complete(a) && Complete(b)
    ensures ShareEndpoint(a, b)
  {
    SharedProtocols(a, b);
    OverlapSound(a.host, b.host);
  }

  // When all hosts are written in canonical form, no two stored nodes share an endpoint.
  lemma ListenersApart(nodes: map<string, Node>)
    requires Sound(nodes) && forall a :: a in nodes ==> IsCanonicalHost(nodes[a].host)
    ensures forall a, b :: a in nodes && b in nodes && a != b ==> !ShareEndpoint(nodes[a], nodes[b])
  {
    forall a, b | a in nodes && b in nodes && a != b
      ensures !ShareEndpoint(nodes[a], nodes[b])
    {
      assert !Collide(nodes[a], nodes[b]) && Complete(nodes[a]) && Complete(nodes[b]);
      SharedProtocols(nodes[a], nodes[b]);
      CanonicalExact(nodes[a].host, nodes[b].host);
    }
  }

  function SnellAt(host: string, port: int, config: Config): Request {
    Request(host, port, "", config, true)
  }

  // One IPv6 address in two spellings: the store takes a node for each on one port.
  lemma TwoSpellings(id: string, port: int, config: Config, g: Groups)
    requires ValidNodeId(id) && 1 <= port <= 65535
    requires IsIP(g) && !IsV4(g) && !IsAny(g) && ZeroRun(g, LongestRun(g, 0)) >= 2
    ensures var short, full := SnellAt(Spelled(g), port, config), SnellAt(InFull(g), port, config);
            var nodes := map[id := NodeOf(Snell, short, true)];
            && Storable(map[], "", Snell, short, true) && Storable(nodes, "", Snell, full, true)
            && ShareEndpoint(nodes[id], NodeOf(Snell, full, true))
  {
    FullSlips(g);
    var n := NodeOf(Snell, SnellAt(Spelled(g), port, config), true);
    var m := NodeOf(Snell, SnellAt(InFull(g), port, config), true);
    assert "tcp" in Protocols(n.kind, n.config) && "tcp" in Protocols(m.kind, m.config);
  }

  class Store {
    var nodes: map<string, Node>

    ghost predicate Valid()
      reads this
    {
      Sound(nodes)
    }

    constructor ()
      ensures Valid() && nodes == map[]
    {
      nodes := map[];
    }

    // Goes through the rows on the same port, then through the VPN pools.
    method CheckConflict(exclude: string, n: Node) returns (problem: Option<NodeError>)
      ensures problem.None? <==> Fits(nodes, exclude, n) && (n.kind == AnyConnect ==> PoolOf(n).Some?)
      ensures problem.Some? ==> problem.value in {PortConflict, Invalid, PoolConflict}
      ensures problem == Some(Invalid) ==> n.kind == AnyConnect && PoolOf(n).None?
      ensures problem == Some(PortConflict) <==> exists a :: a in nodes && a != exclude && Collide(nodes[a], n)
    {
      var rows := set a | a in nodes && nodes[a].port == n.port && a != exclude;
      while rows != {}
        invariant forall a :: a in rows ==> a in nodes && nodes[a].port == n.port && a != exclude
        invariant forall a :: a in nodes && a != exclude && a !in rows ==> !Collide(nodes[a], n)
        decreases rows
      {
        var a :| a in rows;
        if HostsOverlap(n.host, nodes[a].host) && ShareProtocol(nodes[a], n) {
          return Some(PortConflict);
        }
        rows := rows - {a};
      }
      if n.kind != AnyConnect {
        return None;
      }
      if PoolOf(n).None? {
        return Some(Invalid);
      }
      var pools := set a | a in nodes && nodes[a].kind == AnyConnect && a != exclude;
      while pools != {}
        invariant forall a :: a in pools ==> a in nodes && nodes[a].kind == AnyConnect && a != exclude
        invariant forall a :: a in nodes && a != exclude && a !in pools ==> !PoolsTouch(nodes[a], n)
        decreases pools
      {
        var a :| a in pools;
        if PoolsTouch(nodes[a], n) {
          return Some(PoolConflict);
        }
        pools := pools - {a};
      }
      problem := None;
    }

    predicate BackendOk(id: string)
      reads this
    {
      id in nodes && IsBackendKind(nodes[id].kind)
    }

    // Validation, the conflict check and the backend check, in this order.
    method Admit(exclude: string, kind: Kind, req: Request, running: bool) returns (problem: Option<NodeError>)
      ensures problem.None? <==> Storable(nodes, exclude, kind, req, running)
    {
      if !Validate(kind, req) {
        return Some(Invalid);
      }
      ValidPoolReads(kind, req, running);
      problem := CheckConflict(exclude, NodeOf(kind, req, running));
      if problem.None? && kind == ShadowTLS && !BackendOk(req.backend) {
        problem := Some(BadBackend);
      }
    }

    // Writes the row of an admitted node.
    method Put(id: string, exclude: string, kind: Kind, req: Request, running: bool)
      requires Valid() && ValidNodeId(id) && Storable(nodes, exclude, kind, req, running)
      requires Normalize(kind, req) == req
      requires if id in nodes then exclude == id && nodes[id].kind == kind else exclude == ""
      modifies this
      ensures Valid() && nodes == old(nodes)[id := NodeOf(kind, req, running)]
    {
      StorableKeepsSound(nodes, id, exclude, kind, req, running);
      nodes := nodes[id := NodeOf(kind, req, running)];
    }

    method CreateWithID(id: string, kind: Kind, request: Request) returns (r: Result<(), NodeError>)
      requires Valid()
      modifies this
      ensures Valid()
      ensures r.Err? ==> nodes == old(nodes)
      ensures r.Ok? ==> nodes == old(nodes)[id := NodeOf(kind, Normalize(kind, request), true)]
      ensures r.Ok? <==> ValidNodeId(id) && id !in old(nodes)
                         && Storable(old(nodes), "", kind, Normalize(kind, request), true)
    {
      if !ValidNodeId(id) {
        return Err(BadId);
      }
      var req := Normalize(kind, request);
      var problem := Admit("", kind, req, true);
      if problem.Some? {
        r := Err(problem.value);
      } else if id in nodes {
        r := Err(Exists);
      } else {
        NormalizeAgain(kind, request);
        Put(id, "", kind, req, true);
        r := Ok(());
      }
    }

    method Update(id: string, request: Request) returns (r: Result<(), NodeError>)
      requires Valid()
      modifies this
      ensures Valid()
      ensures r.Err? ==> nodes == old(nodes)
      ensures r.Ok? <==> Accepts(old(nodes), id, request)
      ensures r.Ok? ==> nodes == old(nodes)[id := Updated(old(nodes)[id], request)]
    {
      if id !in nodes {
        return Err(Missing);
      }
      var kind, running := nodes[id].kind, nodes[id].running;
      var req := Normalize(kind, request);
      var problem := Admit(id, kind, req, running);
      if problem.Some? {
        return Err(problem.value);
      }
      NormalizeAgain(kind, request);
      Put(id, id, kind, req, running);
      r := Ok(());
    }

    // An unknown id is deleted without an error; a backend in use is not deleted.
    method Delete(id: string) returns (r: Result<(), NodeError>)
      requires Valid()
      modifies this
      ensures Valid()
      ensures r.Ok? <==> id == "" || forall a :: a in old(nodes) ==> old(nodes)[a].backend != id
      ensures nodes == if r.Ok? then old(nodes) - {id} else old(nodes)
    {
      if id != "" && exists a :: a in nodes && nodes[a].backend == id {
        return Err(HasDependents);
      }
      assert !ValidNodeId("");
      nodes := nodes - {id};
      r := Ok(());
    }

    method SetDesired(id: string, running: bool) returns (r: Result<(), NodeError>)
      requires Valid()
      modifies this
      ensures Valid()
      ensures r.Ok? <==> id in old(nodes)
      ensures nodes == if r.Ok? then old(nodes)[id := old(nodes)[id].(running := running)] else old(nodes)
    {
      if id !in nodes {
        return Err(Missing);
      }
      RunningKeepsSound(nodes, id, running);
      nodes := nodes[id := nodes[id].(running := running)];
      r := Ok(());
    }
  }

  lemma RunningKeepsSound(nodes: map<string, Node>, id: string, running: bool)
    requires Sound(nodes) && id in nodes
    ensures Sound(nodes[id := nodes[id].(running := running)])
  {
    var before, n := nodes[id], nodes[id].(running := running);
    assert PoolAligned(before) && Complete(before) && PoolAddrs(before) == PoolAddrs(n);
    forall a | a in nodes && a != id
      ensures !Collide(nodes[a], n) && !PoolsTouch(nodes[a], n)
    {
      assert Collide(nodes[a], n) == Collide(nodes[a], before);
      assert PoolAligned(nodes[a]);
      PoolTestExact(nodes[a], before);
    }
    PutKeepsSound(nodes, id, n);
  }
}
