/** What the node store admits and keeps, in terms of kinds, modes, addresses and pools. */
module NodeRules {
  import opened Prefixes
  import opened Text
  import opened Addresses
  import opened Netmasks
  import opened SpecialTable
  import opened Hosts
  import opened Nodes

  // ----- Pools

  // Ten, 172.16 to 172.31, and 192.168.
  lemma {:induction false} PrivateOctets(a: int, b: int, c: int, d: int)
    requires IsByte(a) && IsByte(b) && IsByte(c) && IsByte(d)
    ensures IsPrivate(Quad(a, b, c, d)) <==> a == 10 || (a == 172 && 16 <= b <= 31) || (a == 192 && b == 168)
  {}

  // A pool is an address and a length from 16 to 29, where the address is private and the
  // first of its block.
  predicate IsPool(text: string, p: Prefix) {
    && p.Aligned() && 16 <= p.bits <= 29 && IsPrivate(p.base)
    && text == FormatAddr(p.base) + ['/'] + Itoa(p.bits)
  }

  lemma {:induction false} PoolExact(text: string)
    ensures ValidPool(text) <==> exists p :: IsPool(text, p)
  {
    if ValidPool(text) {
      var p := ParsePrefix(text).value;
      MaskedAligned(p);
      PrefixExact(text, p);
      assert IsPool(text, p);
    }
    if p :| IsPool(text, p) {
      PrefixExact(text, p);
      AlignedBase(p);
    }
  }

  lemma {:induction false} AlignedBase(p: Prefix)
    requires p.Aligned()
    ensures p == p.Masked() && p.InRange()
  {
    SizePositive(p);
  }

  lemma {:induction false} SizePositive(p: Prefix)
    ensures p.Size() >= 1
  {}

  // ----- What a sound store keeps

  predicate ValidMode(mode: string) {
    mode == "tcp_and_udp" || mode == "tcp_only" || mode == "udp_only"
  }

  // What every stored node looks like.
  predicate WellMade(nodes: map<string, Node>, id: string)
    requires id in nodes
  {
    var n := nodes[id];
    && 1 <= n.port <= 65535 && ParseIP(n.host).Some?
    && (n.kind == SS2022 ==> ValidMode(n.config.mode))
    && (n.kind == ShadowTLS ==> n.backend in nodes
                                && (nodes[n.backend].kind == Snell || nodes[n.backend].kind == SS2022))
    && (n.kind == AnyConnect ==> ValidPool(n.config.vpnNetwork))
  }

  // The conflict of two nodes, in terms of what they are.
  ghost predicate InTheWay(a: Node, b: Node) {
    || (a.port == b.port && HostsOverlap(a.host, b.host)
        && ((ListensTcp(a) && ListensTcp(b)) || (ListensUdp(a) && ListensUdp(b))))
    || (a.kind == AnyConnect && b.kind == AnyConnect && !(PoolAddrs(a) !! PoolAddrs(b)))
  }

  lemma {:induction false} ConflictIs(a: Node, b: Node)
    requires Complete(a) && Complete(b)
    ensures Collide(a, b) || PoolsTouch(a, b) <==> InTheWay(a, b)
  {
    SharedProtocols(a, b);
    ValidPoolAligned(a);
    ValidPoolAligned(b);
    PoolTestExact(a, b);
  }

  // In a sound store every node is well made and no two are in each other's way.
  lemma {:induction false} SoundStore(nodes: map<string, Node>)
    requires Sound(nodes)
    ensures forall id :: id in nodes ==> WellMade(nodes, id)
    ensures forall a, b :: a in nodes && b in nodes && a != b ==> !InTheWay(nodes[a], nodes[b])
  {
    forall id | id in nodes
      ensures WellMade(nodes, id)
    {
      assert Complete(nodes[id]);
    }
    forall a, b | a in nodes && b in nodes && a != b
      ensures !InTheWay(nodes[a], nodes[b])
    {
      assert Complete(nodes[a]) && Complete(nodes[b]) && PoolAligned(nodes[a]) && PoolAligned(nodes[b]);
      assert !Collide(nodes[a], nodes[b]) && PoolAddrs(nodes[a]) !! PoolAddrs(nodes[b]);
      PoolTestExact(nodes[a], nodes[b]);
      ConflictIs(nodes[a], nodes[b]);
    }
  }

  // ----- What is admitted

  // An id starts with a letter or a digit and goes on with up to 127 of these, dots,
  // underscores and hyphens.
  lemma {:induction false} NodeIdIs(id: string, head: char, tail: string)
    requires id == [head] + tail
    ensures ValidNodeId(id) <==>
            && |tail| <= 127 && ('a' <= head <= 'z' || 'A' <= head <= 'Z' || '0' <= head <= '9')
            && forall c :: c in tail ==> 'a' <= c <= 'z' || 'A' <= c <= 'Z' || '0' <= c <= '9' || c in {'.', '_', '-'}
  {
    assert id[0] == head && id[1..] == tail;
    assert forall i :: 0 <= i < |tail| ==> tail[i] == id[i + 1];
    assert forall i :: 0 < i < |id| ==> id[i] in tail;
  }

  // A request without a host is one for all IPv4 addresses, an AnyConnect request without a
  // pool gets 192.168.144.0/24, and nothing else is filled in.
  lemma {:induction false} NormalizeFills(kind: Kind, req: Request)
    ensures var r := Normalize(kind, req);
            && (if req.host == "" then IsWildcard(r.host) && '.' in r.host else r.host == req.host)
            && (if kind == AnyConnect && req.config.vpnNetwork == "" then r.config.vpnNetwork == "192.168.144.0" + "/24"
                else r.config.vpnNetwork == req.config.vpnNetwork)
            && r == req.(host := r.host, config := req.config.(vpnNetwork := r.config.vpnNetwork))
            && Normalize(kind, r) == r
  {
    assert ("0.0.0" + ".0")[1] == '.';
  }

  // What is stored for a request: a new node, and a change of a node.
  lemma {:induction false} StoredFields(kind: Kind, req: Request, n: Node)
    ensures var r, m := Normalize(kind, req), NodeOf(kind, Normalize(kind, req), true);
            && m.kind == kind && m.running && m.port == req.port && m.backend == req.backend
            && m.host == r.host && m.config == r.config
    ensures var r, m := Normalize(n.kind, req), Updated(n, req);
            && m.kind == n.kind && m.running == n.running && m.port == req.port && m.backend == req.backend
            && m.host == r.host && m.config == r.config
  {}

  // The request describes a node that could be stored, seen by itself.
  predicate ValidRequest(kind: Kind, req: Request) {
    && req.fieldsOk && ParseIP(req.host).Some? && 1 <= req.port <= 65535
    && (kind == SS2022 ==> ValidMode(req.config.mode))
    && (kind == ShadowTLS ==> req.backend != "")
    && (kind == AnyConnect ==> ValidPool(req.config.vpnNetwork))
  }

  lemma {:induction false} ValidExactly(kind: Kind, req: Request)
    ensures Validate(kind, req) <==> ValidRequest(kind, req)
  {}

  // A new node is taken exactly when its request is valid, it is in the way of no stored
  // node, and a ShadowTLS node has a stored Snell or Shadowsocks node behind it.
  lemma {:induction false} AdmittedExactly(nodes: map<string, Node>, exclude: string, kind: Kind, req: Request,
                                           running: bool)
    requires Sound(nodes) && Normalize(kind, req) == req
    ensures Storable(nodes, exclude, kind, req, running) <==>
            && ValidRequest(kind, req)
            && (forall a :: a in nodes && a != exclude ==> !InTheWay(nodes[a], NodeOf(kind, req, running)))
            && (kind == ShadowTLS ==> req.backend in nodes
                                      && (nodes[req.backend].kind == Snell || nodes[req.backend].kind == SS2022))
  {
    var n := NodeOf(kind, req, running);
    ValidExactly(kind, req);
    if Validate(kind, req) {
      assert Complete(n);
      forall a | a in nodes
        ensures Collide(nodes[a], n) || PoolsTouch(nodes[a], n) <==> InTheWay(nodes[a], n)
      {
        assert Complete(nodes[a]);
        ConflictIs(nodes[a], n);
      }
    }
  }

  // A Shadowsocks node with TCP and UDP and one with UDP only cannot share a port and a host.
  lemma {:induction false} BothModesConflict(nodes: map<string, Node>, id: string, req: Request, running: bool)
    requires Sound(nodes) && id in nodes && nodes[id].kind == SS2022 && nodes[id].config.mode == "tcp_and_udp"
    requires req.config.mode == "udp_only" && req.host == nodes[id].host && req.port == nodes[id].port
    requires Normalize(SS2022, req) == req && id != ""
    ensures !Storable(nodes, "", SS2022, req, running)
  {
    AdmittedExactly(nodes, "", SS2022, req, running);
    assert nodes[id].port == req.port && ListensUdp(nodes[id]);
    assert InTheWay(nodes[id], NodeOf(SS2022, req, running));
  }
}
