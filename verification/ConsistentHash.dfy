/** Consistent hashing: taking servers away moves only the keys they held. */
module ConsistentHash {
  import opened Bytes

  const TWO_32: nat := 0x1_0000_0000

  /** A backend; id stands for its identity as an object. */
  datatype Backend = Backend(id: nat, host: seq<byte>, port: int, healthy: bool)

  type Ring = map<nat, Backend>

  // ------------------------------------------------------------------ hashing

  /** std::to_string of a port, which may be any int. */
  function PortText(port: int): (r: seq<byte>) {
    if port < 0 then [45] + Decimal(-port) else Decimal(port)
  }

  /** BackendServer::address. */
  function Address(s: Backend): (r: seq<byte>) { s.host + [58] + PortText(s.port) }

  function NodeKey(s: Backend, i: nat): (r: seq<byte>) {
    Address(s) + [35] + Decimal(i)
  }

  /** hash = hash * 33 + c in 32 bits, starting from 5381. */
  function HashFrom(h: nat, s: seq<byte>): (r: nat)
    requires h < TWO_32
    ensures r < TWO_32
    decreases |s|
  {
    if s == [] then h else HashFrom((h * 33 + s[0] as int) % TWO_32, s[1..])
  }

  function Hash(s: seq<byte>): (r: nat)
    ensures r < TWO_32
  {
    HashFrom(5381, s)
  }

  // ------------------------------------------------------------------ the ring

  /** The first n virtual nodes of a server; a later node takes over a point that is taken. */
  function Place(ring: Ring, s: Backend, n: nat): (r: Ring) {
    if n == 0 then ring else Place(ring, s, n - 1)[Hash(NodeKey(s, n - 1)) := s]
  }

  function Build(servers: seq<Backend>, nodes: nat): (r: Ring) {
    if servers == [] then map[]
    else
      var ring, last := Build(servers[..|servers| - 1], nodes), servers[|servers| - 1];
      if last.healthy then Place(ring, last, nodes) else ring
  }

  /** The first point at or after k: std::map::lower_bound. */
  function LowerBound(ring: Ring, k: nat): (r: Option<nat>)
    ensures r.Some? ==> k <= r.value && r.value in ring && forall j | k <= j < r.value :: j !in ring
    ensures r.None? ==> forall j | k <= j < TWO_32 :: j !in ring
    decreases TWO_32 - k
  {
    if k >= TWO_32 then None else if k in ring then Some(k) else LowerBound(ring, k + 1)
  }

  /** The point a key maps to: the next one, or the first one past the end. */
  function Point(ring: Ring, key: nat): (r: Option<nat>) {
    if LowerBound(ring, key).Some? then LowerBound(ring, key) else LowerBound(ring, 0)
  }

  function Lookup(ring: Ring, key: nat): (r: Option<Backend>) {
    match Point(ring, key)
    case None => None
    case Some(p) => if p in ring then Some(ring[p]) else None
  }

  /** The point of a key: the least one not before it, or if there is none the least of all. */
  lemma {:induction false} PointIff(ring: Ring, key: nat, p: nat)
    requires forall h | h in ring :: h < TWO_32
    ensures Point(ring, key) == Some(p) <==>
            p in ring && if exists h :: h in ring && h >= key
                         then key <= p && forall h | h in ring && h >= key :: p <= h
                         else forall h | h in ring :: p <= h
  {
  }

  /** Which server a key goes to. */
  function Choice(servers: seq<Backend>, nodes: nat, key: nat): (r: Option<Backend>) {
    Lookup(Build(servers, nodes), key)
  }

  // ------------------------------------------------------------------ who owns a point

  predicate HasNode(s: Backend, nodes: nat, h: nat) {
    exists i | 0 <= i < nodes :: Hash(NodeKey(s, i)) == h
  }

  /** The last healthy server in the list with a virtual node at h. */
  function Owner(servers: seq<Backend>, nodes: nat, h: nat): (r: Option<Backend>) {
    if servers == [] then None
    else
      var last := servers[|servers| - 1];
      if last.healthy && HasNode(last, nodes, h) then Some(last) else Owner(servers[..|servers| - 1], nodes, h)
  }

  lemma {:induction false} PlaceIs(ring: Ring, s: Backend, n: nat, h: nat)
    ensures h in Place(ring, s, n) <==> h in ring || HasNode(s, n, h)
    ensures h in Place(ring, s, n) ==> Place(ring, s, n)[h] == if HasNode(s, n, h) then s else ring[h]
  {
    if n > 0 {
      PlaceIs(ring, s, n - 1, h);
      assert HasNode(s, n, h) <==> HasNode(s, n - 1, h) || Hash(NodeKey(s, n - 1)) == h by {
        if Hash(NodeKey(s, n - 1)) == h {
          assert HasNode(s, n, h);
        }
        if HasNode(s, n - 1, h) {
          var i :| 0 <= i < n - 1 && Hash(NodeKey(s, i)) == h;
          assert HasNode(s, n, h);
        }
      }
    }
  }

  /** The ring holds, at each point, its owner. */
  lemma {:induction false} BuildIs(servers: seq<Backend>, nodes: nat, h: nat)
    ensures Owner(servers, nodes, h) == if h in Build(servers, nodes) then Some(Build(servers, nodes)[h]) else None
    ensures h in Build(servers, nodes) ==> h < TWO_32
  {
    if servers != [] {
      var init, last := servers[..|servers| - 1], servers[|servers| - 1];
      BuildIs(init, nodes, h);
      PlaceIs(Build(init, nodes), last, nodes, h);
    }
  }

  // ------------------------------------------------------------------ taking servers away

  function Without(servers: seq<Backend>, keep: Backend -> bool): (r: seq<Backend>) {
    if servers == [] then []
    else
      var last := servers[|servers| - 1];
      Without(servers[..|servers| - 1], keep) + if keep(last) then [last] else []
  }

  predicate Healthy(s: Backend) {
    s.healthy
  }

  /** A point whose owner stays keeps its owner, and no new point appears. */
  lemma {:induction false} OwnerWithout(servers: seq<Backend>, keep: Backend -> bool, nodes: nat, h: nat)
    ensures var o, o' := Owner(servers, nodes, h), Owner(Without(servers, keep), nodes, h);
            && (o.Some? && keep(o.value) ==> o' == o)
            && (o'.Some? ==> o.Some? && keep(o'.value))
  {
    if servers != [] {
      var init, last := servers[..|servers| - 1], servers[|servers| - 1];
      OwnerWithout(init, keep, nodes, h);
      if keep(last) {
        var r := Without(servers, keep);
        assert r[..|r| - 1] == Without(init, keep);
      } else {
        assert Without(servers, keep) == Without(init, keep);
      }
    }
  }

  /** Of two rings the second has fewer points: a point both have that comes first in the first does in the second. */
  lemma {:induction false} FirstOfFewer(a: Ring, b: Ring, k: nat)
    requires (forall h | h in b :: h in a) && (forall h | h in a :: h < TWO_32)
    requires LowerBound(a, k).Some? && LowerBound(a, k).value in b
    ensures LowerBound(b, k) == LowerBound(a, k)
  {
    var p := LowerBound(a, k).value;
    assert p < TWO_32;
    var q := LowerBound(b, k);
    assert q.Some? && q.value <= p;
    assert q.value in a;
  }

  lemma {:induction false} NoneOfFewer(a: Ring, b: Ring, k: nat)
    requires forall h | h in b :: h in a
    requires LowerBound(a, k).None?
    ensures LowerBound(b, k).None?
    decreases TWO_32 - k
  {
    if k < TWO_32 {
      NoneOfFewer(a, b, k + 1);
    }
  }

  lemma {:induction false} PointOfFewer(a: Ring, b: Ring, key: nat)
    requires (forall h | h in b :: h in a) && (forall h | h in a :: h < TWO_32)
    requires Point(a, key).Some? && Point(a, key).value in b
    ensures Point(b, key) == Point(a, key)
  {
    if LowerBound(a, key).Some? {
      FirstOfFewer(a, b, key);
    } else {
      FirstOfFewer(a, b, 0);
      NoneOfFewer(a, b, key);
    }
  }

  /**
   Minimal disruption: a key keeps its server exactly when that server stays, for every list of servers, every set taken
   away, every number of virtual nodes and every key; wrap-around and colliding nodes included.
   */
  lemma {:induction false} MinimalDisruption(servers: seq<Backend>, keep: Backend -> bool, nodes: nat, key: nat)
    requires Choice(servers, nodes, key).Some?
    ensures Choice(Without(servers, keep), nodes, key) == Choice(servers, nodes, key) <==>
            keep(Choice(servers, nodes, key).value)
  {
    var a, b := Build(servers, nodes), Build(Without(servers, keep), nodes);
    var p := Point(a, key).value;
    forall h: nat
      ensures (h in b ==> h in a && keep(b[h])) && (h in a ==> h < TWO_32) &&
              (h in a && keep(a[h]) ==> h in b && b[h] == a[h])
    {
      BuildIs(servers, nodes, h);
      BuildIs(Without(servers, keep), nodes, h);
      OwnerWithout(servers, keep, nodes, h);
    }
    if keep(a[p]) {
      PointOfFewer(a, b, key);
    }
  }

  /** Marking servers unhealthy and rebuilding is taking them away. */
  function Marked(servers: seq<Backend>, down: Backend -> bool): (r: seq<Backend>) {
    seq(|servers|, i requires 0 <= i < |servers| =>
      if down(servers[i]) then servers[i].(healthy := false) else servers[i])
  }

  lemma {:induction false} MarkedIsWithout(servers: seq<Backend>, down: Backend -> bool, nodes: nat)
    ensures Build(Marked(servers, down), nodes) == Build(Without(servers, (s: Backend) => !down(s)), nodes)
  {
    if servers != [] {
      var keep := (s: Backend) => !down(s);
      var init, last := servers[..|servers| - 1], servers[|servers| - 1];
      MarkedIsWithout(init, down, nodes);
      var m, r := Marked(servers, down), Without(servers, keep);
      assert m[..|m| - 1] == Marked(init, down);
      if keep(last) {
        assert r[..|r| - 1] == Without(init, keep);
      } else {
        assert r == Without(init, keep);
      }
    }
  }

  lemma {:induction false} MarkingDisruption(servers: seq<Backend>, down: Backend -> bool, nodes: nat, key: nat)
    requires Choice(servers, nodes, key).Some?
    ensures Choice(Marked(servers, down), nodes, key) == Choice(servers, nodes, key) <==>
            !down(Choice(servers, nodes, key).value)
  {
    MarkedIsWithout(servers, down, nodes);
    MinimalDisruption(servers, (s: Backend) => !down(s), nodes, key);
  }

  // ------------------------------------------------------------------ the code

  /** hashString. */
  method HashString(str: seq<byte>) returns (hash: nat)
    ensures hash == Hash(str)
  {
    hash := 5381;
    var i := 0;
    assert str[0..] == str;
    while i < |str|
      invariant i <= |str| && hash < TWO_32 && HashFrom(hash, str[i..]) == Hash(str)
    {
      hash := (hash * 32 + hash + str[i] as int) % TWO_32;
      i := i + 1;
    }
  }

  class ConsistentHashStrategy {
    const virtualNodes: int
    var ring: Ring
    var servers: seq<Backend>

    constructor (virtualNodes: int)
      ensures this.virtualNodes == virtualNodes && ring == map[] && servers == []
    {
      this.virtualNodes := virtualNodes;
      ring, servers := map[], [];
    }

    /** A negative number of virtual nodes gives none. */
    function Nodes(): (n: nat) {
      if virtualNodes < 0 then 0 else virtualNodes
    }

    /** init: rebuilds the ring from the healthy servers. */
    method Init(all: seq<Backend>)
      modifies this
      ensures ring == Build(all, Nodes())
      ensures servers == Without(all, Healthy)
    {
      ring, servers := map[], [];
      var k := 0;
      while k < |all|
        invariant k <= |all|
        invariant ring == Build(all[..k], Nodes())
        invariant servers == Without(all[..k], Healthy)
      {
        assert all[..k + 1][..k] == all[..k];
        assert servers + [] == servers;
        var server := all[k];
        if server.healthy {
          servers := servers + [server];
          PlaceNodes(server);
        }
        k := k + 1;
      }
      assert all[..k] == all;
    }

    /** The virtual nodes of one server. */
    method PlaceNodes(server: Backend)
      modifies this`ring
      ensures ring == Place(old(ring), server, Nodes())
    {
      var i := 0;
      while i < virtualNodes
        invariant i <= Nodes() && ring == Place(old(ring), server, i)
      {
        var hash := HashString(NodeKey(server, i));
        ring := ring[hash := server];
        i := i + 1;
      }
    }

    /** selectWithKey. */
    method SelectWithKey(key: nat) returns (server: Option<Backend>)
      requires key < TWO_32 && forall h | h in ring :: h < TWO_32
      ensures server == Lookup(ring, key)
      ensures server.None? <==> ring == map[]
    {
      if ring == map[] {
        return None;
      }
      var it := LowerBound(ring, key);
      if it.None? {
        it := LowerBound(ring, 0);
      }
      assert it.Some? by {
        var h :| h in ring;
        assert h < TWO_32;
      }
      server := Some(ring[it.value]);
    }
  }
}
