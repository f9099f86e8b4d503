/** Upstream groups as the code keeps them: a linked list of servers with per-server counters. */
module LoadBalancer {
  import opened Arith
  import opened Text
  import opened SmoothWrr
  import opened WeightedDraw
  import opened CyclicScan

  datatype Status = Up | Down | Checking | Unknown

  /** What a selection reads and writes of one server. */
  datatype View = View(maxFails: int, failTimeout: int, maxConns: int,
                       status: Status, connections: int, failures: int, lastFailure: int, peer: Peer)
  {
    predicate Available(now: int) {
      && status != Down
      && !(maxConns > 0 && connections >= maxConns)
      && (failures < maxFails || now - lastFailure >= failTimeout)
    }

    /** Asking for availability forgives an expired series of failures. */
    function Asked(now: int): View {
      if Available(now) && failures >= maxFails then this.(failures := 0) else this
    }
  }

  /** The defaults of `upstream_server_create`. */
  function NewView(weight: int): View {
    View(3, 30, 1000, Unknown, 0, 0, 0, Peer(weight, weight, 0))
  }

  class Server {
    const host: string
    const port: int
    const weight: int
    const maxFails: int
    const failTimeout: int
    const maxConns: int
    var status: Status
    var currentConnections: int
    var consecutiveFailures: int
    var lastFailureTime: int
    var currentWeight: int
    var effectiveWeight: int
    var next: Server?

    constructor (host: string, port: int, weight: int)
      ensures this.host == host && this.port == port && this.weight == weight && next == null
      ensures AsView() == NewView(weight)
      ensures maxFails == 3 && failTimeout == 30 && maxConns == 1000 && status == Unknown && currentConnections == 0
      ensures consecutiveFailures == 0 && lastFailureTime == 0 && currentWeight == 0 && effectiveWeight == weight
    {
      this.host, this.port, this.weight := host, port, weight;
      maxFails, failTimeout, maxConns := 3, 30, 1000;
      status, currentConnections, consecutiveFailures, lastFailureTime := Unknown, 0, 0, 0;
      currentWeight, effectiveWeight, next := 0, weight, null;
    }

    function AsView(): View
      reads this
    {
      View(maxFails, failTimeout, maxConns, status, currentConnections, consecutiveFailures, lastFailureTime,
           Peer(weight, effectiveWeight, currentWeight))
    }

    method IsAvailable(now: int) returns (ok: bool)
      modifies this`consecutiveFailures
      ensures ok == old(AsView()).Available(now)
      ensures AsView() == old(AsView()).Asked(now)
    {
      if status == Down { return false; }
      if maxConns > 0 && currentConnections >= maxConns { return false; }
      if consecutiveFailures >= maxFails {
        if now - lastFailureTime < failTimeout { return false; }
        consecutiveFailures := 0;
      }
      return true;
    }
  }

  function Earned(v: View, now: int): View {
    v.Asked(now).(peer := Bump(v.peer, v.Available(now)))
  }

  /** The group after its first k servers have been asked for availability. */
  function AskedTo(vs: seq<View>, now: int, k: nat): (r: seq<View>)
    requires k <= |vs|
    ensures |r| == |vs|
  {
    seq(|vs|, i requires 0 <= i < |vs| => if i < k then vs[i].Asked(now) else vs[i])
  }

  /** The group after one server has been asked. */
  function Forgiven(vs: seq<View>, i: nat, now: int): (r: seq<View>)
    requires i < |vs|
    ensures |r| == |vs|
  {
    vs[i := vs[i].Asked(now)]
  }

  lemma AskedKeepsWeights(vs: seq<View>, now: int)
    ensures Peers(AskedTo(vs, now, |vs|)) == Peers(vs)
    ensures UpNow(AskedTo(vs, now, |vs|), now) == UpNow(vs, now)
  {
    assert Peers(AskedTo(vs, now, |vs|)) == Peers(vs);
    assert UpNow(AskedTo(vs, now, |vs|), now) == UpNow(vs, now);
  }

  /** The group after the walk has passed its first k servers. */
  function EarnedTo(vs: seq<View>, now: int, k: nat): (r: seq<View>)
    requires k <= |vs|
    ensures |r| == |vs|
  {
    seq(|vs|, i requires 0 <= i < |vs| => if i < k then Earned(vs[i], now) else vs[i])
  }

  lemma WalkStarts(vs: seq<View>, now: int)
    ensures EarnedTo(vs, now, 0) == vs
    ensures UpTotal(Peers(vs), UpNow(vs, now), 0) == 0
    ensures Best(Bumped(Peers(vs), UpNow(vs, now)), UpNow(vs, now), 0) == NoPeer
  {
  }

  lemma SumStarts(vs: seq<View>, now: int)
    ensures AskedTo(vs, now, 0) == vs && UpWeight(Peers(vs), UpNow(vs, now), 0) == 0
  {
  }

  /** One more server asked and counted. */
  lemma AskedNext(vs: seq<View>, now: int, i: nat)
    requires i < |vs|
    ensures AskedTo(vs, now, i + 1) == AskedTo(vs, now, i)[i := vs[i].Asked(now)] && AskedTo(vs, now, i)[i] == vs[i]
    ensures UpWeight(Peers(vs), UpNow(vs, now), i + 1)
         == UpWeight(Peers(vs), UpNow(vs, now), i) + if vs[i].Available(now) then vs[i].peer.weight else 0
  {
  }

  /** One more server counted and compared. */
  lemma WalkNext(ps: seq<Peer>, qs: seq<Peer>, up: seq<bool>, i: nat)
    requires i < |ps| == |qs| == |up|
    ensures UpTotal(ps, up, i + 1) == UpTotal(ps, up, i) + if up[i] then ps[i].effective else 0
    ensures var b := Best(qs, up, i);
            Best(qs, up, i + 1)
            == if up[i] && (b.NoPeer? || qs[i].current > qs[b.index].current) then Chosen(i) else b
  {
  }

  /** One more server passed: it was still as found, and from now on its peer is the bumped one. */
  lemma EarnedNext(vs: seq<View>, now: int, i: nat)
    requires i < |vs|
    ensures EarnedTo(vs, now, i + 1) == EarnedTo(vs, now, i)[i := Earned(vs[i], now)] && EarnedTo(vs, now, i)[i] == vs[i]
    ensures Peers(vs)[i] == vs[i].peer && UpNow(vs, now)[i] == vs[i].Available(now)
    ensures forall j :: 0 <= j <= i ==> EarnedTo(vs, now, i + 1)[j].peer == Bumped(Peers(vs), UpNow(vs, now))[j]
  {
  }

  function Peers(vs: seq<View>): (r: seq<Peer>)
    ensures |r| == |vs|
  {
    seq(|vs|, i requires 0 <= i < |vs| => vs[i].peer)
  }

  function UpNow(vs: seq<View>, now: int): (r: seq<bool>)
    ensures |r| == |vs|
  {
    seq(|vs|, i requires 0 <= i < |vs| => vs[i].Available(now))
  }

  /** A weighted round robin call on the whole group: the peers make one `Round`, all failures are asked about. */
  function Balanced(vs: seq<View>, now: int): (r: seq<View>)
    ensures |r| == |vs|
  {
    var ps := Round(Peers(vs), UpNow(vs, now)).1;
    seq(|vs|, i requires 0 <= i < |vs| => vs[i].Asked(now).(peer := ps[i]))
  }

  /** The winner pays. */
  function Settled(vs: seq<View>, c: Choice, total: int): (r: seq<View>)
    requires c.Chosen? ==> c.index < |vs|
    ensures |r| == |vs|
  {
    match c
    case NoPeer => vs
    case Chosen(b) => vs[b := vs[b].(peer := vs[b].peer.(current := vs[b].peer.current - total))]
  }

  /** Walking and then settling is one `Round`, and it leaves the configured weights alone. */
  lemma SettledIsBalanced(vs: seq<View>, earned: seq<View>, now: int)
    requires |earned| == |vs| && forall i :: 0 <= i < |vs| ==> earned[i] == Earned(vs[i], now)
    ensures Peers(earned) == Bumped(Peers(vs), UpNow(vs, now))
    ensures Settled(earned, Best(Peers(earned), UpNow(vs, now), |vs|), UpTotal(Peers(vs), UpNow(vs, now), |vs|))
         == Balanced(vs, now)
    ensures WeightSum(Peers(Balanced(vs, now)), |vs|) == WeightSum(Peers(vs), |vs|)
    ensures Weighted(Peers(vs)) ==> Weighted(Peers(Balanced(vs, now)))
  {
    assert Peers(earned) == Bumped(Peers(vs), UpNow(vs, now));
    SameWeightSum(Peers(vs), Peers(Balanced(vs, now)), |vs|);
  }

  /** Asking twice at the same moment changes nothing more and gives the same answer. */
  lemma AskedIsStable(v: View, now: int)
    ensures v.Asked(now).Available(now) == v.Available(now)
    ensures v.Asked(now).Asked(now) == v.Asked(now)
  {
  }

  class Group {
    var servers: Server?
    var serverCount: int
    var currentServerIndex: int
    var totalWeight: int
    ghost var nodes: seq<Server>

    ghost predicate Valid()
      reads this, nodes
    {
      && Linked()
      && serverCount == |nodes|
      && 0 <= currentServerIndex && (currentServerIndex < serverCount || currentServerIndex == 0)
      && DistinctAddresses()
      && Weighted(Peers(Views()))
      && totalWeight == WeightSum(Peers(Views()), |nodes|)
    }

    ghost predicate DistinctAddresses()
      reads this`nodes
    {
      forall i, j :: 0 <= i < j < |nodes| ==> !(nodes[i].host == nodes[j].host && nodes[i].port == nodes[j].port)
    }

    ghost predicate Has(host: string, port: int)
      reads this`nodes
    {
      exists i :: 0 <= i < |nodes| && nodes[i].host == host && nodes[i].port == port
    }

    /** The list is the chain of next pointers from the head, without repetition. */
    ghost predicate Linked()
      reads this`servers, this`nodes, nodes
    {
      && servers == Nth(0)
      && (forall i {:trigger nodes[i].next} :: 0 <= i < |nodes| ==> nodes[i].next == Nth(i + 1))
      && (forall i, j :: 0 <= i < j < |nodes| ==> nodes[i] != nodes[j])
    }

    ghost function Nth(i: nat): Server?
      reads this`nodes
    {
      if i < |nodes| then nodes[i] else null
    }

    ghost function Views(): (r: seq<View>)
      reads this`nodes, nodes
      ensures |r| == |nodes|
    {
      ViewsOf(nodes)
    }

    static ghost function ViewsOf(list: seq<Server>): (r: seq<View>)
      reads list
      ensures |r| == |list|
    {
      seq(|list|, i requires 0 <= i < |list| reads list => list[i].AsView())
    }

    lemma Chained(i: nat)
      requires Linked()
      ensures servers == Nth(0) && (i < |nodes| ==> nodes[i].next == Nth(i + 1))
    {
    }

    lemma ViewAt(i: nat)
      requires i < |nodes|
      ensures Views()[i] == nodes[i].AsView()
    {
    }

    ghost function Named(c: Choice): Server?
      reads this`nodes
      requires c.Chosen? ==> c.index < |nodes|
    {
      match c case NoPeer => null case Chosen(i) => nodes[i]
    }

    constructor ()
      ensures Valid() && nodes == [] && currentServerIndex == 0
    {
      servers, serverCount, currentServerIndex, totalWeight, nodes := null, 0, 0, 0, [];
    }

    method WeightedRoundRobin(now: int) returns (best: Server?)
      requires Valid()
      modifies nodes
      ensures Valid()
      ensures Views() == Balanced(old(Views()), now)
      ensures best == Named(Round(Peers(old(Views())), UpNow(old(Views()), now)).0)
    {
      if serverCount == 0 { return null; }
      ghost var vs := Views();
      var total: int;
      ghost var winner: Choice;
      best, total, winner := Tally(now);
      ghost var earned := Views();
      SettledIsBalanced(vs, earned, now);
      if best != null {
        Charge(best, total, winner.index);
      }
    }

    method Charge(server: Server, amount: int, ghost i: nat)
      requires Linked() && i < |nodes| && server == nodes[i]
      modifies server`currentWeight
      ensures Linked() && Views() == Settled(old(Views()), Chosen(i), amount)
    {
      server.currentWeight := server.currentWeight - amount;
    }

    method Ask(server: Server, now: int, ghost i: nat) returns (ok: bool)
      requires Linked() && i < |nodes| && server == nodes[i]
      modifies server`consecutiveFailures
      ensures Linked() && Views() == old(Views()[i := Views()[i].Asked(now)])
      ensures ok == old(Views())[i].Available(now)
    {
      ok := server.IsAvailable(now);
    }

    /** One server's part of a weighted round robin selection; `earned` is what it adds to the total. */
    method Earn(server: Server, now: int, ghost i: nat) returns (ok: bool, earned: int)
      requires Linked() && i < |nodes| && server == nodes[i]
      modifies server`consecutiveFailures, server`currentWeight, server`effectiveWeight
      ensures Linked() && Views() == old(Views()[i := Earned(Views()[i], now)])
      ensures ok == old(Views())[i].Available(now)
      ensures earned == if ok then old(server.effectiveWeight) else 0
    {
      ok := server.IsAvailable(now);
      earned := 0;
      if ok {
        server.currentWeight := server.currentWeight + server.effectiveWeight;
        earned := server.effectiveWeight;
        if server.effectiveWeight < server.weight {
          server.effectiveWeight := server.effectiveWeight + 1;
        }
      }
    }

    /** The walk has passed i servers of the group that was `vs`: they have earned, the total is theirs, and the first of
        the richest is remembered. */
    ghost predicate Walked(vs: seq<View>, now: int, i: nat, best: Server?, total: int, winner: Choice)
      requires |vs| == |nodes| && i <= |nodes|
      reads this`nodes, nodes
    {
      var ps, up := Peers(vs), UpNow(vs, now);
      && Views() == EarnedTo(vs, now, i) && total == UpTotal(ps, up, i)
      && winner == Best(Bumped(ps, up), up, i) && best == Named(winner)
    }

    /** One turn of the walk: server i earns and is compared with the best so far. */
    method Visit(server: Server, now: int, best: Server?, total: int, ghost i: nat, ghost winner: Choice,
                 ghost vs: seq<View>)
      returns (best': Server?, total': int, ghost winner': Choice)
      requires Linked() && |vs| == |nodes| && i < |nodes| && server == nodes[i] && Walked(vs, now, i, best, total, winner)
      modifies server`consecutiveFailures, server`currentWeight, server`effectiveWeight
      ensures Linked() && Walked(vs, now, i + 1, best', total', winner')
    {
      hide Earned, EarnedTo, Peers, UpNow, Bumped, UpTotal, Best, ViewsOf, Linked;
      ghost var ps, up := Peers(vs), UpNow(vs, now);
      ghost var qs := Bumped(ps, up);
      EarnedNext(vs, now, i);
      WalkNext(ps, qs, up, i);
      ViewAt(i);
      var ok, earned := Earn(server, now, i);
      assert Views() == EarnedTo(vs, now, i + 1);
      ViewAt(i);
      if best != null { ViewAt(winner.index); }
      best', total', winner' := best, total + earned, winner;
      if ok && (best == null || server.currentWeight > best.currentWeight) {
        best', winner' := server, Chosen(i);
      }
    }

    lemma WalkBegins(now: int)
      ensures Walked(Views(), now, 0, null, 0, NoPeer)
    {
      WalkStarts(Views(), now);
    }

    lemma WalkDone(vs: seq<View>, now: int, best: Server?, total: int, winner: Choice)
      requires |vs| == |nodes| && Walked(vs, now, |nodes|, best, total, winner)
      ensures Views() == EarnedTo(vs, now, |nodes|)
      ensures var ps, up := Peers(vs), UpNow(vs, now);
              winner == Best(Bumped(ps, up), up, |nodes|) && best == Named(winner) && total == UpTotal(ps, up, |nodes|)
    {
    }

    /** The walk over the list: everyone available earns, and the first of the richest is remembered. */
    method Tally(now: int) returns (best: Server?, total: int, ghost winner: Choice)
      requires Linked()
      modifies nodes
      ensures Linked() && Views() == EarnedTo(old(Views()), now, |nodes|)
      ensures var ps, up := Peers(old(Views())), UpNow(old(Views()), now);
              winner == Best(Bumped(ps, up), up, |nodes|) && best == Named(winner) && total == UpTotal(ps, up, |nodes|)
    {
      hide Earned, EarnedTo, Peers, UpNow, Bumped, UpTotal, Best, ViewsOf, Linked, Walked;
      best, total, winner := null, 0, NoPeer;
      var server := servers;
      ghost var i: nat, vs := 0, Views();
      WalkBegins(now);
      Chained(0);
      while server != null
        invariant i <= |nodes| && server == Nth(i) && Linked()
        invariant Walked(vs, now, i, best, total, winner)
        decreases |nodes| - i
      {
        best, total, winner := Visit(server, now, best, total, i, winner, vs);
        Chained(i);
        server := server.next;
        i := i + 1;
      }
      WalkDone(vs, now, best, total, winner);
    }

    /** `upstream_group_add_server`: a new server is the new head; nothing happens if the request is refused. */
    method AddServer(host: string, port: int, weight: int) returns (ok: bool)
      requires Valid()
      modifies this
      ensures Valid() && currentServerIndex == old(currentServerIndex)
      ensures ok <==> port > 0 && weight > 0 && !old(Has(host, port))
      ensures !ok ==> nodes == old(nodes)
      ensures ok ==> |nodes| > 0 && fresh(nodes[0]) && nodes[0].host == host && nodes[0].port == port
      ensures ok ==> nodes == [nodes[0]] + old(nodes)
      ensures ok ==> Views() == [NewView(weight)] + old(Views())
    {
      if port <= 0 || weight <= 0 { return false; }
      var existing := Find(host, port);
      if existing != null { return false; }
      Admit(host, port, weight);
      return true;
    }

    method Admit(host: string, port: int, weight: int)
      requires Valid() && weight > 0 && !Has(host, port)
      modifies this
      ensures Valid() && currentServerIndex == old(currentServerIndex)
      ensures |nodes| > 0 && fresh(nodes[0]) && nodes[0].host == host && nodes[0].port == port
      ensures nodes == [nodes[0]] + old(nodes)
      ensures Views() == [NewView(weight)] + old(Views())
    {
      hide Peers, Fresh, Weighted, WeightSum, NewView;
      ghost var vs := Views();
      PrependedPeers(weight, vs);
      var server := new Server(host, port, weight);
      assert Views() == vs;
      Link(server);
      serverCount, totalWeight := serverCount + 1, totalWeight + weight;
    }

    /** A new head in front of the list. */
    method Link(server: Server)
      requires Linked() && DistinctAddresses() && server !in nodes && !Has(server.host, server.port)
      modifies this`servers, this`nodes, server`next
      ensures Linked() && DistinctAddresses() && nodes == [server] + old(nodes)
      ensures Views() == [old(server.AsView())] + old(Views())
    {
      server.next := servers;
      servers, nodes := server, [server] + nodes;
      assert forall j {:trigger nodes[j].next} :: 0 < j < |nodes| ==> nodes[j] == old(nodes)[j - 1];
    }

    method Find(host: string, port: int) returns (existing: Server?)
      requires Linked()
      ensures existing == null <==> !Has(host, port)
      ensures existing != null ==> existing in nodes && existing.host == host && existing.port == port
    {
      existing := servers;
      ghost var i: nat := 0;
      while existing != null
        invariant i <= |nodes| && existing == Nth(i)
        invariant forall j :: 0 <= j < i ==> !(nodes[j].host == host && nodes[j].port == port)
        decreases |nodes| - i
      {
        if existing.host == host && existing.port == port { return; }
        existing := existing.next;
        i := i + 1;
      }
    }

    method WeightedRandom(now: int, draw: nat) returns (chosen: Server?)
      requires Valid()
      modifies nodes
      ensures Valid() && Views() == AskedTo(old(Views()), now, |nodes|)
      ensures var ps, up := Peers(old(Views())), UpNow(old(Views()), now);
              var total := UpWeight(ps, up, |nodes|);
              if total <= 0 then chosen == null && total == 0
              else exists i: nat :: LandsOn(ps, up, draw % total, i) && chosen == nodes[i]
    {
      if serverCount == 0 { return null; }
      ghost var vs := Views();
      ghost var ps, up := Peers(vs), UpNow(vs, now);
      TotalPositiveExactlyWhen(ps, up, |nodes|);
      var total := SumAvailable(now);
      AskedKeepsWeights(vs, now);
      if total == 0 { return null; }
      chosen := Land(draw % total, vs, now);
    }

    /** The second walk of `WeightedRandom`, over a group that the first one has asked. */
    method Land(point: nat, ghost vs: seq<View>, now: int) returns (chosen: Server?)
      requires Linked() && |vs| == |nodes| && Views() == AskedTo(vs, now, |nodes|)
      requires point < UpWeight(Peers(vs), UpNow(vs, now), |nodes|)
      modifies nodes
      ensures Linked() && Views() == old(Views())
      ensures exists i: nat :: LandsOn(Peers(vs), UpNow(vs, now), point, i) && chosen == nodes[i]
    {
      var reached := 0;
      var server := servers;
      ghost var i: nat, ps, up := 0, Peers(vs), UpNow(vs, now);
      while server != null
        invariant i <= |nodes| && server == Nth(i) && Linked()
        invariant Views() == AskedTo(vs, now, |nodes|)
        invariant reached == UpWeight(ps, up, i) <= point
        decreases |nodes| - i
      {
        AskedIsStable(vs[i], now);
        assert Views()[i := Views()[i].Asked(now)] == Views();
        assert server.weight == Views()[i].peer.weight == ps[i].weight;
        var ok := Ask(server, now, i);
        if ok {
          reached := reached + server.weight;
          if reached > point {
            assert LandsOn(ps, up, point, i);
            return server;
          }
        }
        server := server.next;
        i := i + 1;
      }
      assert false;
      return null;
    }

    method SumAvailable(now: int) returns (total: int)
      requires Linked()
      modifies nodes
      ensures Linked() && Views() == AskedTo(old(Views()), now, |nodes|)
      ensures total == UpWeight(Peers(old(Views())), UpNow(old(Views()), now), |nodes|)
    {
      hide AskedTo, UpWeight, Peers, UpNow, ViewsOf, Linked;
      total := 0;
      var server := servers;
      ghost var i: nat, vs := 0, Views();
      ghost var ps, up := Peers(vs), UpNow(vs, now);
      SumStarts(vs, now);
      Chained(0);
      while server != null
        invariant i <= |nodes| && server == Nth(i) && Linked()
        invariant Views() == AskedTo(vs, now, i)
        invariant total == UpWeight(ps, up, i)
        decreases |nodes| - i
      {
        AskedNext(vs, now, i);
        ViewAt(i);
        var ok := Ask(server, now, i);
        assert Views() == AskedTo(vs, now, i + 1);
        if ok {
          total := total + server.weight;
        }
        Chained(i);
        server := server.next;
        i := i + 1;
      }
    }

    /** The list node at an index in range. */
    method Seek(start: int) returns (server: Server?)
      requires Linked() && 0 <= start < |nodes|
      ensures server == nodes[start]
    {
      server := servers;
      var index := 0;
      while server != null && index < start
        invariant 0 <= index <= start && server == Nth(index)
      {
        server := server.next;
        index := index + 1;
      }
    }

    /** The scan's step: NULL leads back to the head, and the counter restarts at 0 on NULL. */
    method Advance(from: Server?, index: int, ghost c: Cursor) returns (server: Server?, index': int)
      requires Linked() && serverCount == |nodes| > 0 && c.pos <= |nodes| && c.index < |nodes|
      requires from == Nth(c.pos) && index == c.index
      ensures server == Nth(Next(|nodes|, c).pos) && index' == Next(|nodes|, c).index
    {
      server := if from != null then from.next else servers;
      WrapIsRemainder(index + 1, serverCount);
      index' := if server != null then (index + 1) % serverCount else 0;
    }

    /** The test at the head of the scan's loop: someone is there and available. */
    method Look(server: Server?, now: int, ghost pos: nat) returns (ok: bool)
      requires Linked() && pos <= |nodes| && server == Nth(pos)
      modifies nodes
      ensures Linked() && (ok <==> pos < |nodes| && UpNow(old(Views()), now)[pos])
      ensures Views() == if ok then Forgiven(old(Views()), pos, now) else old(Views())
    {
      if server == null { return false; }
      hide Linked;
      ghost var vs := Views();
      assert UpNow(vs, now)[pos] == vs[pos].Available(now)
          && (!vs[pos].Available(now) ==> vs[pos := vs[pos].Asked(now)] == vs);
      ok := Ask(server, now, pos);
    }

    /** The scan of round robin and IP hash. Without an available server it only comes back in a group of one. */
    method Scan(start: int, now: int) returns (found: Server?, index: int)
      requires Linked() && serverCount == |nodes| && 0 <= start < serverCount
      requires SomeUp(UpNow(Views(), now)) || serverCount == 1
      modifies nodes
      ensures Linked()
      ensures var vs, up := old(Views()), UpNow(old(Views()), now);
              if SomeUp(up) then
                && found == nodes[FirstFrom(up, start)] && Views() == Forgiven(vs, FirstFrom(up, start), now)
                && index == At(|nodes|, start, Steps(|nodes|, start, FirstOffset(up, start))).index
              else found == null && Views() == vs
    {
      var server := Seek(start);
      ghost var up := UpNow(Views(), now);
      found, index := ScanFrom(server, start, now, if SomeUp(up) then FirstOffset(up, start) else 0);
    }

    /** The loop, from the server the search begins at; `offset` is the cyclic distance to the one it will find. */
    method ScanFrom(startServer: Server, start: int, now: int, ghost offset: nat) returns (found: Server?, index: int)
      requires Linked() && serverCount == |nodes| && 0 <= start < serverCount && startServer == nodes[start]
      requires var up := UpNow(Views(), now);
               offset < |up| && if SomeUp(up) then FirstUp(up, start, offset) else |up| == 1
      modifies nodes
      ensures Linked()
      ensures var vs, up := old(Views()), UpNow(old(Views()), now);
              if SomeUp(up) then
                && found == nodes[Place(|nodes|, start, offset)]
                && Views() == Forgiven(vs, Place(|nodes|, start, offset), now)
                && index == At(|nodes|, start, Steps(|nodes|, start, offset)).index
              else found == null && Views() == vs
    {
      hide At, FirstUp, UpNow, Forgiven, Linked, ViewsOf, FirstOffset, Steps, Place, Next;
      var server: Server? := startServer;
      index := start;
      ghost var k: nat, n, vs := 0, |nodes|, Views();
      ghost var up := UpNow(vs, now);
      ghost var limit := if SomeUp(up) then Steps(n, start, offset) else 2;
      ghost var c := At(n, start, 0);
      AtStart(n, start);
      Distinctly();
      if SomeUp(up) { Visits(n, start, offset); }
      while true
        invariant k <= limit && c == At(n, start, k) && server == Nth(c.pos) && index == c.index
        invariant !SomeUp(up) ==> k < 2
        invariant Linked() && Views() == vs
        decreases limit - k
      {
        ScanStop(up, start, offset, k);
        var ok := Look(server, now, c.pos);
        if ok { return server, index; }
        server, index := Advance(server, index, c);
        AtNext(n, start, k);
        c, k := Next(n, c), k + 1;
        ScanBack(up, start, offset, k);
        if server == startServer && index == start {
          return null, index;
        }
      }
    }

    lemma Distinctly()
      requires Linked()
      ensures forall i, j :: 0 <= i < j < |nodes| ==> nodes[i] != nodes[j]
    {
    }

    /** Round robin. A fresh scan starts where the last one left the cursor. */
    method RoundRobin(now: int) returns (chosen: Server?)
      requires Valid()
      requires serverCount < 2 || SomeUp(UpNow(Views(), now))
      modifies this`currentServerIndex, nodes
      ensures Valid()
      ensures var vs, up, start := old(Views()), UpNow(old(Views()), now), old(currentServerIndex);
              if SomeUp(up) then
                chosen == nodes[FirstFrom(up, start)] && Turn(Views(), currentServerIndex) == Turned(Turn(vs, start), now)
              else chosen == null && Views() == vs && currentServerIndex == start
    {
      if serverCount == 0 { return null; }
      hide UpNow, Forgiven, FirstFrom, FirstOffset, At, Steps, Linked, ViewsOf;
      ghost var vs, start := Views(), currentServerIndex;
      var index: int;
      chosen, index := Scan(currentServerIndex, now);
      if chosen != null {
        ForgivenKeepsWeights(vs, FirstFrom(UpNow(vs, now), start), now);
        WrapIsRemainder(index + 1, |nodes|);
        currentServerIndex := (index + 1) % serverCount;
      }
    }

    /** IP hash. The group keeps its cursor; the scan starts at the hash of the address. */
    method IpHash(clientIp: CString, now: int) returns (chosen: Server?)
      requires Valid()
      requires serverCount < 2 || SomeUp(UpNow(Views(), now))
      modifies nodes
      ensures Valid()
      ensures var vs, up := old(Views()), UpNow(old(Views()), now);
              if SomeUp(up) then
                var i := FirstFrom(up, Djb2(clientIp) % WORD % |nodes|);
                chosen == nodes[i] && Views() == Forgiven(vs, i, now)
              else chosen == null && Views() == vs
    {
      if serverCount == 0 { return null; }
      ghost var vs := Views();
      var hash := HashString(clientIp);
      var index: int;
      chosen, index := Scan(hash % serverCount, now);
      if chosen != null {
        ForgivenKeepsWeights(vs, FirstFrom(UpNow(vs, now), hash % serverCount), now);
      }
    }
  }

  // ---------------------------------------------------------------- runs of round robin

  /** What a round robin call reads and leaves behind. */
  datatype Turn = Turn(views: seq<View>, cursor: int)

  predicate InRange(t: Turn) {
    0 <= t.cursor < |t.views|
  }

  /** One call with someone available. */
  ghost function Turned(t: Turn, now: int): (r: Turn)
    requires InRange(t) && SomeUp(UpNow(t.views, now))
    ensures InRange(r) && |r.views| == |t.views|
  {
    var up := UpNow(t.views, now);
    Turn(Forgiven(t.views, FirstFrom(up, t.cursor), now), Resume(|t.views|, t.cursor, FirstOffset(up, t.cursor)))
  }

  /** After k calls, call j being made at time clock(j); a call with no one available changes nothing. */
  ghost function TurnsAfter(t: Turn, clock: nat -> int, k: nat): (r: Turn)
    requires InRange(t)
    ensures InRange(r) && |r.views| == |t.views|
  {
    if k == 0 then t
    else
      var before := TurnsAfter(t, clock, k - 1);
      if SomeUp(UpNow(before.views, clock(k - 1))) then Turned(before, clock(k - 1)) else before
  }

  /** With every server healthy, call k on a fresh group returns server k mod n, whatever the times of the calls. */
  lemma {:induction false} CallsRotate(vs: seq<View>, clock: nat -> int, k: nat)
    requires Healthy(vs) && |vs| > 0
    ensures var t := TurnsAfter(Turn(vs, 0), clock, k);
            && t == Turn(vs, k % |vs|)
            && SomeUp(UpNow(t.views, clock(k))) && FirstFrom(UpNow(t.views, clock(k)), t.cursor) == k % |vs|
  {
    hide Turned, FirstFrom, UpNow, Healthy;
    HealthyTurn(vs, clock(k), k % |vs|);
    if k > 0 {
      CallsRotate(vs, clock, k - 1);
      HealthyTurn(vs, clock(k - 1), (k - 1) % |vs|);
      NextRemainder(k - 1, |vs|);
    } else {
      SmallRemainder(|vs|);
    }
  }

  lemma SmallRemainder(n: nat)
    requires n > 0
    ensures 0 % n == 0
  {
  }

  /** In a healthy group the server under the cursor is served, nothing is forgiven and the cursor goes on by one. */
  lemma HealthyTurn(vs: seq<View>, now: int, cursor: nat)
    requires Healthy(vs) && cursor < |vs|
    ensures var up := UpNow(vs, now);
            && up[cursor] && SomeUp(up) && FirstFrom(up, cursor) == cursor
            && Turned(Turn(vs, cursor), now) == Turn(vs, Wrap(cursor + 1, |vs|))
  {
    var up := UpNow(vs, now);
    assert up[cursor] && FirstUp(up, cursor, 0);
    FirstUpUnique(up, cursor, FirstOffset(up, cursor), 0);
    Visits(|vs|, cursor, 0);
  }

  // ---------------------------------------------------------------- runs of weighted round robin

  /** Neither down nor full. */
  predicate Eligible(v: View) {
    v.status != Down && !(v.maxConns > 0 && v.connections >= v.maxConns)
  }

  /** As many failures in a row as are allowed. */
  predicate Failing(v: View) {
    v.failures >= v.maxFails
  }

  /** When the last failure is forgotten. */
  function RecoversAt(v: View): int {
    v.lastFailure + v.failTimeout
  }

  /** Neither down nor full nor failing. New servers are healthy, and a selection does not change that. */
  predicate Healthy(vs: seq<View>) {
    forall i :: 0 <= i < |vs| ==> Eligible(vs[i]) && !Failing(vs[i])
  }

  /** For all times from `begin` until `end` exactly the marked servers are available: no failing server that is neither
      down nor full recovers in between. */
  predicate UpThroughout(vs: seq<View>, up: seq<bool>, begin: int, end: int) {
    && |up| == |vs|
    && forall i :: 0 <= i < |vs| ==>
         if up[i] then Eligible(vs[i]) && (Failing(vs[i]) ==> RecoversAt(vs[i]) <= begin)
         else Eligible(vs[i]) ==> Failing(vs[i]) && end <= RecoversAt(vs[i])
  }

  /** Those available at the beginning are the ones throughout, exactly when nobody recovers in between. */
  lemma SteadyWindow(vs: seq<View>, begin: int, end: int)
    ensures UpThroughout(vs, UpNow(vs, begin), begin, end) <==>
      forall i :: 0 <= i < |vs| && Eligible(vs[i]) && Failing(vs[i]) ==>
        RecoversAt(vs[i]) <= begin || end <= RecoversAt(vs[i])
  {
    assert forall i :: 0 <= i < |vs| ==> UpNow(vs, begin)[i] == vs[i].Available(begin);
  }

  /** The group after k weighted round robin calls, call j being made at time clock(j). */
  ghost function ViewsAfter(vs: seq<View>, clock: nat -> int, k: nat): (r: seq<View>)
    ensures |r| == |vs|
  {
    if k == 0 then vs else Balanced(ViewsAfter(vs, clock, k - 1), clock(k - 1))
  }

  /** How many of those calls returned server i. */
  ghost function Served(vs: seq<View>, clock: nat -> int, i: nat, k: nat): nat {
    if k == 0 then 0
    else
      var before := ViewsAfter(vs, clock, k - 1);
      var choice := Round(Peers(before), UpNow(before, clock(k - 1))).0;
      Served(vs, clock, i, k - 1) + if choice == Chosen(i) then 1 else 0
  }

  /** One call for one server, before its failures are forgotten: it is not available, and no strategy changes it. */
  lemma OutIsLeftAlone(vs: seq<View>, i: nat, now: int)
    requires i < |vs| && (!Eligible(vs[i]) || (Failing(vs[i]) && now < RecoversAt(vs[i])))
    ensures !UpNow(vs, now)[i]
    ensures Balanced(vs, now)[i] == vs[i] && AskedTo(vs, now, |vs|)[i] == vs[i]
    ensures forall j :: 0 <= j < |vs| && UpNow(vs, now)[j] ==> Forgiven(vs, j, now)[i] == vs[i]
    ensures Round(Peers(vs), UpNow(vs, now)).0 != Chosen(i)
  {
    assert !UpNow(vs, now)[i];
    RoundLeaves(Peers(vs), UpNow(vs, now), i);
    hide Round;
  }

  /** And from that moment on: it is available, and weighted round robin leaves it without failures. */
  lemma BackIsForgiven(vs: seq<View>, i: nat, now: int)
    requires i < |vs| && Eligible(vs[i]) && (Failing(vs[i]) ==> RecoversAt(vs[i]) <= now)
    ensures UpNow(vs, now)[i]
    ensures var v := Balanced(vs, now)[i];
            && v.failures == (if Failing(vs[i]) then 0 else vs[i].failures)
            && v.(failures := 0, peer := vs[i].peer) == vs[i].(failures := 0)
  {
    assert UpNow(vs, now)[i];
    hide Round;
  }

  /** Over a run of weighted round robin calls, all made before its failures are forgotten, a failing server is neither
      returned nor changed. */
  lemma {:induction false} FailingIsLeftAlone(vs: seq<View>, clock: nat -> int, i: nat, k: nat)
    requires i < |vs| && Failing(vs[i]) && forall j: nat :: j < k ==> clock(j) < RecoversAt(vs[i])
    ensures ViewsAfter(vs, clock, k)[i] == vs[i] && Served(vs, clock, i, k) == 0
  {
    hide Round, Balanced, Failing;
    if k > 0 {
      FailingIsLeftAlone(vs, clock, i, k - 1);
      OutIsLeftAlone(ViewsAfter(vs, clock, k - 1), i, clock(k - 1));
    }
  }

  /** The first call at or after that moment finds it available, unless it is down or full, and leaves it healthy; and it
      takes part in that call and in all later ones, whenever they are made. */
  lemma {:induction false} FailingComesBack(vs: seq<View>, clock: nat -> int, i: nat, first: nat, k: nat)
    requires i < |vs| && Eligible(vs[i]) && Failing(vs[i]) && 0 < vs[i].maxFails
    requires (forall j: nat :: j < first ==> clock(j) < RecoversAt(vs[i])) && RecoversAt(vs[i]) <= clock(first)
    requires first <= k
    ensures UpNow(ViewsAfter(vs, clock, k), clock(k))[i]
    ensures var v := ViewsAfter(vs, clock, k + 1)[i]; Eligible(v) && v.failures == 0
    decreases k
  {
    hide Round, Balanced;
    if k == first {
      FailingIsLeftAlone(vs, clock, i, first);
    } else {
      FailingComesBack(vs, clock, i, first, k - 1);
      assert ViewsAfter(vs, clock, k)[i].maxFails > 0 by { SameLimits(vs, clock, i, k); }
    }
    BackIsForgiven(ViewsAfter(vs, clock, k), i, clock(k));
  }

  lemma {:induction false} SameLimits(vs: seq<View>, clock: nat -> int, i: nat, k: nat)
    requires i < |vs|
    ensures ViewsAfter(vs, clock, k)[i].maxFails == vs[i].maxFails
  {
    hide Round;
    if k > 0 { SameLimits(vs, clock, i, k - 1); }
  }

  /** The same for runs of round robin calls: before its failures are forgotten a failing server is neither returned nor
      changed. */
  lemma {:induction false} FailingMissesTurns(t: Turn, clock: nat -> int, i: nat, k: nat)
    requires InRange(t) && i < |t.views| && Failing(t.views[i])
    requires forall j: nat :: j <= k ==> clock(j) < RecoversAt(t.views[i])
    ensures var s := TurnsAfter(t, clock, k);
            && s.views[i] == t.views[i]
            && var up := UpNow(s.views, clock(k)); SomeUp(up) ==> FirstFrom(up, s.cursor) != i
  {
    hide Failing, Forgiven, Balanced, Round;
    if k > 0 {
      FailingMissesTurns(t, clock, i, k - 1);
      OutIsLeftAlone(TurnsAfter(t, clock, k - 1).views, i, clock(k - 1));
    }
    OutIsLeftAlone(TurnsAfter(t, clock, k).views, i, clock(k));
  }

  /** Within such a time a call finds exactly those marked available and leaves that so. */
  lemma BalancedIsUp(vs: seq<View>, up: seq<bool>, begin: int, end: int, now: int)
    requires UpThroughout(vs, up, begin, end) && begin <= now < end
    ensures UpThroughout(Balanced(vs, now), up, begin, end)
    ensures UpNow(vs, now) == up
    ensures Peers(Balanced(vs, now)) == Round(Peers(vs), up).1
  {
    assert UpNow(vs, now) == up;
    assert Peers(Balanced(vs, now)) == Round(Peers(vs), up).1;
    hide Round;
  }

  /** A run of calls within such a time is a run of `Round`s with the same peers available. */
  lemma {:induction false} RunIsRounds(vs: seq<View>, up: seq<bool>, begin: int, end: int, clock: nat -> int,
                                       sched: Schedule, i: nat, k: nat)
    requires UpThroughout(vs, up, begin, end) && forall j: nat :: j < k ==> begin <= clock(j) < end
    requires Covers(sched, |vs|) && forall j: nat :: sched(j) == up
    ensures UpThroughout(ViewsAfter(vs, clock, k), up, begin, end)
    ensures Peers(ViewsAfter(vs, clock, k)) == After(Peers(vs), sched, k)
    ensures Served(vs, clock, i, k) == Picks(Peers(vs), sched, i, k)
  {
    hide Round, UpThroughout;
    if k > 0 {
      RunIsRounds(vs, up, begin, end, clock, sched, i, k - 1);
      BalancedIsUp(ViewsAfter(vs, clock, k - 1), up, begin, end, clock(k - 1));
    }
  }

  /** Calls on a group without debts, over any time in which no failing server recovers: after m full periods every
      available server was returned exactly m*weight times, every other never, and all current weights are 0; at any
      point none is ahead of its share of the available servers' weight. */
  lemma CallsAreFair(vs: seq<View>, up: seq<bool>, begin: int, end: int, clock: nat -> int, i: nat, m: nat, k: nat)
    requires UpThroughout(vs, up, begin, end) && forall j: nat :: j < k ==> begin <= clock(j) < end
    requires (exists j :: 0 <= j < |up| && up[j]) && Fresh(Peers(vs)) && i < |vs|
    ensures 0 < UpWeight(Peers(vs), up, |vs|)
    ensures Served(vs, clock, i, k) <= CeilDiv(k * Share(Peers(vs), up, i), UpWeight(Peers(vs), up, |vs|))
    ensures k == m * UpWeight(Peers(vs), up, |vs|) ==>
              Served(vs, clock, i, k) == m * Share(Peers(vs), up, i) && Peers(ViewsAfter(vs, clock, k)) == Peers(vs)
  {
    assert |up| == |vs|;
    hide UpThroughout, Round, UpWeight, Share;
    var sched: Schedule := j => up;
    RunIsRounds(vs, up, begin, end, clock, sched, i, k);
    NeverAhead(Peers(vs), up, sched, i, k);
    if k == m * UpWeight(Peers(vs), up, |vs|) { ExactlyFair(Peers(vs), up, sched, m, k); }
  }

  /** In a healthy group this holds of any time, with everyone available: the total is the one `AddServer` keeps, and
      every share the configured weight. */
  lemma HealthyIsUp(vs: seq<View>, i: nat, begin: int, end: int)
    requires Healthy(vs) && i < |vs|
    ensures var up := seq(|vs|, _ => true);
            UpThroughout(vs, up, begin, end) && UpWeight(Peers(vs), up, |vs|) == WeightSum(Peers(vs), |vs|)
            && Share(Peers(vs), up, i) == vs[i].peer.weight
  {
    AllUpWeight(Peers(vs), seq(|vs|, _ => true), |vs|);
  }

  /** Up, with 3 failures of 3 allowed, the last at time 100, to be forgotten after 30: out at 105 and 129, back at 130. */
  lemma FailuresAreForgottenInTime(p: Peer)
    ensures var v := View(3, 30, 0, Up, 0, 3, 100, p);
            && !v.Available(105) && v.Asked(105) == v && !v.Available(129)
            && v.Available(130) && v.Asked(130) == v.(failures := 0)
  {
  }

  // ---------------------------------------------------------------- string hash

  const WORD := 0x1_0000_0000

  /** The hash without wrap-around: 5381 and then the characters as digits to base 33. */
  function Djb2(s: CString): nat {
    if s == [] then 5381 else 33 * Djb2(s[..|s| - 1]) + s[|s| - 1] as int
  }

  function Power33(n: nat): nat {
    if n == 0 then 1 else 33 * Power33(n - 1)
  }

  /** The characters as the digits of a number to base 33, the first one the highest. */
  function Digits33(s: CString): nat {
    if s == [] then 0 else s[0] as int * Power33(|s| - 1) + Digits33(s[1..])
  }

  /** The polynomial, written from the other end. */
  lemma {:induction false} Djb2IsPolynomial(s: CString)
    ensures Djb2(s) == 5381 * Power33(|s|) + Digits33(s)
  {
    if s != [] {
      var early := s[..|s| - 1];
      Djb2IsPolynomial(early);
      LastDigit33(s);
      assert Djb2(s) == 33 * Djb2(early) + s[|s| - 1] as int;
      hide Djb2, Digits33;
      assert Power33(|s|) == 33 * Power33(|early|);
    }
  }

  lemma {:induction false} LastDigit33(s: CString)
    requires s != []
    ensures Digits33(s) == 33 * Digits33(s[..|s| - 1]) + s[|s| - 1] as int
  {
    if |s| > 1 {
      LastDigit33(s[1..]);
      assert s[1..][..|s| - 2] == s[..|s| - 1][1..];
      var c, p, q := s[0] as int, Power33(|s| - 1), Power33(|s| - 2);
      assert p == 33 * q;
      assert c * p == 33 * (c * q) by { Regroup33(c, q); }
      assert Digits33(s[..|s| - 1]) == c * q + Digits33(s[..|s| - 1][1..]);
    } else {
      assert s[1..] == [] && s[..0] == [];
    }
  }

  lemma Regroup33(c: int, q: int)
    ensures c * (33 * q) == 33 * (c * q)
  {
  }

  /** `lb_hash_string` on 32-bit unsigned arithmetic is the exact polynomial reduced once. */
  method HashString(s: CString) returns (hash: nat)
    ensures hash == Djb2(s) % WORD
  {
    hash := 5381;
    var i := 0;
    while i < |s|
      invariant 0 <= i <= |s| && hash == Djb2(s[..i]) % WORD
    {
      assert s[..i + 1][..i] == s[..i];
      HashStep(Djb2(s[..i]), hash, s[i] as int);
      hash := ((hash * 32 % WORD + hash) % WORD + s[i] as int) % WORD;
      i := i + 1;
    }
    assert s[..i] == s;
  }

  /** Shifting, adding and adding again, each modulo 2^32, is one step of the polynomial modulo 2^32. */
  lemma HashStep(exact: nat, hash: nat, c: nat)
    requires hash == exact % WORD
    ensures ((hash * 32 % WORD + hash) % WORD + c) % WORD == (33 * exact + c) % WORD
  {
    var q := 33 * (exact / WORD);
    var a, b := hash * 32 / WORD, (hash * 32 % WORD + hash) / WORD;
    var r := (hash * 32 % WORD + hash) % WORD + c;
    assert 33 * exact + c == (q + a + b) * WORD + r;
    DivModUnique(33 * exact + c, q + a + b + r / WORD, r % WORD, WORD);
  }

  // ---------------------------------------------------------------- facts about views

  lemma {:induction false} SameWeightSum(ps: seq<Peer>, qs: seq<Peer>, k: nat)
    requires |ps| == |qs| && k <= |ps| && forall i :: 0 <= i < |ps| ==> ps[i].weight == qs[i].weight
    ensures WeightSum(ps, k) == WeightSum(qs, k)
  {
    if k > 0 { SameWeightSum(ps, qs, k - 1); }
  }

  lemma ForgivenKeepsWeights(vs: seq<View>, i: nat, now: int)
    requires i < |vs|
    ensures Peers(Forgiven(vs, i, now)) == Peers(vs)
  {
    assert Peers(Forgiven(vs, i, now)) == Peers(vs);
  }

  /** A new server is fresh, so a group that only ever grew is fresh: the starting point of the fairness theorems. */
  lemma {:induction false} PrependedPeers(weight: int, vs: seq<View>)
    requires weight > 0
    ensures var qs := Peers([NewView(weight)] + vs);
            && (Weighted(Peers(vs)) ==> Weighted(qs))
            && WeightSum(qs, |vs| + 1) == weight + WeightSum(Peers(vs), |vs|)
            && (Fresh(Peers(vs)) ==> Fresh(qs))
            && (Healthy(vs) ==> Healthy([NewView(weight)] + vs))
  {
    var p := Peer(weight, weight, 0);
    assert Peers([NewView(weight)] + vs) == [p] + Peers(vs);
    WeightSumPrepend(p, Peers(vs), |vs|);
  }

  lemma {:induction false} WeightSumPrepend(p: Peer, ps: seq<Peer>, k: nat)
    requires k <= |ps|
    ensures WeightSum([p] + ps, k + 1) == p.weight + WeightSum(ps, k)
  {
    if k > 0 { WeightSumPrepend(p, ps, k - 1); }
  }
}
