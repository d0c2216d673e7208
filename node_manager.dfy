/** packages/artnet-lib/core/node/node-manager: the registry of the nodes discovery has found,
    identified by their MAC address, and the watcher that marks silent nodes dead. Emitted
    events are kept in a log in the order they are emitted, the watcher's interval timer
    becomes a method called at the time it fires, and the time a reply arrives is given to
    the operations that record one. */
module NodeManagers {
  import opened Wrappers
  import opened ByteOrder
  import opened Encoder
  import opened ArtNetPackets
  import opened JsArrays
  import opened Communicators
  import opened Nodes

  const NODE_DEATH_TIMEOUT_MS: int := 10000
  const DEFAULT_NODE_WATCHER_INTERVAL_MS: int := 2000

  /** `NodeStatusPayload`: what every event says about its node. Its name, addresses and
      port information are read from the node's reply. */
  datatype NodeStatus = NodeStatus(reply: Payload<Key>, lastResponseTime: int, isAlive: bool)
  {
    function Name(): seq<byte> {
      TextOf(Field(reply, LongName))
    }

    function IpAddressText(): string {
      Dotted(NumbersOf(Field(reply, IpAddress)))
    }

    function MacAddressText(): string {
      Dotted(NumbersOf(Field(reply, MacAddress)))
    }

    function PortInfo(): NodeInfo {
      GetNodeInfo(reply)
    }
  }

  /** The events of `NodeManagerEvents`. */
  datatype Event =
    | NewNodeRegistered(status: NodeStatus)
    | NodeStatusUpdated(status: NodeStatus)
    | NodeIsDead(status: NodeStatus)

  /** A string field of a reply, and a field holding numbers. */
  function TextOf(v: Value): seq<byte> {
    if v.Str? then v.s else []
  }

  function NumbersOf(v: Value): seq<int> {
    if v.Arr? then v.a else []
  }

  /** What a node's getters show: the status its event payloads are made of. */
  function Snapshot(n: Node): NodeStatus
    reads n`reply, n`lastResponseTime, n`isAlive
  {
    NodeStatus(n.reply, n.lastResponseTime, n.isAlive)
  }

  /** For a node of the reply's type, the status shows the node's getters. */
  lemma SnapshotShowsGetters(n: Node)
    requires n.Valid()
    ensures Snapshot(n).Name() == n.Name() && Snapshot(n).IpAddressText() == n.IpAddressText()
    ensures Snapshot(n).MacAddressText() == n.MacAddressText()
  {
  }

  ghost function Elements(ns: seq<Node>): set<Node> {
    set i | 0 <= i < |ns| :: ns[i]
  }

  ghost predicate NodesValid(ns: seq<Node>)
    reads Elements(ns)`reply, Elements(ns)`ports
  {
    forall i :: 0 <= i < |ns| ==> ns[i].Valid()
  }

  // ---------------------------------------------------------------- filters and lookups

  /** `nodes.filter(predicate)` (when `want` holds) or its complement, a callback seeing the
      node's status. */
  function Matching(ns: seq<Node>, pred: NodeStatus -> bool, want: bool): seq<Node>
    reads Elements(ns)`reply, Elements(ns)`lastResponseTime, Elements(ns)`isAlive
    decreases |ns|
  {
    if |ns| == 0 then []
    else
      var last := ns[|ns| - 1];
      Matching(ns[..|ns| - 1], pred, want) + (if pred(Snapshot(last)) == want then [last] else [])
  }

  /** The filter keeps exactly the nodes whose status answers `want`. */
  lemma {:induction false} MatchingElements(ns: seq<Node>, pred: NodeStatus -> bool, want: bool)
    ensures forall i :: 0 <= i < |Matching(ns, pred, want)| ==>
      Matching(ns, pred, want)[i] in ns && pred(Snapshot(Matching(ns, pred, want)[i])) == want
    ensures forall j :: 0 <= j < |ns| && pred(Snapshot(ns[j])) == want ==> ns[j] in Matching(ns, pred, want)
    decreases |ns|
  {
    if |ns| > 0 {
      var init := ns[..|ns| - 1];
      var last := ns[|ns| - 1];
      MatchingElements(init, pred, want);
      var mi := Matching(init, pred, want);
      var m := Matching(ns, pred, want);
      assert m == mi + (if pred(Snapshot(last)) == want then [last] else []);
      forall i | 0 <= i < |m|
        ensures m[i] in ns && pred(Snapshot(m[i])) == want
      {
        if i < |mi| {
          assert m[i] == mi[i] && mi[i] in init;
        }
      }
      forall j | 0 <= j < |ns| && pred(Snapshot(ns[j])) == want
        ensures ns[j] in m
      {
        if j < |ns| - 1 {
          assert ns[j] == init[j];
        }
      }
    }
  }

  /** Filtering a list without repeats gives a list without repeats. */
  lemma {:induction false} MatchingDistinct(ns: seq<Node>, pred: NodeStatus -> bool, want: bool)
    requires NodesValid(ns) && Distinct(ns)
    ensures Distinct(Matching(ns, pred, want)) && NodesValid(Matching(ns, pred, want))
    decreases |ns|
  {
    if |ns| > 0 {
      var init := ns[..|ns| - 1];
      var last := ns[|ns| - 1];
      MatchingDistinct(init, pred, want);
      MatchingElements(init, pred, want);
      MatchingElements(ns, pred, want);
      var mi := Matching(init, pred, want);
      var m := Matching(ns, pred, want);
      assert m == mi + (if pred(Snapshot(last)) == want then [last] else []);
      assert forall i :: 0 <= i < |mi| ==> mi[i] != last by {
        forall i | 0 <= i < |mi| ensures mi[i] != last {
          var k :| 0 <= k < |init| && init[k] == mi[i];
          assert ns[k] == init[k];
        }
      }
      assert forall i :: 0 <= i < |m| ==> m[i].Valid() by {
        forall i | 0 <= i < |m| ensures m[i].Valid() {
          var k :| 0 <= k < |ns| && ns[k] == m[i];
        }
      }
    }
  }

  /** The position of the last node whose status satisfies `pred`. */
  function LastMatchIndex(ns: seq<Node>, pred: NodeStatus -> bool): (r: Option<nat>)
    reads Elements(ns)`reply, Elements(ns)`lastResponseTime, Elements(ns)`isAlive
    ensures r.Some? ==>
      r.value < |ns| && pred(Snapshot(ns[r.value])) &&
      forall j :: r.value < j < |ns| ==> !pred(Snapshot(ns[j]))
    ensures r.None? ==> forall j :: 0 <= j < |ns| ==> !pred(Snapshot(ns[j]))
    decreases |ns|
  {
    if |ns| == 0 then None
    else if pred(Snapshot(ns[|ns| - 1])) then Some(|ns| - 1)
    else LastMatchIndex(ns[..|ns| - 1], pred)
  }

  /** `filter(predicate).pop()` finds the last matching node: the filter is empty exactly
      when nothing matches, and otherwise ends with the last match. */
  lemma {:induction false} LastOfMatching(ns: seq<Node>, pred: NodeStatus -> bool)
    ensures var m := Matching(ns, pred, true);
      var k := LastMatchIndex(ns, pred);
      (k.None? <==> m == []) && (k.Some? && m != [] ==> m[|m| - 1] == ns[k.value])
    decreases |ns|
  {
    if |ns| > 0 && !pred(Snapshot(ns[|ns| - 1])) {
      LastOfMatching(ns[..|ns| - 1], pred);
    }
  }

  /** The getters a node can be looked up by. */
  datatype Lookup = ByName(name: seq<byte>) | ByIp(ip: string) | ByMac(mac: string)

  predicate Holds(l: Lookup, s: NodeStatus) {
    match l
    case ByName(name) => s.Name() == name
    case ByIp(ip) => s.IpAddressText() == ip
    case ByMac(mac) => s.MacAddressText() == mac
  }

  /** The callback `getByName`, `getByIp` and `getByMac` give to `get`. */
  function Wanted(l: Lookup): NodeStatus -> bool {
    (s: NodeStatus) => Holds(l, s)
  }

  /** The watcher's callback: a node is dead when it has not answered for `timeout`
      milliseconds and is still marked alive. */
  function Overdue(now: int, timeout: int): NodeStatus -> bool {
    (s: NodeStatus) => s.lastResponseTime + timeout <= now && s.isAlive
  }

  /** The NODE_IS_DEAD events for the given nodes, each now marked dead. */
  function DeathEvents(dead: seq<Node>): seq<Event>
    reads Elements(dead)`reply, Elements(dead)`lastResponseTime
    decreases |dead|
  {
    if |dead| == 0 then []
    else
      var d := dead[|dead| - 1];
      DeathEvents(dead[..|dead| - 1]) + [NodeIsDead(NodeStatus(d.reply, d.lastResponseTime, false))]
  }

  lemma DeathEventsSnoc(dead: seq<Node>, i: nat)
    requires i < |dead|
    ensures DeathEvents(dead[..i + 1]) ==
      DeathEvents(dead[..i]) + [NodeIsDead(NodeStatus(dead[i].reply, dead[i].lastResponseTime, false))]
  {
    assert dead[..i + 1][..i] == dead[..i];
  }

  // ---------------------------------------------------------------- removal during iteration

  /** The nodes whose status the callback accepts. */
  ghost function Accepted(ns: seq<Node>, pred: NodeStatus -> bool): set<Node>
    reads Elements(ns)`reply, Elements(ns)`lastResponseTime, Elements(ns)`isAlive
  {
    set n | n in Elements(ns) && pred(Snapshot(n))
  }

  /** As written, `removeNodes` leaves a node the callback accepts in the registry when
      it comes right after a removed one. */
  lemma SkippedNodeStays(ns: seq<Node>, pred: NodeStatus -> bool)
    requires |ns| >= 2 && pred(Snapshot(ns[0])) && pred(Snapshot(ns[1]))
    ensures ns[1] in SkipRemoved(ns, Accepted(ns, pred)).0
  {
    assert ns[0] in Elements(ns) && ns[1] in Elements(ns);
    SkippedStays(ns, Accepted(ns, pred));
  }

  /** A node the watcher has marked dead is in no later pass's dead list until an update
      revives it, so NODE_IS_DEAD fires once per silence. */
  lemma DeadNotOverdue(ns: seq<Node>, now: int, timeout: int, n: Node)
    requires n in ns && !n.isAlive
    ensures n !in Matching(ns, Overdue(now, timeout), true)
  {
    MatchingElements(ns, Overdue(now, timeout), true);
  }

  /** Removing the node at position k keeps the list valid and adds no node. */
  lemma CutValid(ns: seq<Node>, k: nat)
    requires NodesValid(ns) && k < |ns|
    ensures NodesValid(ns[..k] + ns[k + 1..]) && Elements(ns[..k] + ns[k + 1..]) <= Elements(ns)
  {
    var cut := ns[..k] + ns[k + 1..];
    assert forall j :: 0 <= j < |cut| ==> cut[j] == (if j < k then ns[j] else ns[j + 1]);
  }

  // ---------------------------------------------------------------- the manager

  class NodeManager {
    /** The registered nodes, in the order they were first seen. */
    var nodes: seq<Node>
    /** Every event emitted, oldest first. */
    var events: seq<Event>
    var nodeDeathTimeout: int
    /** Whether the watcher's interval is set, and its period. */
    var watching: bool
    var watchInterval: int
    const communicator: Communicator

    ghost function Repr(): set<Node>
      reads this`nodes
    {
      Elements(nodes)
    }

    ghost predicate Valid()
      reads this`nodes, Repr()`reply, Repr()`ports
    {
      NodesValid(nodes) && Distinct(nodes)
    }

    /** No two registered nodes share a MAC address. */
    ghost predicate UniqueMacs()
      reads this, Repr()
      requires Valid()
    {
      forall i, j :: 0 <= i < j < |nodes| ==> nodes[i].MacAddressText() != nodes[j].MacAddressText()
    }

    /** `new NodeManager(communicator)`: an empty registry whose watcher runs with the
        default interval and death timeout. */
    constructor (communicator: Communicator)
      ensures Valid() && nodes == [] && events == [] && this.communicator == communicator
      ensures watching && watchInterval == DEFAULT_NODE_WATCHER_INTERVAL_MS
      ensures nodeDeathTimeout == NODE_DEATH_TIMEOUT_MS
    {
      this.communicator := communicator;
      nodes := [];
      events := [];
      nodeDeathTimeout := NODE_DEATH_TIMEOUT_MS;
      watching := true;
      watchInterval := DEFAULT_NODE_WATCHER_INTERVAL_MS;
    }

    /** The node a lookup finds: the last one whose getter shows the value. */
    function Found(l: Lookup): (r: Option<Node>)
      reads this`nodes, Repr()`reply, Repr()`lastResponseTime, Repr()`isAlive
      ensures r.Some? ==> r.value in nodes && Holds(l, Snapshot(r.value))
    {
      var k := LastMatchIndex(nodes, Wanted(l));
      if k.Some? then Some(nodes[k.value]) else None
    }

    /** `get(predicate?)`: a copy of the list, or the nodes the callback accepts, in order. */
    method Get(pred: Option<NodeStatus -> bool>) returns (r: seq<Node>)
      ensures pred.None? ==> r == nodes
      ensures pred.Some? ==> r == Matching(nodes, pred.value, true)
      ensures pred.Some? ==> forall i :: 0 <= i < |r| ==> r[i] in nodes && pred.value(Snapshot(r[i]))
      ensures pred.Some? ==> forall j :: 0 <= j < |nodes| && pred.value(Snapshot(nodes[j])) ==> nodes[j] in r
    {
      if pred.None? {
        return nodes;
      }
      MatchingElements(nodes, pred.value, true);
      r := Matching(nodes, pred.value, true);
    }

    /** `getByName`, `getByIp` and `getByMac`: the last node `get` gives for the getter's
        value, or null. */
    method GetBy(l: Lookup) returns (r: Option<Node>)
      ensures r == Found(l)
    {
      var m := Get(Some(Wanted(l)));
      LastOfMatching(nodes, Wanted(l));
      r := if |m| == 0 then None else Some(m[|m| - 1]);
    }

    /** The watcher firing at time `now`: every alive node silent for the death timeout is
        marked dead, then one NODE_IS_DEAD is emitted for each, in registry order. Nothing
        is removed. */
    method WatchTick(now: int)
      requires Valid()
      modifies this, Repr()`isAlive
      ensures Valid() && nodes == old(nodes) && nodeDeathTimeout == old(nodeDeathTimeout)
      ensures watching == old(watching) && watchInterval == old(watchInterval)
      ensures forall i :: 0 <= i < |nodes| ==>
        nodes[i].reply == old(nodes[i].reply) && nodes[i].lastResponseTime == old(nodes[i].lastResponseTime) &&
        nodes[i].ports == old(nodes[i].ports)
      ensures !watching ==> events == old(events) && forall i :: 0 <= i < |nodes| ==> nodes[i].isAlive == old(nodes[i].isAlive)
      ensures watching ==> forall i :: 0 <= i < |nodes| ==>
        nodes[i].isAlive == (old(nodes[i].isAlive) && now < nodes[i].lastResponseTime + nodeDeathTimeout)
      ensures watching ==> events == old(events) + DeathEvents(old(Matching(nodes, Overdue(now, nodeDeathTimeout), true)))
    {
      if !watching {
        return;
      }
      var dead := MarkOverdue(now);
      EmitDeaths(dead);
    }

    /** The watcher's first half: the nodes `get` finds overdue are marked dead. */
    method MarkOverdue(now: int) returns (dead: seq<Node>)
      requires Valid()
      modifies Repr()`isAlive
      ensures Valid() && dead == old(Matching(nodes, Overdue(now, nodeDeathTimeout), true))
      ensures forall i :: 0 <= i < |nodes| ==>
        nodes[i].isAlive == (old(nodes[i].isAlive) && now < nodes[i].lastResponseTime + nodeDeathTimeout)
    {
      dead := Matching(nodes, Overdue(now, nodeDeathTimeout), true);
      MatchingElements(nodes, Overdue(now, nodeDeathTimeout), true);
      MarkDead(dead);
    }

    /** `deadNodes.forEach((node) => (node.isAlive = false))`. */
    method MarkDead(dead: seq<Node>)
      modifies Elements(dead)`isAlive
      ensures forall j :: 0 <= j < |nodes| ==> nodes[j].isAlive == (old(nodes[j].isAlive) && nodes[j] !in dead)
    {
      for i := 0 to |dead|
        invariant forall j :: 0 <= j < |nodes| ==> nodes[j].isAlive == (old(nodes[j].isAlive) && nodes[j] !in dead[..i])
      {
        dead[i].isAlive := false;
        assert dead[..i + 1] == dead[..i] + [dead[i]];
      }
      assert dead[..|dead|] == dead;
    }

    /** The NODE_IS_DEAD emissions, one per dead node in order. */
    method EmitDeaths(dead: seq<Node>)
      modifies this
      ensures events == old(events) + DeathEvents(dead)
      ensures nodes == old(nodes) && nodeDeathTimeout == old(nodeDeathTimeout)
      ensures watching == old(watching) && watchInterval == old(watchInterval)
    {
      var emitted := [];
      for i := 0 to |dead|
        invariant emitted == DeathEvents(dead[..i])
        modifies {}
      {
        DeathEventsSnoc(dead, i);
        emitted := emitted + [NodeIsDead(NodeStatus(dead[i].reply, dead[i].lastResponseTime, false))];
      }
      assert dead[..|dead|] == dead;
      events := events + emitted;
    }

    /** `addNode`: a new node for the reply, not yet alive, joins the end of the list. */
    method AddNode(reply: Payload<Key>, now: int) returns (n: Node)
      requires Valid() && ReplyTyped(reply)
      modifies this
      ensures Valid() && fresh(n) && nodes == old(nodes) + [n]
      ensures n.reply == reply && n.lastResponseTime == now && !n.isAlive && n.ports == [] && n.communicator == communicator
      ensures events == old(events) + [NewNodeRegistered(NodeStatus(reply, now, false))]
      ensures nodeDeathTimeout == old(nodeDeathTimeout) && watching == old(watching) && watchInterval == old(watchInterval)
    {
      n := new Node(reply, communicator, now);
      nodes := nodes + [n];
      events := events + [NewNodeRegistered(Snapshot(n))];
    }

    /** `updateNode`: the last node with the reply's MAC address takes the reply and is
        marked alive; null when there is none. */
    method UpdateNode(reply: Payload<Key>, now: int) returns (r: Option<Node>)
      requires Valid() && ReplyTyped(reply)
      modifies this, Repr()
      ensures Valid() && nodes == old(nodes) && r == old(Found(ByMac(Dotted(reply[MacAddress].a))))
      ensures nodeDeathTimeout == old(nodeDeathTimeout) && watching == old(watching) && watchInterval == old(watchInterval)
      ensures r.None? ==> events == old(events)
      ensures r.Some? ==>
        r.value.reply == reply && r.value.lastResponseTime == now && r.value.isAlive &&
        r.value.ports == old(r.value.ports) &&
        events == old(events) + [NodeStatusUpdated(NodeStatus(reply, now, true))]
      ensures forall j :: 0 <= j < |nodes| && Some(nodes[j]) != r ==> unchanged(nodes[j])
    {
      r := Found(ByMac(Dotted(reply[MacAddress].a)));
      if r.None? {
        return;
      }
      var node := r.value;
      node.Update(reply, now);
      node.isAlive := true;
      events := events + [NodeStatusUpdated(Snapshot(node))];
    }

    /** `updateNodeDeathTimeout(timeoutMs = NODE_DEATH_TIMEOUT_MS)`. */
    method UpdateNodeDeathTimeout(timeout: Option<int>) returns (r: int)
      modifies this
      ensures r == nodeDeathTimeout
      ensures timeout.Some? ==> r == timeout.value
      ensures timeout.None? ==> r == NODE_DEATH_TIMEOUT_MS
      ensures nodes == old(nodes) && events == old(events) && watching == old(watching) && watchInterval == old(watchInterval)
    {
      nodeDeathTimeout := if timeout.Some? then timeout.value else NODE_DEATH_TIMEOUT_MS;
      r := nodeDeathTimeout;
    }

    /** `addOrUpdateNode`: the node with the reply's MAC address is updated, or else a new
        one is added; either way exactly one event is emitted. */
    method AddOrUpdateNode(reply: Payload<Key>, now: int) returns (n: Node)
      requires Valid() && ReplyTyped(reply)
      modifies this, Repr()
      ensures Valid() && n in nodes
      ensures nodeDeathTimeout == old(nodeDeathTimeout) && watching == old(watching) && watchInterval == old(watchInterval)
      ensures n.reply == reply && n.lastResponseTime == now
      ensures var found := old(Found(ByMac(Dotted(reply[MacAddress].a))));
        (found.Some? ==>
           n == found.value && nodes == old(nodes) && n.isAlive &&
           events == old(events) + [NodeStatusUpdated(NodeStatus(reply, now, true))]) &&
        (found.None? ==>
           fresh(n) && nodes == old(nodes) + [n] && !n.isAlive &&
           events == old(events) + [NewNodeRegistered(NodeStatus(reply, now, false))])
      ensures forall j :: 0 <= j < |old(nodes)| && nodes[j] != n ==> unchanged(nodes[j])
      ensures old(UniqueMacs()) ==> UniqueMacs()
    {
      var updated := UpdateNode(reply, now);
      if updated.Some? {
        return updated.value;
      }
      n := AddNode(reply, now);
    }

    /** `removeNodes(predicate)` as written: the list is spliced while a `for...of` walks
        it, so each node after a removed one is passed over. */
    method RemoveNodes(pred: NodeStatus -> bool) returns (removed: seq<Node>)
      requires Valid()
      modifies this
      ensures Valid() && (nodes, removed) == SkipRemoved(old(nodes), old(Accepted(nodes, pred)))
      ensures events == old(events) && nodeDeathTimeout == old(nodeDeathTimeout)
      ensures watching == old(watching) && watchInterval == old(watchInterval)
    {
      ghost var hit := Accepted(nodes, pred);
      ghost var spec := SpliceWhileIterating(nodes, 0, [], hit);
      SpliceWhileIteratingIsSkipRemoved(nodes, hit);
      removed := [];
      var k := 0;
      while k < |nodes|
        invariant Valid() && Elements(nodes) <= old(Elements(nodes))
        invariant SpliceWhileIterating(nodes, k, removed, hit) == spec
        invariant events == old(events) && nodeDeathTimeout == old(nodeDeathTimeout)
        invariant watching == old(watching) && watchInterval == old(watchInterval)
        decreases |nodes| + 1 - k
      {
        var n := nodes[k];
        assert n in hit <==> pred(Snapshot(n));
        if pred(Snapshot(n)) {
          SpliceWhileIteratingAt(nodes, k, removed, hit);
          var out := SpliceOut(n, k);
          removed := removed + out;
        }
        k := k + 1;
      }
    }

    /** With MAC addresses unique, removing by MAC as written passes nothing over: the loop
        removes just the node `getByMac` finds, or nothing when none has that address, so
        the last node removed is the one `getByMac` gives. */
    lemma RemoveByMacExact(mac: string)
      requires Valid() && UniqueMacs()
      ensures SkipRemoved(nodes, Accepted(nodes, Wanted(ByMac(mac)))) == Excise(nodes, LastMatchIndex(nodes, Wanted(ByMac(mac))))
      ensures var gone := SkipRemoved(nodes, Accepted(nodes, Wanted(ByMac(mac)))).1;
        (if |gone| == 0 then None else Some(gone[|gone| - 1])) == Found(ByMac(mac))
    {
      var pred := Wanted(ByMac(mac));
      var hit := Accepted(nodes, pred);
      var k := LastMatchIndex(nodes, pred);
      assert forall j :: 0 <= j < |nodes| ==> (nodes[j] in hit <==> pred(Snapshot(nodes[j])));
      if k.Some? {
        forall j | 0 <= j < |nodes| && j != k.value
          ensures nodes[j] !in hit
        {
          SnapshotShowsGetters(nodes[j]);
          SnapshotShowsGetters(nodes[k.value]);
          if j < k.value {
            assert nodes[j].MacAddressText() != nodes[k.value].MacAddressText();
          } else {
            assert nodes[k.value].MacAddressText() != nodes[j].MacAddressText();
          }
        }
        SkipRemovedOne(nodes, hit, k.value);
      } else {
        SkipRemovedNone(nodes, hit);
      }
    }

    /** `nodes.splice(nodes.indexOf(node), 1)`: the node at position k leaves the list and
        is returned. */
    method SpliceOut(n: Node, ghost k: nat) returns (out: seq<Node>)
      requires Valid() && k < |nodes| && nodes[k] == n
      modifies this
      ensures Valid() && Elements(nodes) <= old(Elements(nodes))
      ensures nodes == old(nodes[..k] + nodes[k + 1..]) && out == [n]
      ensures events == old(events) && nodeDeathTimeout == old(nodeDeathTimeout)
      ensures watching == old(watching) && watchInterval == old(watchInterval)
    {
      var at := IndexOf(nodes, n);
      IndexOfDistinct(nodes, k);
      SpliceAt(nodes, k);
      DistinctCut(nodes, k);
      CutValid(nodes, k);
      var cut := JsArrays.Splice(nodes, at.value, 1);
      nodes := cut.0;
      out := cut.1;
    }

    /** `removeNodes` as evidently intended: every node the callback accepts is removed,
        in order, and the rest stay in order. */
    method RemoveMatching(pred: NodeStatus -> bool) returns (removed: seq<Node>)
      requires Valid()
      modifies this
      ensures Valid()
      ensures nodes == old(Matching(nodes, pred, false)) && removed == old(Matching(nodes, pred, true))
      ensures events == old(events) && nodeDeathTimeout == old(nodeDeathTimeout)
      ensures watching == old(watching) && watchInterval == old(watchInterval)
    {
      var kept := [];
      removed := [];
      for i := 0 to |nodes|
        invariant kept == Matching(nodes[..i], pred, false) && removed == Matching(nodes[..i], pred, true)
      {
        assert nodes[..i + 1][..i] == nodes[..i];
        if pred(Snapshot(nodes[i])) {
          removed := removed + [nodes[i]];
        } else {
          kept := kept + [nodes[i]];
        }
      }
      assert nodes[..|nodes|] == nodes;
      MatchingDistinct(nodes, pred, false);
      nodes := kept;
    }

    /** `stopWatch`: the watcher's interval is cleared. */
    method StopWatch()
      modifies this
      ensures !watching && watchInterval == old(watchInterval) && nodeDeathTimeout == old(nodeDeathTimeout)
      ensures nodes == old(nodes) && events == old(events)
    {
      watching := false;
    }

    /** `watch(watchInterval?, nodeDeathTimeout?)`: the watcher is restarted, and a missing
        argument takes its default, so the death timeout is reset unless one is given. */
    method Watch(interval: Option<int>, timeout: Option<int>)
      modifies this
      ensures watching && nodes == old(nodes) && events == old(events)
      ensures watchInterval == (if interval.Some? then interval.value else DEFAULT_NODE_WATCHER_INTERVAL_MS)
      ensures nodeDeathTimeout == (if timeout.Some? then timeout.value else NODE_DEATH_TIMEOUT_MS)
    {
      StopWatch();
      nodeDeathTimeout := if timeout.Some? then timeout.value else NODE_DEATH_TIMEOUT_MS;
      watchInterval := if interval.Some? then interval.value else DEFAULT_NODE_WATCHER_INTERVAL_MS;
      watching := true;
    }

    /** `dispose` as written: `splice(0, -1)` removes nothing, so only the watcher stops. */
    method Dispose()
      modifies this
      ensures !watching && nodes == old(nodes) && events == old(events)
      ensures watchInterval == old(watchInterval) && nodeDeathTimeout == old(nodeDeathTimeout)
    {
      SpliceNothing(nodes, 0, -1);
      nodes := JsArrays.Splice(nodes, 0, -1).0;
      StopWatch();
    }

    /** `dispose` as evidently intended: the registry is emptied and the watcher stops. */
    method Clear()
      modifies this
      ensures Valid() && !watching && nodes == [] && events == old(events)
      ensures watchInterval == old(watchInterval) && nodeDeathTimeout == old(nodeDeathTimeout)
    {
      SpliceAll(nodes);
      nodes := JsArrays.Splice(nodes, 0, |nodes|).0;
      StopWatch();
    }
  }
}
