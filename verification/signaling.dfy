/** signaling/src/main.rs: the second writer of the routing key, and the table of connected clients. */
module Signaling {
  import opened Basics
  import opened Tree
  import opened RoutingModel
  import opened Names
  import opened Routing
  import opened TreeSafety
  import opened Growth

  /** disconnect_node, up to the compare-and-swap. Its copy of the value has no attach times. */
  method DisconnectNodeAttempt(st: RoutingState, node: Name) returns (proxiesRemoved: nat, publishersRemoved: nat)
    modifies st
    ensures [st.Value()] == Proposals(SignalDisconnect(node), old(st.Value()), 0)
    ensures proxiesRemoved == |old(st.proxies)| - |st.proxies|
    ensures publishersRemoved == |old(st.publishers)| - |st.publishers|
  {
    var children := BuildChildrenMap(st.edges);
    var subtree := CollectSubtree(st.edges, node, children);
    CutBySubtree(st.edges, node, subtree);
    st.edges := Filter(st.edges, OutsideOf(subtree));
    var proxiesBefore := |st.proxies|;
    FilterShorter(st.proxies, NotName(node));
    st.proxies := Filter(st.proxies, NotName(node));
    proxiesRemoved := proxiesBefore - |st.proxies|;
    var publishersBefore := |st.publishers|;
    FilterShorter(st.publishers, NotName(node));
    st.publishers := Filter(st.publishers, NotName(node));
    publishersRemoved := publishersBefore - |st.publishers|;
    st.attachMs := map[];
  }

  lemma {:induction false} FilterShorter<T>(s: seq<T>, keep: T -> bool)
    ensures |Filter(s, keep)| <= |s|
  {
    if s != [] {
      FilterShorter(s[..|s| - 1], keep);
    }
  }

  /** Both disconnects remove the same edges, on any stored value, tree or not: all and only those touching node or a
      descendant. The signaling server's also deregisters the node and nobody else. */
  lemma DisconnectsAgree(st: State, node: Name, f: nat)
    ensures var core, signal := Proposals(Disconnect(node), st, f)[0], Proposals(SignalDisconnect(node), st, f)[0];
      var E := Elements(st.edges);
      && core.edges == signal.edges
      && (forall e :: e in core.edges <==> e in st.edges && !Reaches(E, node, e.parent) && !Reaches(E, node, e.child))
      && core.publishers == st.publishers && core.proxies == st.proxies
      && (forall p :: p in signal.publishers <==> p in st.publishers && p != node)
      && (forall p :: p in signal.proxies <==> p in st.proxies && p != node)
  {
    SubtreeFacts(Elements(st.edges), node);
    FilterIs(st.edges, OutsideOf(Subtree(Elements(st.edges), node)));
    FilterIs(st.publishers, NotName(node));
    FilterIs(st.proxies, NotName(node));
  }

  /** On a tree that is one edge per node of the subtree, one less if node has no parent, and both leave a tree.
      Without the root nothing is left. After the signaling server's disconnect every parent left is registered, also
      when the root goes and the next publisher takes over. */
  lemma DisconnectOnTree(role: Roles, st: State, node: Name, f: nat)
    requires Inv(role, st)
    ensures var core, signal := Proposals(Disconnect(node), st, f)[0], Proposals(SignalDisconnect(node), st, f)[0];
      && |st.edges| - |core.edges| ==
         |Subtree(Elements(st.edges), node)| - (if st.HasParentEdge(node) then 0 else 1)
      && Inv(role, core) && Inv(role, signal)
      && (st.publishers != [] && node == st.publishers[0] ==> core.edges == [])
      && (forall e :: e in signal.edges ==>
            e.parent in signal.proxies || (signal.publishers != [] && e.parent == signal.publishers[0]))
  {
    CutKeeps(role, st, node);
    SignalKeeps(role, st, node);
    DisconnectCount(role, st, node);
    ParentsRegistered(role, SignalNext(st, node));
  }

  lemma ParentsRegistered(role: Roles, st: State)
    requires Inv(role, st)
    ensures forall e :: e in st.edges ==>
      e.parent in st.proxies || (st.publishers != [] && e.parent == st.publishers[0])
  {
  }

  lemma DisconnectCount(role: Roles, st: State, node: Name)
    requires Inv(role, st)
    ensures |st.edges| - |CutEdges(st.edges, node)| ==
            |Subtree(Elements(st.edges), node)| - (if st.HasParentEdge(node) then 0 else 1)
  {
    var E := Elements(st.edges);
    CutEdgesSet(st.edges, node);
    FilterDistinct(st.edges, OutsideOf(Subtree(E, node)));
    DistinctCard(st.edges);
    DistinctCard(CutEdges(st.edges, node));
    KinHasEdge(st, node);
    if st.publishers == [] {
      NoEdges(st, node);
    } else {
      var d :| TreeWith(st, d);
      CutCount(E, st.publishers[0], d, node);
    }
  }

  lemma NoEdges(st: State, node: Name)
    requires st.edges == []
    ensures Subtree(Elements(st.edges), node) == {node} && CutEdges(st.edges, node) == [] && !st.HasParentEdge(node)
  {
    SubtreeFacts(Elements(st.edges), node);
    forall y | y in Subtree(Elements(st.edges), node)
      ensures y == node
    {
    }
  }

  /** Every node left hangs where it did: the survivors keep their depth. */
  lemma SurvivorsKeepDepth(role: Roles, st: State, d: map<Name, nat>, node: Name) returns (d': map<Name, nat>)
    requires Inv(role, st) && TreeWith(st, d)
    ensures TreeWith(st.(edges := CutEdges(st.edges, node)), d')
    ensures forall y :: y in d' ==> y in d && d'[y] == d[y]
    ensures forall y :: y in d && !Reaches(Elements(st.edges), node, y) ==> y in d'
  {
    d' := CutTree(Elements(st.edges), st.publishers[0], d, node);
    CutEdgesSet(st.edges, node);
    SubtreeFacts(Elements(st.edges), node);
  }

  // ----- the client table -----

  /** Clients by id, each with the generation its connection was given. past: what happened to each id so far. */
  class ClientTable {
    var clients: map<Text, nat>
    ghost var past: map<Text, seq<Event>>

    ghost predicate Valid()
      reads this
    {
      Remembers(clients, past)
    }

    constructor ()
      ensures Valid() && clients == map[] && past == map[]
    {
      clients, past := map[], map[];
    }

    method Register(id: Text) returns (generation: nat)
      requires Valid()
      modifies this
      ensures Valid() && past == old(past)[id := EventsOf(old(past), id) + [Joins]]
      ensures generation == if id in old(clients) then old(clients)[id] + 1 else 1
      ensures clients == old(clients)[id := generation]
      ensures HistoryOf(EventsOf(past, id)).gens == HistoryOf(EventsOf(old(past), id)).gens + [generation]
    {
      ghost var es := EventsOf(past, id);
      ghost var was := clients;
      assert Entry(clients, id) == HistoryOf(es).entry;
      generation := if id in clients then clients[id] + 1 else 1;
      Happens(es, Joins);
      clients := clients[id := generation];
      Recorded(was, past, clients, id, es + [Joins]);
      past := past[id := es + [Joins]];
    }

    /** The end of the c-th connection of id, which was given this generation. The entry stays if it has another
        generation, and then unchanged; other entries always stay. It goes exactly if connection c is the latest, or was
        made before the last removal and as many have been made since as its generation says. */
    method Unregister(id: Text, generation: nat, ghost c: nat)
      requires Valid()
      requires c < |HistoryOf(EventsOf(past, id)).gens| && HistoryOf(EventsOf(past, id)).gens[c] == generation
      modifies this
      ensures Valid() && past == old(past)[id := EventsOf(old(past), id) + [Leaves(c)]]
      ensures forall k :: k in clients <==> k in old(clients) && !(k == id && old(clients)[k] == generation)
      ensures forall k :: k in clients ==> clients[k] == old(clients)[k]
      ensures var h := HistoryOf(EventsOf(old(past), id));
        id in old(clients) && id !in clients <==>
          if h.base <= c then c == |h.gens| - 1 else |h.gens| - h.base == generation
    {
      ghost var es := EventsOf(past, id);
      ghost var was := clients;
      assert Entry(clients, id) == HistoryOf(es).entry;
      Happens(es, Leaves(c));
      WhoRemoves(es, c);
      if id in clients && clients[id] == generation {
        clients := clients - {id};
      }
      Recorded(was, past, clients, id, es + [Leaves(c)]);
      past := past[id := es + [Leaves(c)]];
    }

    /** The debounce check before cleaning up: whether a client still waits for some peer as this node of this topic. */
    method StillConnected(topic: Text, node: Text) returns (r: bool)
      ensures r <==> exists peer :: WaitsFor(clients.Keys, topic, node, peer)
    {
      r := exists id | id in clients :: BelongsTo(id, topic, node);
      if r {
        var id :| id in clients && BelongsTo(id, topic, node);
        var p := Split(id);
        SplitsInThree(id, topic, node, p[2]);
        assert WaitsFor(clients.Keys, topic, node, p[2]);
      }
      forall peer | WaitsFor(clients.Keys, topic, node, peer)
        ensures r
      {
        var id := topic + [DASH] + node + [DASH] + peer;
        SplitsInThree(id, topic, node, peer);
        assert BelongsTo(id, topic, node);
      }
    }
  }

  /** The table holds the id under which node waits for peer. */
  ghost predicate WaitsFor(ids: set<Text>, topic: Text, node: Text, peer: Text) {
    DASH !in topic && DASH !in node && DASH !in peer && topic + [DASH] + node + [DASH] + peer in ids
  }

  /** When clients register under signal ids, the check finds out exactly whether the node still has an id in the table,
      whoever the peer: no other topic's or node's id is taken for one of its own. */
  lemma StillConnectedMeans(ids: set<Text>, topic: Name, node: Name)
    requires forall id :: id in ids ==> exists t, a, b :: id == SignalId(t, a, b)
    ensures (exists peer :: WaitsFor(ids, Print(topic), Print(node), peer)) <==>
            (exists peer :: SignalId(topic, node, peer) in ids)
  {
    if q :| WaitsFor(ids, Print(topic), Print(node), q) {
      var id := Print(topic) + [DASH] + Print(node) + [DASH] + q;
      var t, a, b :| id == SignalId(t, a, b);
      SplitsInThree(id, Print(topic), Print(node), q);
      SignalIdSplits(t, a, b);
      PrintInjective(topic, t);
      PrintInjective(node, a);
      assert SignalId(topic, node, b) in ids;
    }
    if peer :| SignalId(topic, node, peer) in ids {
      NoDash(topic);
      NoDash(node);
      NoDash(peer);
      assert WaitsFor(ids, Print(topic), Print(node), Print(peer));
    }
  }

  predicate BelongsTo(id: Text, topic: Text, node: Text) {
    var p := Split(id);
    |p| == 3 && p[0] == topic && p[1] == node
  }

  function Entry(clients: map<Text, nat>, id: Text): Option<nat> {
    if id in clients then Some(clients[id]) else None
  }

  function Connect(entry: Option<nat>): Option<nat> {
    match entry
    case Some(g) => Some(g + 1)
    case None => Some(1)
  }

  function Leave(entry: Option<nat>, generation: nat): Option<nat> {
    if entry == Some(generation) then None else entry
  }

  // ----- generations over a history -----

  /** What happens to one client id: a new connection, or the end of the c-th one. */
  datatype Event = Joins | Leaves(c: nat)

  /** entry: the table's entry for the id. gens: the generation each connection was given, in order. base: how many
      connections had been made when the entry was last removed. */
  datatype History = History(entry: Option<nat>, gens: seq<nat>, base: nat)

  function HistoryOf(es: seq<Event>): History {
    if es == [] then History(None, [], 0) else
      var h := HistoryOf(es[..|es| - 1]);
      match es[|es| - 1]
      case Joins =>
        var e := Connect(h.entry);
        History(e, h.gens + [e.value], h.base)
      case Leaves(c) =>
        if c >= |h.gens| then h else
          var e := Leave(h.entry, h.gens[c]);
          History(e, h.gens, if h.entry.Some? && e.None? then |h.gens| else h.base)
  }

  /** Every entry of the table is what its history leaves. */
  ghost predicate Remembers(clients: map<Text, nat>, past: map<Text, seq<Event>>) {
    forall id :: Entry(clients, id) == HistoryOf(EventsOf(past, id)).entry
  }

  lemma {:induction false} Recorded(was: map<Text, nat>, past: map<Text, seq<Event>>, now: map<Text, nat>, id: Text,
                                    es: seq<Event>)
    requires Remembers(was, past) && Entry(now, id) == HistoryOf(es).entry
    requires forall k :: k != id ==> Entry(now, k) == Entry(was, k)
    ensures Remembers(now, past[id := es])
  {
    forall k
      ensures Entry(now, k) == HistoryOf(EventsOf(past[id := es], k)).entry
    {
      assert k != id ==> EventsOf(past[id := es], k) == EventsOf(past, k);
    }
  }

  ghost function EventsOf(past: map<Text, seq<Event>>, id: Text): seq<Event> {
    if id in past then past[id] else []
  }

  lemma {:induction false} Happens(es: seq<Event>, e: Event)
    ensures var h, n := HistoryOf(es), HistoryOf(es + [e]);
      match e
      case Joins => n.entry == Connect(h.entry) && n.gens == h.gens + [n.entry.value]
      case Leaves(c) => n.gens == h.gens && n.entry == if c < |h.gens| then Leave(h.entry, h.gens[c]) else h.entry
  {
    assert (es + [e])[..|es|] == es;
  }

  /** A connection's generation is its number since the last removal before it; the entry belongs to the latest one. */
  lemma {:induction false} GenerationCounts(es: seq<Event>)
    ensures var h := HistoryOf(es);
      && h.base <= |h.gens|
      && (h.entry.None? <==> h.base == |h.gens|)
      && (h.entry.Some? ==> h.entry.value == |h.gens| - h.base)
      && (forall c :: h.base <= c < |h.gens| ==> h.gens[c] == c + 1 - h.base)
      && (forall c :: 0 <= c < |h.gens| ==> 1 <= h.gens[c] <= c + 1)
  {
    if es != [] {
      GenerationCounts(es[..|es| - 1]);
    }
  }

  /** While the entry has been present since connection c was made, generations strictly increase and the end of c
      removes the entry exactly when c is the latest connection. For an older connection, made before the last removal,
      its end removes the entry of a newer one exactly when as many connections have been made since that removal as its
      own generation says. */
  lemma {:induction false} WhoRemoves(es: seq<Event>, c: nat)
    requires c < |HistoryOf(es).gens|
    ensures var h, n := HistoryOf(es), HistoryOf(es + [Leaves(c)]);
      var removes := h.entry.Some? && n.entry.None?;
      && (h.base <= c ==> (removes <==> c == |h.gens| - 1))
      && (forall i, j :: h.base <= i < j < |h.gens| ==> h.gens[i] < h.gens[j])
      && (c < h.base ==> (removes <==> |h.gens| - h.base == h.gens[c]))
  {
    GenerationCounts(es);
    assert (es + [Leaves(c)])[..|es|] == es;
  }

  /** The second case happens: an older connection that outlives the latest one can remove the entry of a third. */
  lemma LingeringDisconnect()
    ensures var es := [Joins, Joins, Leaves(1), Joins];
      && HistoryOf(es) == History(Some(1), [1, 2, 1], 2)
      && HistoryOf(es + [Leaves(0)]).entry == None
  {
    var e1 := [Joins];
    var e2 := e1 + [Joins];
    var e3 := e2 + [Leaves(1)];
    var e4 := e3 + [Joins];
    assert e1[..0] == [] && HistoryOf(e1) == History(Some(1), [1], 0);
    assert e2[..1] == e1 && HistoryOf(e2) == History(Some(2), [1, 2], 0);
    assert e3[..2] == e2 && HistoryOf(e3) == History(None, [1, 2], 2);
    assert e4[..3] == e3 && HistoryOf(e4) == History(Some(1), [1, 2, 1], 2);
    assert e4 == [Joins, Joins, Leaves(1), Joins];
    assert (e4 + [Leaves(0)])[..4] == e4;
  }
}
