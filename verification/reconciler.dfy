/** core/src/topic_manager.rs: keeping connections in step with the routing tree, and the ids peers meet under. */
module Reconciler {
  import opened Basics
  import opened Tree
  import opened RoutingModel
  import opened Names
  import opened TreeSafety
  import opened Protocol
  import Signaling

  // ----- reading the edges back -----

  function EdgeConnection(e: Edge): Connection {
    Connection(e.parent, e.child)
  }

  /** The list read stands for the edges stored: those of the value read, and none if the key is unset or could not be
      read. */
  ghost predicate ListsEdges(all: seq<Connection>, raw: Raw) {
    && |all| == |Parse(raw).edges|
    && (forall i :: 0 <= i < |all| ==>
          all[i].publisher == Parse(raw).edges[i].parent && all[i].subscriber == Parse(raw).edges[i].child)
    && (raw == Absent ==> all == [])
  }

  /** current_connections: every stored edge, in order. A failed read is no error: it gives the empty text, Absent. */
  method CurrentConnections(raw: Raw) returns (out: seq<Connection>)
    ensures ListsEdges(out, raw)
  {
    var st := Parse(raw);
    out := [];
    for i := 0 to |st.edges|
      invariant |out| == i && forall k :: 0 <= k < i ==> out[k] == EdgeConnection(st.edges[k])
    {
      var e := EdgeConnection(st.edges[i]);
      ConnectionRoundTrip(e);
      var c := ParseConnection(PrintConnection(e));
      if c.Some? {
        out := out + [c.value];
      }
    }
  }

  /** The re-join policy: which nodes subscribe again on reading the connections. */
  predicate Resubscribes(all: seq<Connection>, me: Name, role: Role) {
    && !(exists c :: c in all && c.subscriber == me)
    && (role == Listener || (role == Proxy && exists c :: c in all && c.publisher == me))
  }

  lemma ListedConnection(all: seq<Connection>, raw: Raw, c: Connection)
    requires ListsEdges(all, raw)
    ensures c in all <==> Edge(c.publisher, c.subscriber) in Parse(raw).edges
  {
    var st := Parse(raw);
    if c in all {
      var i :| 0 <= i < |all| && all[i] == c;
      assert st.edges[i] == Edge(c.publisher, c.subscriber);
    }
    if Edge(c.publisher, c.subscriber) in st.edges {
      var i :| 0 <= i < |st.edges| && st.edges[i] == Edge(c.publisher, c.subscriber);
      assert all[i] == c;
    }
  }

  lemma ListedParent(all: seq<Connection>, raw: Raw, me: Name)
    requires ListsEdges(all, raw)
    ensures (exists c :: c in all && c.subscriber == me) <==> Parse(raw).HasParentEdge(me)
    ensures (exists c :: c in all && c.publisher == me) <==> exists e :: e in Parse(raw).edges && e.parent == me
  {
    forall e: Edge
      ensures e in Parse(raw).edges <==> Connection(e.parent, e.child) in all
    {
      ListedConnection(all, raw, Connection(e.parent, e.child));
    }
    forall c | c in all
      ensures Edge(c.publisher, c.subscriber) in Parse(raw).edges
    {
      ListedConnection(all, raw, c);
    }
  }

  /** On a tree exactly the listeners without a parent subscribe again; a proxy never does. When the read fails every
      listener does, attached or not. */
  lemma RejoinRule(role: Roles, raw: Raw, all: seq<Connection>, me: Name)
    requires Inv(role, Parse(raw)) && ListsEdges(all, raw)
    ensures Resubscribes(all, me, role(me)) <==> role(me) == Listener && !Parse(raw).HasParentEdge(me)
    ensures Resubscribes([], me, role(me)) <==> role(me) == Listener
  {
    ListedParent(all, raw, me);
    if role(me) == Proxy {
      NoRejoin(role, Parse(raw), me);
    }
  }

  // ----- the connection table -----

  function Relevant(all: seq<Connection>, me: Name): set<Connection> {
    set c | c in all && IsInvolved(c, me)
  }

  function Ids(topic: Name, cs: set<Connection>): set<Text> {
    set c | c in cs :: ConnectionId(topic, c)
  }

  /** The ids name topic, publisher and subscriber. */
  lemma {:induction false} IdsMean(topic: Name, cs: set<Connection>, id: Text)
    ensures id in Ids(topic, cs) <==>
      exists c :: c in cs && Split(id) == [Print(topic), Print(c.publisher), Print(c.subscriber)]
  {
    if id in Ids(topic, cs) {
      var c :| c in cs && ConnectionId(topic, c) == id;
      ConnectionIdSplits(topic, c);
    }
    if c :| c in cs && Split(id) == [Print(topic), Print(c.publisher), Print(c.subscriber)] {
      ConnectionIdSplits(topic, c);
      SplitsInThree(id, Print(topic), Print(c.publisher), Print(c.subscriber));
      SplitsInThree(ConnectionId(topic, c), Print(topic), Print(c.publisher), Print(c.subscriber));
      assert c in cs && ConnectionId(topic, c) == id;
    }
  }

  function Printed(cs: set<Connection>): set<Text> {
    set c | c in cs :: PrintConnection(c)
  }

  lemma PrintedMember(cs: set<Connection>, c: Connection)
    ensures PrintConnection(c) in Printed(cs) <==> c in cs
  {
    ConnectionRoundTrip(c);
    if PrintConnection(c) in Printed(cs) {
      var b :| b in cs && PrintConnection(b) == PrintConnection(c);
      ConnectionRoundTrip(b);
    }
  }

  lemma IdMember(topic: Name, cs: set<Connection>, c: Connection)
    ensures ConnectionId(topic, c) in Ids(topic, cs) <==> c in cs
  {
    if ConnectionId(topic, c) in Ids(topic, cs) {
      var b :| b in cs && ConnectionId(topic, b) == ConnectionId(topic, c);
      ConnectionIdInjective(topic, b, c);
    }
  }

  /** The table's keys and the edge set both stand for the connections cs, all of which involve the node. */
  ghost predicate InStep(topic: Name, me: Name, cs: set<Connection>, keys: set<Text>, edgeSet: set<Text>) {
    && (forall c :: c in cs ==> IsInvolved(c, me))
    && keys == Ids(topic, cs)
    && edgeSet == Printed(cs)
  }

  lemma RelevantInStep(topic: Name, me: Name, all: seq<Connection>)
    ensures var cs := Relevant(all, me);
      InStep(topic, me, cs, Ids(topic, cs), Printed(cs))
  {
  }

  /** One node's view of one topic. A channel number stands for the shutdown sender of an established connection;
      stopped lists the connections, with their channels, that were sent a shutdown. */
  class TopicManager {
    const topic: Name
    const me: Name
    var connections: map<Text, nat>
    var currentEdgeSet: set<Text>
    var channels: nat
    var stopped: seq<(Text, nat)>
    ghost var owners: seq<Text>       // the id each channel was created for
    ghost var known: set<Connection>

    ghost predicate Valid()
      reads this
    {
      InStep(topic, me, known, connections.Keys, currentEdgeSet) && channels == |owners| &&
      OwnChannels(connections, stopped, owners)
    }

    constructor (topic: Name, me: Name)
      ensures Valid() && known == {} && stopped == [] && this.topic == topic && this.me == me
    {
      this.topic, this.me := topic, me;
      connections, currentEdgeSet, channels, stopped := map[], {}, 0, [];
      known, owners := {}, [];
    }

    /** handle_connection_added */
    method HandleAdded(s: Text) returns (mine: bool)
      requires channels == |owners|
      modifies this`connections, this`channels, this`owners
      ensures channels == |owners|
      ensures match ParseConnection(s)
        case None => !mine && connections == old(connections) && owners == old(owners)
        case Some(c) =>
          var id := ConnectionId(topic, c);
          && (mine <==> c.publisher == me)
          && if (c.publisher != me && c.subscriber != me) || id in old(connections)
             then connections == old(connections) && owners == old(owners)
             else connections == old(connections)[id := |old(owners)|] && owners == old(owners) + [id]
    {
      var parsed := ParseConnection(s);
      if parsed == None {
        return false;
      }
      var c := parsed.value;
      if !IsInvolved(c, me) {
        return false;
      }
      var id := ConnectionId(topic, c);
      if id !in connections {
        connections := connections[id := channels];
        channels, owners := channels + 1, owners + [id];
      }
      return c.publisher == me;
    }

    /** handle_connection_removed */
    method HandleRemoved(s: Text) returns (mine: bool)
      modifies this`connections, this`stopped
      ensures match ParseConnection(s)
        case None => !mine && connections == old(connections) && stopped == old(stopped)
        case Some(c) =>
          var id := ConnectionId(topic, c);
          && (mine <==> c.publisher == me)
          && connections == old(connections) - {id}
          && stopped == old(stopped) + if id in old(connections) then [(id, old(connections)[id])] else []
    {
      var parsed := ParseConnection(s);
      if parsed == None {
        return false;
      }
      var c := parsed.value;
      var id := ConnectionId(topic, c);
      if id in connections {
        stopped := stopped + [(id, connections[id])];
        connections := connections - {id};
      }
      return c.publisher == me;
    }

    /** The connections of done have been removed from the table and stopped. */
    ghost predicate Removed(was: map<Text, nat>, sent: seq<(Text, nat)>, done: set<Connection>)
      reads this
    {
      && connections == was - Ids(topic, done) && StopsFor(topic, was, done, sent, stopped)
      && OwnChannels(connections, stopped, owners)
    }

    method RemoveOne(c: Connection, ghost was: map<Text, nat>, ghost sent: seq<(Text, nat)>,
                     ghost done: set<Connection>)
      requires Removed(was, sent, done) && c !in done && ConnectionId(topic, c) in was
      modifies this`connections, this`stopped
      ensures Removed(was, sent, done + {c})
    {
      var id := ConnectionId(topic, c);
      ConnectionRoundTrip(c);
      IdMember(topic, done, c);
      IdsPlus(topic, done, c);
      StopsStep(topic, was, done, c, sent, stopped);
      MinusOneMore(was, Ids(topic, done), Ids(topic, done + {c}), id);
      ChannelStopped(connections, stopped, owners, id);
      var _ := HandleRemoved(PrintConnection(c));
    }

    method RemoveAll(ghost before: set<Connection>, removed: set<Connection>)
      requires connections.Keys == Ids(topic, before) && removed <= before
      requires OwnChannels(connections, stopped, owners)
      modifies this`connections, this`stopped
      ensures Removed(old(connections), old(stopped), removed)
    {
      var todo := removed;
      ghost var done := {};
      NoneRemoved(topic, connections, stopped);
      while todo != {}
        invariant todo !! done && todo + done == removed
        invariant Removed(old(connections), old(stopped), done)
        decreases |todo|
      {
        var c :| c in todo;
        IdMember(topic, before, c);
        RemoveOne(c, old(connections), old(stopped), done);
        OneMoved(todo, done, c);
        todo, done := todo - {c}, done + {c};
      }
    }

    /** The loop body for an edge that came, read back from its text. */
    method Establish(c: Connection)
      requires IsInvolved(c, me) && channels == |owners|
      modifies this`connections, this`channels, this`owners
      ensures channels == |owners|
      ensures var id := ConnectionId(topic, c);
        if id in old(connections) then connections == old(connections) && owners == old(owners)
        else connections == old(connections)[id := |old(owners)|] && owners == old(owners) + [id]
    {
      ConnectionRoundTrip(c);
      var _ := HandleAdded(PrintConnection(c));
    }

    /** The connections of done have been added to the table. */
    ghost predicate Added(was: map<Text, nat>, done: set<Connection>)
      reads this
    {
      && AddedTo(topic, was, connections, done)
      && channels == |owners| && OwnChannels(connections, stopped, owners)
    }

    method AddOne(c: Connection, ghost was: map<Text, nat>, ghost done: set<Connection>)
      requires IsInvolved(c, me) && Added(was, done)
      modifies this`connections, this`channels, this`owners
      ensures Added(was, done + {c})
    {
      if ConnectionId(topic, c) in connections {
        AddedKnown(topic, was, connections, done, c);
      } else {
        AddedNew(topic, was, connections, done, c, |owners|);
        ChannelAdded(connections, stopped, owners, ConnectionId(topic, c));
      }
      Establish(c);
    }

    method AddAll(added: set<Connection>)
      requires forall c :: c in added ==> IsInvolved(c, me)
      requires channels == |owners| && OwnChannels(connections, stopped, owners)
      modifies this`connections, this`channels, this`owners
      ensures Added(old(connections), added)
    {
      var todo := added;
      ghost var done := {};
      while todo != {}
        invariant todo + done == added
        invariant Added(old(connections), done)
        decreases |todo|
      {
        var c :| c in todo;
        AddOne(c, old(connections), done);
        OneMoved(todo, done, c);
        todo, done := todo - {c}, done + {c};
      }
    }

    /** One turn of the loop: raw is what the read of the key gave. Whatever was seen before, the table ends up with
        exactly the edges read that involve the node; every edge that went gets one shutdown, on the channel of its
        own connection, which no other entry shares; every edge that stayed keeps its channel. The node subscribes
        again by the re-join policy. When the read fails every channel of the table is stopped, and a listener
        subscribes again. */
    method OnChange(raw: Raw, role: Role) returns (again: bool)
      requires Valid()
      modifies this
      ensures Valid() && connections.Keys == Ids(topic, known)
      ensures forall c :: c in known <==>
        Edge(c.publisher, c.subscriber) in Parse(raw).edges && (c.publisher == me || c.subscriber == me)
      ensures StopsFor(topic, old(connections), old(known) - known, old(stopped), stopped)
      ensures KeepsChannels(topic, old(known), known, old(connections), connections)
      ensures again <==>
        && (forall e :: e in Parse(raw).edges ==> e.child != me)
        && (role == Listener || (role == Proxy && exists e :: e in Parse(raw).edges && e.parent == me))
      ensures raw == Absent ==> connections == map[] && (again <==> role == Listener)
      ensures raw == Absent ==>
        forall id, ch :: (id, ch) in stopped[|old(stopped)|..] <==> (id, ch) in old(connections).Items
    {
      var all := CurrentConnections(raw);
      forall c
        ensures c in Relevant(all, me) <==> Edge(c.publisher, c.subscriber) in Parse(raw).edges && IsInvolved(c, me)
      {
        ListedConnection(all, raw, c);
      }
      ListedParent(all, raw, me);
      Reconcile(all);
      again := Resubscribes(all, me, role);
      if raw == Absent {
        EmptyReadStopsAll(topic, me, old(known), old(connections), old(stopped), stopped);
      }
    }

    /** Following the connections listed. */
    method Reconcile(all: seq<Connection>)
      requires Valid()
      modifies this
      ensures Valid() && known == Relevant(all, me)
      ensures connections.Keys == Ids(topic, Relevant(all, me))
      ensures StopsFor(topic, old(connections), old(known) - Relevant(all, me), old(stopped), stopped)
      ensures KeepsChannels(topic, old(known), Relevant(all, me), old(connections), connections)
    {
      RelevantInStep(topic, me, all);
      FollowEdges(Relevant(all, me));
    }

    /** The same for the set of relevant connections. */
    method FollowEdges(relevant: set<Connection>)
      requires Valid() && forall c :: c in relevant ==> IsInvolved(c, me)
      modifies this
      ensures Valid() && known == relevant
      ensures StopsFor(topic, old(connections), old(known) - relevant, old(stopped), stopped)
      ensures KeepsChannels(topic, old(known), relevant, old(connections), connections)
    {
      var newEdgeSet := Printed(relevant);
      var removed := Gone(currentEdgeSet, newEdgeSet, known, relevant);
      var added := Gone(newEdgeSet, currentEdgeSet, relevant, known);
      ghost var before := known;
      currentEdgeSet, known := newEdgeSet, relevant;
      Swap(before, relevant, removed, added);
    }

    /** The two loops, over the edges that went and the edges that came. */
    method Swap(ghost before: set<Connection>, ghost after: set<Connection>, removed: set<Connection>,
                added: set<Connection>)
      requires removed == before - after && added == after - before
      requires connections.Keys == Ids(topic, before) && forall c :: c in after ==> IsInvolved(c, me)
      requires channels == |owners| && OwnChannels(connections, stopped, owners)
      modifies this`connections, this`stopped, this`channels, this`owners
      ensures connections.Keys == Ids(topic, after)
      ensures channels == |owners| && OwnChannels(connections, stopped, owners)
      ensures StopsFor(topic, old(connections), before - after, old(stopped), stopped)
      ensures KeepsChannels(topic, before, after, old(connections), connections)
    {
      ghost var was := connections;
      RemoveAll(before, removed);
      ghost var mid := connections;
      AddAll(added);
      Reconciled(topic, before, after, was, mid, connections);
    }
  }

  /** The table was with the connections of done added. */
  ghost predicate AddedTo(topic: Name, was: map<Text, nat>, now: map<Text, nat>, done: set<Connection>) {
    now.Keys == was.Keys + Ids(topic, done) && forall id :: id in was ==> now[id] == was[id]
  }

  lemma AddedKnown(topic: Name, was: map<Text, nat>, now: map<Text, nat>, done: set<Connection>, c: Connection)
    requires AddedTo(topic, was, now, done) && ConnectionId(topic, c) in now
    ensures AddedTo(topic, was, now, done + {c})
  {
    IdsPlus(topic, done, c);
  }

  lemma AddedNew(topic: Name, was: map<Text, nat>, now: map<Text, nat>, done: set<Connection>, c: Connection, ch: nat)
    requires AddedTo(topic, was, now, done) && ConnectionId(topic, c) !in now
    ensures AddedTo(topic, was, now[ConnectionId(topic, c) := ch], done + {c})
  {
    IdsPlus(topic, done, c);
    PutNew(was, now, Ids(topic, done), ConnectionId(topic, c), ch);
  }

  lemma PutNew<K, V>(was: map<K, V>, now: map<K, V>, ids: set<K>, id: K, v: V)
    requires now.Keys == was.Keys + ids && id !in now && forall k :: k in was ==> now[k] == was[k]
    ensures now[id := v].Keys == was.Keys + (ids + {id}) && forall k :: k in was ==> now[id := v][k] == was[k]
  {
  }

  lemma NoneRemoved(topic: Name, connections: map<Text, nat>, stopped: seq<(Text, nat)>)
    ensures connections == connections - Ids(topic, {}) && StopsFor(topic, connections, {}, stopped, stopped)
  {
    assert stopped[|stopped|..] == [];
  }

  lemma OneMoved<T>(a: set<T>, b: set<T>, x: T)
    requires x in a
    ensures (a - {x}) + (b + {x}) == a + b
    ensures a !! b ==> (a - {x}) !! (b + {x})
  {
  }

  function ChannelsOf(stopped: seq<(Text, nat)>): set<nat> {
    if stopped == [] then {} else ChannelsOf(stopped[..|stopped| - 1]) + {stopped[|stopped| - 1].1}
  }

  /** Every entry has the channel that was created for it and was not stopped since; no channel was stopped twice. */
  ghost predicate OwnChannels(connections: map<Text, nat>, stopped: seq<(Text, nat)>, owners: seq<Text>) {
    && (forall id :: id in connections ==>
          connections[id] < |owners| && owners[connections[id]] == id && connections[id] !in ChannelsOf(stopped))
    && |ChannelsOf(stopped)| == |stopped|
    && forall ch :: ch in ChannelsOf(stopped) ==> ch < |owners|
  }

  /** So no two entries share a channel. */
  lemma OneChannelEach(connections: map<Text, nat>, stopped: seq<(Text, nat)>, owners: seq<Text>, a: Text, b: Text)
    requires OwnChannels(connections, stopped, owners) && a in connections && b in connections
    ensures connections[a] == connections[b] <==> a == b
  {
    assert owners[connections[a]] == a && owners[connections[b]] == b;
  }

  lemma ChannelAdded(connections: map<Text, nat>, stopped: seq<(Text, nat)>, owners: seq<Text>, id: Text)
    requires OwnChannels(connections, stopped, owners) && id !in connections
    ensures OwnChannels(connections[id := |owners|], stopped, owners + [id])
  {
  }

  lemma ChannelStopped(connections: map<Text, nat>, stopped: seq<(Text, nat)>, owners: seq<Text>, id: Text)
    requires OwnChannels(connections, stopped, owners) && id in connections
    ensures OwnChannels(connections - {id}, stopped + [(id, connections[id])], owners)
  {
    var more := stopped + [(id, connections[id])];
    assert more[..|more| - 1] == stopped;
    forall other | other in connections - {id}
      ensures connections[other] !in ChannelsOf(more)
    {
      assert owners[connections[other]] == other && owners[connections[id]] == id;
    }
  }

  ghost function Signals(topic: Name, was: map<Text, nat>, cs: set<Connection>): set<(Text, nat)> {
    set c | c in cs && ConnectionId(topic, c) in was :: (ConnectionId(topic, c), was[ConnectionId(topic, c)])
  }

  /** Between two moments exactly one shutdown was sent for each connection of cs, on the channel it had. */
  ghost predicate StopsFor(topic: Name, was: map<Text, nat>, cs: set<Connection>, before: seq<(Text, nat)>,
                           after: seq<(Text, nat)>) {
    && before <= after && |after| == |before| + |cs|
    && Elements(after[|before|..]) == Signals(topic, was, cs)
    && forall c :: c in cs ==> ConnectionId(topic, c) in was
  }

  /** Reading no connections, as after a failed read, stops exactly the channels of the whole table. */
  lemma EmptyReadStopsAll(topic: Name, me: Name, known: set<Connection>, was: map<Text, nat>,
                          before: seq<(Text, nat)>, after: seq<(Text, nat)>)
    requires was.Keys == Ids(topic, known) && StopsFor(topic, was, known - Relevant([], me), before, after)
    ensures Ids(topic, Relevant([], me)) == {}
    ensures |after| == |before| + |known| && forall id, ch :: (id, ch) in after[|before|..] <==> (id, ch) in was.Items
  {
    assert Relevant([], me) == {} && known - Relevant([], me) == known;
    forall id, ch
      ensures (id, ch) in after[|before|..] <==> (id, ch) in was.Items
    {
      assert (id, ch) in after[|before|..] <==> (id, ch) in Signals(topic, was, known);
      if id in was {
        var c :| c in known && ConnectionId(topic, c) == id;
      }
    }
  }

  lemma StopsStep(topic: Name, was: map<Text, nat>, done: set<Connection>, c: Connection,
                  before: seq<(Text, nat)>, after: seq<(Text, nat)>)
    requires c !in done && ConnectionId(topic, c) in was && StopsFor(topic, was, done, before, after)
    ensures StopsFor(topic, was, done + {c}, before, after + [(ConnectionId(topic, c), was[ConnectionId(topic, c)])])
  {
    var s := (ConnectionId(topic, c), was[ConnectionId(topic, c)]);
    assert (after + [s])[|before|..] == after[|before|..] + [s];
    ElementsSnoc(after[|before|..], s);
    assert Signals(topic, was, done + {c}) == Signals(topic, was, done) + {s};
  }

  lemma Reconciled(topic: Name, before: set<Connection>, after: set<Connection>, was: map<Text, nat>,
                   mid: map<Text, nat>, now: map<Text, nat>)
    requires was.Keys == Ids(topic, before) && mid == was - Ids(topic, before - after)
    requires now.Keys == mid.Keys + Ids(topic, after - before)
    requires forall id :: id in mid ==> now[id] == mid[id]
    ensures now.Keys == Ids(topic, after)
    ensures KeepsChannels(topic, before, after, was, now)
  {
    TableIs(topic, before, after);
    assert mid.Keys == was.Keys - Ids(topic, before - after);
    ChannelsKept(topic, before, after, was, now);
  }

  lemma MinusOneMore<K, V>(m: map<K, V>, a: set<K>, b: set<K>, k: K)
    requires b == a + {k}
    ensures (m - a) - {k} == m - b
  {
  }

  /** Connections in both sets keep their channels. */
  ghost predicate KeepsChannels(topic: Name, before: set<Connection>, after: set<Connection>, was: map<Text, nat>,
                                now: map<Text, nat>) {
    forall c :: c in before && c in after ==>
      var id := ConnectionId(topic, c);
      id in was && id in now && now[id] == was[id]
  }

  lemma ChannelsKept(topic: Name, before: set<Connection>, after: set<Connection>, was: map<Text, nat>,
                     now: map<Text, nat>)
    requires was.Keys == Ids(topic, before)
    requires forall id :: id in was && id !in Ids(topic, before - after) ==> id in now && now[id] == was[id]
    ensures KeepsChannels(topic, before, after, was, now)
  {
    forall c | c in before && c in after
      ensures ConnectionId(topic, c) in was && ConnectionId(topic, c) !in Ids(topic, before - after)
    {
      IdMember(topic, before, c);
      IdMember(topic, before - after, c);
    }
  }

  lemma IdsPlus(topic: Name, cs: set<Connection>, c: Connection)
    ensures Ids(topic, cs + {c}) == Ids(topic, cs) + {ConnectionId(topic, c)}
  {
  }

  /** The connections a set of printed ones stands for. */
  function ParsedBack(ss: set<Text>): set<Connection> {
    set s | s in ss && ParseConnection(s).Some? :: ParseConnection(s).value
  }

  lemma DifferenceIs(a: set<Connection>, b: set<Connection>)
    ensures ParsedBack(Printed(a) - Printed(b)) == a - b
  {
    forall c
      ensures c in ParsedBack(Printed(a) - Printed(b)) <==> c in a - b
    {
      PrintedMember(a, c);
      PrintedMember(b, c);
      ConnectionRoundTrip(c);
      if c in ParsedBack(Printed(a) - Printed(b)) {
        var s :| s in Printed(a) - Printed(b) && ParseConnection(s) == Some(c);
        var x :| x in a && PrintConnection(x) == s;
        ConnectionRoundTrip(x);
      }
    }
  }

  /** The edges in one printed set and not in the other, read back. */
  method Gone(from: set<Text>, to: set<Text>, ghost a: set<Connection>, ghost b: set<Connection>)
      returns (gone: set<Connection>)
    requires from == Printed(a) && to == Printed(b)
    ensures gone == a - b
  {
    gone := ParsedBack(from - to);
    DifferenceIs(a, b);
  }

  lemma TableIs(topic: Name, before: set<Connection>, after: set<Connection>)
    ensures (Ids(topic, before) - Ids(topic, before - after)) + Ids(topic, after - before) == Ids(topic, after)
  {
    forall id
      ensures id in (Ids(topic, before) - Ids(topic, before - after)) + Ids(topic, after - before) <==>
          id in Ids(topic, after)
    {
      if id in Ids(topic, before) + Ids(topic, after) {
        var c :| c in before + after && ConnectionId(topic, c) == id;
        IdMember(topic, before, c);
        IdMember(topic, after, c);
        IdMember(topic, before - after, c);
        IdMember(topic, after - before, c);
      } else {
        SubIds(topic, after - before, after, id);
      }
    }
  }

  lemma SubIds(topic: Name, a: set<Connection>, b: set<Connection>, id: Text)
    requires a <= b
    ensures id in Ids(topic, a) ==> id in Ids(topic, b)
  {
  }

  // ----- signal ids -----

  /** generate_signal_ids: this node's id, and the id to dial if it is the subscriber. */
  function GenerateSignalIds(topic: Name, c: Connection, me: Name): (Text, Option<Text>) {
    if c.publisher == me then (SignalId(topic, c.publisher, c.subscriber), None)
    else (SignalId(topic, c.subscriber, c.publisher), Some(SignalId(topic, c.publisher, c.subscriber)))
  }

  /** A node of the connection registers under the topic, its own name and its peer's; the subscriber dials topic,
      publisher, subscriber. */
  lemma RegistersAsItself(topic: Name, c: Connection, me: Name)
    requires me == c.publisher || me == c.subscriber
    ensures var (id, dial) := GenerateSignalIds(topic, c, me);
      && Split(id) == [Print(topic), Print(me), Print(if me == c.publisher then c.subscriber else c.publisher)]
      && (dial.None? <==> me == c.publisher)
      && (dial.Some? ==> Split(dial.value) == [Print(topic), Print(c.publisher), Print(c.subscriber)])
  {
    SignalIdSplits(topic, c.publisher, c.subscriber);
    SignalIdSplits(topic, c.subscriber, c.publisher);
  }

  /** So the end of its client is taken for its own and nobody else's. */
  lemma CountsAsItself(topic: Name, c: Connection, me: Name, topic': Name, node: Name)
    requires me == c.publisher || me == c.subscriber
    ensures Signaling.BelongsTo(GenerateSignalIds(topic, c, me).0, Print(topic'), Print(node)) <==>
            topic' == topic && node == me
  {
    RegistersAsItself(topic, c, me);
    PrintInjective(topic', topic);
    PrintInjective(node, me);
  }

  /** A subscriber dials exactly the id its publisher registers under. */
  lemma DialsThePublisher(topic: Name, c: Connection)
    requires c.publisher != c.subscriber
    ensures GenerateSignalIds(topic, c, c.subscriber).1 == Some(GenerateSignalIds(topic, c, c.publisher).0)
    ensures GenerateSignalIds(topic, c, c.publisher).1 == None
  {
  }

  /** In a tree, the ids under which the two ends of all edges register are all different. */
  lemma SignalIdsDistinct(role: Roles, st: State, topic: Name, e: Edge, g: Edge, atParent: bool, atParent': bool)
    requires Inv(role, st) && e in st.edges && g in st.edges
    ensures var id := GenerateSignalIds(topic, EdgeConnection(e), if atParent then e.parent else e.child).0;
      var id' := GenerateSignalIds(topic, EdgeConnection(g), if atParent' then g.parent else g.child).0;
      id == id' <==> e == g && atParent == atParent'
  {
    var d :| TreeWith(st, d);
    assert e in Elements(st.edges) && g in Elements(st.edges);
    assert d[e.child] == d[e.parent] + 1 && d[g.child] == d[g.parent] + 1;
    var (a, b) := if atParent then (e.parent, e.child) else (e.child, e.parent);
    var (x, y) := if atParent' then (g.parent, g.child) else (g.child, g.parent);
    SignalIdInjective(topic, a, b, x, y);
  }

  /** At every moment of every run without late swaps. */
  lemma SignalIdsAlwaysDistinct(s: Setup, tr: seq<Config>, t: nat, topic: Name, e: Edge, g: Edge, atParent: bool,
                                atParent': bool)
    requires s.f >= 1 && Run(s, tr) && NeverLate(s, tr) && t < |tr|
    requires e in Parse(tr[t].cell).edges && g in Parse(tr[t].cell).edges
    ensures var id := GenerateSignalIds(topic, EdgeConnection(e), if atParent then e.parent else e.child).0;
      var id' := GenerateSignalIds(topic, EdgeConnection(g), if atParent' then g.parent else g.child).0;
      id == id' <==> e == g && atParent == atParent'
  {
    TreeAlways(s, tr, t);
    SignalIdsDistinct(s.role, Parse(tr[t].cell), topic, e, g, atParent, atParent');
  }
}
