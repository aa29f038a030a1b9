/** core/src/routing.rs: a turn of subscribe and what it reports. */
module Subscribing {
  import opened Basics
  import opened Tree
  import opened RoutingModel
  import opened Routing
  import opened Fanout
  import opened TreeSafety
  import opened Growth
  import opened Effects

  /** How one pass through the retry loop of subscribe ends. Continue: nothing committed, the loop reads again. */
  datatype Attempt = NoPublisher | AlreadyAttached | Committed | NoUnusedProxy | Continue

  /** What the turn reports when its first swap is accepted: a success where there is a place, by attaching or by
      grafting, the error where a graft finds no proxy, and another turn only where there is no place for a graft. */
  ghost predicate FirstAnswered(r: Attempt, st: State, sub: Name, f: nat, env: Env)
    requires st.publishers != []
  {
    exists o :: FirstMeans(st, sub, f, env, o) && r == match o
      case RoomAt(_) => Committed
      case GraftUnder(_, _, _) => Committed
      case NoProxyAt(_) => NoUnusedProxy
      case NoPlace => Continue
  }

  /** A tree within the bound whose proxies answer. */
  ghost predicate Steady(role: Roles, st: State, f: nat, env: Env) {
    Inv(role, st) && FanoutOk(st, f) && Healthy(st, env) && f >= 2
  }

  function Ending(won: bool, noProxy: bool): Attempt {
    if won then Committed else if noProxy then NoUnusedProxy else Continue
  }

  lemma FirstAnswer(st: State, sub: Name, f: nat, env: Env, cas: set<nat>, tries: seq<State>, won: bool, noProxy: bool)
    requires f >= 1 && st.publishers != [] && !st.HasParentEdge(sub) && 0 in cas
    requires StopsAtFirst(tries, SubscribeScan(st, sub, f, env).tries, won, cas, 0)
    requires !won ==> noProxy == SubscribeScan(st, sub, f, env).noProxy
    ensures FirstAnswered(Ending(won, noProxy), st, sub, f, env)
  {
    var o := FirstOffer(st, sub, f, env);
    var scan := SubscribeScan(st, sub, f, env);
    assert scan.tries != [] <==> won;
  }

  lemma HealthyAnswer(role: Roles, st: State, sub: Name, f: nat, env: Env, cas: set<nat>, tries: seq<State>,
                      won: bool)
    requires Steady(role, st, f, env) && st.publishers != [] && 0 in cas
    requires StopsAtFirst(tries, SubscribeScan(st, sub, f, env).tries, won, cas, 0)
    ensures won || SubscribeScan(st, sub, f, env).noProxy
  {
    var d :| TreeWith(st, d);
    var l := SubscribeLands(role, st, d, sub, f, env);
  }

  /** One turn of the retry loop of subscribe, on the working copy st. cas holds the numbers of the compare-and-swaps
      of the turn that are accepted. The values offered are those of Proposals, up to the first that is accepted.
      Success is reported exactly if the subscriber has a parent, in the value read or in the one swapped in;
      NoPublisher exactly if nobody is registered to publish; NoUnusedProxy only if at some node searched every
      registered proxy that answered is in use in the working copy. With its first swap accepted the turn ends as
      FirstAnswered says, and in a healthy tree never with another turn; role is needed only to say so. */
  method SubscribeAttempt(st: RoutingState, sub: Name, f: nat, env: Env, cas: set<nat>, ghost role: Roles)
    returns (r: Attempt, tries: seq<State>)
    modifies st
    ensures StopsAtFirst(tries, Proposals(Subscribe(sub, env), old(st.Value()), f), r == Committed, cas, 0)
    ensures r == Committed ==> st.Value() == tries[|tries| - 1]
    ensures r == NoPublisher <==> old(st.publishers) == []
    ensures r == AlreadyAttached <==> old(st.publishers) != [] && exists e :: e in old(st.edges) && e.child == sub
    ensures r == AlreadyAttached || r == Committed <==>
      old(st.publishers) != [] &&
      exists e :: e in (if r == Committed then st.edges else old(st.edges)) && e.child == sub
    ensures r == NoUnusedProxy ==>
      exists a :: a in Bfs(Seeded(old(st.Value()), sub, env), old(st.publishers[0])) &&
        forall p :: p in st.proxies && p in env.PickAlive(a.node) ==> !Idle(st.Value(), p)
    ensures f >= 1 && 0 in cas && r != NoPublisher && r != AlreadyAttached ==>
      FirstAnswered(r, old(st.Value()), sub, f, env)
    ensures Steady(role, old(st.Value()), f, env) && 0 in cas ==> r != Continue
  {
    ghost var v := st.Value();
    if st.publishers == [] {
      return NoPublisher, [];
    }
    if st.Value().HasParentEdge(sub) {
      return AlreadyAttached, [];
    }
    SeedAttachMs(st, sub, env);
    var won, noProxy;
    won, noProxy, tries := PlaceSubscriber(st, sub, f, env, cas);
    r := Ending(won, noProxy);
    AttemptMeans(role, v, sub, f, env, cas, tries, won, noProxy);
  }

  lemma AttemptMeans(role: Roles, st: State, sub: Name, f: nat, env: Env, cas: set<nat>, tries: seq<State>, won: bool,
                     noProxy: bool)
    requires st.publishers != [] && !st.HasParentEdge(sub)
    requires StopsAtFirst(tries, SubscribeScan(st, sub, f, env).tries, won, cas, 0)
    requires !won ==> noProxy == SubscribeScan(st, sub, f, env).noProxy
    ensures f >= 1 && 0 in cas ==> FirstAnswered(Ending(won, noProxy), st, sub, f, env)
    ensures Steady(role, st, f, env) && 0 in cas ==> won || noProxy
  {
    if f >= 1 && 0 in cas {
      FirstAnswer(st, sub, f, env, cas, tries, won, noProxy);
    }
    if Steady(role, st, f, env) && 0 in cas {
      HealthyAnswer(role, st, sub, f, env, cas, tries, won);
    }
  }
}
