/** Many processes sharing one routing key through read, WATCH, compare and MULTI/EXEC, in any interleaving. */
module Protocol {
  import opened Basics
  import opened Tree
  import opened RoutingModel
  import opened BfsProofs
  import opened Fanout
  import opened TreeSafety
  import opened Growth
  import opened Shape

  /** The string under the key. One value has many spellings, and comparison is of strings; an unset key and a failed
      read both give the empty string. */
  datatype Raw = Absent | Text(st: State, spelling: nat)

  function Parse(raw: Raw): State {
    match raw
    case Absent => EMPTY
    case Text(st, _) => st
  }

  /** How op may print st: the signaling server leaves the attach times out, and core prints them in any order, of which
      there is only one if there is at most one attach time. */
  ghost predicate Prints(op: Op, st: State, spelling: nat) {
    if op.SignalDisconnect? then spelling == 1
    else spelling != 1 && (|st.attachMs| <= 1 ==> spelling == 0)
  }

  /** Where a process is. seen: what it had read when it decided on op. was: what it read for this attempt. k: how many
      swaps of this attempt have been refused. dirty: the watched key was written since WATCH. */
  datatype Pc =
    | Idle
    | Wants(op: Op, seen: Raw)
    | Loaded(op: Op, seen: Raw, was: Raw, k: nat)
    | Watching(op: Op, seen: Raw, was: Raw, k: nat, dirty: bool)
    | Ready(op: Op, seen: Raw, was: Raw, k: nat, dirty: bool)
  {
    function Dirtied(): Pc {
      match this
      case Watching(op, seen, was, k, _) => Watching(op, seen, was, k, true)
      case Ready(op, seen, was, k, _) => Ready(op, seen, was, k, true)
      case _ => this
    }
  }

  /** rereads: a refused swap makes the process read again. Otherwise it goes on to its next offer with the value read
      before, as the loops of subscribe are written, and reads again after the last. healthy: proxies in the tree
      answer every heartbeat check. */
  datatype Setup = Setup(role: Roles, f: nat, rereads: bool, healthy: bool)

  datatype Config = Config(cell: Raw, procs: seq<Pc>)

  ghost predicate Init(c: Config) {
    c.cell == Absent && forall i :: 0 <= i < |c.procs| ==> c.procs[i] == Idle
  }

  ghost predicate HealthyOp(s: Setup, op: Op, st: State) {
    s.healthy && op.Subscribe? ==> Healthy(st, op.env)
  }

  ghost function AfterRefusal(s: Setup, p: Pc): Pc
    requires p.Watching? || p.Ready?
  {
    if s.rereads || p.k + 1 >= |Proposals(p.op, Parse(p.was), s.f)| then Wants(p.op, p.seen)
    else Loaded(p.op, p.seen, p.was, p.k + 1)
  }

  datatype Move =
    | Decide(op: Op)
    | Load(fails: bool, op: Op)
    | Watch
    | Compare
    | Exec(spelling: nat)
    | GiveUp

  /** A step of process i. An accepted EXEC writes the cell and dirties every other watch on it, whatever it writes. */
  ghost predicate TakesStep(s: Setup, c: Config, n: Config, i: nat, m: Move) {
    && i < |c.procs| && |n.procs| == |c.procs|
    && var p, q := c.procs[i], n.procs[i];
      if m.Exec? && p.Ready? && !p.dirty then
        && p.k < |Proposals(p.op, Parse(p.was), s.f)|
        && n.cell == Text(Proposals(p.op, Parse(p.was), s.f)[p.k], m.spelling)
        && Prints(p.op, n.cell.st, m.spelling)
        && q == Idle
        && (forall j :: 0 <= j < |c.procs| && j != i ==> n.procs[j] == c.procs[j].Dirtied())
      else
        && n.cell == c.cell
        && (forall j :: 0 <= j < |c.procs| && j != i ==> n.procs[j] == c.procs[j])
        && match m
          case Decide(op) => p == Idle && Allowed(s.role, op, Parse(c.cell)) && q == Wants(op, c.cell)
          case Load(fails, op) =>
            && p.Wants? && SameTask(p.op, op)
            && q == Loaded(op, p.seen, if fails then Absent else c.cell, 0)
            && HealthyOp(s, op, Parse(q.was))
          case Watch => p.Loaded? && q == Watching(p.op, p.seen, p.was, p.k, false)
          case Compare =>
            && p.Watching?
            && q == if c.cell == p.was then Ready(p.op, p.seen, p.was, p.k, p.dirty) else AfterRefusal(s, p)
          case Exec(_) => p.Ready? && q == AfterRefusal(s, p)
          case GiveUp => q == Idle
  }

  /** The same request, asking the environment afresh. */
  ghost predicate SameTask(a: Op, b: Op) {
    a == b || (a.Subscribe? && b.Subscribe? && a.node == b.node)
  }

  ghost predicate Next(s: Setup, c: Config, n: Config) {
    exists i, m :: TakesStep(s, c, n, i, m)
  }

  /** A step leads to the t-th moment. */
  ghost predicate StepTo(s: Setup, tr: seq<Config>, t: nat) {
    0 < t < |tr| && Next(s, tr[t - 1], tr[t])
  }

  ghost predicate Run(s: Setup, tr: seq<Config>) {
    tr != [] && Init(tr[0]) && forall t: nat :: 0 < t < |tr| ==> StepTo(s, tr, t)
  }

  // ----- an accepted swap replaces exactly the value it was computed from -----

  ghost predicate PcOk(s: Setup, cell: Raw, p: Pc) {
    match p
    case Idle => true
    case Wants(op, seen) => Allowed(s.role, op, Parse(seen))
    case Loaded(op, seen, was, k) =>
      Allowed(s.role, op, Parse(seen)) && HealthyOp(s, op, Parse(was)) && (s.rereads ==> k == 0)
    case Watching(op, seen, was, k, _) =>
      Allowed(s.role, op, Parse(seen)) && HealthyOp(s, op, Parse(was)) && (s.rereads ==> k == 0)
    case Ready(op, seen, was, k, dirty) =>
      && Allowed(s.role, op, Parse(seen)) && HealthyOp(s, op, Parse(was)) && (s.rereads ==> k == 0)
      && (!dirty ==> cell == was)
  }

  ghost predicate ConfigOk(s: Setup, c: Config) {
    forall i :: 0 <= i < |c.procs| ==> PcOk(s, c.cell, c.procs[i])
  }

  lemma StepKeepsOk(s: Setup, c: Config, n: Config, i: nat, m: Move)
    requires ConfigOk(s, c) && TakesStep(s, c, n, i, m)
    ensures ConfigOk(s, n)
  {
    forall j | 0 <= j < |n.procs|
      ensures PcOk(s, n.cell, n.procs[j])
    {
      assert PcOk(s, c.cell, c.procs[j]);
      assert PcOk(s, c.cell, c.procs[i]);
      if j == i && m.Load? {
        assert Allowed(s.role, m.op, Parse(c.procs[i].seen));
      }
    }
  }

  /** One operation, applied to the value in the cell and to no other. */
  ghost predicate Commits(s: Setup, before: Raw, after: Raw, op: Op, seen: Raw, k: nat) {
    && k < |Proposals(op, Parse(before), s.f)|
    && after.Text? && after.st == Proposals(op, Parse(before), s.f)[k]
    && Allowed(s.role, op, Parse(seen)) && HealthyOp(s, op, Parse(before)) && (s.rereads ==> k == 0)
  }

  /** A step either leaves the cell alone or is the commit of one operation on the value it replaces. */
  lemma StepRefines(s: Setup, c: Config, n: Config, i: nat, m: Move) returns (op: Op, seen: Raw, k: nat)
    requires ConfigOk(s, c) && TakesStep(s, c, n, i, m)
    ensures n.cell == c.cell || (c.procs[i].Ready? && seen == c.procs[i].seen && k == c.procs[i].k)
    ensures n.cell == c.cell || Commits(s, c.cell, n.cell, op, seen, k)
    ensures n.cell == c.cell || k == 0 || SwapsLate(c, i, m)
  {
    op, seen, k := Disconnect(0), Absent, 0;
    var p := c.procs[i];
    assert PcOk(s, c.cell, p);
    if m.Exec? && p.Ready? && !p.dirty {
      op, seen, k := p.op, p.seen, p.k;
    }
  }

  lemma SomeStep(s: Setup, c: Config, n: Config) returns (i: nat, m: Move)
    requires Next(s, c, n)
    ensures TakesStep(s, c, n, i, m)
  {
    i, m :| TakesStep(s, c, n, i, m);
  }

  /** The step that leads to moment t. */
  lemma StepAt(s: Setup, tr: seq<Config>, t: nat) returns (i: nat, m: Move)
    requires Run(s, tr) && 0 < t < |tr|
    ensures TakesStep(s, tr[t - 1], tr[t], i, m)
  {
    assert StepTo(s, tr, t);
    i, m := SomeStep(s, tr[t - 1], tr[t]);
  }

  lemma {:induction false} RunOk(s: Setup, tr: seq<Config>, t: nat)
    requires Run(s, tr) && t < |tr|
    ensures ConfigOk(s, tr[t])
  {
    if t > 0 {
      RunOk(s, tr, t - 1);
      var i, m := StepAt(s, tr, t);
      StepKeepsOk(s, tr[t - 1], tr[t], i, m);
    }
  }

  ghost predicate Linked(s: Setup, before: Raw, after: Raw) {
    after == before || exists op, seen, k :: Commits(s, before, after, op, seen, k)
  }

  /** Every run is a sequence of commits, each computed from exactly the value it replaces: no committed update is lost.
      A swap accepted after a failed read replaces the empty string. */
  lemma RunRefinesSequence(s: Setup, tr: seq<Config>)
    requires Run(s, tr)
    ensures forall t: nat :: 0 < t < |tr| ==> Linked(s, tr[t - 1].cell, tr[t].cell)
    ensures forall t, i :: 0 <= t < |tr| && 0 <= i < |tr[t].procs| && tr[t].procs[i].Ready? && !tr[t].procs[i].dirty ==>
      tr[t].cell == tr[t].procs[i].was
  {
    forall t: nat | 0 < t < |tr|
      ensures Linked(s, tr[t - 1].cell, tr[t].cell)
    {
      RunOk(s, tr, t - 1);
      assert StepTo(s, tr, t);
      var i, m :| TakesStep(s, tr[t - 1], tr[t], i, m);
      var op, seen, k := StepRefines(s, tr[t - 1], tr[t], i, m);
    }
    forall t, i | 0 <= t < |tr| && 0 <= i < |tr[t].procs| && tr[t].procs[i].Ready? && !tr[t].procs[i].dirty
      ensures tr[t].cell == tr[t].procs[i].was
    {
      RunOk(s, tr, t);
      assert PcOk(s, tr[t].cell, tr[t].procs[i]);
    }
  }

  // ----- whole-run theorems -----

  lemma EmptyInv(role: Roles, f: nat)
    ensures Inv(role, EMPTY) && FanoutOk(EMPTY, f) && Shaped(role, EMPTY, f, 0)
  {
    assert Inv(role, EMPTY);
    EdgelessShaped(role, EMPTY, f, 0);
  }

  /** What holds of every value a process remembers deciding on, and of the cell. */
  ghost predicate AllInv(s: Setup, c: Config) {
    && Inv(s.role, Parse(c.cell))
    && forall i :: 0 <= i < |c.procs| && c.procs[i] != Idle ==> Inv(s.role, Parse(c.procs[i].seen))
  }

  // ----- late swaps -----

  /** The step is an accepted swap that is not the first of its attempt. */
  ghost predicate SwapsLate(c: Config, i: nat, m: Move) {
    m.Exec? && i < |c.procs| && c.procs[i].Ready? && !c.procs[i].dirty && c.procs[i].k > 0
  }

  ghost predicate LateSwap(s: Setup, c: Config, n: Config) {
    exists i, m :: TakesStep(s, c, n, i, m) && SwapsLate(c, i, m)
  }

  ghost predicate LateAt(s: Setup, tr: seq<Config>, t: nat) {
    0 < t < |tr| && LateSwap(s, tr[t - 1], tr[t])
  }

  ghost predicate NeverLate(s: Setup, tr: seq<Config>) {
    forall t: nat :: !LateAt(s, tr, t)
  }

  ghost predicate AlwaysTree(s: Setup, tr: seq<Config>) {
    forall t :: 0 <= t < |tr| ==> Inv(s.role, Parse(tr[t].cell))
  }

  /** Reading again after every refused swap is enough for that. */
  lemma RereadsNeverLate(s: Setup, tr: seq<Config>)
    requires s.rereads && Run(s, tr)
    ensures NeverLate(s, tr)
  {
    forall t: nat | 0 < t < |tr|
      ensures !LateSwap(s, tr[t - 1], tr[t])
    {
      RunOk(s, tr, t - 1);
      NotLateAfterReread(s, tr[t - 1], tr[t]);
    }
  }

  lemma NotLateAfterReread(s: Setup, c: Config, n: Config)
    requires s.rereads && ConfigOk(s, c)
    ensures !LateSwap(s, c, n)
  {
    forall i: nat, m | TakesStep(s, c, n, i, m)
      ensures !SwapsLate(c, i, m)
    {
      assert PcOk(s, c.cell, c.procs[i]);
    }
  }

  /** The step is a swap that fails: at the comparison or because the watched key was written. */
  ghost predicate Refuses(c: Config, i: nat, m: Move) {
    i < |c.procs| && match c.procs[i]
      case Watching(_, _, was, _, _) => m.Compare? && c.cell != was
      case Ready(_, _, _, _, dirty) => m.Exec? && dirty
      case _ => false
  }

  ghost predicate Refusal(s: Setup, c: Config, n: Config) {
    exists i, m :: TakesStep(s, c, n, i, m) && Refuses(c, i, m)
  }

  ghost predicate RefusalAt(s: Setup, tr: seq<Config>, t: nat) {
    0 < t < |tr| && Refusal(s, tr[t - 1], tr[t])
  }

  ghost predicate Unrefused(s: Setup, tr: seq<Config>) {
    forall t: nat :: !RefusalAt(s, tr, t)
  }

  /** No process has a refused swap behind it in its attempt. */
  ghost predicate AllFirst(c: Config) {
    forall i :: 0 <= i < |c.procs| ==> First(c.procs[i])
  }

  predicate First(p: Pc) {
    match p
    case Loaded(_, _, _, k) => k == 0
    case Watching(_, _, _, k, _) => k == 0
    case Ready(_, _, _, k, _) => k == 0
    case _ => true
  }

  lemma StepKeepsFirst(s: Setup, c: Config, n: Config, i: nat, m: Move)
    requires AllFirst(c) && TakesStep(s, c, n, i, m) && !Refuses(c, i, m)
    ensures AllFirst(n)
  {
    forall j | 0 <= j < |n.procs|
      ensures First(n.procs[j])
    {
      assert First(c.procs[j]) && First(c.procs[i]);
    }
  }

  lemma {:induction false} AllFirstAt(s: Setup, tr: seq<Config>, t: nat)
    requires Run(s, tr) && Unrefused(s, tr) && t < |tr|
    ensures AllFirst(tr[t])
  {
    if t > 0 {
      AllFirstAt(s, tr, t - 1);
      assert StepTo(s, tr, t) && !RefusalAt(s, tr, t);
      var i, m :| TakesStep(s, tr[t - 1], tr[t], i, m);
      StepKeepsFirst(s, tr[t - 1], tr[t], i, m);
    }
  }

  /** Without a refused swap there is no late one. */
  lemma UnrefusedNeverLate(s: Setup, tr: seq<Config>)
    requires Run(s, tr) && Unrefused(s, tr)
    ensures NeverLate(s, tr)
  {
    forall t: nat | 0 < t < |tr|
      ensures !LateSwap(s, tr[t - 1], tr[t])
    {
      AllFirstAt(s, tr, t - 1);
      NotLateWhenFirst(s, tr[t - 1], tr[t]);
    }
  }

  lemma NotLateWhenFirst(s: Setup, c: Config, n: Config)
    requires AllFirst(c)
    ensures !LateSwap(s, c, n)
  {
    forall i: nat, m | TakesStep(s, c, n, i, m)
      ensures !SwapsLate(c, i, m)
    {
      assert First(c.procs[i]);
    }
  }

  lemma FirstKeepsTree(s: Setup, c: Config, n: Config, i: nat, m: Move)
    requires s.f >= 1 && ConfigOk(s, c) && AllInv(s, c) && TakesStep(s, c, n, i, m) && !SwapsLate(c, i, m)
    ensures Inv(s.role, Parse(n.cell))
  {
    if m.Exec? && c.procs[i].Ready? && !c.procs[i].dirty {
      var p := c.procs[i];
      assert PcOk(s, c.cell, p) && Inv(s.role, Parse(p.seen));
      OpKeepsTree(s.role, p.op, Parse(p.seen), Parse(c.cell), s.f);
    }
  }

  /** What processes decided on are values the key has held. */
  lemma SeenInv(s: Setup, c: Config, n: Config, i: nat, m: Move)
    requires AllInv(s, c) && TakesStep(s, c, n, i, m) && Inv(s.role, Parse(n.cell))
    ensures AllInv(s, n)
  {
    forall j | 0 <= j < |n.procs| && n.procs[j] != Idle
      ensures Inv(s.role, Parse(n.procs[j].seen))
    {
      assert n.procs[j].seen == c.cell || (c.procs[j] != Idle && n.procs[j].seen == c.procs[j].seen);
    }
  }

  lemma NotLate(s: Setup, tr: seq<Config>, t: nat, i: nat, m: Move)
    requires NeverLate(s, tr) && 0 < t < |tr| && TakesStep(s, tr[t - 1], tr[t], i, m)
    ensures !SwapsLate(tr[t - 1], i, m)
  {
    assert !LateAt(s, tr, t);
  }

  lemma {:induction false} AllInvAt(s: Setup, tr: seq<Config>, t: nat)
    requires s.f >= 1 && Run(s, tr) && t < |tr| && (NeverLate(s, tr) || AlwaysTree(s, tr))
    ensures AllInv(s, tr[t])
  {
    if t == 0 {
      EmptyInv(s.role, s.f);
    } else {
      AllInvAt(s, tr, t - 1);
      RunOk(s, tr, t - 1);
      var i, m := StepAt(s, tr, t);
      if NeverLate(s, tr) {
        NotLate(s, tr, t, i, m);
        FirstKeepsTree(s, tr[t - 1], tr[t], i, m);
      }
      SeenInv(s, tr[t - 1], tr[t], i, m);
    }
  }

  /** Under any interleaving of registrations, subscribes and both disconnects, with any number of processes and any
      fanout, as long as no accepted swap follows a refused one of the same attempt, the stored edges
      are always a tree below publishers[0], and no proxy ever decides to subscribe. */
  lemma TreeAlways(s: Setup, tr: seq<Config>, t: nat)
    requires s.f >= 1 && Run(s, tr) && NeverLate(s, tr) && t < |tr|
    ensures Inv(s.role, Parse(tr[t].cell))
    ensures forall i :: 0 <= i < |tr[t].procs| && tr[t].procs[i] != Idle && tr[t].procs[i].op.Subscribe? ==>
      s.role(tr[t].procs[i].op.node) == Listener
  {
    AllInvAt(s, tr, t);
    RunOk(s, tr, t);
    forall i | 0 <= i < |tr[t].procs| && tr[t].procs[i] != Idle && tr[t].procs[i].op.Subscribe?
      ensures s.role(tr[t].procs[i].op.node) == Listener
    {
      var p := tr[t].procs[i];
      assert PcOk(s, tr[t].cell, p);
      if s.role(p.op.node) == Proxy {
        NoRejoin(s.role, Parse(p.seen), p.op.node);
      }
    }
  }

  lemma StepKeepsFanout(s: Setup, c: Config, n: Config, i: nat, m: Move)
    requires s.f >= 2 && ConfigOk(s, c) && TakesStep(s, c, n, i, m) && FanoutOk(Parse(c.cell), s.f)
    ensures FanoutOk(Parse(n.cell), s.f)
  {
    var op, _, k := StepRefines(s, c, n, i, m);
    if n.cell != c.cell {
      FanoutKept(op, Parse(c.cell), s.f, k);
    }
  }

  /** The bound of the header comment, also for attempts that go on with what they read before a refused swap. */
  lemma {:induction false} FanoutAlways(s: Setup, tr: seq<Config>, t: nat)
    requires s.f >= 2 && Run(s, tr) && t < |tr|
    ensures FanoutOk(Parse(tr[t].cell), s.f)
  {
    if t == 0 {
      assert FanoutOk(EMPTY, s.f) by {
        EmptyInv(s.role, s.f);
      }
    } else {
      FanoutAlways(s, tr, t - 1);
      RunOk(s, tr, t - 1);
      var i, m := StepAt(s, tr, t);
      StepKeepsFanout(s, tr[t - 1], tr[t], i, m);
    }
  }

  /** The largest number of listeners attached at the same time so far. */
  ghost function Peak(tr: seq<Config>): nat {
    if tr == [] then 0 else Max(Peak(tr[..|tr| - 1]), |TreeListeners(Parse(tr[|tr| - 1].cell))|)
  }

  lemma PeakAt(tr: seq<Config>, t: nat)
    requires t < |tr|
    ensures Peak(tr[..t + 1]) == Max(Peak(tr[..t]), |TreeListeners(Parse(tr[t].cell))|)
  {
    assert tr[..t + 1][..t] == tr[..t];
  }

  lemma StepShaped(s: Setup, c: Config, n: Config, i: nat, m: Move, peak: nat)
    requires s.f >= 2 && s.healthy && ConfigOk(s, c) && AllInv(s, c) && TakesStep(s, c, n, i, m) && !SwapsLate(c, i, m)
    requires Shaped(s.role, Parse(c.cell), s.f, peak) && |TreeListeners(Parse(c.cell))| <= peak
    ensures Shaped(s.role, Parse(n.cell), s.f, Max(peak, |TreeListeners(Parse(n.cell))|))
  {
    var op, seen, k := StepRefines(s, c, n, i, m);
    if n.cell != c.cell {
      assert Inv(s.role, Parse(seen));
      OpShaped(s.role, op, Parse(seen), Parse(c.cell), s.f, peak);
    }
  }

  /** If proxies in the tree answer their heartbeats, then in every such run the proxies form one path below the root,
      and p proxies in the tree need p*(f-1) + 2 listeners at some time. */
  lemma {:induction false} ShapeAlways(s: Setup, tr: seq<Config>, t: nat)
    requires s.f >= 2 && s.healthy && Run(s, tr) && NeverLate(s, tr) && t < |tr|
    ensures Shaped(s.role, Parse(tr[t].cell), s.f, Peak(tr[..t + 1]))
  {
    PeakAt(tr, t);
    if t == 0 {
      EmptyInv(s.role, s.f);
      EdgelessShaped(s.role, Parse(tr[0].cell), s.f, Peak(tr[..1]));
    } else {
      ShapeAlways(s, tr, t - 1);
      AllInvAt(s, tr, t - 1);
      RunOk(s, tr, t - 1);
      var i, m := StepAt(s, tr, t);
      NotLate(s, tr, t, i, m);
      StepShaped(s, tr[t - 1], tr[t], i, m, Peak(tr[..t]));
    }
  }

  /** So at every moment of such a run a node h > 1 hops below the root takes a time at which (h - 1)*(f - 1) + 2
      listeners were attached. */
  lemma HopsAlways(s: Setup, tr: seq<Config>, t: nat, p: seq<Name>, y: Name)
    requires s.f >= 2 && s.healthy && Run(s, tr) && NeverLate(s, tr) && t < |tr|
    requires var st := Parse(tr[t].cell);
      st.publishers != [] && PathFromTo(Elements(st.edges), p, st.Root(), y)
    ensures var h := |p| - 1;
      h <= 1 || (h - 1) * (s.f - 1) + 2 <= Peak(tr[..t + 1])
  {
    var st, peak := ShapedAt(s, tr, t);
    ShapedHops(s.role, st, s.f, peak, p, y);
  }

  lemma ShapedAt(s: Setup, tr: seq<Config>, t: nat) returns (st: State, peak: nat)
    requires s.f >= 2 && s.healthy && Run(s, tr) && NeverLate(s, tr) && t < |tr|
    ensures st == Parse(tr[t].cell) && peak == Peak(tr[..t + 1]) && Shaped(s.role, st, s.f, peak)
  {
    ShapeAlways(s, tr, t);
    st, peak := Parse(tr[t].cell), Peak(tr[..t + 1]);
  }

  /** In any run without late swaps, a subscriber that reads a value while at most n - 1 other listeners are attached,
      with choose_proxies(n, f) registered proxies that answer and those in the tree alive, gets a place. */
  lemma RunNeverLacksProxies(s: Setup, tr: seq<Config>, t: nat, sub: Name, env: Env, alive: set<Name>, n: nat,
                             round: real -> real)
    requires s.f >= 2 && Run(s, tr) && NeverLate(s, tr) && t < |tr| && RoundsWell(round)
    requires var st := Parse(tr[t].cell);
      && st.publishers != [] && s.role(sub) == Listener && !st.HasParentEdge(sub) && Healthy(st, env)
      && alive <= Elements(st.proxies) && (forall k :: k in InnerNodes(st) ==> alive <= env.PickAlive(k))
      && |alive| >= ChooseProxies(n, s.f, round) && |TreeListeners(st)| + 1 <= n
    ensures Proposals(Subscribe(sub, env), Parse(tr[t].cell), s.f) != []
  {
    var st := Parse(tr[t].cell);
    TreeAlways(s, tr, t);
    FanoutAlways(s, tr, t);
    var d :| TreeWith(st, d);
    ProxiesSuffice(s.role, st, d, sub, s.f, env, alive, n, round);
  }
}
