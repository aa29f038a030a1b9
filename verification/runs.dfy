/** Building runs: two processes, one of which does an operation while the other rests. */
module Runs {
  import opened Basics
  import opened RoutingModel
  import opened TreeSafety
  import opened Protocol

  ghost predicate AtRest(c: Config, st: State) {
    c == Config(Text(st, 0), [Idle, Idle])
  }

  ghost function Last(tr: seq<Config>): Config
    requires tr != []
  {
    tr[|tr| - 1]
  }

  /** No process is about to have a swap refused. */
  ghost predicate Quiet(c: Config) {
    forall i :: 0 <= i < |c.procs| ==> Calm(c.cell, c.procs[i])
  }

  predicate Calm(cell: Raw, p: Pc) {
    match p
    case Watching(_, _, was, _, _) => cell == was
    case Ready(_, _, _, _, dirty) => !dirty
    case _ => true
  }

  lemma Snoc(s: Setup, tr: seq<Config>, c: Config, i: nat, m: Move)
    requires Run(s, tr) && TakesStep(s, Last(tr), c, i, m)
    ensures Run(s, tr + [c]) && Last(tr + [c]) == c
    ensures Unrefused(s, tr) && Quiet(Last(tr)) ==> Unrefused(s, tr + [c])
  {
    var more := tr + [c];
    assert Next(s, Last(tr), c);
    forall t: nat | 0 < t < |more|
      ensures StepTo(s, more, t)
      ensures Unrefused(s, tr) && Quiet(Last(tr)) ==> !RefusalAt(s, more, t)
    {
      if t < |tr| {
        assert StepTo(s, tr, t);
        assert Unrefused(s, tr) ==> !RefusalAt(s, tr, t);
      }
    }
  }

  lemma Then(s: Setup, tr: seq<Config>, c: Config, i: nat, m: Move) returns (more: seq<Config>)
    requires Run(s, tr) && TakesStep(s, Last(tr), c, i, m)
    ensures Run(s, more) && Last(more) == c
  {
    Snoc(s, tr, c, i, m);
    more := tr + [c];
  }

  /** The spelling an operation can always write. */
  function Spelling(op: Op): nat {
    if op.SignalDisconnect? then 1 else 0
  }

  /** One process alone decides, reads, watches, compares and commits. */
  lemma Alone(s: Setup, tr: seq<Config>, cell: Raw, op: Op) returns (more: seq<Config>)
    requires Run(s, tr) && Last(tr) == Config(cell, [Idle, Idle])
    requires Allowed(s.role, op, Parse(cell)) && HealthyOp(s, op, Parse(cell)) && Proposals(op, Parse(cell), s.f) != []
    ensures Run(s, more)
    ensures Last(more) == Config(Text(Proposals(op, Parse(cell), s.f)[0], Spelling(op)), [Idle, Idle])
    ensures Unrefused(s, tr) ==> Unrefused(s, more)
  {
    var half := UpToCompare(s, tr, cell, op);
    var c := Config(Text(Proposals(op, Parse(cell), s.f)[0], Spelling(op)), [Idle, Idle]);
    Snoc(s, half, c, 0, Exec(Spelling(op)));
    more := half + [c];
  }

  /** The first process gets as far as a successful compare. */
  lemma UpToCompare(s: Setup, tr: seq<Config>, x: Raw, op: Op) returns (more: seq<Config>)
    requires Run(s, tr) && Last(tr) == Config(x, [Idle, Idle])
    requires Allowed(s.role, op, Parse(x)) && HealthyOp(s, op, Parse(x))
    ensures Run(s, more) && Last(more) == Config(x, [Ready(op, x, x, 0, false), Idle])
    ensures Unrefused(s, tr) ==> Unrefused(s, more)
  {
    var t1 := Moves(s, tr, x, Idle, Wants(op, x), Decide(op));
    var t2 := Moves(s, t1, x, Wants(op, x), Loaded(op, x, x, 0), Load(false, op));
    var t3 := Moves(s, t2, x, Loaded(op, x, x, 0), Watching(op, x, x, 0, false), Watch);
    more := Moves(s, t3, x, Watching(op, x, x, 0, false), Ready(op, x, x, 0, false), Compare);
  }

  /** A step of the first process that leaves the key alone. */
  lemma Moves(s: Setup, tr: seq<Config>, x: Raw, p: Pc, q: Pc, m: Move) returns (more: seq<Config>)
    requires Run(s, tr) && Last(tr) == Config(x, [p, Idle]) && Calm(x, p)
    requires TakesStep(s, Config(x, [p, Idle]), Config(x, [q, Idle]), 0, m)
    ensures Run(s, more) && Last(more) == Config(x, [q, Idle])
    ensures Unrefused(s, tr) ==> Unrefused(s, more)
  {
    Snoc(s, tr, Config(x, [q, Idle]), 0, m);
    more := tr + [Config(x, [q, Idle])];
  }
}
