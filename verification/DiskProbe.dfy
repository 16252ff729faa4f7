/** Free-space probing that survives a system call that never returns: at most one
    probe per path, everybody else served from the last good sample. */
module DiskProbe {
  import opened Wrappers
  import opened Runs

  datatype Sample = Sample(free: int, total: int)

  /** What a call answers: a sample, or an error. */
  type Reply = Option<Sample>

  /** The three maps behind the mutex. */
  datatype Table = Table(busy: set<string>, last: map<string, Sample>, slow: set<string>)

  const EMPTY := Table({}, map[], {})

  function LastGood(t: Table, path: string): Reply {
    if path in t.last then Some(t.last[path]) else None
  }

  function Begun(t: Table, path: string): Table { t.(busy := t.busy + {path}) }

  function Ended(t: Table, path: string, result: Reply): Table {
    Table(t.busy - {path}, if result.Some? then t.last[path := result.value] else t.last, t.slow - {path})
  }

  function GivenUp(t: Table, path: string): Table { t.(slow := t.slow + {path}) }

  class ProbeTable {
    var busy: set<string>
    var last: map<string, Sample>
    var slow: set<string>

    ghost function View(): Table
      reads this
    {
      Table(busy, last, slow)
    }

    constructor ()
      ensures View() == EMPTY
    {
      busy, last, slow := {}, map[], {};
    }

    /** The locked head of DiskInfoBounded. */
    method Begin(path: string) returns (started: bool, reply: Reply)
      modifies this
      ensures started <==> path !in old(busy)
      ensures View() == if started then Begun(old(View()), path) else old(View())
      ensures !started ==> reply == LastGood(View(), path)
    {
      reply := if path in last then Some(last[path]) else None;
      if path in busy {
        return false, reply;
      }
      busy := busy + {path};
      started := true;
    }

    /** The locked tail of the probe goroutine, however late it comes. */
    method Finish(path: string, result: Reply) returns (recovered: bool)
      modifies this
      ensures View() == Ended(old(View()), path, result)
      ensures recovered <==> path in old(slow)
    {
      busy := busy - {path};
      if result.Some? {
        last := last[path := result.value];
      }
      recovered := path in slow;
      if recovered {
        slow := slow - {path};
      }
    }

    /** The caller that gave up waiting; first tells it to log the stall. */
    method GiveUp(path: string) returns (reply: Reply, first: bool)
      modifies this
      ensures View() == GivenUp(old(View()), path)
      ensures reply == LastGood(old(View()), path)
      ensures first <==> path !in old(slow)
    {
      reply, first := if path in last then Some(last[path]) else None, path !in slow;
      slow := slow + {path};
    }
  }

  // --- Every run ------------------------------------------------------------------------------

  /** probes are the outstanding system calls, by the call that started them; channels
      hold results not received yet; log is every result, in order. reported are the calls
      that logged a stall; stale the paths on which, since they last answered, a caller
      gave up although its result was already there; results what each returned probe
      measured. */
  datatype State = State(
    table: Table,
    probes: map<nat, string>,
    channels: map<nat, Reply>,
    waiting: map<nat, string>,
    replies: map<nat, (string, Reply)>,
    log: seq<(string, Reply)>,
    reported: multiset<nat>,
    stale: set<string>,
    results: map<nat, Reply>)

  datatype Step =
    | Call(c: nat, path: string)
    | ProbeReturns(c: nat, result: Reply)
    | Receive(c: nat)
    | TimeOut(c: nat)

  const IDLE := State(EMPTY, map[], map[], map[], map[], [], multiset{}, {}, map[])

  predicate Enabled(s: State, step: Step) {
    match step
    case Call(c, _) => c !in s.probes && c !in s.channels && c !in s.waiting && c !in s.replies
    case ProbeReturns(c, _) => c in s.probes
    case Receive(c) => c in s.waiting && c in s.channels
    case TimeOut(c) => c in s.waiting
  }

  function Next(s: State, step: Step): State
    requires Enabled(s, step)
  {
    match step
    case Call(c, path) =>
      if path in s.table.busy then s.(replies := s.replies[c := (path, LastGood(s.table, path))])
      else s.(table := Begun(s.table, path), probes := s.probes[c := path], waiting := s.waiting[c := path])
    case ProbeReturns(c, result) =>
      var path := s.probes[c];
      s.(table := Ended(s.table, path, result), probes := s.probes - {c}, channels := s.channels[c := result],
         log := s.log + [(path, result)], stale := s.stale - {path}, results := s.results[c := result])
    case Receive(c) =>
      s.(waiting := s.waiting - {c}, channels := s.channels - {c},
         replies := s.replies[c := (s.waiting[c], s.channels[c])])
    case TimeOut(c) =>
      var path := s.waiting[c];
      s.(table := GivenUp(s.table, path), waiting := s.waiting - {c},
         replies := s.replies[c := (path, LastGood(s.table, path))],
         reported := if path in s.table.slow then s.reported else s.reported + multiset{c},
         stale := if c in s.probes then s.stale else s.stale + {path})
  }

  const PROBING := System(Enabled, (s: State, t: Step) => if Enabled(s, t) then Next(s, t) else s)

  /** The most recent successful result for path. */
  function LatestGood(log: seq<(string, Reply)>, path: string): Reply {
    if log == [] then None
    else
      var e := log[|log| - 1];
      if e.0 == path && e.1.Some? then e.1 else LatestGood(log[..|log| - 1], path)
  }

  /** Busy means one outstanding probe, and never two. */
  ghost predicate SingleFlight(s: State) { OneEach(s.table.busy, s.probes) }

  ghost predicate OneEach(busy: set<string>, probes: map<nat, string>) {
    && (forall c, d :: c in probes && d in probes && probes[c] == probes[d] ==> c == d)
    && (forall c :: c in probes ==> probes[c] in busy)
    && (forall p :: p in busy ==> exists c :: c in probes && probes[c] == p)
  }

  ghost predicate Fresh(s: State, path: string) {
    LastGood(s.table, path) == LatestGood(s.log, path)
  }

  ghost predicate IsResult(log: seq<(string, Reply)>, path: string, r: Reply) {
    r.Some? ==> (path, r) in log
  }

  /** Nobody is ever told a number no probe of that path returned. */
  ghost predicate Honest(s: State) {
    && (forall c :: HonestCall(s, c))
    && (forall p :: p in s.table.last ==> IsResult(s.log, p, Some(s.table.last[p])))
  }

  ghost predicate HonestCall(s: State, c: nat) {
    && (c in s.replies ==> IsResult(s.log, s.replies[c].0, s.replies[c].1))
    && (c in s.channels && c in s.waiting ==> IsResult(s.log, s.waiting[c], s.channels[c]))
    && (c in s.probes && c in s.waiting ==> s.probes[c] == s.waiting[c])
  }

  /** A path is marked slow just when the caller of its outstanding probe gave up on it, or
      a caller gave up on a result that was there; a call that still waits has logged
      nothing, and no call has logged twice. */
  ghost predicate Marked(s: State) {
    (forall c :: MarkedCall(s, c)) && (forall p :: MarkedPath(s, p))
  }

  ghost predicate MarkedCall(s: State, c: nat) {
    && (c in s.probes ==>
          && c !in s.channels && c !in s.results
          && (c in s.waiting ==> s.probes[c] == s.waiting[c])
          && (s.probes[c] in s.table.slow <==> c !in s.waiting || s.probes[c] in s.stale))
    && (c in s.channels ==> c in s.results && s.channels[c] == s.results[c])
    && (c in s.results ==> c in s.channels || c in s.replies)
    && s.reported[c] <= 1
    && (c in s.reported ==> c in s.replies && c !in s.waiting)
  }

  ghost predicate MarkedPath(s: State, p: string) {
    (p in s.stale ==> p in s.table.slow) && (p in s.table.slow && p !in s.table.busy ==> p in s.stale)
  }

  lemma ProbeStarted(busy: set<string>, probes: map<nat, string>, c: nat, path: string)
    requires OneEach(busy, probes) && path !in busy && c !in probes
    ensures OneEach(busy + {path}, probes[c := path])
  {
    var probes' := probes[c := path];
    forall p | p in busy + {path} ensures exists d :: d in probes' && probes'[d] == p {
      if p == path {
        assert probes'[c] == p;
      } else {
        var d :| d in probes && probes[d] == p;
        assert probes'[d] == p;
      }
    }
  }

  lemma ProbeEnded(busy: set<string>, probes: map<nat, string>, c: nat)
    requires OneEach(busy, probes) && c in probes
    ensures OneEach(busy - {probes[c]}, probes - {c})
  {
    var probes' := probes - {c};
    forall p | p in busy - {probes[c]} ensures exists d :: d in probes' && probes'[d] == p {
      var d :| d in probes && probes[d] == p;
      assert probes'[d] == p;
    }
  }

  lemma StepSingleFlight(s: State, step: Step)
    requires SingleFlight(s) && Enabled(s, step)
    ensures SingleFlight(Next(s, step))
  {
    hide OneEach;
    match step
    case Call(c, path) =>
      if path !in s.table.busy { ProbeStarted(s.table.busy, s.probes, c, path); }
    case ProbeReturns(c, _) => ProbeEnded(s.table.busy, s.probes, c);
    case _ =>
  }

  lemma StepFresh(s: State, step: Step, path: string)
    requires Fresh(s, path) && Enabled(s, step)
    ensures Fresh(Next(s, step), path)
  {
    if step.ProbeReturns? {
      var s' := Next(s, step);
      assert s'.log[..|s'.log| - 1] == s.log;
    }
  }

  lemma StepHonest(s: State, step: Step)
    requires Honest(s) && Enabled(s, step)
    ensures Honest(Next(s, step))
  {
    var s' := Next(s, step);
    forall path, r | IsResult(s.log, path, r) ensures IsResult(s'.log, path, r) {}
    forall c ensures HonestCall(s', c) {
      StepHonestCall(s, step, c);
    }
    if step.ProbeReturns? {
      assert (s.probes[step.c], step.result) in s'.log;
    }
  }

  lemma StepHonestCall(s: State, step: Step, c: nat)
    requires Honest(s) && Enabled(s, step)
    ensures HonestCall(Next(s, step), c)
  {
    var s' := Next(s, step);
    assert HonestCall(s, c);
    assert forall e :: e in s.log ==> e in s'.log;
    if step.ProbeReturns? {
      assert (s.probes[step.c], step.result) in s'.log;
    }
  }

  lemma StepMarkedCall(s: State, step: Step, c: nat)
    requires SingleFlight(s) && Marked(s) && Enabled(s, step)
    ensures MarkedCall(Next(s, step), c)
  {
    assert MarkedCall(s, c) && MarkedCall(s, step.c);
    if step.Call? {
      assert MarkedPath(s, step.path);
    }
  }

  lemma StepMarkedPath(s: State, step: Step, p: string)
    requires SingleFlight(s) && Marked(s) && Enabled(s, step)
    ensures MarkedPath(Next(s, step), p)
  {
    assert MarkedPath(s, p) && MarkedCall(s, step.c);
  }

  lemma StepMarked(s: State, step: Step)
    requires SingleFlight(s) && Marked(s) && Enabled(s, step)
    ensures Marked(Next(s, step))
  {
    hide SingleFlight, MarkedCall, MarkedPath, Next;
    forall c ensures MarkedCall(Next(s, step), c) { StepMarkedCall(s, step, c); }
    forall p ensures MarkedPath(Next(s, step), p) { StepMarkedPath(s, step, p); }
  }

  ghost predicate Inv(s: State) {
    SingleFlight(s) && Honest(s) && Marked(s) && forall path :: Fresh(s, path)
  }

  /** Every reachable state meets the invariant. */
  lemma Reachable(steps: seq<Step>)
    requires PROBING.IsRun(IDLE, steps)
    ensures Inv(PROBING.Final(IDLE, steps))
  {
    hide Next;
    assert Inv(IDLE);
    hide SingleFlight, Honest, Fresh, Marked;
    forall x, t | Inv(x) && PROBING.enabled(x, t) ensures Inv(PROBING.next(x, t)) {
      StepSingleFlight(x, t);
      StepHonest(x, t);
      StepMarked(x, t);
      forall path ensures Fresh(Next(x, t), path) { StepFresh(x, t, path); }
    }
    PROBING.Keeps(Inv, IDLE, steps);
  }

  /** In every reachable state a path is busy exactly while its one probe is outstanding;
      a call that finds it busy answers at once with the latest successful result, or an
      error when there is none; and every number answered was measured. */
  lemma OneProbePerPath(steps: seq<Step>, path: string, c: nat)
    requires PROBING.IsRun(IDLE, steps) && Enabled(PROBING.Final(IDLE, steps), Call(c, path))
    ensures var s := PROBING.Final(IDLE, steps);
            && SingleFlight(s) && Honest(s)
            && (path in s.table.busy ==>
                  && Next(s, Call(c, path)).replies[c] == (path, LatestGood(s.log, path))
                  && Next(s, Call(c, path)).probes == s.probes)
            && (path !in s.table.busy ==> Next(s, Call(c, path)).probes == s.probes[c := path])
  {
    Reachable(steps);
    assert Fresh(PROBING.Final(IDLE, steps), path);
  }

  /** However late a probe returns, and whether or not anybody still waits for it, its
      path is free again, and the next stall of that path is news. */
  lemma LateResultFrees(steps: seq<Step>, c: nat, result: Reply)
    requires PROBING.IsRun(IDLE, steps) && c in PROBING.Final(IDLE, steps).probes
    ensures var s := PROBING.Final(IDLE, steps);
            var s' := Next(s, ProbeReturns(c, result));
            && s.probes[c] !in s'.table.busy && s.probes[c] !in s'.table.slow
            && forall d :: d in s'.probes ==> s'.probes[d] != s.probes[c]
  {
    Reachable(steps);
  }

  /** A caller that waits long enough is answered with what its own probe measured, a failure
      included; one that gives up, with the latest successful result of its path. */
  lemma AnsweredBy(steps: seq<Step>, c: nat)
    requires PROBING.IsRun(IDLE, steps) && c in PROBING.Final(IDLE, steps).waiting
    ensures var s := PROBING.Final(IDLE, steps);
            var path := s.waiting[c];
            && (c in s.channels ==> c in s.results && Next(s, Receive(c)).replies[c] == (path, s.results[c]))
            && Next(s, TimeOut(c)).replies[c] == (path, LatestGood(s.log, path))
            && (c in s.probes ==> s.probes[c] == path)
  {
    Reachable(steps);
    var s := PROBING.Final(IDLE, steps);
    assert MarkedCall(s, c) && Fresh(s, s.waiting[c]);
  }

  /** A stall, a caller giving up while its probe is outstanding, is logged exactly when no
      other caller gave up on that path, since it last answered, with its result already
      there; and no call logs twice. */
  lemma StallReportedOnce(steps: seq<Step>, c: nat)
    requires PROBING.IsRun(IDLE, steps)
    requires Enabled(PROBING.Final(IDLE, steps), TimeOut(c)) && c in PROBING.Final(IDLE, steps).probes
    ensures var s := PROBING.Final(IDLE, steps);
            var s' := Next(s, TimeOut(c));
            && s.reported[c] == 0 && s'.reported[c] <= 1
            && (s'.reported[c] == 1 <==> s.waiting[c] !in s.stale)
  {
    Reachable(steps);
    assert MarkedCall(PROBING.Final(IDLE, steps), c);
  }

  /** The timer and the result can come at once: a caller that gives up on a probe that has
      just answered marks a path as slow that is not, and its next stall goes unlogged. */
  lemma SilentStall(path: string) returns (steps: seq<Step>)
    ensures PROBING.IsRun(IDLE, steps)
    ensures var s := PROBING.Final(IDLE, steps);
            1 in s.probes && s.probes[1] == path && 1 in s.replies && s.reported[1] == 0
  {
    steps := [];
    PROBING.Then(IDLE, steps, Call(0, path));
    steps := steps + [Call(0, path)];
    PROBING.Then(IDLE, steps, ProbeReturns(0, None));
    steps := steps + [ProbeReturns(0, None)];
    PROBING.Then(IDLE, steps, TimeOut(0));
    steps := steps + [TimeOut(0)];
    PROBING.Then(IDLE, steps, Call(1, path));
    steps := steps + [Call(1, path)];
    PROBING.Then(IDLE, steps, TimeOut(1));
    steps := steps + [TimeOut(1)];
  }
}
