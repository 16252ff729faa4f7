/** Web closes racing session starts, one mutex-protected call per step. A close
    marks an id and then takes its registry entry; a start registers its served
    cancel and then re-checks the marks. Any number of closes and starts run at
    once, with one start per session id. */
module CloseHandshake {
  import opened RecentlyClosed
  import opened SessionRegistry
  import opened Runs

  /** A running closeByWeb call: the ids it still has to handle, and whether the
      first of them is already marked and waits for its take. */
  datatype Closer = Closer(todo: seq<string>, taking: bool)

  datatype Starter =
    | Probing               // may have registered a probe cancel; may still give up
    | Aborted               // gave up before serving
    | Added                 // served cancel registered
    | Rechecked             // re-check saw the id closed
    | Cancelling(c: Cancel) // took its own entry, about to run it
    | Done(live: bool)      // registerServed returned

  /** ran counts each cancel's executions; marked is every id ever marked. late are the ids
      a close came to take after they were served, missed those that were marked but no
      longer remembered at their start's re-check, probed those that registered a cancel for
      their probe. */
  datatype State = State(
    closed: Memory,
    registry: map<string, Cancel>,
    closers: map<nat, Closer>,
    starters: map<string, Starter>,
    teardowns: multiset<Cancel>,
    ran: multiset<Cancel>,
    marked: set<string>,
    late: set<string>,
    missed: set<string>,
    probed: set<string>)

  datatype Step =
    | WebClose(k: nat, ids: seq<string>)
    | CloserSkip(k: nat)
    | CloserMark(k: nat)
    | CloserTake(k: nat)
    | Teardown(c: Cancel)
    | StartSession(id: string, placeholder: bool)
    | StarterAbort(id: string)
    | StarterAdd(id: string)
    | StarterRecheck(id: string)
    | StarterTake(id: string)
    | StarterCancel(id: string)

  function Init(max: nat): State {
    State(Empty(max), map[], map[], map[], multiset{}, multiset{}, {}, {}, {}, {})
  }

  predicate Enabled(s: State, step: Step) {
    match step
    case WebClose(k, _) => k !in s.closers
    case CloserSkip(k) =>
      k in s.closers && !s.closers[k].taking && s.closers[k].todo != [] && s.closers[k].todo[0] == ""
    case CloserMark(k) =>
      k in s.closers && !s.closers[k].taking && s.closers[k].todo != [] && s.closers[k].todo[0] != ""
    case CloserTake(k) => k in s.closers && s.closers[k].taking && s.closers[k].todo != []
    case Teardown(c) => c in s.teardowns
    case StartSession(id, _) => id !in s.starters
    case StarterAbort(id) => id in s.starters && s.starters[id].Probing?
    case StarterAdd(id) => id in s.starters && s.starters[id].Probing?
    case StarterRecheck(id) => id in s.starters && s.starters[id].Added?
    case StarterTake(id) => id in s.starters && s.starters[id].Rechecked?
    case StarterCancel(id) => id in s.starters && s.starters[id].Cancelling?
  }

  /** The session reached registerServed, so it has a served cancel to account for. */
  predicate Served(s: State, id: string) {
    id in s.starters && !s.starters[id].Probing? && !s.starters[id].Aborted?
  }

  function Next(s: State, step: Step): State
    requires Enabled(s, step)
  {
    match step
    case WebClose(k, ids) => s.(closers := s.closers[k := Closer(ids, false)])
    case CloserSkip(k) => s.(closers := s.closers[k := Closer(s.closers[k].todo[1..], false)])
    case CloserMark(k) =>
      var id := s.closers[k].todo[0];
      s.(closed := Marked(s.closed, id), marked := s.marked + {id},
         closers := s.closers[k := s.closers[k].(taking := true)])
    case CloserTake(k) =>
      var id := s.closers[k].todo[0];
      var s' := s.(closers := s.closers[k := Closer(s.closers[k].todo[1..], false)],
                   late := if Served(s, id) then s.late + {id} else s.late);
      if id in s.registry
      then s'.(registry := Without(s.registry, id), teardowns := s.teardowns + multiset{s.registry[id]})
      else s'
    case Teardown(c) => s.(teardowns := s.teardowns - multiset{c}, ran := s.ran + multiset{c})
    case StartSession(id, placeholder) =>
      s.(starters := s.starters[id := Probing],
         registry := if placeholder then With(s.registry, id, Probe(id)) else s.registry,
         probed := if placeholder then s.probed + {id} else s.probed)
    case StarterAbort(id) => s.(starters := s.starters[id := Aborted], registry := Without(s.registry, id))
    case StarterAdd(id) => s.(starters := s.starters[id := Added], registry := With(s.registry, id, Serve(id)))
    case StarterRecheck(id) =>
      if id in s.closed.members then s.(starters := s.starters[id := Rechecked])
      else s.(starters := s.starters[id := Done(true)],
              missed := if id in s.marked then s.missed + {id} else s.missed)
    case StarterTake(id) =>
      if id in s.registry
      then s.(starters := s.starters[id := Cancelling(s.registry[id])], registry := Without(s.registry, id))
      else s.(starters := s.starters[id := Done(false)])
    case StarterCancel(id) =>
      s.(starters := s.starters[id := Done(false)], ran := s.ran + multiset{s.starters[id].c})
  }

  const RACE := System(Enabled, (s: State, t: Step) => if Enabled(s, t) then Next(s, t) else s)

  /** Every call has returned and every spawned teardown has run. */
  ghost predicate Quiescent(s: State) {
    && (forall k :: k in s.closers ==> s.closers[k].todo == [])
    && (forall id :: id in s.starters ==> s.starters[id].Done? || s.starters[id].Aborted?)
    && s.teardowns == multiset{}
  }

  // --- The invariant, one conjunct per concern -------------------------------

  ghost function Holds(s: State, id: string): nat {
    if id in s.starters && s.starters[id].Cancelling? && s.starters[id].c == Serve(id) then 1 else 0
  }

  ghost function Registered(s: State, id: string): nat {
    if id in s.registry && s.registry[id] == Serve(id) then 1 else 0
  }

  /** A served cancel is in exactly one place: registered, handed to a teardown,
      held by its own start, or already run. */
  ghost predicate Conserved(s: State, id: string) {
    Registered(s, id) + s.teardowns[Serve(id)] + Holds(s, id) + s.ran[Serve(id)]
    == if Served(s, id) then 1 else 0
  }

  /** Close call k has marked id and is about to take it. */
  ghost predicate Taking(s: State, k: nat, id: string) {
    k in s.closers && s.closers[k].taking && s.closers[k].todo != [] && s.closers[k].todo[0] == id
  }

  ghost predicate Pending(s: State, id: string) {
    || (exists k :: Taking(s, k, id))
    || (id in s.starters && (s.starters[id].Added? || s.starters[id].Rechecked?))
  }

  /** One side always sees the other: while an id is both remembered as closed and
      registered as served, somebody is still going to take it. */
  ghost predicate Seen(s: State, id: string) {
    id in s.closed.members && Registered(s, id) == 1 ==> Pending(s, id)
  }

  ghost predicate MarksOk(s: State) {
    && Valid(s.closed)
    && s.closed.members <= s.marked
    && (forall k :: k in s.closers && s.closers[k].taking ==>
          s.closers[k].todo != [] && s.closers[k].todo[0] in s.marked)
  }

  ghost predicate EntryOk(s: State, id: string) {
    && (id in s.registry ==> s.registry[id].id == id)
    && (id in s.starters && s.starters[id].Cancelling? ==> s.starters[id].c == Serve(id))
    && (id in s.registry && id in s.starters && s.starters[id] != Probing ==> s.registry[id] == Serve(id))
  }

  /** Only a closed id is ever torn down, and a start that found nothing of its own
      to take reports a closed session as not live. */
  ghost predicate Justified(s: State, id: string) {
    && (s.teardowns[Serve(id)] + s.ran[Serve(id)] > 0 ==> id in s.marked)
    && (id in s.starters && (s.starters[id].Rechecked? || s.starters[id].Cancelling? || s.starters[id] == Done(false))
        ==> id in s.marked)
    && (id in s.starters && s.starters[id] == Done(false) ==> Registered(s, id) == 0)
  }

  /** What became of an entry: one taken late is gone; one not taken late is there once its
      start is done with it; and a closed id whose start did not miss the mark was taken
      late, or is about to be. */
  ghost predicate Traced(s: State, id: string) {
    && (id in s.late ==> Served(s, id) && id !in s.registry)
    && (id in s.missed ==> id in s.starters && s.starters[id] == Done(true))
    && (id in s.starters && (s.starters[id].Added? || s.starters[id] == Done(true)) && id !in s.late ==>
          id in s.registry)
    && (id in s.starters && s.starters[id] == Done(true) && id in s.marked && id !in s.missed ==>
          id in s.late || exists k :: Taking(s, k, id))
  }

  ghost function ProbeAt(s: State, id: string): nat {
    (if id in s.registry && s.registry[id] == Probe(id) then 1 else 0)
    + s.teardowns[Probe(id)] + s.ran[Probe(id)]
  }

  /** The cancel of a probe is in one place at most, registered, handed to a teardown or run,
      and in one exactly while the probe goes on; and only a close takes it. */
  ghost predicate ProbeOk(s: State, id: string) {
    && ProbeAt(s, id) <= (if id in s.probed then 1 else 0)
    && (id in s.probed ==> id in s.starters)
    && (id in s.probed && s.starters[id].Probing? ==> ProbeAt(s, id) == 1)
    && (s.teardowns[Probe(id)] + s.ran[Probe(id)] > 0 ==> id in s.marked)
  }

  ghost predicate Good(s: State, id: string) {
    && EntryOk(s, id) && Conserved(s, id) && Seen(s, id) && Justified(s, id) && Traced(s, id)
    && ProbeOk(s, id)
  }

  ghost predicate Inv(s: State) {
    MarksOk(s) && forall id :: Good(s, id)
  }

  lemma InitInv(max: nat)
    requires max >= 1
    ensures Inv(Init(max))
  {
  }

  /** Nothing about a mark changes but the close calls, none of which waits for a take. */
  lemma SameMarksOk(s: State, s': State)
    requires MarksOk(s) && s'.closed == s.closed && s'.marked == s.marked
    requires forall k :: k in s'.closers && s'.closers[k].taking ==> k in s.closers && s'.closers[k] == s.closers[k]
    ensures MarksOk(s')
  {
    hide Valid;
  }

  lemma StepMarksOk(s: State, step: Step)
    requires MarksOk(s) && Enabled(s, step)
    ensures MarksOk(Next(s, step))
  {
    hide MarksOk, Next;
    if step.CloserMark? {
      MarkMarksOk(s, step.k);
    } else if step.WebClose? || step.CloserSkip? || step.CloserTake? {
      CloserMoves(s, step);
      SameMarksOk(s, Next(s, step));
    } else {
      ClosersStay(s, step);
      SameMarksOk(s, Next(s, step));
    }
  }

  lemma CloserMoves(s: State, step: Step)
    requires Enabled(s, step) && (step.WebClose? || step.CloserSkip? || step.CloserTake?)
    ensures var s' := Next(s, step);
            && s'.closed == s.closed && s'.marked == s.marked
            && forall k :: k in s'.closers && s'.closers[k].taking ==> k in s.closers && s'.closers[k] == s.closers[k]
  {
  }

  lemma ClosersStay(s: State, step: Step)
    requires Enabled(s, step) && !(step.WebClose? || step.CloserSkip? || step.CloserMark? || step.CloserTake?)
    ensures var s' := Next(s, step);
            s'.closed == s.closed && s'.marked == s.marked && s'.closers == s.closers
  {
  }

  lemma MarkMarksOk(s: State, k: nat)
    requires MarksOk(s) && Enabled(s, CloserMark(k))
    ensures MarksOk(Next(s, CloserMark(k)))
  {
    hide Valid, Marked;
    MarkedValid(s.closed, s.closers[k].todo[0]);
  }

  // --- A step leaves the other ids alone -------------------------------------

  /** The id a step is about; starting a close is about none. */
  ghost predicate Concerns(s: State, step: Step, id: string)
    requires Enabled(s, step)
  {
    match step
    case WebClose(_, _) => false
    case CloserSkip(k) => s.closers[k].todo[0] == id
    case CloserMark(k) => s.closers[k].todo[0] == id
    case CloserTake(k) => s.closers[k].todo[0] == id
    case Teardown(c) => c.id == id
    case _ => step.id == id
  }

  ghost predicate SameFor(s: State, s': State, id: string) {
    && (id in s.registry <==> id in s'.registry) && (id in s.registry ==> s.registry[id] == s'.registry[id])
    && (id in s.starters <==> id in s'.starters) && (id in s.starters ==> s.starters[id] == s'.starters[id])
    && s.teardowns[Serve(id)] == s'.teardowns[Serve(id)] && s.ran[Serve(id)] == s'.ran[Serve(id)]
    && s.teardowns[Probe(id)] == s'.teardowns[Probe(id)] && s.ran[Probe(id)] == s'.ran[Probe(id)]
    && (id in s.probed <==> id in s'.probed)
    && (id in s.marked <==> id in s'.marked) && (id in s.late <==> id in s'.late)
    && (id in s.missed <==> id in s'.missed) && (id in s'.closed.members ==> id in s.closed.members)
    && (forall k :: Taking(s, k, id) ==> Taking(s', k, id))
  }

  lemma CloserElsewhere(s: State, step: Step, id: string)
    requires MarksOk(s) && (forall x :: EntryOk(s, x)) && Enabled(s, step) && !Concerns(s, step, id)
    requires step.WebClose? || step.CloserSkip? || step.CloserMark? || step.CloserTake?
    ensures SameFor(s, Next(s, step), id)
  {
    match step
    case CloserMark(k) => MarkedValid(s.closed, s.closers[k].todo[0]);
    case CloserTake(k) => assert EntryOk(s, s.closers[k].todo[0]);
    case _ =>
  }

  lemma TeardownElsewhere(s: State, c: Cancel, id: string)
    requires Enabled(s, Teardown(c)) && c.id != id
    ensures SameFor(s, Next(s, Teardown(c)), id)
  {
  }

  lemma StartElsewhere(s: State, step: Step, id: string)
    requires step.StartSession? || step.StarterAbort? || step.StarterAdd?
    requires Enabled(s, step) && step.id != id
    ensures SameFor(s, Next(s, step), id)
  {
  }

  lemma RecheckElsewhere(s: State, step: Step, id: string)
    requires step.StarterRecheck? || step.StarterTake?
    requires Enabled(s, step) && step.id != id
    ensures SameFor(s, Next(s, step), id)
  {
  }

  lemma CancelElsewhere(s: State, x: string, id: string)
    requires Enabled(s, StarterCancel(x)) && EntryOk(s, x) && x != id
    ensures SameFor(s, Next(s, StarterCancel(x)), id)
  {
  }

  lemma StarterElsewhere(s: State, step: Step, id: string)
    requires (forall x :: EntryOk(s, x)) && Enabled(s, step) && !Concerns(s, step, id)
    requires !(step.WebClose? || step.CloserSkip? || step.CloserMark? || step.CloserTake?)
    ensures SameFor(s, Next(s, step), id)
  {
    hide SameFor, Next, EntryOk;
    if step.Teardown? {
      TeardownElsewhere(s, step.c, id);
    } else if step.StarterCancel? {
      CancelElsewhere(s, step.id, id);
    } else if step.StarterRecheck? || step.StarterTake? {
      RecheckElsewhere(s, step, id);
    } else {
      StartElsewhere(s, step, id);
    }
  }

  lemma SameIsGood(s: State, s': State, id: string)
    requires SameFor(s, s', id) && Good(s, id)
    ensures Good(s', id)
  {
    assert Pending(s, id) ==> Pending(s', id);
  }

  // --- What a step does to its own id -------------------------------------------

  lemma SkipGood(s: State, k: nat, id: string)
    requires MarksOk(s) && Good(s, id) && Enabled(s, CloserSkip(k)) && s.closers[k].todo[0] == id
    ensures Good(Next(s, CloserSkip(k)), id)
  {
    SameIsGood(s, Next(s, CloserSkip(k)), id);
  }

  lemma MarkGood(s: State, k: nat, id: string)
    requires MarksOk(s) && Good(s, id) && Enabled(s, CloserMark(k)) && s.closers[k].todo[0] == id
    ensures Good(Next(s, CloserMark(k)), id)
  {
    assert Taking(Next(s, CloserMark(k)), k, id);
  }

  lemma TakeGood(s: State, k: nat, id: string)
    requires MarksOk(s) && Good(s, id) && Enabled(s, CloserTake(k)) && s.closers[k].todo[0] == id
    ensures Good(Next(s, CloserTake(k)), id)
  {
  }

  lemma TeardownGood(s: State, c: Cancel, id: string)
    requires MarksOk(s) && Good(s, id) && Enabled(s, Teardown(c)) && c.id == id
    ensures Good(Next(s, Teardown(c)), id)
  {
    var s' := Next(s, Teardown(c));
    assert forall k :: Taking(s, k, id) ==> Taking(s', k, id);
  }

  lemma StartGood(s: State, id: string, placeholder: bool)
    requires MarksOk(s) && Good(s, id) && Enabled(s, StartSession(id, placeholder))
    ensures Good(Next(s, StartSession(id, placeholder)), id)
  {
  }

  lemma AbortGood(s: State, id: string)
    requires MarksOk(s) && Good(s, id) && Enabled(s, StarterAbort(id))
    ensures Good(Next(s, StarterAbort(id)), id)
  {
  }

  lemma AddGood(s: State, id: string)
    requires MarksOk(s) && Good(s, id) && Enabled(s, StarterAdd(id))
    ensures Good(Next(s, StarterAdd(id)), id)
  {
  }

  lemma RecheckGood(s: State, id: string)
    requires MarksOk(s) && Good(s, id) && Enabled(s, StarterRecheck(id))
    ensures Good(Next(s, StarterRecheck(id)), id)
  {
  }

  lemma OwnTakeGood(s: State, id: string)
    requires MarksOk(s) && Good(s, id) && Enabled(s, StarterTake(id))
    ensures Good(Next(s, StarterTake(id)), id)
  {
  }

  lemma CancelGood(s: State, id: string)
    requires MarksOk(s) && Good(s, id) && Enabled(s, StarterCancel(id))
    ensures Good(Next(s, StarterCancel(id)), id)
  {
  }

  lemma OwnGood(s: State, step: Step, id: string)
    requires MarksOk(s) && Good(s, id) && Enabled(s, step) && Concerns(s, step, id)
    ensures Good(Next(s, step), id)
  {
    hide Good, MarksOk, Next;
    match step
    case WebClose(_, _) =>
    case CloserSkip(k) => SkipGood(s, k, id);
    case CloserMark(k) => MarkGood(s, k, id);
    case CloserTake(k) => TakeGood(s, k, id);
    case Teardown(c) => TeardownGood(s, c, id);
    case StartSession(_, placeholder) => StartGood(s, id, placeholder);
    case StarterAbort(_) => AbortGood(s, id);
    case StarterAdd(_) => AddGood(s, id);
    case StarterRecheck(_) => RecheckGood(s, id);
    case StarterTake(_) => OwnTakeGood(s, id);
    case StarterCancel(_) => CancelGood(s, id);
  }

  /** Every step keeps, for every id: its cancel in exactly one place, somebody about to take
      what is closed and registered, and a reason for every teardown. */
  lemma StepGood(s: State, step: Step, id: string)
    requires Inv(s) && Enabled(s, step)
    ensures Good(Next(s, step), id)
  {
    assert Good(s, id);
    assert forall x :: EntryOk(s, x) by {
      forall x ensures EntryOk(s, x) { assert Good(s, x); }
    }
    hide Good, MarksOk, EntryOk, Next, SameFor, Enabled;
    if Concerns(s, step, id) {
      OwnGood(s, step, id);
    } else {
      if step.WebClose? || step.CloserSkip? || step.CloserMark? || step.CloserTake? {
        CloserElsewhere(s, step, id);
      } else {
        StarterElsewhere(s, step, id);
      }
      SameIsGood(s, Next(s, step), id);
    }
  }

  lemma StepInv(s: State, step: Step)
    requires Inv(s) && Enabled(s, step)
    ensures Inv(Next(s, step))
  {
    hide Good, MarksOk, Next;
    StepMarksOk(s, step);
    forall id ensures Good(Next(s, step), id) { StepGood(s, step, id); }
  }

  lemma RunInv(max: nat, steps: seq<Step>)
    requires max >= 1 && RACE.IsRun(Init(max), steps)
    ensures Inv(RACE.Final(Init(max), steps))
  {
    hide Inv, Next;
    InitInv(max);
    forall x, t | Inv(x) && RACE.enabled(x, t) ensures Inv(RACE.next(x, t)) {
      StepInv(x, t);
    }
    RACE.Keeps(Inv, Init(max), steps);
  }

  // --- What every run guarantees ---------------------------------------------

  /** In every reachable state a served cancel has run at most once, and only for
      an id the web closed. */
  lemma AtMostOnce(max: nat, steps: seq<Step>, id: string)
    requires max >= 1 && RACE.IsRun(Init(max), steps)
    ensures var s := RACE.Final(Init(max), steps);
            s.ran[Serve(id)] <= 1 && (s.ran[Serve(id)] == 1 ==> Served(s, id) && id in s.marked && id !in s.registry)
  {
    RunInv(max, steps);
    var s := RACE.Final(Init(max), steps);
    assert Good(s, id);
  }

  /** Once everything has finished, a served session the memory still holds as
      closed is gone from the registry and its cancel ran exactly once. */
  lemma ClosedIsTornDownOnce(max: nat, steps: seq<Step>, id: string)
    requires max >= 1 && RACE.IsRun(Init(max), steps)
    requires Quiescent(RACE.Final(Init(max), steps))
    requires id in RACE.Final(Init(max), steps).closed.members
    requires Served(RACE.Final(Init(max), steps), id)
    ensures var s := RACE.Final(Init(max), steps);
            id !in s.registry && s.ran[Serve(id)] == 1
  {
    RunInv(max, steps);
    var s := RACE.Final(Init(max), steps);
    assert Good(s, id);
  }

  /** At rest a served session is either registered or torn down once, never both
      and never neither; one left registered was never closed, or its id has been
      evicted from the memory. */
  lemma LiveOrTornDown(max: nat, steps: seq<Step>, id: string)
    requires max >= 1 && RACE.IsRun(Init(max), steps)
    requires Quiescent(RACE.Final(Init(max), steps))
    requires Served(RACE.Final(Init(max), steps), id)
    ensures var s := RACE.Final(Init(max), steps);
            && (id in s.registry <==> s.ran[Serve(id)] == 0)
            && (id in s.registry ==> id !in s.closed.members)
            && (id !in s.marked ==> id in s.registry && s.starters[id] == Done(true))
            && (s.starters[id] == Done(false) ==> s.ran[Serve(id)] == 1)
  {
    RunInv(max, steps);
    var s := RACE.Final(Init(max), steps);
    assert Good(s, id);
  }

  /** In every reachable state the cancel of a probe has run at most once, and only for a closed
      id; and while the probe goes on it is registered for a close to take, or one has taken it. */
  lemma ProbeCancelledOnce(max: nat, steps: seq<Step>, id: string)
    requires max >= 1 && RACE.IsRun(Init(max), steps)
    ensures var s := RACE.Final(Init(max), steps);
            && s.ran[Probe(id)] <= 1 && (s.ran[Probe(id)] == 1 ==> id in s.marked)
            && (id in s.probed && At(s, id, Probing) ==>
                  || (id in s.registry && s.registry[id] == Probe(id))
                  || s.teardowns[Probe(id)] == 1
                  || s.ran[Probe(id)] == 1)
  {
    RunInv(max, steps);
    assert Good(RACE.Final(Init(max), steps), id);
  }

  predicate At(s: State, id: string, p: Starter) { id in s.starters && s.starters[id] == p }

  // --- How much the memory must hold ------------------------------------------

  /** While no more ids than fit have ever been marked, none has been forgotten. */
  ghost predicate Remembers(s: State) {
    |s.marked| <= s.closed.max ==>
      s.closed.members == s.marked && |s.closed.order| == |s.marked| && s.missed == {}
  }

  lemma StepRemembers(s: State, step: Step)
    requires Remembers(s) && Enabled(s, step)
    ensures Remembers(Next(s, step)) && Next(s, step).closed.max == s.closed.max
  {
    if step.CloserMark? {
      var id := s.closers[step.k].todo[0];
      if id in s.marked {
        assert s.marked + {id} == s.marked;
      }
    }
  }

  lemma RunRemembers(max: nat, steps: seq<Step>)
    requires RACE.IsRun(Init(max), steps)
    ensures Remembers(RACE.Final(Init(max), steps)) && RACE.Final(Init(max), steps).closed.max == max
  {
    hide Next;
    var inv := (s: State) => Remembers(s) && s.closed.max == max;
    assert inv(Init(max));
    forall x, t | inv(x) && RACE.enabled(x, t) ensures inv(RACE.next(x, t)) {
      StepRemembers(x, t);
    }
    RACE.Keeps(inv, Init(max), steps);
  }

  /** At rest, a served session the web closed is still up if and only if its mark had been
      evicted when its start re-checked and no close came to take it after it was served;
      otherwise its cancel ran exactly once. */
  lemma ClosedStaysUpExactly(max: nat, steps: seq<Step>, id: string)
    requires max >= 1 && RACE.IsRun(Init(max), steps)
    requires Quiescent(RACE.Final(Init(max), steps))
    requires Served(RACE.Final(Init(max), steps), id) && id in RACE.Final(Init(max), steps).marked
    ensures var s := RACE.Final(Init(max), steps);
            && (id in s.registry <==> id in s.missed && id !in s.late)
            && (id !in s.registry <==> s.ran[Serve(id)] == 1)
  {
    LiveOrTornDown(max, steps, id);
    AtMostOnce(max, steps, id);
    RunInv(max, steps);
    assert Good(RACE.Final(Init(max), steps), id);
  }

  /** With at most max ids ever closed nothing is missed: a served session is torn down, and
      once, exactly when the web closed it; otherwise it is registered. */
  lemma TornDownIffClosed(max: nat, steps: seq<Step>, id: string)
    requires max >= 1 && RACE.IsRun(Init(max), steps)
    requires Quiescent(RACE.Final(Init(max), steps))
    requires Served(RACE.Final(Init(max), steps), id)
    requires |RACE.Final(Init(max), steps).marked| <= max
    ensures var s := RACE.Final(Init(max), steps);
            (id in s.marked <==> s.ran[Serve(id)] == 1) && (id in s.registry <==> id !in s.marked)
  {
    LiveOrTornDown(max, steps, id);
    RunRemembers(max, steps);
    if id in RACE.Final(Init(max), steps).marked {
      ClosedStaysUpExactly(max, steps, id);
    }
  }

  /** The state in which close call 0 still has todo to handle and nothing was ever
      served. */
  function Closing(m: Memory, marked: set<string>, todo: seq<string>): State {
    State(m, map[], map[0 := Closer(todo, false)], map[], multiset{}, multiset{}, marked, {}, {}, {})
  }

  /** A close call that meets no session runs to its end and only marks its ids. */
  lemma {:induction false} CloseAlone(m: Memory, marked: set<string>, todo: seq<string>) returns (steps: seq<Step>)
    requires "" !in todo
    ensures RACE.IsRun(Closing(m, marked, todo), steps)
    ensures RACE.Final(Closing(m, marked, todo), steps) == Closing(MarkAll(m, todo), marked + (set id | id in todo), [])
    decreases |todo|
  {
    if todo == [] {
      steps := [];
      assert marked + (set id | id in todo) == marked;
    } else {
      var s := Closing(m, marked, todo);
      var s1 := Next(s, CloserMark(0));
      var s2 := Closing(Marked(m, todo[0]), marked + {todo[0]}, todo[1..]);
      assert Next(s1, CloserTake(0)) == s2;
      RACE.Then(s, [], CloserMark(0));
      RACE.Then(s, [] + [CloserMark(0)], CloserTake(0));
      steps := [] + [CloserMark(0)] + [CloserTake(0)];
      var rest := CloseAlone(s2.closed, s2.marked, todo[1..]);
      RACE.Concat(s, steps, rest);
      steps := steps + rest;
      assert marked + {todo[0]} + (set id | id in todo[1..]) == marked + (set id | id in todo);
    }
  }

  /** A start the memory knows nothing of comes up, whatever was marked before. */
  lemma StartsUp(m: Memory, marked: set<string>, id: string) returns (steps: seq<Step>)
    requires id !in m.members
    ensures RACE.IsRun(Closing(m, marked, []), steps)
    ensures var s := RACE.Final(Closing(m, marked, []), steps);
            Quiescent(s) && s.marked == marked && Served(s, id) && id in s.registry && s.ran[Serve(id)] == 0
  {
    var s := Closing(m, marked, []);
    steps := [];
    RACE.Then(s, steps, StartSession(id, false));
    steps := steps + [StartSession(id, false)];
    RACE.Then(s, steps, StarterAdd(id));
    steps := steps + [StarterAdd(id)];
    RACE.Then(s, steps, StarterRecheck(id));
    steps := steps + [StarterRecheck(id)];
  }

  lemma {:induction false} AllNew(m: Memory, ids: seq<string>)
    requires Valid(m) && Distinct(ids) && forall id :: id in ids ==> id !in m.members
    ensures NewMarks(m, ids) == |ids|
    decreases |ids|
  {
    if ids != [] {
      MarkedValid(m, ids[0]);
      AllNew(Marked(m, ids[0]), ids[1..]);
    }
  }

  lemma ManyIds(n: nat) returns (ids: seq<string>)
    ensures |ids| == n && Distinct(ids) && "" !in ids
  {
    ids := seq(n, (i: nat) => seq(i + 1, _ => 'a'));
  }

  lemma {:induction false} AsManyAs(ids: seq<string>)
    requires Distinct(ids)
    ensures |set id | id in ids| == |ids|
    decreases |ids|
  {
    if ids != [] {
      AsManyAs(ids[1..]);
      assert (set id | id in ids) == {ids[0]} + (set id | id in ids[1..]);
    }
  }

  /** The bound is exact: for every memory size, closing one id more than fits, all
      before the session's start, leaves a closed session up. */
  lemma EvictionLeavesSessionUp(max: nat) returns (steps: seq<Step>, id: string)
    requires max >= 1
    ensures RACE.IsRun(Init(max), steps)
    ensures var s := RACE.Final(Init(max), steps);
            && Quiescent(s) && |s.marked| == max + 1 && Served(s, id)
            && id in s.marked && id in s.registry && s.ran[Serve(id)] == 0
  {
    var ids := ManyIds(max + 1);
    id := ids[0];
    var m := MarkAll(Empty(max), ids);
    assert id !in m.members by {
      MarkedValid(Empty(max), id);
      AllNew(Marked(Empty(max), id), ids[1..]);
      KeptUntilMaxNewIds(Empty(max), id, ids[1..]);
    }
    var marked := set x | x in ids;
    AsManyAs(ids);
    var close := CloseAlone(Empty(max), {}, ids);
    assert {} + marked == marked;
    var start := StartsUp(m, marked, id);
    RACE.Then(Init(max), [], WebClose(0, ids));
    steps := [] + [WebClose(0, ids)];
    assert RACE.Final(Init(max), steps) == Closing(Empty(max), {}, ids);
    RACE.Concat(Init(max), steps, close);
    RACE.Concat(Init(max), steps + close, start);
    steps := steps + close + start;
  }
}
