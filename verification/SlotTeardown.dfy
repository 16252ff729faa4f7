/** Sessions that share the single /stream slot: each installs a file under a new
    generation, and its cancel tears down that generation alone, once, and not while
    somebody is reading it. One atomic call per step. */
module SlotTeardown {
  import opened Runs

  /** How far the cancel of a session has come. */
  datatype Phase =
    | Armed      // not called yet
    | Called     // called, about to ask whether the slot is in use
    | Deferred   // it was: polling
    | Ready      // it was not: about to release the session's own resources
    | Released   // released, about to clear the slot
    | Down

  /** gen is the server's file generation, served the generation of the file /stream
      serves; sessions is keyed by the generation each session installed. late names the
      sessions whose slot got a reader after their last look at it. */
  datatype State = State(
    gen: nat,
    served: set<nat>,
    reading: bool,
    sessions: map<nat, Phase>,
    released: multiset<nat>,
    late: set<nat>)

  datatype Step =
    | ServeSession            // SetFile by a start path that registers a cancel
    | ServeOther              // SetFile by anything else
    | ClearFile
    | Reading(on: bool)
    | Cancel(g: nat)
    | Look(g: nat)            // the first SlotInUse, or one of the polls
    | Release(g: nat)
    | ClearIf(g: nat)

  const START := State(0, {}, false, map[], multiset{}, {})

  predicate At(s: State, g: nat, p: Phase) { g in s.sessions && s.sessions[g] == p }

  predicate InUse(s: State, g: nat) { s.gen == g && s.reading }

  predicate Enabled(s: State, step: Step) {
    match step
    case Cancel(g) => g in s.sessions
    case Look(g) => At(s, g, Called) || At(s, g, Deferred)
    case Release(g) => At(s, g, Ready)
    case ClearIf(g) => At(s, g, Released)
    case _ => true
  }

  predicate Decided(s: State, g: nat) { At(s, g, Ready) || At(s, g, Released) }

  function Moved(s: State, g: nat, p: Phase): State { s.(sessions := s.sessions[g := p]) }

  function Next(s: State, step: Step): State
    requires Enabled(s, step)
  {
    match step
    case ServeSession => s.(gen := s.gen + 1, served := {s.gen + 1}, sessions := s.sessions[s.gen + 1 := Armed])
    case ServeOther => s.(gen := s.gen + 1, served := {s.gen + 1})
    case ClearFile => s.(gen := s.gen + 1, served := {})
    case Reading(on) => s.(reading := on, late := if on && Decided(s, s.gen) then s.late + {s.gen} else s.late)
    case Cancel(g) => if s.sessions[g].Armed? then Moved(s, g, Called) else s
    case Look(g) => Moved(s, g, if InUse(s, g) then Deferred else Ready)
    case Release(g) => Moved(s, g, Released).(released := s.released + multiset{g})
    case ClearIf(g) =>
      if s.gen == g then Moved(s, g, Down).(gen := s.gen + 1, served := {}) else Moved(s, g, Down)
  }

  const SLOT := System(Enabled, (s: State, t: Step) => if Enabled(s, t) then Next(s, t) else s)

  /** The slot serves at most the current generation; a session's resources are released
      once, exactly from its release on; and a session that has decided to tear down a
      slot being read decided so before that reader came. */
  ghost predicate Inv(s: State) {
    && (forall g :: g in s.served ==> g == s.gen)
    && (forall g :: g in s.sessions ==> g <= s.gen)
    && (forall g: nat :: s.released[g] == if At(s, g, Released) || At(s, g, Down) then 1 else 0)
    && (Decided(s, s.gen) && s.reading ==> s.gen in s.late)
  }

  lemma StepInv(s: State, step: Step)
    requires Inv(s) && Enabled(s, step)
    ensures Inv(Next(s, step))
  {
  }

  /** Every reachable state meets it. */
  lemma Reachable(steps: seq<Step>)
    requires SLOT.IsRun(START, steps)
    ensures Inv(SLOT.Final(START, steps))
  {
    hide Next;
    assert Inv(START);
    hide Inv;
    forall x, t | Inv(x) && SLOT.enabled(x, t) ensures Inv(SLOT.next(x, t)) {
      StepInv(x, t);
    }
    SLOT.Keeps(Inv, START, steps);
  }

  /** In every run a session's own resources are released at most once, and exactly once
      when its teardown is over, superseded or not. */
  lemma ReleasedOnce(steps: seq<Step>, g: nat)
    requires SLOT.IsRun(START, steps)
    ensures var s := SLOT.Final(START, steps);
            s.released[g] <= 1 && (At(s, g, Down) ==> s.released[g] == 1) && (At(s, g, Armed) ==> s.released[g] == 0)
  {
    Reachable(steps);
  }

  /** The step installs another file or clears the slot outright. */
  predicate Replaces(step: Step) { step.ServeSession? || step.ServeOther? || step.ClearFile? }

  /** /stream serves the file of generation h, whose session, if it has one, was not
      cancelled. */
  ghost predicate Viewed(s: State, h: nat) {
    h in s.served && (h in s.sessions ==> s.sessions[h].Armed?)
  }

  lemma StepKeepsViewer(s: State, step: Step, h: nat)
    requires Inv(s) && Enabled(s, step) && Viewed(s, h)
    requires !Replaces(step) && step != Cancel(h)
    ensures Viewed(Next(s, step), h)
  {
  }

  /** However many older sessions are torn down, and however late, the file on /stream
      stays until another replaces it or its own session is cancelled. */
  lemma NewerViewerIsNeverCut(before: seq<Step>, after: seq<Step>, h: nat)
    requires SLOT.IsRun(START, before) && Viewed(SLOT.Final(START, before), h)
    requires SLOT.IsRun(SLOT.Final(START, before), after)
    requires forall i :: 0 <= i < |after| ==> !Replaces(after[i]) && after[i] != Cancel(h)
    ensures Viewed(SLOT.Final(SLOT.Final(START, before), after), h)
  {
    hide Inv, Next;
    Reachable(before);
    var kept := (x: State) => Inv(x) && Viewed(x, h);
    var kind := (t: Step) => !Replaces(t) && t != Cancel(h);
    forall x, t | kept(x) && SLOT.enabled(x, t) && kind(t) ensures kept(SLOT.next(x, t)) {
      StepInv(x, t);
      StepKeepsViewer(x, t, h);
    }
    SLOT.KeepsOn(kept, kind, SLOT.Final(START, before), after);
  }

  ghost predicate HandedOver(s: State, g: nat) {
    g in s.served && s.reading && (At(s, g, Armed) || At(s, g, Called) || At(s, g, Deferred))
  }

  lemma StepKeepsReader(s: State, step: Step, g: nat)
    requires Inv(s) && Enabled(s, step) && HandedOver(s, g)
    requires !Replaces(step) && step != Reading(false)
    ensures HandedOver(Next(s, step), g)
  {
  }

  /** A session closed while its slot is read, as when playback is handed to an external
      player, is not torn down for as long as the reading lasts. */
  lemma ReadSlotIsKept(before: seq<Step>, after: seq<Step>, g: nat)
    requires SLOT.IsRun(START, before) && HandedOver(SLOT.Final(START, before), g)
    requires SLOT.IsRun(SLOT.Final(START, before), after)
    requires forall i :: 0 <= i < |after| ==> !Replaces(after[i]) && after[i] != Reading(false)
    ensures var s := SLOT.Final(SLOT.Final(START, before), after);
            HandedOver(s, g) && s.released[g] == 0
  {
    hide Next, Inv;
    Reachable(before);
    var kept := (x: State) => Inv(x) && HandedOver(x, g);
    var kind := (t: Step) => !Replaces(t) && t != Reading(false);
    forall x, t | kept(x) && SLOT.enabled(x, t) && kind(t) ensures kept(SLOT.next(x, t)) {
      StepInv(x, t);
      StepKeepsReader(x, t, g);
    }
    SLOT.KeepsOn(kept, kind, SLOT.Final(START, before), after);
    NotReleased(SLOT.Final(SLOT.Final(START, before), after), g);
  }

  lemma NotReleased(s: State, g: nat)
    requires Inv(s) && HandedOver(s, g)
    ensures s.released[g] == 0
  {
  }

  /** A teardown waits for nobody else's readers: once another file took the slot, its next look
      lets it go on, and its clear leaves the slot alone. */
  lemma SupersededGoesOn(steps: seq<Step>, g: nat)
    requires SLOT.IsRun(START, steps) && SLOT.Final(START, steps).gen != g
    ensures var s := SLOT.Final(START, steps);
            && (At(s, g, Called) || At(s, g, Deferred) ==> At(Next(s, Look(g)), g, Ready))
            && (At(s, g, Released) ==> Next(s, ClearIf(g)) == s.(sessions := s.sessions[g := Down]))
  {
  }

  /** A teardown's clear takes its own file off /stream and no other, and the only
      readers it can cut off came after its last look at the slot. */
  lemma CutsOnlyLateReaders(steps: seq<Step>, g: nat)
    requires SLOT.IsRun(START, steps) && Enabled(SLOT.Final(START, steps), ClearIf(g))
    ensures var s := SLOT.Final(START, steps);
            Next(s, ClearIf(g)).served == s.served - {g} && (g in s.served && s.reading ==> g in s.late)
  {
    Reachable(steps);
  }

  /** Looking and clearing are separate calls, so such a reader exists. */
  lemma LateReaderIsCut() returns (steps: seq<Step>)
    ensures SLOT.IsRun(START, steps) && Enabled(SLOT.Final(START, steps), ClearIf(1))
    ensures var s := SLOT.Final(START, steps);
            1 in s.served && s.reading && Next(s, ClearIf(1)).served == {}
  {
    hide Inv;
    steps := [];
    SLOT.Then(START, steps, ServeSession);
    steps := steps + [ServeSession];
    SLOT.Then(START, steps, Cancel(1));
    steps := steps + [Cancel(1)];
    SLOT.Then(START, steps, Look(1));
    steps := steps + [Look(1)];
    SLOT.Then(START, steps, Release(1));
    steps := steps + [Release(1)];
    SLOT.Then(START, steps, Reading(true));
    steps := steps + [Reading(true)];
  }
}
