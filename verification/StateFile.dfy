/** The daemon's state file at shutdown: writers of this process that are still
    unwinding, the seal that shuts them out, the reap that removes the file, and other
    processes sharing the same data directory and temporary file name. */
module StateFile {
  import opened Wrappers
  import opened Runs

  /** Whose PID a state file names. */
  datatype Pid = Own | Foreign(n: nat)

  /** The latch, the state file and the temporary file beside it. */
  datatype Disk = Disk(sealed: bool, file: Option<Pid>, tmp: Option<Pid>)

  function Latched(d: Disk): Disk { d.(sealed := true) }

  function TmpBy(d: Disk, p: Pid): Disk { d.(tmp := Some(p)) }

  function Renamed(d: Disk): Disk {
    if d.tmp.Some? then d.(file := d.tmp, tmp := None) else d
  }

  function Removed(d: Disk): Disk { d.(file := None) }

  predicate NamesOwn(d: Disk) { d.file == Some(Own) }

  /** WriteState, uninterrupted: writes and renames tell which of its calls go through. */
  function Written(d: Disk, writes: bool, renames: bool): Disk {
    if d.sealed || !writes then d
    else if renames then Renamed(TmpBy(d, Own))
    else TmpBy(d, Own)
  }

  function Reaped(d: Disk): Disk {
    if NamesOwn(d) then Removed(d) else d
  }

  class StateStore {
    var sealed: bool
    var file: Option<Pid>
    var tmp: Option<Pid>

    ghost function View(): Disk
      reads this
    {
      Disk(sealed, file, tmp)
    }

    constructor (file: Option<Pid>)
      ensures View() == Disk(false, file, None)
    {
      sealed, this.file, tmp := false, file, None;
    }

    method WriteState(writes: bool, renames: bool)
      modifies this
      ensures View() == Written(old(View()), writes, renames)
    {
      if sealed {
        return;
      }
      if !writes {
        return;
      }
      tmp := Some(Own);
      if renames {
        file, tmp := tmp, None;
      }
    }

    method SealState()
      modifies this
      ensures View() == Latched(old(View()))
    {
      sealed := true;
    }

    method ReapOwnState()
      modifies this
      ensures View() == Reaped(old(View()))
    {
      if file == Some(Own) {
        file := None;
      }
    }
  }

  // --- Step by step --------------------------------------------------------------------------

  datatype Writer = Wanting | Holding | Passed | TmpWritten | Finished

  /** The exit path: seal, read the file, remove it if it named this process. */
  datatype Exit = Serving | Sealed | Decided(own: bool) | Gone

  /** replaced: since the exit path read the file, another process has put its own in
      place, and not removed it again. */
  datatype State = State(lock: Option<nat>, disk: Disk, writers: map<nat, Writer>, exit: Exit, replaced: bool)

  datatype Step =
    | WriterStart(w: nat)
    | WriterLock(w: nat)
    | WriterCheck(w: nat)
    | WriterTmp(w: nat, ok: bool)
    | WriterRename(w: nat, ok: bool)
    | Seal
    | ReapRead
    | ReapRemove
    | OtherTmp(n: nat)
    | OtherRename
    | OtherRemove

  predicate At(s: State, w: nat, pc: Writer) { w in s.writers && s.writers[w] == pc }

  predicate Enabled(s: State, step: Step) {
    match step
    case WriterStart(w) => w !in s.writers
    case WriterLock(w) => At(s, w, Wanting) && s.lock.None?
    case WriterCheck(w) => At(s, w, Holding)
    case WriterTmp(w, _) => At(s, w, Passed)
    case WriterRename(w, _) => At(s, w, TmpWritten)
    case Seal => s.exit.Serving? && s.lock.None?
    case ReapRead => s.exit.Sealed?
    case ReapRemove => s.exit.Decided?
    case _ => true
  }

  function MoveTo(s: State, w: nat, pc: Writer): State { s.(writers := s.writers[w := pc]) }

  function Release(s: State, w: nat): State { MoveTo(s, w, Finished).(lock := None) }

  function Next(s: State, step: Step): State
    requires Enabled(s, step)
  {
    match step
    case WriterStart(w) => MoveTo(s, w, Wanting)
    case WriterLock(w) => MoveTo(s, w, Holding).(lock := Some(w))
    case WriterCheck(w) => if s.disk.sealed then Release(s, w) else MoveTo(s, w, Passed)
    case WriterTmp(w, ok) =>
      if ok then MoveTo(s, w, TmpWritten).(disk := TmpBy(s.disk, Own)) else Release(s, w)
    case WriterRename(w, ok) => Release(s, w).(disk := if ok then Renamed(s.disk) else s.disk)
    case Seal => s.(disk := Latched(s.disk), exit := Sealed)
    case ReapRead => s.(exit := Decided(NamesOwn(s.disk)), replaced := false)
    case ReapRemove => s.(exit := Gone, disk := if s.exit.own then Removed(s.disk) else s.disk)
    case OtherTmp(n) => s.(disk := TmpBy(s.disk, Foreign(n)))
    case OtherRename =>
      s.(disk := Renamed(s.disk), replaced := if s.disk.tmp.Some? then s.disk.tmp != Some(Own) else s.replaced)
    case OtherRemove => s.(disk := Removed(s.disk), replaced := false)
  }

  const FILE := System(Enabled, (s: State, t: Step) => if Enabled(s, t) then Next(s, t) else s)

  const START := State(None, Disk(false, None, None), map[], Serving, false)

  /** Left alone, the steps of a writer do what WriteState does. */
  lemma WriterAlone(s: State, w: nat, writes: bool, renames: bool) returns (steps: seq<Step>)
    requires At(s, w, Wanting) && s.lock.None?
    ensures FILE.IsRun(s, steps)
    ensures FILE.Final(s, steps) == MoveTo(s, w, Finished).(disk := Written(s.disk, writes, renames))
  {
    steps := [];
    FILE.Then(s, steps, WriterLock(w));
    steps := steps + [WriterLock(w)];
    FILE.Then(s, steps, WriterCheck(w));
    steps := steps + [WriterCheck(w)];
    if !s.disk.sealed {
      FILE.Then(s, steps, WriterTmp(w, writes));
      steps := steps + [WriterTmp(w, writes)];
      if writes {
        FILE.Then(s, steps, WriterRename(w, renames));
        steps := steps + [WriterRename(w, renames)];
      }
    }
  }

  /** Left alone, the steps of the exit path do what SealState and ReapOwnState do. */
  lemma ExitAlone(s: State) returns (steps: seq<Step>)
    requires s.exit.Serving? && s.lock.None?
    ensures FILE.IsRun(s, steps)
    ensures FILE.Final(s, steps) == s.(exit := Gone, disk := Reaped(Latched(s.disk)), replaced := false)
  {
    steps := [];
    FILE.Then(s, steps, Seal);
    steps := steps + [Seal];
    FILE.Then(s, steps, ReapRead);
    steps := steps + [ReapRead];
    FILE.Then(s, steps, ReapRemove);
    steps := steps + [ReapRemove];
  }

  predicate InLock(pc: Writer) { pc.Holding? || pc.Passed? || pc.TmpWritten? }

  /** The lock is exclusive, the seal shuts the writers out, and between its read and its
      removal the exit path is about to remove a foreign file just when one was put in
      place since. */
  ghost predicate Inv(s: State) {
    && (forall w :: w in s.writers && InLock(s.writers[w]) ==> s.lock == Some(w))
    && (s.disk.sealed <==> !s.exit.Serving?)
    && (s.disk.sealed ==> forall w :: w in s.writers ==> !s.writers[w].Passed? && !s.writers[w].TmpWritten?)
    && (s.exit.Decided? && s.exit.own ==> (s.replaced <==> s.disk.file.Some? && !NamesOwn(s.disk)))
  }

  lemma StepInv(s: State, step: Step)
    requires Inv(s) && Enabled(s, step)
    ensures Inv(Next(s, step))
  {
  }

  lemma RunInv(s: State, steps: seq<Step>)
    requires Inv(s) && FILE.IsRun(s, steps)
    ensures Inv(FILE.Final(s, steps))
  {
    hide Inv, Next;
    forall x, t | Inv(x) && FILE.enabled(x, t) ensures Inv(FILE.next(x, t)) {
      StepInv(x, t);
    }
    FILE.Keeps(Inv, s, steps);
  }

  // --- What brings the file back ---------------------------------------------------------------

  /** The exit path is over, and there is a state file naming this process. */
  predicate Back(s: State) { s.exit.Gone? && NamesOwn(s.disk) }

  ghost predicate CanComeBack(s: State) {
    exists rest :: LeadsBack(s, rest)
  }

  ghost predicate LeadsBack(s: State, rest: seq<Step>) {
    FILE.IsRun(s, rest) && Back(FILE.Final(s, rest))
  }

  /** Sealed, with nothing left that could install a file naming this process. */
  ghost predicate Shut(s: State) {
    && Inv(s) && s.disk.sealed && s.disk.tmp != Some(Own)
    && (s.exit.Decided? && NamesOwn(s.disk) ==> s.exit.own)
    && !Back(s)
  }

  lemma StepShut(s: State, step: Step)
    requires Shut(s) && Enabled(s, step)
    ensures Shut(Next(s, step))
  {
    StepInv(s, step);
  }

  /** Once sealed, with any writers still unwinding, any renames failed before and any
      other processes about, the file can come back after the reap if and only if the
      temporary file names this process: its last write got no further. */
  lemma NoResurrection(steps: seq<Step>)
    requires FILE.IsRun(START, steps) && FILE.Final(START, steps).exit == Sealed
    ensures var s := FILE.Final(START, steps);
            CanComeBack(s) <==> s.disk.tmp == Some(Own)
  {
    RunInv(START, steps);
    var s := FILE.Final(START, steps);
    if s.disk.tmp == Some(Own) {
      var rest := ComesBack(s);
      assert LeadsBack(s, rest);
    } else {
      forall rest | FILE.IsRun(s, rest) ensures !LeadsBack(s, rest) {
        StaysGone(s, rest);
      }
    }
  }

  lemma StaysGone(s: State, rest: seq<Step>)
    requires Shut(s) && FILE.IsRun(s, rest)
    ensures !Back(FILE.Final(s, rest))
  {
    hide Inv, Next;
    forall x, t | Shut(x) && FILE.enabled(x, t) ensures Shut(FILE.next(x, t)) {
      StepShut(x, t);
    }
    FILE.Keeps(Shut, s, rest);
  }

  lemma ComesBack(s: State) returns (rest: seq<Step>)
    requires s.exit == Sealed && s.disk.tmp == Some(Own)
    ensures FILE.IsRun(s, rest) && Back(FILE.Final(s, rest))
  {
    rest := [];
    FILE.Then(s, rest, ReapRead);
    rest := rest + [ReapRead];
    FILE.Then(s, rest, ReapRemove);
    rest := rest + [ReapRemove];
    FILE.Then(s, rest, OtherRename);
    rest := rest + [OtherRename];
  }

  predicate IsOther(step: Step) { step.OtherTmp? || step.OtherRename? || step.OtherRemove? }

  /** Only another process can bring it back: alone, whatever fails, the reap is final. */
  lemma AloneNeverBack(steps: seq<Step>)
    requires FILE.IsRun(START, steps) && forall i :: 0 <= i < |steps| ==> !IsOther(steps[i])
    ensures !Back(FILE.Final(START, steps))
  {
    hide Next;
    var inv := (s: State) => Inv(s) && !Back(s) && (s.exit.Decided? && NamesOwn(s.disk) ==> s.exit.own);
    var kind := (t: Step) => !IsOther(t);
    assert inv(START);
    hide Inv;
    forall x, t | inv(x) && FILE.enabled(x, t) && kind(t) ensures inv(FILE.next(x, t)) {
      StepInv(x, t);
      StepAlone(x, t);
    }
    FILE.KeepsOn(inv, kind, START, steps);
  }

  lemma StepAlone(s: State, step: Step)
    requires Inv(s) && Enabled(s, step) && !IsOther(step)
    requires !Back(s) && (s.exit.Decided? && NamesOwn(s.disk) ==> s.exit.own)
    ensures var s' := Next(s, step);
            !Back(s') && (s'.exit.Decided? && NamesOwn(s'.disk) ==> s'.exit.own)
  {
  }

  /** And only after a rename of this process failed: without one, the temporary file
      does not name this process when the seal is in place. */
  lemma GoodRenamesLeaveNoTmp(steps: seq<Step>)
    requires FILE.IsRun(START, steps)
    requires forall i :: 0 <= i < |steps| ==> !(steps[i].WriterRename? && !steps[i].ok)
    ensures FILE.Final(START, steps).disk.sealed ==> FILE.Final(START, steps).disk.tmp != Some(Own)
  {
    hide Next;
    var inv := (s: State) => Inv(s) && OnlyUnderLock(s);
    var kind := (t: Step) => !(t.WriterRename? && !t.ok);
    assert inv(START);
    forall x, t | inv(x) && FILE.enabled(x, t) && kind(t) ensures inv(FILE.next(x, t)) {
      StepInv(x, t);
      StepOnlyUnderLock(x, t);
    }
    FILE.KeepsOn(inv, kind, START, steps);
  }

  ghost predicate OnlyUnderLock(s: State) {
    s.disk.tmp == Some(Own) ==> s.lock.Some? && At(s, s.lock.value, TmpWritten)
  }

  lemma StepOnlyUnderLock(s: State, step: Step)
    requires Inv(s) && OnlyUnderLock(s) && Enabled(s, step) && !(step.WriterRename? && !step.ok)
    ensures OnlyUnderLock(Next(s, step))
  {
  }

  /** The temporary file is shared: when this process's last rename fails, another
      process's rename can install the file that names this one, after the reap. */
  lemma FailedRenameResurrects() returns (steps: seq<Step>)
    ensures FILE.IsRun(START, steps) && Back(FILE.Final(START, steps))
  {
    steps := [WriterStart(0)];
    FILE.Then(START, [], WriterStart(0));
    assert [] + [WriterStart(0)] == steps;
    var write := WriterAlone(FILE.Final(START, steps), 0, true, false);
    FILE.Concat(START, steps, write);
    steps := steps + write;
    FILE.Then(START, steps, Seal);
    steps := steps + [Seal];
    var rest := ComesBack(FILE.Final(START, steps));
    FILE.Concat(START, steps, rest);
    steps := steps + rest;
  }

  // --- What the reap removes ---------------------------------------------------------------------

  /** The removal about to happen would delete a file of another process. */
  predicate Loses(s: State)
    requires s.exit.Decided?
  {
    s.disk.file.Some? && !NamesOwn(s.disk) && Next(s, ReapRemove).disk.file.None?
  }

  /** In every run the reap deletes another process's file exactly when it had found its
      own and that process put its file in place, and left it there, since. */
  lemma ReapRemovesOwn(steps: seq<Step>)
    requires FILE.IsRun(START, steps) && FILE.Final(START, steps).exit.Decided?
    ensures var s := FILE.Final(START, steps);
            Loses(s) <==> s.exit.own && s.replaced
  {
    RunInv(START, steps);
  }

  /** The check and the removal are two system calls: a file another process puts in
      place in between is removed with it. */
  lemma ReapCanRemoveAnothers() returns (steps: seq<Step>)
    ensures FILE.IsRun(START, steps) && FILE.Final(START, steps).exit.Decided? && Loses(FILE.Final(START, steps))
  {
    steps := [WriterStart(0)];
    FILE.Then(START, [], WriterStart(0));
    assert [] + [WriterStart(0)] == steps;
    var write := WriterAlone(FILE.Final(START, steps), 0, true, true);
    FILE.Concat(START, steps, write);
    steps := steps + write;
    FILE.Then(START, steps, Seal);
    steps := steps + [Seal];
    var rest := InBetween(FILE.Final(START, steps));
    FILE.Concat(START, steps, rest);
    steps := steps + rest;
  }

  lemma InBetween(s: State) returns (rest: seq<Step>)
    requires s.exit == Sealed && NamesOwn(s.disk)
    ensures FILE.IsRun(s, rest) && FILE.Final(s, rest).exit.Decided? && Loses(FILE.Final(s, rest))
  {
    rest := [];
    FILE.Then(s, rest, ReapRead);
    rest := rest + [ReapRead];
    FILE.Then(s, rest, OtherTmp(1));
    rest := rest + [OtherTmp(1)];
    FILE.Then(s, rest, OtherRename);
    rest := rest + [OtherRename];
  }
}
