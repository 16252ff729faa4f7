/** The bookkeeping the sync loop keeps twice, for file deletions and for subtitle
    fetches: ids handed to a worker, and results waiting for the next request. */
module SyncInFlight {
  import opened Runs

  datatype Queue = Queue(inFlight: set<int>, done: seq<int>, failed: seq<int>)

  /** The requested ids that are not in flight yet, each once. */
  function NewItems(inFlight: set<int>, items: seq<int>): seq<int>
    decreases |items|
  {
    if items == [] then []
    else if items[0] in inFlight then NewItems(inFlight, items[1..])
    else [items[0]] + NewItems(inFlight + {items[0]}, items[1..])
  }

  function Elements(s: seq<int>): set<int> { set x | x in s }

  function Accept(q: Queue, items: seq<int>): Queue {
    q.(inFlight := q.inFlight + Elements(NewItems(q.inFlight, items)))
  }

  function Report(q: Queue, done: seq<int>, failed: seq<int>): Queue {
    q.(done := q.done + done, failed := q.failed + failed)
  }

  function Flush(q: Queue): Queue {
    Queue(q.inFlight - Elements(q.done) - Elements(q.failed), [], [])
  }

  lemma {:induction false} NewItemsAreNew(inFlight: set<int>, items: seq<int>, id: int)
    ensures multiset(NewItems(inFlight, items))[id] == if id in items && id !in inFlight then 1 else 0
    decreases |items|
  {
    if items != [] {
      assert items == [items[0]] + items[1..];
      if items[0] in inFlight {
        NewItemsAreNew(inFlight, items[1..], id);
      } else {
        NewItemsAreNew(inFlight + {items[0]}, items[1..], id);
        var rest := NewItems(inFlight + {items[0]}, items[1..]);
        assert multiset([items[0]] + rest)[id] == multiset(rest)[id] + if id == items[0] then 1 else 0;
      }
    }
  }

  class InFlight {
    var inFlight: set<int>
    var done: seq<int>
    var failed: seq<int>

    ghost function View(): Queue
      reads this
    {
      Queue(inFlight, done, failed)
    }

    constructor ()
      ensures View() == Queue({}, [], [])
    {
      inFlight, done, failed := {}, [], [];
    }

    /** processResponse's locked section: drops what is already in flight. */
    method AcceptNew(items: seq<int>) returns (newItems: seq<int>)
      modifies this`inFlight
      ensures newItems == NewItems(old(inFlight), items)
      ensures View() == Accept(old(View()), items)
    {
      newItems := [];
      for i := 0 to |items|
        invariant NewItems(old(inFlight), items) == newItems + NewItems(inFlight, items[i..])
        invariant inFlight == old(inFlight) + Elements(newItems)
        invariant done == old(done) && failed == old(failed)
      {
        assert items[i..][1..] == items[i + 1..];
        if items[i] !in inFlight {
          newItems := newItems + [items[i]];
          inFlight := inFlight + {items[i]};
        }
      }
    }

    /** The worker's locked section. */
    method AddResults(confirmed: seq<int>, failures: seq<int>)
      modifies this`done, this`failed
      ensures View() == Report(old(View()), confirmed, failures)
    {
      done := done + confirmed;
      failed := failed + failures;
    }

    /** buildRequest's locked section: every pending result goes into this request and
        stops being in flight. */
    method FlushInto() returns (confirmed: seq<int>, failures: seq<int>)
      modifies this
      ensures View() == Flush(old(View()))
      ensures confirmed == old(done) && failures == old(failed)
    {
      confirmed, failures := done, failed;
      for i := 0 to |done|
        invariant done == old(done) && failed == old(failed)
        invariant inFlight == old(inFlight) - Elements(done[..i])
      {
        assert done[..i + 1] == done[..i] + [done[i]];
        inFlight := inFlight - {done[i]};
      }
      assert done[..|done|] == done;
      done := [];
      for i := 0 to |failed|
        invariant done == [] && failed == old(failed)
        invariant inFlight == old(inFlight) - Elements(old(done)) - Elements(failed[..i])
      {
        assert failed[..i + 1] == failed[..i] + [failed[i]];
        inFlight := inFlight - {failed[i]};
      }
      assert failed[..|failed|] == failed;
      failed := [];
    }
  }

  // --- Every run ------------------------------------------------------------------------------

  /** running holds the batches workers are busy with; handed and sent count how often
      each id went to the handler and into a built request. */
  datatype State = State(q: Queue, running: seq<seq<int>>, handed: multiset<int>, sent: multiset<int>)

  datatype Step =
    | Response(items: seq<int>)
    | WorkerDone(w: nat, done: seq<int>, failed: seq<int>)
    | BuildRequest

  const IDLE := State(Queue({}, [], []), [], multiset{}, multiset{})

  /** A handler reports each item it was given once, as deleted or as failed. */
  predicate Enabled(s: State, step: Step) {
    step.WorkerDone? ==>
      && step.w < |s.running|
      && multiset(step.done) + multiset(step.failed) == multiset(s.running[step.w])
  }

  function Next(s: State, step: Step): State
    requires Enabled(s, step)
  {
    match step
    case Response(items) =>
      var batch := NewItems(s.q.inFlight, items);
      if batch == [] then s
      else s.(q := Accept(s.q, items), running := s.running + [batch], handed := s.handed + multiset(batch))
    case WorkerDone(w, done, failed) =>
      s.(q := Report(s.q, done, failed), running := s.running[..w] + s.running[w + 1..])
    case BuildRequest =>
      s.(q := Flush(s.q), sent := s.sent + multiset(s.q.done) + multiset(s.q.failed))
  }

  const SYNC := System(Enabled, (s: State, t: Step) => if Enabled(s, t) then Next(s, t) else s)

  function InBatches(batches: seq<seq<int>>, id: int): nat {
    if batches == [] then 0 else multiset(batches[0])[id] + InBatches(batches[1..], id)
  }

  lemma {:induction false} BatchesSplit(a: seq<seq<int>>, b: seq<seq<int>>, id: int)
    ensures InBatches(a + b, id) == InBatches(a, id) + InBatches(b, id)
    decreases |a|
  {
    if a == [] {
      assert a + b == b;
    } else {
      assert (a + b)[1..] == a[1..] + b;
      BatchesSplit(a[1..], b, id);
    }
  }

  function Waiting(s: State, id: int): nat { multiset(s.q.done)[id] + multiset(s.q.failed)[id] }

  /** An id in flight is in exactly one place, running or waiting to be confirmed or
      waiting to be reported failed, and once; any other id is nowhere. Each time it was
      handed out it was sent, or still is in flight. */
  ghost predicate Conserved(s: State, id: int) {
    && InBatches(s.running, id) + Waiting(s, id) == (if id in s.q.inFlight then 1 else 0)
    && s.handed[id] == s.sent[id] + if id in s.q.inFlight then 1 else 0
  }

  lemma ResponseConserves(s: State, items: seq<int>, id: int)
    requires Conserved(s, id)
    ensures Conserved(Next(s, Response(items)), id)
  {
    hide NewItems;
    NewItemsAreNew(s.q.inFlight, items, id);
    var batch := NewItems(s.q.inFlight, items);
    BatchesSplit(s.running, [batch], id);
    assert [batch][1..] == [];
    assert InBatches([batch], id) == multiset(batch)[id];
    assert id in batch <==> multiset(batch)[id] > 0;
  }

  lemma WorkerConserves(s: State, w: nat, done: seq<int>, failed: seq<int>, id: int)
    requires Conserved(s, id) && Enabled(s, WorkerDone(w, done, failed))
    ensures Conserved(Next(s, WorkerDone(w, done, failed)), id)
  {
    var a, b := s.running[..w], s.running[w + 1..];
    assert s.running == a + ([s.running[w]] + b);
    BatchesSplit(a, [s.running[w]] + b, id);
    BatchesSplit(a, b, id);
    assert ([s.running[w]] + b)[1..] == b;
    assert multiset(s.running[w])[id] == multiset(done)[id] + multiset(failed)[id];
    assert multiset(s.q.done + done)[id] == multiset(s.q.done)[id] + multiset(done)[id];
    assert multiset(s.q.failed + failed)[id] == multiset(s.q.failed)[id] + multiset(failed)[id];
  }

  lemma BuildConserves(s: State, id: int)
    requires Conserved(s, id)
    ensures Conserved(Next(s, BuildRequest), id)
  {
    assert id in s.q.done <==> multiset(s.q.done)[id] > 0;
    assert id in s.q.failed <==> multiset(s.q.failed)[id] > 0;
  }

  lemma StepConserves(s: State, step: Step, id: int)
    requires Conserved(s, id) && Enabled(s, step)
    ensures Conserved(Next(s, step), id)
  {
    hide Next, Conserved;
    match step
    case Response(items) => ResponseConserves(s, items, id);
    case WorkerDone(w, done, failed) => WorkerConserves(s, w, done, failed, id);
    case BuildRequest => BuildConserves(s, id);
  }

  lemma RunConserves(s: State, steps: seq<Step>, id: int)
    requires Conserved(s, id) && SYNC.IsRun(s, steps)
    ensures Conserved(SYNC.Final(s, steps), id)
  {
    hide Next, Conserved;
    var inv := (x: State) => Conserved(x, id);
    forall x, t | inv(x) && SYNC.enabled(x, t) ensures inv(SYNC.next(x, t)) {
      StepConserves(x, t, id);
    }
    SYNC.Keeps(inv, s, steps);
  }

  /** In every reachable state the work in flight is conserved, and no id has been
      handed out more than once beyond the requests it was sent in. */
  lemma NothingLostOrDoubled(steps: seq<Step>, id: int)
    requires SYNC.IsRun(IDLE, steps)
    ensures var s := SYNC.Final(IDLE, steps);
            && Conserved(s, id)
            && s.sent[id] <= s.handed[id] <= s.sent[id] + 1
            && (s.handed[id] > s.sent[id] <==> id in s.q.inFlight)
  {
    assert Conserved(IDLE, id);
    RunConserves(IDLE, steps, id);
  }

  /** A response never hands out an id that is in flight, and hands out every other id
      it names, once. */
  lemma HandedOnceWhileInFlight(steps: seq<Step>, items: seq<int>, id: int)
    requires SYNC.IsRun(IDLE, steps)
    ensures var s := SYNC.Final(IDLE, steps);
            Next(s, Response(items)).handed[id] - s.handed[id]
            == if id in items && s.handed[id] == s.sent[id] then 1 else 0
  {
    var s := SYNC.Final(IDLE, steps);
    NothingLostOrDoubled(steps, id);
    NewItemsAreNew(s.q.inFlight, items, id);
  }

  /** Once every worker has reported, the next request empties the books: each id was
      sent exactly as often as it was handed out, and can be asked for again. */
  lemma NextRequestSettles(steps: seq<Step>, id: int)
    requires SYNC.IsRun(IDLE, steps) && SYNC.Final(IDLE, steps).running == []
    ensures var s := Next(SYNC.Final(IDLE, steps), BuildRequest);
            s.q == Queue({}, [], []) && s.sent[id] == s.handed[id]
  {
    var s := SYNC.Final(IDLE, steps);
    var s' := Next(s, BuildRequest);
    forall x ensures x !in s'.q.inFlight {
      NothingLostOrDoubled(steps, x);
      assert x in s.q.done <==> multiset(s.q.done)[x] > 0;
      assert x in s.q.failed <==> multiset(s.q.failed)[x] > 0;
    }
    NothingLostOrDoubled(steps, id);
    BuildConserves(s, id);
  }
}
