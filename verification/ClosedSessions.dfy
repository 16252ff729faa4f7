/** The bounded memory of the session ids the web has closed: a set with its
    insertion order, oldest first. */
module RecentlyClosed {

  datatype Memory = Memory(max: nat, members: set<string>, order: seq<string>)

  ghost predicate Distinct(s: seq<string>) {
    forall i, j :: 0 <= i < j < |s| ==> s[i] != s[j]
  }

  /** The set is exactly the order list, which has no duplicates and never
      outgrows the bound. A bound of zero would index an empty list. */
  ghost predicate Valid(m: Memory) {
    && m.max >= 1
    && Distinct(m.order)
    && |m.order| <= m.max
    && (forall id :: id in m.members <==> id in m.order)
  }

  function Empty(max: nat): Memory {
    Memory(max, {}, [])
  }

  /** The memory after the oldest id is dropped to make room, when it is full. */
  function Evicted(m: Memory): Memory {
    if |m.order| >= m.max && |m.order| > 0
    then Memory(m.max, m.members - {m.order[0]}, m.order[1..])
    else m
  }

  function Marked(m: Memory, id: string): Memory {
    if id in m.members then m
    else
      var e := Evicted(m);
      Memory(e.max, e.members + {id}, e.order + [id])
  }

  lemma EvictedValid(m: Memory)
    requires Valid(m)
    ensures Valid(Evicted(m)) && |Evicted(m).order| < m.max
    ensures Evicted(m).members <= m.members
  {
    var e := Evicted(m);
    if |m.order| >= m.max {
      assert m.order == [m.order[0]] + e.order;
      assert forall id :: id in m.order <==> id == m.order[0] || id in e.order;
    }
  }

  lemma MarkedValid(m: Memory, id: string)
    requires Valid(m)
    ensures Valid(Marked(m, id)) && id in Marked(m, id).members
    ensures Marked(m, id).members <= m.members + {id}
    ensures Marked(m, id).max == m.max
  {
    EvictedValid(m);
    var e := Evicted(m);
    assert forall x :: x in e.order + [id] <==> x in e.order || x == id;
  }

  function MarkAll(m: Memory, ids: seq<string>): Memory
    decreases |ids|
  {
    if ids == [] then m else MarkAll(Marked(m, ids[0]), ids[1..])
  }

  /** How many of the marks insert an id that was not remembered at that point. */
  function NewMarks(m: Memory, ids: seq<string>): nat
    decreases |ids|
  {
    if ids == [] then 0
    else (if ids[0] in m.members then 0 else 1) + NewMarks(Marked(m, ids[0]), ids[1..])
  }

  /** The id at position i outlives exactly the insertions that fit before its
      turn to be evicted, whatever ids the marks name. */
  lemma {:induction false} KeptByPosition(m: Memory, i: nat, ids: seq<string>)
    requires Valid(m) && i < |m.order| && m.order[i] !in ids
    ensures m.order[i] in MarkAll(m, ids).members <==> NewMarks(m, ids) <= m.max - |m.order| + i
    decreases |ids|
  {
    var id := m.order[i];
    if ids == [] {
    } else {
      var n := Marked(m, ids[0]);
      MarkedValid(m, ids[0]);
      if ids[0] in m.members {
        KeptByPosition(m, i, ids[1..]);
      } else if |m.order| < m.max {
        assert n.order == m.order + [ids[0]];
        assert n.order[i] == id;
        KeptByPosition(n, i, ids[1..]);
      } else if i > 0 {
        assert n.order[i - 1] == id;
        KeptByPosition(n, i - 1, ids[1..]);
      } else {
        assert id !in n.members;
        StaysForgotten(n, id, ids[1..]);
      }
    }
  }

  lemma {:induction false} StaysForgotten(m: Memory, id: string, ids: seq<string>)
    requires Valid(m) && id !in m.members && id !in ids
    ensures id !in MarkAll(m, ids).members
    decreases |ids|
  {
    if ids != [] {
      MarkedValid(m, ids[0]);
      StaysForgotten(Marked(m, ids[0]), id, ids[1..]);
    }
  }

  /** A newly marked id is remembered until exactly max further new ids are marked. */
  lemma KeptUntilMaxNewIds(m: Memory, id: string, ids: seq<string>)
    requires Valid(m) && id !in m.members && id !in ids
    ensures var n := Marked(m, id);
            id in MarkAll(n, ids).members <==> NewMarks(n, ids) < m.max
  {
    MarkedValid(m, id);
    var n := Marked(m, id);
    KeptByPosition(n, |n.order| - 1, ids);
  }

  class RecentlyClosedSessions {
    const max: nat
    var members: set<string>
    var order: seq<string>

    ghost function View(): Memory
      reads this
    {
      Memory(max, members, order)
    }

    ghost predicate IsValid()
      reads this
    {
      Valid(View())
    }

    /** A memory with no room is made like any other, but cannot take a mark. */
    constructor (maxIds: nat)
      ensures View() == Empty(maxIds) && (IsValid() <==> maxIds >= 1)
    {
      max, members, order := maxIds, {}, [];
    }

    method Mark(id: string) returns (isNew: bool)
      requires IsValid()
      modifies this
      ensures IsValid() && View() == Marked(old(View()), id)
      ensures isNew <==> id !in old(members)
    {
      MarkedValid(View(), id);
      if id in members {
        return false;
      }
      if |order| >= max {
        members := members - {order[0]};
        order := order[1..];
      }
      members := members + {id};
      order := order + [id];
      return true;
    }

    method Contains(id: string) returns (known: bool)
      requires IsValid() || View() == Empty(max)
      ensures known <==> id in order
    {
      known := id in members;
    }
  }
}

/** The registry of per-session cancels, and the two code paths that race for
    them: the web's close and a session start's own re-check. */
module SessionRegistry {
  import opened RecentlyClosed

  /** A start path registers at most two cancels for its id: one that aborts the
      probe, then the one that tears the served session down. */
  datatype Cancel = Probe(id: string) | Serve(id: string)

  function With(cancels: map<string, Cancel>, id: string, cancel: Cancel): map<string, Cancel> {
    cancels[id := cancel]
  }

  function Without(cancels: map<string, Cancel>, id: string): map<string, Cancel> {
    cancels - {id}
  }

  class PlayerSessionRegistry {
    var cancels: map<string, Cancel>

    constructor ()
      ensures cancels == map[]
    {
      cancels := map[];
    }

    method Add(id: string, cancel: Cancel)
      modifies this
      ensures cancels == With(old(cancels), id, cancel)
    {
      cancels := cancels[id := cancel];
    }

    method Remove(id: string)
      modifies this
      ensures cancels == Without(old(cancels), id)
    {
      cancels := cancels - {id};
    }

    method TakeForClose(id: string) returns (cancel: Cancel, found: bool)
      modifies this
      ensures found <==> id in old(cancels)
      ensures found ==> cancel == old(cancels)[id]
      ensures cancels == Without(old(cancels), id)
    {
      if id !in cancels {
        return Probe(id), false;
      }
      cancel, found := cancels[id], true;
      cancels := cancels - {id};
    }
  }

  function NonEmpty(ids: seq<string>): (r: seq<string>)
    ensures forall id :: id in r <==> id in ids && id != ""
  {
    if ids == [] then []
    else if ids[0] == "" then NonEmpty(ids[1..])
    else [ids[0]] + NonEmpty(ids[1..])
  }

  lemma {:induction false} MarkAllAppend(m: Memory, ids: seq<string>, id: string)
    ensures MarkAll(m, ids + [id]) == Marked(MarkAll(m, ids), id)
    decreases |ids|
  {
    if ids == [] {
      assert ([] + [id])[1..] == [];
    } else {
      assert (ids + [id])[1..] == ids[1..] + [id];
      MarkAllAppend(Marked(m, ids[0]), ids[1..], id);
    }
  }

  lemma {:induction false} NonEmptyAppend(ids: seq<string>, id: string)
    ensures NonEmpty(ids + [id]) == NonEmpty(ids) + (if id == "" then [] else [id])
    decreases |ids|
  {
    if ids == [] {
      assert [] + [id] == [id];
      assert NonEmpty([id][1..]) == [];
    } else {
      assert (ids + [id])[1..] == ids[1..] + [id];
      NonEmptyAppend(ids[1..], id);
    }
  }

  /** Each entry is a cancel of the session it is registered under. */
  ghost predicate OwnEntries(cancels: map<string, Cancel>) {
    forall id :: id in cancels ==> cancels[id].id == id
  }

  /** How often closing ids must run cancel c: once when it is registered under
      one of them, otherwise never. */
  function Owed(cancels: map<string, Cancel>, ids: seq<string>, c: Cancel): nat {
    if c.id in ids && c.id in cancels && cancels[c.id] == c then 1 else 0
  }

  /** The entries left once the sessions ids are taken. */
  function Remaining(cancels: map<string, Cancel>, ids: seq<string>): map<string, Cancel> {
    cancels - (set id | id in ids)
  }

  lemma RemainingNext(cancels: map<string, Cancel>, ids: seq<string>, id: string)
    ensures Remaining(cancels, ids + [id]) == Without(Remaining(cancels, ids), id)
    ensures id in Remaining(cancels, ids) <==> id in cancels && id !in ids
    ensures id in Remaining(cancels, ids) ==> Remaining(cancels, ids)[id] == cancels[id]
    ensures OwnEntries(cancels) && id in cancels ==> cancels[id].id == id
  {
    assert (set x | x in ids + [id]) == (set x | x in ids) + {id};
  }

  lemma NothingHandled(m: Memory, cancels: map<string, Cancel>)
    ensures NonEmpty([]) == [] && MarkAll(m, []) == m && Remaining(cancels, []) == cancels
    ensures RanOnce(cancels, [], [])
  {
  }

  /** ran is every cancel registered under one of ids, each once, in some order. */
  ghost predicate RanOnce(cancels: map<string, Cancel>, ids: seq<string>, ran: seq<Cancel>) {
    forall c :: multiset(ran)[c] == Owed(cancels, ids, c)
  }

  lemma RanOnceNext(cancels: map<string, Cancel>, handled: seq<string>, id: string, ran: seq<Cancel>)
    requires OwnEntries(cancels) && RanOnce(cancels, handled, ran)
    ensures RanOnce(cancels, handled + [id], if id in cancels && id !in handled then ran + [cancels[id]] else ran)
  {
    if id in cancels {
      assert forall c :: multiset(ran + [cancels[id]])[c] == multiset(ran)[c] + if c == cancels[id] then 1 else 0;
    }
  }

  /** What a teardown does: the HLS session is closed before the cancel runs. */
  datatype Action = CloseHls(id: string) | Run(c: Cancel)

  function Teardowns(ran: seq<Cancel>): seq<Action> {
    if ran == [] then []
    else Teardowns(ran[..|ran| - 1]) + [CloseHls(ran[|ran| - 1].id), Run(ran[|ran| - 1])]
  }

  /** closeByWeb with each teardown run inline: every id is remembered, every
      registered one is torn down once however often it is repeated, and nothing
      else leaves the registry. */
  method CloseByWeb(registry: PlayerSessionRegistry, closed: RecentlyClosedSessions, ids: seq<string>)
      returns (n: nat, ran: seq<Cancel>, done: seq<Action>)
    requires closed.IsValid() && OwnEntries(registry.cancels)
    modifies registry, closed
    ensures closed.IsValid() && closed.View() == MarkAll(old(closed.View()), NonEmpty(ids))
    ensures registry.cancels == Remaining(old(registry.cancels), NonEmpty(ids))
    ensures n == |ran| && done == Teardowns(ran)
    ensures RanOnce(old(registry.cancels), NonEmpty(ids), ran)
  {
    hide NonEmpty, MarkAll, RanOnce, Remaining, Marked, Valid;
    n, ran, done := 0, [], [];
    ghost var before := registry.cancels;
    NothingHandled(closed.View(), before);
    for i := 0 to |ids|
      invariant closed.IsValid()
      invariant closed.View() == MarkAll(old(closed.View()), NonEmpty(ids[..i]))
      invariant registry.cancels == Remaining(before, NonEmpty(ids[..i]))
      invariant n == |ran| && done == Teardowns(ran)
      invariant RanOnce(before, NonEmpty(ids[..i]), ran)
    {
      assert ids[..i + 1] == ids[..i] + [ids[i]];
      NonEmptyAppend(ids[..i], ids[i]);
      if ids[i] == "" {
        assert NonEmpty(ids[..i + 1]) == NonEmpty(ids[..i]);
        continue;
      }
      MarkAllAppend(old(closed.View()), NonEmpty(ids[..i]), ids[i]);
      RanOnceNext(before, NonEmpty(ids[..i]), ids[i], ran);
      RemainingNext(before, NonEmpty(ids[..i]), ids[i]);
      var _ := closed.Mark(ids[i]);
      var cancel, registered := registry.TakeForClose(ids[i]);
      if !registered {
        continue;
      }
      n := n + 1;
      assert (ran + [cancel])[..|ran|] == ran;
      ran := ran + [cancel];
      done := done + [CloseHls(ids[i]), Run(cancel)];
    }
    assert ids[..|ids|] == ids;
  }

  /** registerServed on its own: registers the served cancel, then tears the session
      down at once if the web has already closed it. */
  method RegisterServed(registry: PlayerSessionRegistry, closed: RecentlyClosedSessions, id: string, cancel: Cancel)
      returns (live: bool, ran: seq<Cancel>)
    requires closed.IsValid()
    modifies registry
    ensures live <==> id !in closed.order
    ensures registry.cancels ==
            if live then With(old(registry.cancels), id, cancel) else Without(old(registry.cancels), id)
    ensures ran == if live then [] else [cancel]
  {
    registry.Add(id, cancel);
    ran := [];
    var known := closed.Contains(id);
    if !known {
      return true, ran;
    }
    var c, found := registry.TakeForClose(id);
    if found {
      ran := [c];
    }
    live := false;
  }
}
