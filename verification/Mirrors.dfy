/** The pool of API mirrors and the two loops that fail over across it. */
module Mirrors {

  predicate IsSpace(c: char) { c == ' ' || '\t' <= c <= '\r' }

  function TrimLeft(s: string): string {
    if s != "" && IsSpace(s[0]) then TrimLeft(s[1..]) else s
  }

  function TrimRight(s: string): string {
    if s != "" && IsSpace(s[|s| - 1]) then TrimRight(s[..|s| - 1]) else s
  }

  function TrimSlashes(s: string): string {
    if s != "" && s[|s| - 1] == '/' then TrimSlashes(s[..|s| - 1]) else s
  }

  function Normal(raw: string): string { TrimSlashes(TrimRight(TrimLeft(raw))) }

  predicate IsWhite(c: char) {
    c == ' ' || c == '\t' || c == '\n' || c == '\r' || c == 11 as char || c == 12 as char
  }
  predicate AllWhite(s: string) { forall i :: 0 <= i < |s| ==> IsWhite(s[i]) }
  predicate AllSlashes(s: string) { forall i :: 0 <= i < |s| ==> s[i] == '/' }

  lemma SpaceIsWhite(c: char)
    ensures IsSpace(c) <==> IsWhite(c)
  {
  }

  /** White space off both ends, and nothing else. */
  lemma {:induction false} TrimLeftIs(s: string) returns (before: string)
    ensures s == before + TrimLeft(s) && AllWhite(before)
    ensures TrimLeft(s) != "" ==> !IsWhite(TrimLeft(s)[0])
    decreases |s|
  {
    hide IsSpace, IsWhite;
    before := "";
    if s != "" {
      SpaceIsWhite(s[0]);
      if IsSpace(s[0]) {
        before := TrimLeftIs(s[1..]);
        before := [s[0]] + before;
      }
    }
  }

  lemma {:induction false} TrimRightIs(s: string) returns (after: string)
    ensures s == TrimRight(s) + after && AllWhite(after)
    ensures TrimRight(s) != "" ==> !IsWhite(TrimRight(s)[|TrimRight(s)| - 1])
    decreases |s|
  {
    hide IsSpace, IsWhite;
    after := "";
    if s != "" {
      var n := |s| - 1;
      SpaceIsWhite(s[n]);
      if IsSpace(s[n]) {
        after := TrimRightIs(s[..n]);
        after := after + [s[n]];
      }
    }
  }

  lemma Trimmed(raw: string) returns (before: string, after: string)
    ensures var m := TrimRight(TrimLeft(raw));
            && raw == before + m + after && AllWhite(before) && AllWhite(after)
            && (m != "" ==> !IsWhite(m[0]) && !IsWhite(m[|m| - 1]))
  {
    hide TrimLeft, TrimRight, IsWhite, AllWhite;
    before := TrimLeftIs(raw);
    after := TrimRightIs(TrimLeft(raw));
    var l := TrimLeft(raw);
    var m := TrimRight(l);
    assert l == m + after;
    assert m != "" ==> m[0] == l[0];
  }

  /** An address is what stands between white space, without its trailing slashes. */
  lemma NormalExact(raw: string) returns (before: string, slashes: string, after: string)
    ensures raw == before + (Normal(raw) + slashes) + after
    ensures AllWhite(before) && AllSlashes(slashes) && AllWhite(after)
    ensures var m := Normal(raw) + slashes;
            m != "" ==> !IsWhite(m[0]) && !IsWhite(m[|m| - 1])
    ensures Normal(raw) != "" ==> Normal(raw)[|Normal(raw)| - 1] != '/'
  {
    hide TrimLeft, TrimRight, TrimSlashes, IsWhite, AllWhite;
    before, after := Trimmed(raw);
    var m := TrimRight(TrimLeft(raw));
    NoTrailingSlash(m);
    slashes := m[|TrimSlashes(m)|..];
    assert m == TrimSlashes(m) + slashes;
  }

  /** A path can be appended to an address as it is. */
  lemma {:induction false} NoTrailingSlash(s: string)
    ensures TrimSlashes(s) == "" || TrimSlashes(s)[|TrimSlashes(s)| - 1] != '/'
    ensures TrimSlashes(s) <= s && forall i :: |TrimSlashes(s)| <= i < |s| ==> s[i] == '/'
    decreases |s|
  {
    if s != "" && s[|s| - 1] == '/' {
      NoTrailingSlash(s[..|s| - 1]);
    }
  }

  /** The distinct non-empty addresses, each where it first occurs. */
  function Distinct(raws: seq<string>): seq<string> {
    if raws == [] then []
    else
      var d := Distinct(raws[..|raws| - 1]);
      var m := Normal(raws[|raws| - 1]);
      if m == "" || m in d then d else d + [m]
  }

  ghost predicate NoRepeats(s: seq<string>) {
    forall i, j :: 0 <= i < j < |s| ==> s[i] != s[j]
  }

  /** No address is listed twice. */
  lemma {:induction false} DistinctNoRepeats(raws: seq<string>)
    ensures NoRepeats(Distinct(raws))
    decreases |raws|
  {
    hide Normal;
    if raws != [] {
      DistinctNoRepeats(raws[..|raws| - 1]);
    }
  }

  /** Exactly the usable addresses are listed. */
  lemma {:induction false} DistinctLists(raws: seq<string>, m: string)
    ensures m in Distinct(raws) <==> m != "" && exists i :: 0 <= i < |raws| && Normal(raws[i]) == m
    decreases |raws|
  {
    hide Normal;
    if raws != [] {
      var n := |raws| - 1;
      DistinctLists(raws[..n], m);
      assert forall i :: 0 <= i < n ==> raws[..n][i] == raws[i];
      assert Normal(raws[n]) == m || forall i :: 0 <= i < |raws| && Normal(raws[i]) == m ==> i < n;
    }
  }

  /** What comes first stays first: later addresses only add to the end. */
  lemma {:induction false} DistinctKeepsOrder(a: seq<string>, b: seq<string>)
    ensures Distinct(a) <= Distinct(a + b)
    decreases |b|
  {
    hide Normal;
    if b == [] {
      assert a + b == a;
    } else {
      var n := |a + b| - 1;
      assert (a + b)[..n] == a + b[..|b| - 1];
      DistinctKeepsOrder(a, b[..|b| - 1]);
    }
  }

  // --- The pool ---------------------------------------------------------------------------------

  /** The cursor offset steps on from start, wrapping around after n. */
  function Cursor(start: nat, offset: nat, n: nat): (c: nat)
    requires start < n && offset < n
    ensures c < n
  {
    if start + offset < n then start + offset else start + offset - n
  }

  lemma WrapNext(c: nat, n: nat)
    requires c < n
    ensures (c + 1) % n == if c + 1 == n then 0 else c + 1
  {
    if c + 1 < n {
      SmallMod(c + 1, n);
    }
  }

  lemma SmallMod(x: nat, n: nat)
    requires x < n
    ensures x % n == x
  {
  }

  class MirrorPool {
    var mirrors: seq<string>
    var current: nat

    ghost predicate Valid()
      reads this
    {
      current < |mirrors| && NoRepeats(mirrors)
    }

    constructor (primary: string, extras: seq<string>)
      ensures Valid() && current == 0
      ensures mirrors == if Distinct([primary] + extras) == [] then [""] else Distinct([primary] + extras)
    {
      new;
      Fill([primary] + extras);
    }

    /** The de-duplicating loop of NewMirrorPool. */
    method Fill(raws: seq<string>)
      modifies this
      ensures Valid() && current == 0
      ensures mirrors == if Distinct(raws) == [] then [""] else Distinct(raws)
    {
      var seen: set<string> := {};
      var out: seq<string> := [];
      for i := 0 to |raws|
        invariant out == Distinct(raws[..i]) && seen == set m | m in out
      {
        assert raws[..i + 1][..i] == raws[..i];
        var m := Normal(raws[i]);
        if m == "" || m in seen {
          continue;
        }
        seen := seen + {m};
        out := out + [m];
      }
      assert raws[..|raws|] == raws;
      DistinctNoRepeats(raws);
      mirrors, current := if out == [] then [""] else out, 0;
    }

    method Replace(primary: string, extras: seq<string>)
      modifies this
      ensures Valid() && current == 0
      ensures mirrors == if Distinct([primary] + extras) == [] then [""] else Distinct([primary] + extras)
    {
      Fill([primary] + extras);
    }

    method Rotate() returns (active: string, rotated: bool)
      requires Valid()
      modifies this`current
      ensures Valid()
      ensures rotated <==> |mirrors| > 1
      ensures current == if old(current) + 1 < |mirrors| then old(current) + 1 else 0
      ensures active == mirrors[current]
    {
      if |mirrors| <= 1 {
        return mirrors[current], false;
      }
      WrapNext(current, |mirrors|);
      current := (current + 1) % |mirrors|;
      active, rotated := mirrors[current], true;
    }
  }

  // --- Failing over --------------------------------------------------------------------------

  /** How one attempt went: Final is a success or a failure no mirror would mend. */
  datatype Attempt = Final | Transient

  /** How many mirrors are tried: up to the first final answer, at most n. */
  function Tried(outcome: nat -> Attempt, i: nat, n: nat): (k: nat)
    requires i < n
    ensures i < k <= n
    decreases n - i
  {
    if outcome(i).Final? || i + 1 == n then i + 1 else Tried(outcome, i + 1, n)
  }

  /** Every mirror is tried exactly when all before the last fail for a transient
      reason; the round ends at the first answer that is final. */
  lemma {:induction false} TriedUntilFinal(outcome: nat -> Attempt, i: nat, n: nat)
    requires i < n
    ensures forall j :: i <= j < Tried(outcome, i, n) - 1 ==> outcome(j).Transient?
    ensures Tried(outcome, i, n) < n ==> outcome(Tried(outcome, i, n) - 1).Final?
    ensures Tried(outcome, i, n) == n <==> forall j :: i <= j < n - 1 ==> outcome(j).Transient?
    decreases n - i
  {
    if outcome(i).Transient? && i + 1 < n {
      TriedUntilFinal(outcome, i + 1, n);
    }
  }

  /** The first k mirrors from the cursor on, in order. */
  function Round(mirrors: seq<string>, start: nat, k: nat): (r: seq<string>)
    requires start < |mirrors| && k <= |mirrors|
    ensures |r| == k
  {
    if k == 0 then [] else Round(mirrors, start, k - 1) + [mirrors[Cursor(start, k - 1, |mirrors|)]]
  }

  lemma RoundNext(mirrors: seq<string>, start: nat, k: nat)
    requires start < |mirrors| && k < |mirrors|
    ensures Round(mirrors, start, 0) == []
    ensures Round(mirrors, start, k + 1) == Round(mirrors, start, k) + [mirrors[Cursor(start, k, |mirrors|)]]
  {
  }

  /** Going on after a transient failure moves the cursor one further and ends as before. */
  lemma TriedNext(outcome: nat -> Attempt, start: nat, i: nat, n: nat, size: nat)
    requires i < n <= size && start < size
    ensures outcome(i).Final? || i + 1 == n ==> Tried(outcome, i, n) == i + 1
    ensures outcome(i).Transient? && i + 1 < n ==> Tried(outcome, i, n) == Tried(outcome, i + 1, n)
    ensures i + 1 < size ==> var c := Cursor(start, i, size);
                             Cursor(start, i + 1, size) == if c + 1 < size then c + 1 else 0
    ensures Cursor(start, 0, size) == start
  {
  }

  lemma {:induction false} RoundAt(mirrors: seq<string>, start: nat, k: nat, i: nat)
    requires start < |mirrors| && i < k <= |mirrors|
    ensures Round(mirrors, start, k)[i] == mirrors[Cursor(start, i, |mirrors|)]
    decreases k
  {
    if i < k - 1 {
      RoundAt(mirrors, start, k - 1, i);
    }
  }

  /** No round visits a mirror twice, and a full one visits them all. */
  lemma RoundIsDistinct(mirrors: seq<string>, start: nat, k: nat)
    requires NoRepeats(mirrors) && start < |mirrors| && k <= |mirrors|
    ensures NoRepeats(Round(mirrors, start, k))
    ensures k == |mirrors| ==> forall m :: m in mirrors ==> m in Round(mirrors, start, k)
  {
    var r := Round(mirrors, start, k);
    forall i, j | 0 <= i < j < k ensures r[i] != r[j] {
      RoundAt(mirrors, start, k, i);
      RoundAt(mirrors, start, k, j);
    }
    if k == |mirrors| {
      forall m | m in mirrors ensures m in r {
        var p :| 0 <= p < |mirrors| && mirrors[p] == m;
        var offset := if p >= start then p - start else p - start + |mirrors|;
        RoundAt(mirrors, start, k, offset);
      }
    }
  }

  /** withMirrorFailover: visits the mirrors in turn until one answers, and leaves the
      cursor on the last one tried. */
  method WithMirrorFailover(pool: MirrorPool, outcome: nat -> Attempt) returns (visited: seq<string>, last: Attempt)
    requires pool.Valid()
    modifies pool`current
    ensures pool.Valid()
    ensures visited == Round(pool.mirrors, old(pool.current), Tried(outcome, 0, |pool.mirrors|))
    ensures pool.current == Cursor(old(pool.current), |visited| - 1, |pool.mirrors|)
    ensures last == outcome(|visited| - 1)
    ensures last.Transient? ==> |visited| == |pool.mirrors|
  {
    hide NoRepeats, Round, Tried, Cursor;
    var attempts := |pool.mirrors|;
    visited := [];
    ghost var start := pool.current;
    RoundNext(pool.mirrors, start, 0);
    TriedNext(outcome, start, 0, attempts, attempts);
    var i := 0;
    while true
      invariant pool.Valid() && i < attempts && pool.current == Cursor(start, i, attempts)
      invariant Tried(outcome, 0, attempts) == Tried(outcome, i, attempts)
      invariant visited == Round(pool.mirrors, start, i)
      decreases attempts - i
    {
      RoundNext(pool.mirrors, start, i);
      TriedNext(outcome, start, i, attempts, attempts);
      visited := visited + [pool.mirrors[pool.current]];
      last := outcome(i);
      if last.Final? || i == attempts - 1 {
        TriedUntilFinal(outcome, 0, attempts);
        return;
      }
      var _, rotated := pool.Rotate();
      i := i + 1;
    }
  }

  datatype Sent = Answered(last: Attempt) | BodyLost

  /** RoundTrip: the same, for a request that may only be sent once if its body cannot
      be replayed, and that gives up before a send when its body cannot be rebuilt:
      only then is the cursor left on a mirror that was not tried. */
  method RoundTrip(pool: MirrorPool, hasBody: bool, hasGetBody: bool, bodyFails: nat -> bool, outcome: nat -> Attempt)
      returns (visited: seq<string>, r: Sent)
    requires pool.Valid()
    modifies pool`current
    ensures pool.Valid()
    ensures var k := Tried(outcome, 0, if hasBody && !hasGetBody then 1 else |pool.mirrors|);
            && |visited| <= k && visited == Round(pool.mirrors, old(pool.current), |visited|)
            && (r.Answered? ==> |visited| == k && r.last == outcome(k - 1)
                                && pool.current == Cursor(old(pool.current), k - 1, |pool.mirrors|))
            && (r.BodyLost? ==> |visited| < k && hasGetBody && bodyFails(|visited|)
                                && (forall i: nat :: i < |visited| ==> !bodyFails(i))
                                && pool.current == Cursor(old(pool.current), |visited|, |pool.mirrors|))
            && (r.BodyLost? <==> hasGetBody && exists i: nat :: i < k && bodyFails(i))
  {
    hide NoRepeats, Round, Tried, Cursor;
    var attempts := 1;
    if !hasBody || hasGetBody {
      attempts := |pool.mirrors|;
    }
    visited := [];
    ghost var start, n := pool.current, |pool.mirrors|;
    RoundNext(pool.mirrors, start, 0);
    TriedNext(outcome, start, 0, attempts, n);
    var i := 0;
    while true
      invariant pool.Valid() && i < attempts <= n && pool.current == Cursor(start, i, n)
      invariant Tried(outcome, 0, attempts) == Tried(outcome, i, attempts)
      invariant visited == Round(pool.mirrors, start, i)
      invariant hasGetBody ==> forall j: nat :: j < i ==> !bodyFails(j)
      decreases attempts - i
    {
      if hasGetBody && bodyFails(i) {
        return visited, BodyLost;
      }
      RoundNext(pool.mirrors, start, i);
      TriedNext(outcome, start, i, attempts, n);
      visited := visited + [pool.mirrors[pool.current]];
      if outcome(i).Final? || i == attempts - 1 {
        return visited, Answered(outcome(i));
      }
      var _, rotated := pool.Rotate();
      i := i + 1;
    }
  }

  /** The cursor can be left on a mirror nobody tried: with two mirrors, the first down and
      the body lost before the second send, the next request starts at the second. */
  method LostBodyMovesOn() returns (pool: MirrorPool, visited: seq<string>, r: Sent)
    ensures pool.Valid() && pool.mirrors == ["a", "b"]
    ensures r == BodyLost && visited == ["a"] && pool.current == 1
  {
    hide NoRepeats;
    pool := new MirrorPool("a", ["b"]);
    TwoMirrors();
    var lost, down := (i: nat) => i == 1, (i: nat) => Transient;
    TriedUntilFinal(down, 0, 2);
    assert lost(1);
    visited, r := RoundTrip(pool, true, true, lost, down);
    assert Round(pool.mirrors, 0, 1) == Round(pool.mirrors, 0, 0) + ["a"];
  }

  lemma TwoMirrors()
    ensures Distinct(["a"] + ["b"]) == ["a", "b"]
  {
    assert (["a"] + ["b"])[..1] == ["a"] && ["a"][..0] == [];
    assert Normal("a") == "a" && Normal("b") == "b";
    assert Distinct(["a"]) == ["a"];
  }
}
