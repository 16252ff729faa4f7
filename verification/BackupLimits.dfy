/** The size bounds writer and reader of an archive share. */
module BackupLimits {
  import opened Wrappers

  const CONFIG_NAME := "config.toml"
  const TASKS_NAME := "active-tasks.json"
  const MANIFEST_NAME := "manifest.json"

  const MAX_CONTENT: nat := 0x800_0000     // 128 MiB, all members together
  const MAX_CONFIG: nat := 0x40_0000       // 4 MiB
  const MAX_MANIFEST: nat := 0x10_0000     // 1 MiB
  const ARCHIVE_FRAMING: nat := 0x10_0000
  const MAX_MEMBERS: nat := 16
  const MAX_ARCHIVE: nat := MAX_CONTENT + ARCHIVE_FRAMING

  datatype Kind = Manual | Scheduled | PreRestore {
    /** The snapshot taken before a restore captures the files as they are. */
    predicate AsIs() { PreRestore? }
  }

  datatype Member = Member(name: string, data: string)

  function MemberCap(name: string): nat {
    if name == CONFIG_NAME then MAX_CONFIG
    else if name == MANIFEST_NAME then MAX_MANIFEST
    else MAX_CONTENT
  }

  function Cap(uncapped: bool, name: string): nat {
    if uncapped then MAX_CONTENT else MemberCap(name)
  }

  function Min(a: int, b: int): int { if a <= b then a else b }

  class ContentBudget {
    var left: int
    const uncapped: bool

    constructor (uncapped: bool)
      ensures left == MAX_CONTENT && this.uncapped == uncapped
    {
      left, this.uncapped := MAX_CONTENT, uncapped;
    }

    /** The most member name can still take. */
    function Room(name: string): (r: int)
      reads this
      ensures r <= Cap(uncapped, name) && r <= left && (r == Cap(uncapped, name) || r == left)
    {
      Min(Cap(uncapped, name), left)
    }

    method Spend(name: string, n: nat) returns (ok: bool)
      modifies this
      ensures ok <==> n <= Cap(uncapped, name) && n <= old(left)
      ensures left == if ok then old(left) - n else old(left)
    {
      ok := n <= Room(name);
      if ok {
        left := left - n;
      }
    }
  }

  /** What is left after spending the members in order, or None when one of them
      does not fit. */
  function SpendAll(left: nat, uncapped: bool, members: seq<Member>): Option<nat>
    decreases |members|
  {
    if members == [] then Some(left)
    else if |members[0].data| > Min(Cap(uncapped, members[0].name), left) then None
    else SpendAll(left - |members[0].data|, uncapped, members[1..])
  }

  function Total(members: seq<Member>): nat {
    if members == [] then 0 else |members[0].data| + Total(members[1..])
  }

  ghost predicate FitCaps(uncapped: bool, members: seq<Member>) {
    forall m :: m in members ==> |m.data| <= Cap(uncapped, m.name)
  }

  /** Members can be spent one by one exactly when each fits its own cap and
      together they fit the shared bound. */
  lemma {:induction false} SpendAllExact(left: nat, uncapped: bool, members: seq<Member>)
    ensures SpendAll(left, uncapped, members)
         == if FitCaps(uncapped, members) && Total(members) <= left then Some(left - Total(members)) else None
    decreases |members|
  {
    if members != [] {
      var m := members[0];
      assert members == [m] + members[1..];
      if |m.data| <= Min(Cap(uncapped, m.name), left) {
        SpendAllExact(left - |m.data|, uncapped, members[1..]);
      }
    }
  }

  lemma {:induction false} TotalSplit(a: seq<Member>, b: seq<Member>)
    ensures Total(a + b) == Total(a) + Total(b)
    decreases |a|
  {
    if a == [] {
      assert a + b == b;
    } else {
      assert (a + b)[1..] == a[1..] + b;
      TotalSplit(a[1..], b);
    }
  }

  lemma RemoveAt(b: seq<Member>, j: nat)
    requires j < |b|
    ensures multiset(b[..j] + b[j + 1..]) == multiset(b) - multiset{b[j]}
    ensures Total(b) == |b[j].data| + Total(b[..j] + b[j + 1..])
  {
    var x, y := b[..j], b[j + 1..];
    assert b == x + ([b[j]] + y);
    TotalSplit(x, [b[j]] + y);
    TotalSplit(x, y);
    assert ([b[j]] + y)[1..] == y;
  }

  /** Two orders of the same members: the first of one is somewhere in the other. */
  lemma TakeOut(a: seq<Member>, b: seq<Member>) returns (j: nat)
    requires a != [] && multiset(a) == multiset(b)
    ensures j < |b| && b[j] == a[0] && multiset(a[1..]) == multiset(b[..j] + b[j + 1..])
  {
    hide Total;
    assert a[0] in multiset(b) && a[0] in b;
    j :| 0 <= j < |b| && b[j] == a[0];
    RemoveAt(b, j);
    assert multiset(a[1..]) == multiset(a) - multiset{a[0]} by {
      assert a == [a[0]] + a[1..];
    }
  }

  lemma {:induction false} TotalPermuted(a: seq<Member>, b: seq<Member>)
    requires multiset(a) == multiset(b)
    ensures Total(a) == Total(b)
    decreases |a|
  {
    if a == [] {
      assert |multiset(b)| == |b|;
    } else {
      var j := TakeOut(a, b);
      TotalPermuted(a[1..], b[..j] + b[j + 1..]);
      RemoveAt(b, j);
    }
  }

  /** So the order in which writer and reader meet the members does not matter. */
  lemma SpendAnyOrder(left: nat, uncapped: bool, a: seq<Member>, b: seq<Member>)
    requires multiset(a) == multiset(b)
    ensures SpendAll(left, uncapped, a) == SpendAll(left, uncapped, b)
  {
    SpendAllExact(left, uncapped, a);
    SpendAllExact(left, uncapped, b);
    TotalPermuted(a, b);
    assert forall m :: m in a <==> m in multiset(a);
    assert forall m :: m in b <==> m in multiset(b);
  }
}
