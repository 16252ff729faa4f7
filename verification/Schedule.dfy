/** The calendar arithmetic of the backup schedule, in a zone without clock changes:
    an instant is a count of nanoseconds, a day starts every DAY of them. */
module BackupCalendar {
  import opened Wrappers

  const SECOND := 1_000_000_000
  const MINUTE := 60 * SECOND
  const HOUR := 60 * MINUTE
  const DAY := 24 * HOUR

  /** clock is None when the configured time of day does not parse. */
  datatype Schedule = Schedule(enabled: bool, clock: Option<(nat, nat)>, weekly: bool, weekday: nat, retention: nat)

  predicate ValidSchedule(c: Schedule) {
    && (c.clock.Some? ==> c.clock.value.0 <= 23 && c.clock.value.1 <= 59)
    && c.weekday <= 6 && c.retention >= 1
  }

  /** An unparsable time reads as midnight. */
  function ClockTime(c: Schedule): int {
    if c.clock.None? then 0 else c.clock.value.0 * HOUR + c.clock.value.1 * MINUTE
  }

  /** Sunday is 0; day 0 is a Thursday. */
  function Weekday(day: int): int { (day + 4) % 7 }

  function LastSlot(c: Schedule, now: int): int {
    var day := now / DAY;
    var back := if c.weekly then (Weekday(day) - c.weekday + 7) % 7 else 0;
    var slot := (day - back) * DAY + ClockTime(c);
    if slot > now then slot - (if c.weekly then 7 else 1) * DAY else slot
  }

  /** t is the scheduled time of day, on the scheduled weekday if there is one. */
  ghost predicate IsSlot(c: Schedule, t: int) {
    exists day: int :: IsSlotOf(c, t, day)
  }

  predicate IsSlotOf(c: Schedule, t: int, day: int) {
    t == day * DAY + ClockTime(c) && (c.weekly ==> Weekday(day) == c.weekday)
  }

  lemma ClockWithinDay(c: Schedule)
    requires ValidSchedule(c)
    ensures 0 <= ClockTime(c) < DAY && ClockTime(c) % SECOND == 0
  {
  }

  lemma DayBounds(now: int)
    ensures now / DAY * DAY <= now < (now / DAY + 1) * DAY
  {
  }

  /** No scheduled weekday lies between the one the subtraction lands on and today. */
  lemma LatestWeekday(day: int, weekday: nat, other: int)
    requires weekday <= 6
    ensures var back := (Weekday(day) - weekday + 7) % 7;
            0 <= back <= 6 && Weekday(day - back) == weekday && Weekday(day - back - 7) == weekday
            && (Weekday(other) == weekday && other <= day ==> other <= day - back)
            && (Weekday(other) == weekday && other < day - back ==> other <= day - back - 7)
  {
  }

  /** The day whose slot lastSlot gives. */
  function SlotDay(c: Schedule, now: int): int {
    var day := now / DAY;
    var first := day - if c.weekly then (Weekday(day) - c.weekday + 7) % 7 else 0;
    if first * DAY + ClockTime(c) > now then first - (if c.weekly then 7 else 1) else first
  }

  lemma SlotDayIs(c: Schedule, now: int)
    requires ValidSchedule(c)
    ensures LastSlot(c, now) == SlotDay(c, now) * DAY + ClockTime(c) && LastSlot(c, now) <= now
    ensures c.weekly ==> Weekday(SlotDay(c, now)) == c.weekday
  {
    hide ClockTime, Weekday;
    ClockWithinDay(c);
    DayBounds(now);
    LatestWeekday(now / DAY, c.weekday, now / DAY);
  }

  /** No day after it has a slot that is not in the future. */
  lemma SlotDayIsLatest(c: Schedule, now: int, other: int)
    requires ValidSchedule(c) && (c.weekly ==> Weekday(other) == c.weekday) && other * DAY + ClockTime(c) <= now
    ensures other <= SlotDay(c, now)
  {
    hide ClockTime, Weekday;
    ClockWithinDay(c);
    DayBounds(now);
    assert other <= now / DAY;
    LatestWeekday(now / DAY, c.weekday, other);
  }

  /** lastSlot is the greatest scheduled instant at or before now. */
  lemma LastSlotIsLatest(c: Schedule, now: int, t: int)
    requires ValidSchedule(c)
    ensures IsSlot(c, LastSlot(c, now)) && LastSlot(c, now) <= now
    ensures IsSlot(c, t) && t <= now ==> t <= LastSlot(c, now)
  {
    hide ClockTime, Weekday, SlotDay, LastSlot;
    SlotDayIs(c, now);
    assert IsSlotOf(c, LastSlot(c, now), SlotDay(c, now));
    if IsSlot(c, t) && t <= now {
      var other :| IsSlotOf(c, t, other);
      SlotDayIsLatest(c, now, other);
    }
  }

  /** Days are numbered from 1 January 1970, a Thursday; so 1 January 2024 is a Monday. */
  lemma WeekdaysAre(day: int)
    ensures Weekday(0) == 4 && Weekday(day + 1) == (if Weekday(day) == 6 then 0 else Weekday(day) + 1)
    ensures 0 <= Weekday(day) <= 6 && Weekday(19723) == 1
  {
  }

  /** A slot is h hours and m minutes into a day, in nanoseconds, on the scheduled weekday. */
  lemma SlotsAre(c: Schedule, now: int, h: nat, m: nat)
    requires ValidSchedule(c) && c.clock == Some((h, m))
    ensures var t := LastSlot(c, now);
            && t % 86_400_000_000_000 == (h * 60 + m) * 60_000_000_000
            && (c.weekly ==> Weekday(t / 86_400_000_000_000) == c.weekday)
  {
    hide Weekday, SlotDay, LastSlot;
    SlotDayIs(c, now);
    DayAndClock(SlotDay(c, now), (h * 60 + m) * 60_000_000_000);
  }

  lemma DayAndClock(day: int, clock: int)
    requires 0 <= clock < DAY
    ensures (day * DAY + clock) / DAY == day && (day * DAY + clock) % DAY == clock
  {
  }

  lemma SlotIsWholeSecond(c: Schedule, now: int)
    requires ValidSchedule(c)
    ensures LastSlot(c, now) % SECOND == 0
    ensures LastSlot(c, now) <= now / SECOND * SECOND
  {
    hide Weekday, LastSlot;
    LastSlotIsLatest(c, now, now);
    var day :| IsSlotOf(c, LastSlot(c, now), day);
    var h, m := if c.clock.None? then 0 else c.clock.value.0, if c.clock.None? then 0 else c.clock.value.1;
    var n := 86400 * day + 3600 * h + 60 * m;
    assert LastSlot(c, now) == n * SECOND;
    WholeSeconds(n, now);
  }

  lemma WholeSeconds(n: int, now: int)
    ensures n * SECOND % SECOND == 0
    ensures n * SECOND <= now ==> n * SECOND <= now / SECOND * SECOND
  {
  }

  lemma LaterSlot(c: Schedule, now: int, later: int)
    requires ValidSchedule(c) && now <= later
    ensures LastSlot(c, now) <= LastSlot(c, later)
  {
    LastSlotIsLatest(c, now, now);
    LastSlotIsLatest(c, later, LastSlot(c, now));
  }
}

/** The archives in a backup directory, and which of them retention deletes. */
module BackupRetention {
  import opened Wrappers
  import opened BackupLimits
  import opened BackupCalendar

  /** An archive, as its file name tells it: the name is a function of these three. */
  datatype Entry = Entry(kind: Kind, stamp: int, encrypted: bool)

  // --- File names ---------------------------------------------------------------------------

  const EXT_ZIP := ".zip"
  const EXT_ENC := ".zip.enc"

  function Prefix(k: Kind): string {
    match k
    case Scheduled => "unarr-scheduled-"
    case PreRestore => "unarr-prerestore-"
    case Manual => "unarr-backup-"
  }

  function EntryName(format: int -> string, e: Entry): string {
    Prefix(e.kind) + format(e.stamp) + if e.encrypted then EXT_ENC else EXT_ZIP
  }

  predicate HasPrefix(s: string, p: string) { p <= s }
  predicate HasSuffix(s: string, p: string) { |p| <= |s| && s[|s| - |p|..] == p }

  function KindOfName(name: string): Option<Kind> {
    if HasPrefix(name, Prefix(Manual)) then Some(Manual)
    else if HasPrefix(name, Prefix(Scheduled)) then Some(Scheduled)
    else if HasPrefix(name, Prefix(PreRestore)) then Some(PreRestore)
    else None
  }

  function ParseEntryName(parse: string -> Option<int>, name: string): Option<Entry> {
    match KindOfName(name)
    case None => None
    case Some(k) =>
      var rest := name[|Prefix(k)|..];
      if HasSuffix(rest, EXT_ENC) then
        var t := parse(rest[..|rest| - |EXT_ENC|]);
        if t.None? then None else Some(Entry(k, t.value, true))
      else if HasSuffix(rest, EXT_ZIP) then
        var t := parse(rest[..|rest| - |EXT_ZIP|]);
        if t.None? then None else Some(Entry(k, t.value, false))
      else None
  }

  lemma KindRead(k: Kind, rest: string)
    ensures KindOfName(Prefix(k) + rest) == Some(k)
  {
    var name := Prefix(k) + rest;
    assert name[6] == Prefix(k)[6];
    assert HasPrefix(name, Prefix(k));
  }

  /** Listing a directory recovers each archive from its name alone. */
  lemma NameRoundTrip(format: int -> string, parse: string -> Option<int>, e: Entry)
    requires parse(format(e.stamp)) == Some(e.stamp)
    ensures ParseEntryName(parse, EntryName(format, e)) == Some(e)
  {
    hide KindOfName, Prefix, HasSuffix;
    var rest := format(e.stamp) + if e.encrypted then EXT_ENC else EXT_ZIP;
    var name := EntryName(format, e);
    assert name == Prefix(e.kind) + rest;
    KindRead(e.kind, rest);
    assert name[|Prefix(e.kind)|..] == rest;
    ExtensionRead(format(e.stamp), e.encrypted);
  }

  /** A file is taken for an archive exactly when its name is a prefix that tells its kind, a
      stamp, and an extension that tells whether it is encrypted. */
  lemma NameExact(parse: string -> Option<int>, name: string, e: Entry)
    ensures ParseEntryName(parse, name) == Some(e)
            <==> exists stamp :: NamedBy(parse, name, e, stamp)
  {
    hide ParseEntryName, NamedBy;
    if ParseEntryName(parse, name) == Some(e) {
      var stamp := NameTold(parse, name, e);
    }
    if stamp :| NamedBy(parse, name, e, stamp) {
      NameRead(parse, name, e, stamp);
    }
  }

  lemma NameTold(parse: string -> Option<int>, name: string, e: Entry) returns (stamp: string)
    requires ParseEntryName(parse, name) == Some(e)
    ensures NamedBy(parse, name, e, stamp)
  {
    hide KindOfName, Prefix, HasSuffix;
    var k := KindOfName(name).value;
    KindTold(name, k);
    PrefixesAre(k);
    var rest := name[|Prefix(k)|..];
    var ext := if e.encrypted then EXT_ENC else EXT_ZIP;
    Suffixed(rest, ext);
    stamp := rest[..|rest| - |ext|];
    assert name == Prefix(k) + stamp + ext;
  }

  lemma NameRead(parse: string -> Option<int>, name: string, e: Entry, stamp: string)
    requires NamedBy(parse, name, e, stamp)
    ensures ParseEntryName(parse, name) == Some(e)
  {
    hide KindOfName, Prefix, HasSuffix;
    PrefixesAre(e.kind);
    var rest := stamp + if e.encrypted then EXT_ENC else EXT_ZIP;
    assert name == Prefix(e.kind) + rest;
    KindRead(e.kind, rest);
    assert name[|Prefix(e.kind)|..] == rest;
    ExtensionRead(stamp, e.encrypted);
  }

  predicate NamedBy(parse: string -> Option<int>, name: string, e: Entry, stamp: string) {
    && parse(stamp) == Some(e.stamp)
    && name == (match e.kind
                case Manual => "unarr-backup-"
                case Scheduled => "unarr-scheduled-"
                case PreRestore => "unarr-prerestore-") + stamp + (if e.encrypted then ".zip.enc" else ".zip")
  }

  lemma PrefixesAre(k: Kind)
    ensures Prefix(k) == match k
                         case Manual => "unarr-backup-"
                         case Scheduled => "unarr-scheduled-"
                         case PreRestore => "unarr-prerestore-"
  {
  }

  lemma KindTold(name: string, k: Kind)
    requires KindOfName(name) == Some(k)
    ensures |Prefix(k)| <= |name| && name == Prefix(k) + name[|Prefix(k)|..]
  {
    assert name[..|Prefix(k)|] == Prefix(k);
  }

  lemma Suffixed(s: string, ext: string)
    ensures HasSuffix(s, ext) ==> |ext| <= |s| && s == s[..|s| - |ext|] + ext
  {
  }

  lemma ExtensionRead(stamp: string, encrypted: bool)
    ensures var ext := if encrypted then EXT_ENC else EXT_ZIP;
            var rest := stamp + ext;
            && (HasSuffix(rest, EXT_ENC) <==> encrypted) && HasSuffix(rest, ext)
            && rest[..|rest| - |ext|] == stamp
  {
    var ext := if encrypted then EXT_ENC else EXT_ZIP;
    var rest := stamp + ext;
    assert rest[|rest| - |ext|..] == ext;
    if !encrypted && |rest| >= 8 {
      assert rest[|rest| - 8..][7] == rest[|rest| - 1] == 'p';
    }
  }

  function WholeSecond(now: int): int { now / SECOND * SECOND }

  /** generatedPath: the first free name of that kind from the current second on. */
  method GeneratedPath(taken: set<Entry>, kind: Kind, now: int, encrypted: bool) returns (e: Entry)
    ensures e !in taken && e.kind == kind && e.encrypted == encrypted
    ensures e.stamp % 1_000_000_000 == 0 && e.stamp > now - 1_000_000_000 && e.stamp >= WholeSecond(now)
    ensures forall i: nat :: WholeSecond(now) + i * SECOND < e.stamp ==>
              Entry(kind, WholeSecond(now) + i * SECOND, encrypted) in taken
    ensures e.stamp > now ==> Entry(kind, e.stamp - SECOND, encrypted) in taken
  {
    var k: nat := 0;
    ghost var ahead := taken;
    while Entry(kind, WholeSecond(now) + k * SECOND, encrypted) in taken
      invariant forall i: nat :: i < k ==> Entry(kind, WholeSecond(now) + i * SECOND, encrypted) in taken
      invariant forall t :: t >= WholeSecond(now) + k * SECOND && Entry(kind, t, encrypted) in taken ==>
                  Entry(kind, t, encrypted) in ahead
      decreases ahead
    {
      ahead := ahead - {Entry(kind, WholeSecond(now) + k * SECOND, encrypted)};
      k := k + 1;
    }
    e := Entry(kind, WholeSecond(now) + k * SECOND, encrypted);
    WholeSecondIs(now, k);
    if k > 0 {
      assert WholeSecond(now) + (k - 1) * SECOND == e.stamp - SECOND;
    }
  }

  lemma WholeSecondIs(now: int, k: nat)
    ensures WholeSecond(now) <= now < WholeSecond(now) + 1_000_000_000
    ensures (WholeSecond(now) + k * SECOND) % 1_000_000_000 == 0
  {
    assert WholeSecond(now) + k * SECOND == (now / SECOND + k) * SECOND;
    WholeSeconds(now / SECOND + k, now);
  }

  // --- Listing and pruning -------------------------------------------------------------------

  /** A directory listing: archives of the directory, each once, newest first, ties in any
      order. One whose details cannot be read is left out. */
  ghost predicate IsListing(es: seq<Entry>, dir: set<Entry>) {
    && (forall e :: e in es ==> e in dir)
    && (forall i, j :: 0 <= i < j < |es| ==> es[i] != es[j] && es[i].stamp >= es[j].stamp)
  }

  /** Nothing was left out. */
  ghost predicate IsComplete(es: seq<Entry>, dir: set<Entry>) {
    IsListing(es, dir) && forall e :: e in dir ==> e in es
  }

  const ZERO_TIME: int := -62_135_596_800 * SECOND

  /** The creation time of the newest manual or scheduled archive. */
  method NewestBackup(es: seq<Entry>) returns (t: int)
    ensures t == Newest(es)
  {
    for i := 0 to |es|
      invariant Newest(es) == Newest(es[i..])
    {
      if es[i].kind != PreRestore {
        return es[i].stamp;
      }
      assert es[i..][1..] == es[i + 1..];
    }
    t := ZERO_TIME;
  }

  function Newest(es: seq<Entry>): int {
    if es == [] then ZERO_TIME
    else if es[0].kind != PreRestore then es[0].stamp
    else Newest(es[1..])
  }

  /** Some manual or scheduled archive is at least as new as t. */
  ghost predicate Covered(dir: set<Entry>, t: int) {
    exists e :: e in dir && e.kind != PreRestore && e.stamp >= t
  }

  lemma {:induction false} NewestIsNewest(es: seq<Entry>, e: Entry)
    requires forall i, j :: 0 <= i < j < |es| ==> es[i].stamp >= es[j].stamp
    requires e in es && e.kind != PreRestore
    ensures Newest(es) >= e.stamp
    decreases |es|
  {
    if es[0].kind == PreRestore {
      assert e in es[1..];
      NewestIsNewest(es[1..], e);
    } else {
      var i :| 0 <= i < |es| && es[i] == e;
    }
  }

  function Count(es: seq<Entry>, kinds: set<Kind>): nat {
    if es == [] then 0
    else Count(es[..|es| - 1], kinds) + if es[|es| - 1].kind in kinds then 1 else 0
  }

  /** At least keep archives of its kinds, and at least one, stand before the one at i, and it
      is not held back. */
  ghost predicate Doomed(es: seq<Entry>, i: nat, kinds: set<Kind>, keep: int, held: set<Entry>) {
    && i < |es| && es[i].kind in kinds && es[i] !in held
    && Count(es[..i], kinds) >= keep && Count(es[..i], kinds) >= 1
  }

  /** The archive at i is doomed and cannot be deleted, and what was deleted is exactly the
      doomed archives before it. */
  ghost predicate StopsAt(es: seq<Entry>, i: nat, kinds: set<Kind>, keep: int, held: set<Entry>,
                          undeletable: set<Entry>, removed: seq<Entry>) {
    && Doomed(es, i, kinds, keep, held) && es[i] in undeletable
    && (forall j: nat :: j < i && Doomed(es, j, kinds, keep, held) ==> es[j] in removed)
    && (forall e :: e in removed ==> exists j: nat :: j < i && Doomed(es, j, kinds, keep, held) && es[j] == e)
  }

  /** prune: deletes exactly the doomed archives, up to the first that cannot be
      deleted. */
  method Prune(es: seq<Entry>, keep: int, kinds: set<Kind>, held: set<Entry>, undeletable: set<Entry>)
      returns (removed: seq<Entry>, ok: bool)
    ensures forall e :: e in removed ==> exists i: nat :: Doomed(es, i, kinds, keep, held) && es[i] == e
    ensures ok ==> forall i: nat :: Doomed(es, i, kinds, keep, held) ==> es[i] in removed
    ensures !ok ==> exists i: nat :: StopsAt(es, i, kinds, keep, held, undeletable, removed)
    ensures (forall e :: e in es ==> e !in undeletable) ==> ok
    ensures Pruned(es, kinds, keep, held, set e | e in removed)
  {
    var k := if keep < 1 then 1 else keep;
    removed := [];
    var n := 0;
    for i := 0 to |es|
      invariant n == Count(es[..i], kinds)
      invariant forall e :: e in removed ==> exists j: nat :: j < i && Doomed(es, j, kinds, keep, held) && es[j] == e
      invariant forall j: nat :: j < i && Doomed(es, j, kinds, keep, held) ==> es[j] in removed
    {
      assert es[..i + 1][..i] == es[..i];
      if es[i].kind !in kinds {
        continue;
      }
      n := n + 1;
      if n <= k || es[i] in held {
        continue;
      }
      assert Doomed(es, i, kinds, keep, held);
      if es[i] in undeletable {
        assert StopsAt(es, i, kinds, keep, held, undeletable, removed);
        return removed, false;
      }
      removed := removed + [es[i]];
    }
    ok := true;
  }

  /** What one prune may have deleted. */
  ghost predicate Pruned(es: seq<Entry>, kinds: set<Kind>, keep: int, held: set<Entry>, removed: set<Entry>) {
    forall e :: e in removed ==> exists i: nat :: Doomed(es, i, kinds, keep, held) && es[i] == e
  }

  /** Whatever a prune manages to delete, the archive at f is out of its reach exactly when
      fewer of its kinds stand before it than are kept, or it is held back. */
  lemma OutOfReach(es: seq<Entry>, dir: set<Entry>, f: nat, kinds: set<Kind>, keep: int, held: set<Entry>)
    requires IsListing(es, dir) && f < |es| && es[f].kind in kinds
    ensures (forall removed :: Pruned(es, kinds, keep, held, removed) ==> es[f] !in removed)
            <==> Count(es[..f], kinds) < keep || Count(es[..f], kinds) < 1 || es[f] in held
  {
    assert es[..f + 1][..f] == es[..f];
    assert Count(es[..f + 1], kinds) == Count(es[..f], kinds) + 1;
    if Doomed(es, f, kinds, keep, held) {
      assert Pruned(es, kinds, keep, held, {es[f]});
    } else {
      forall removed | Pruned(es, kinds, keep, held, removed) ensures es[f] !in removed {
        forall i: nat | Doomed(es, i, kinds, keep, held) ensures es[i] != es[f] {
          assert i != f;
        }
      }
    }
  }

  /** How many archives of the kinds are left. */
  function Left(es: seq<Entry>, kinds: set<Kind>, removed: set<Entry>): nat {
    if es == [] then 0
    else
      var e := es[|es| - 1];
      Left(es[..|es| - 1], kinds, removed) + if e.kind in kinds && e !in removed then 1 else 0
  }

  /** When nothing is held back and all that is doomed is deleted, an archive is left exactly
      when fewer than keep of its kinds, or none, stand before it. */
  lemma LeftExactly(es: seq<Entry>, dir: set<Entry>, kinds: set<Kind>, keep: int, removed: set<Entry>, i: nat)
    requires IsListing(es, dir) && Pruned(es, kinds, keep, {}, removed)
    requires forall i: nat :: Doomed(es, i, kinds, keep, {}) ==> es[i] in removed
    requires i < |es| && es[i].kind in kinds
    ensures es[i] !in removed <==> Count(es[..i], kinds) < keep || Count(es[..i], kinds) < 1
  {
    hide Count;
    if es[i] in removed {
      var j: nat :| Doomed(es, j, kinds, keep, {}) && es[j] == es[i];
      assert j == i;
    } else {
      assert !Doomed(es, i, kinds, keep, {});
    }
  }

  /** So the first max(1, keep) of the kinds are left, or all of them if there are fewer. */
  lemma {:induction false} PruneLeaves(es: seq<Entry>, dir: set<Entry>, kinds: set<Kind>, keep: int,
                                       removed: set<Entry>, n: nat)
    requires IsListing(es, dir) && n <= |es| && Pruned(es, kinds, keep, {}, removed)
    requires forall i: nat :: Doomed(es, i, kinds, keep, {}) ==> es[i] in removed
    ensures var kept := if keep < 1 then 1 else keep;
            Left(es[..n], kinds, removed) == Min(kept, Count(es[..n], kinds))
    decreases n
  {
    hide IsListing, Pruned, Doomed;
    if n > 0 {
      PruneLeaves(es, dir, kinds, keep, removed, n - 1);
      assert es[..n][..n - 1] == es[..n - 1];
      if es[n - 1].kind in kinds {
        LeftExactly(es, dir, kinds, keep, removed, n - 1);
      }
    }
  }

  /** The first archive of the pruned kinds is never deleted. */
  lemma FirstIsKept(es: seq<Entry>, dir: set<Entry>, f: nat, kinds: set<Kind>, keep: int, held: set<Entry>,
                    removed: set<Entry>)
    requires IsListing(es, dir) && f < |es| && es[f].kind in kinds
    requires forall i :: 0 <= i < f ==> es[i].kind !in kinds
    requires Pruned(es, kinds, keep, held, removed)
    ensures es[f] !in removed
  {
    NoneBefore(es, f, kinds);
    assert es[..f + 1][..f] == es[..f];
    assert Count(es[..f + 1], kinds) == 1;
    forall i: nat | Doomed(es, i, kinds, keep, held) ensures es[i] != es[f] {
      assert i != f;
    }
  }

  lemma {:induction false} NoneBefore(es: seq<Entry>, f: nat, kinds: set<Kind>)
    requires f <= |es| && forall i :: 0 <= i < f ==> es[i].kind !in kinds
    ensures Count(es[..f], kinds) == 0
    decreases f
  {
    if f > 0 {
      assert es[..f][..f - 1] == es[..f - 1];
      NoneBefore(es, f - 1, kinds);
    }
  }

  function FirstOf(es: seq<Entry>, kinds: set<Kind>, from: nat): (f: nat)
    requires from <= |es|
    ensures from <= f <= |es| && (f < |es| ==> es[f].kind in kinds)
    ensures forall i :: from <= i < f ==> es[i].kind !in kinds
    decreases |es| - from
  {
    if from == |es| || es[from].kind in kinds then from else FirstOf(es, kinds, from + 1)
  }

  /** No retention rule makes the newest backup older. */
  lemma PruneKeepsCover(es: seq<Entry>, dir: set<Entry>, kinds: set<Kind>, keep: int, held: set<Entry>,
                        removed: set<Entry>, t: int)
    requires IsListing(es, dir) && Pruned(es, kinds, keep, held, removed) && Covered(dir, t)
    requires kinds == {Scheduled} || kinds == {Manual, Scheduled} || kinds == {PreRestore}
    ensures Covered(dir - removed, t)
  {
    hide Count;
    var e :| e in dir && e.kind != PreRestore && e.stamp >= t;
    if e in removed {
      var i: nat :| Doomed(es, i, kinds, keep, held) && es[i] == e;
      var f := FirstOf(es, kinds, 0);
      assert f <= i;
      FirstIsKept(es, dir, f, kinds, keep, held, removed);
      assert es[f] in dir - removed && es[f].stamp >= t;
    }
  }
}

/** The scheduler's ticks, among everything else that adds archives to the directory
    or prunes it. */
module BackupScheduler {
  import opened Wrappers
  import opened Runs
  import opened BackupLimits
  import opened BackupCalendar
  import opened BackupRetention

  predicate Due(c: Schedule, now: int, lastBackup: int) {
    c.enabled && c.clock.Some? && lastBackup < LastSlot(c, now)
  }

  /** The last backup a tick sees: none at all when the directory cannot be listed. */
  function Seen(listing: Option<seq<Entry>>): int {
    if listing.None? then ZERO_TIME else Newest(listing.value)
  }

  predicate Attempts(c: Schedule, retryAt: int, now: int, listing: Option<seq<Entry>>) {
    now >= retryAt && Due(c, now, Seen(listing))
  }

  function RetryAfter(now: int, made: bool): int { if made then ZERO_TIME else now + HOUR }

  class Scheduler {
    const config: Schedule
    var retryAt: int

    constructor (config: Schedule)
      ensures this.config == config && retryAt == ZERO_TIME
    {
      this.config, retryAt := config, ZERO_TIME;
    }

    /** One tick: made is what create answers if it is called, relisting what the prune
        then finds in the directory. */
    method Tick(now: int, listing: Option<seq<Entry>>, made: bool,
                relisting: Option<seq<Entry>>, undeletable: set<Entry>)
        returns (attempted: bool, removed: seq<Entry>)
      modifies this
      ensures attempted == Attempts(config, old(retryAt), now, listing)
      ensures retryAt == if !attempted then old(retryAt)
                         else if made then ZERO_TIME
                         else now + 3600 * 1_000_000_000
      ensures !attempted || !made || relisting.None? ==> removed == []
      ensures relisting.Some? ==> Pruned(relisting.value, {Scheduled}, config.retention, {}, set e | e in removed)
      ensures attempted && made && relisting.Some? && undeletable == {} ==>
                forall i: nat :: Doomed(relisting.value, i, {Scheduled}, config.retention, {}) ==>
                  relisting.value[i] in removed
    {
      removed := [];
      if now < retryAt {
        return false, removed;
      }
      var last := ZERO_TIME;
      if listing.Some? {
        last := NewestBackup(listing.value);
      }
      if !Due(config, now, last) {
        return false, removed;
      }
      attempted := true;
      retryAt := RetryAfter(now, made);
      if made && relisting.Some? {
        var ok;
        removed, ok := Prune(relisting.value, config.retention, {Scheduled}, {}, undeletable);
      }
    }
  }

  /** clock is the last tick's time; wrote and failed record when archives were
      written and attempts failed. */
  datatype State = State(dir: set<Entry>, retryAt: int, clock: int, wrote: seq<int>, failed: seq<int>)

  datatype Event =
    | Tick(now: int, listing: Option<seq<Entry>>, made: bool,
           stamp: int, relisting: seq<Entry>, removed: set<Entry>)
    | Added(e: Entry)                                                       // a manual backup or a snapshot
    | PrunedAll(es: seq<Entry>, keep: int, removed: set<Entry>)             // unarr backup prune
    | PrunedSnapshots(es: seq<Entry>, held: set<Entry>, removed: set<Entry>)

  const PRE_RESTORE_KEEP := 3

  function Written(stamp: int): Entry { Entry(Scheduled, stamp, false) }

  /** The event is a tick that writes an archive. */
  predicate Writes(c: Schedule, s: State, ev: Event) {
    ev.Tick? && Attempts(c, s.retryAt, ev.now, ev.listing) && ev.made
  }

  ghost predicate Possible(c: Schedule, s: State, ev: Event) {
    match ev
    case Tick(now, listing, made, stamp, relisting, removed) =>
      && now >= s.clock
      && (listing.Some? ==> IsListing(listing.value, s.dir))
      && (Writes(c, s, ev) ==>
            && stamp >= WholeSecond(now) && Written(stamp) !in s.dir
            && IsListing(relisting, s.dir + {Written(stamp)})
            && Pruned(relisting, {Scheduled}, c.retention, {}, removed))
    case Added(_) => true
    case PrunedAll(es, keep, removed) =>
      IsListing(es, s.dir) && Pruned(es, {Manual, Scheduled}, keep, {}, removed)
    case PrunedSnapshots(es, held, removed) =>
      IsListing(es, s.dir) && Pruned(es, {PreRestore}, PRE_RESTORE_KEEP, held, removed)
  }

  function Next(c: Schedule, s: State, ev: Event): State {
    match ev
    case Tick(now, listing, made, stamp, relisting, removed) =>
      if !Attempts(c, s.retryAt, now, listing) then s.(clock := now)
      else
        var s' := s.(clock := now, retryAt := RetryAfter(now, made));
        if made then s'.(wrote := s.wrote + [now], dir := s.dir + {Written(stamp)} - removed)
        else s'.(failed := s.failed + [now])
    case Added(e) => s.(dir := s.dir + {e})
    case PrunedAll(_, _, removed) => s.(dir := s.dir - removed)
    case PrunedSnapshots(_, _, removed) => s.(dir := s.dir - removed)
  }

  ghost function Ticking(c: Schedule): System<State, Event> {
    System((s: State, ev: Event) => Possible(c, s, ev), (s: State, ev: Event) => Next(c, s, ev))
  }

  // --- The archive just written ---------------------------------------------------------------

  /** The archive a tick has just written survives the prune of the same tick, if nothing
      was left out of the listing that made it due: every other scheduled archive is then
      older than the slot it serves. In general OutOfReach says when it does. */
  lemma JustWrittenSurvives(c: Schedule, s: State, ev: Event)
    requires ValidSchedule(c) && Possible(c, s, ev) && Writes(c, s, ev)
    requires ev.listing.Some? && IsComplete(ev.listing.value, s.dir)
    ensures Written(ev.stamp) in Next(c, s, ev).dir
  {
    hide LastSlot;
    SlotIsWholeSecond(c, ev.now);
    var es, e := ev.relisting, Written(ev.stamp);
    if e in es {
      var f :| 0 <= f < |es| && es[f] == e;
      forall i | 0 <= i < f ensures es[i].kind != Scheduled {
        if es[i].kind == Scheduled {
          assert es[i] in es && es[i] in s.dir;
          NewestIsNewest(ev.listing.value, es[i]);
          assert false;
        }
      }
      FirstIsKept(es, s.dir + {e}, f, {Scheduled}, c.retention, {}, ev.removed);
    } else {
      assert e !in ev.removed;
    }
  }

  /** The same tick, with another outcome of its prune. */
  function Pruning(ev: Event, removed: set<Entry>): Event
    requires ev.Tick?
  {
    Tick(ev.now, ev.listing, ev.made, ev.stamp, ev.relisting, removed)
  }

  /** For every tick that writes, whatever it could list: its archive is out of the reach of
      its own prune exactly when fewer scheduled archives are listed before it than are kept. */
  lemma JustWrittenExactly(c: Schedule, s: State, ev: Event, f: nat)
    requires Possible(c, s, ev) && Writes(c, s, ev)
    requires f < |ev.relisting| && ev.relisting[f] == Written(ev.stamp)
    ensures (forall removed :: Possible(c, s, Pruning(ev, removed)) ==>
               Written(ev.stamp) in Next(c, s, Pruning(ev, removed)).dir)
            <==> Count(ev.relisting[..f], {Scheduled}) < c.retention || Count(ev.relisting[..f], {Scheduled}) < 1
  {
    hide LastSlot, IsListing, Pruned;
    OutOfReach(ev.relisting, s.dir + {Written(ev.stamp)}, f, {Scheduled}, c.retention, {});
    forall removed
      ensures Possible(c, s, Pruning(ev, removed))
              <==> Pruned(ev.relisting, {Scheduled}, c.retention, {}, removed)
      ensures Written(ev.stamp) in Next(c, s, Pruning(ev, removed)).dir <==> Written(ev.stamp) !in removed
    {
      assert Writes(c, s, Pruning(ev, removed));
    }
  }

  const MIDNIGHT := Schedule(true, Some((0, 0)), false, 0, 1)

  lemma MidnightSlot(now: int)
    requires 0 <= now < DAY
    ensures LastSlot(MIDNIGHT, now) == 0 && ValidSchedule(MIDNIGHT)
  {
  }

  /** A tick that cannot list the directory can prune the very archive it wrote: another
      scheduled one is stamped later, and one is kept. */
  lemma PrunesItsOwn() returns (s: State, ev: Event)
    ensures Possible(MIDNIGHT, s, ev) && Writes(MIDNIGHT, s, ev)
    ensures Written(ev.stamp) !in Next(MIDNIGHT, s, ev).dir
  {
    hide LastSlot;
    MidnightSlot(0);
    var newer := Written(5 * SECOND);
    s := State({newer}, ZERO_TIME, 0, [], []);
    var es := [newer, Written(0)];
    ev := Tick(0, None, true, 0, es, {Written(0)});
    assert es[..2] == es && es[..1] == [newer];
    assert Count([newer], {Scheduled}) == 1 && Count(es, {Scheduled}) == 2;
    assert Doomed(es, 1, {Scheduled}, 1, {});
  }

  // --- Once per slot ----------------------------------------------------------------------------

  /** Every slot that was served is still covered. */
  ghost predicate Served(c: Schedule, s: State) {
    forall i :: 0 <= i < |s.wrote| ==> s.wrote[i] <= s.clock && Covered(s.dir, LastSlot(c, s.wrote[i]))
  }

  /** No slot was served twice: archives were written for later and later slots. */
  ghost predicate OncePerSlot(c: Schedule, s: State) {
    forall i, j :: 0 <= i < j < |s.wrote| ==> LastSlot(c, s.wrote[i]) < LastSlot(c, s.wrote[j])
  }

  /** No archive as new as t is listed: the manual and scheduled ones that are, are all
      older, and if there is none, t is later than the zero time that stands for it. */
  predicate Overlooks(listing: Option<seq<Entry>>, t: int) {
    var es := if listing.None? then [] else listing.value;
    && (forall e :: e in es && e.kind != PreRestore ==> e.stamp < t)
    && ((forall e :: e in es ==> e.kind == PreRestore) ==> ZERO_TIME < t)
  }

  /** Past its retry time, and with the schedule on, the tick makes an archive in the slot
      the last one was written in, because its listing shows none as new as that slot. */
  predicate Repeats(c: Schedule, s: State, ev: Event) {
    && ev.Tick? && ev.made && ev.now >= s.retryAt && c.enabled && c.clock.Some?
    && s.wrote != [] && LastSlot(c, s.wrote[|s.wrote| - 1]) == LastSlot(c, ev.now)
    && Overlooks(ev.listing, LastSlot(c, ev.now))
  }

  lemma {:induction false} NewestBefore(es: seq<Entry>, t: int)
    requires forall i, j :: 0 <= i < j < |es| ==> es[i].stamp >= es[j].stamp
    ensures Newest(es) < t <==> Overlooks(Some(es), t)
    decreases |es|
  {
    if es != [] {
      NewestBefore(es[1..], t);
      assert es == [es[0]] + es[1..];
      assert es[0] in es;
      assert forall e :: e in es ==> e.stamp <= es[0].stamp;
    }
  }

  lemma WritesExactly(c: Schedule, s: State, ev: Event)
    requires Possible(c, s, ev) && ev.Tick?
    ensures Writes(c, s, ev) <==> && ev.made && ev.now >= s.retryAt && c.enabled && c.clock.Some?
                                  && Overlooks(ev.listing, LastSlot(c, ev.now))
  {
    hide LastSlot, Pruned, Newest;
    if ev.listing.Some? {
      NewestBefore(ev.listing.value, LastSlot(c, ev.now));
    }
  }

  lemma StepCovered(c: Schedule, s: State, ev: Event, t: int)
    requires Possible(c, s, ev) && Covered(s.dir, t)
    ensures Covered(Next(c, s, ev).dir, t)
  {
    hide LastSlot, Pruned, IsListing;
    match ev
    case Tick(now, listing, made, stamp, relisting, removed) =>
      if Writes(c, s, ev) {
        assert Covered(s.dir + {Written(stamp)}, t);
        PruneKeepsCover(relisting, s.dir + {Written(stamp)}, {Scheduled}, c.retention, {}, removed, t);
      }
    case Added(e) =>
      assert Covered(s.dir + {e}, t);
    case PrunedAll(es, keep, removed) =>
      PruneKeepsCover(es, s.dir, {Manual, Scheduled}, keep, {}, removed, t);
    case PrunedSnapshots(es, held, removed) =>
      PruneKeepsCover(es, s.dir, {PreRestore}, PRE_RESTORE_KEEP, held, removed, t);
  }

  /** The slot a tick writes for is covered afterwards, even if its prune took the archive
      it wrote: then a later one is kept. */
  lemma NewSlotCovered(c: Schedule, s: State, ev: Event)
    requires ValidSchedule(c) && Possible(c, s, ev) && Writes(c, s, ev)
    ensures Covered(Next(c, s, ev).dir, LastSlot(c, ev.now))
  {
    hide LastSlot, Pruned, IsListing;
    SlotIsWholeSecond(c, ev.now);
    var dir := s.dir + {Written(ev.stamp)};
    assert Written(ev.stamp) in dir && Written(ev.stamp).stamp >= LastSlot(c, ev.now);
    PruneKeepsCover(ev.relisting, dir, {Scheduled}, c.retention, {}, ev.removed, LastSlot(c, ev.now));
  }

  lemma StepServed(c: Schedule, s: State, ev: Event)
    requires ValidSchedule(c) && Served(c, s) && Possible(c, s, ev)
    ensures Served(c, Next(c, s, ev))
  {
    hide LastSlot, Pruned, IsListing, Covered;
    var s' := Next(c, s, ev);
    forall i | 0 <= i < |s.wrote| ensures Covered(s'.dir, LastSlot(c, s.wrote[i])) {
      StepCovered(c, s, ev, LastSlot(c, s.wrote[i]));
    }
    if Writes(c, s, ev) {
      NewSlotCovered(c, s, ev);
    }
  }

  /** A step keeps it at one archive per slot exactly unless it repeats the last slot. */
  lemma StepOnce(c: Schedule, s: State, ev: Event)
    requires ValidSchedule(c) && Served(c, s) && OncePerSlot(c, s) && Possible(c, s, ev)
    ensures OncePerSlot(c, Next(c, s, ev)) <==> !Repeats(c, s, ev)
  {
    hide LastSlot, Pruned, IsListing, Covered, Overlooks;
    if ev.Tick? {
      WritesExactly(c, s, ev);
    }
    if Writes(c, s, ev) && s.wrote != [] {
      var n := |s.wrote|;
      var s' := Next(c, s, ev);
      assert s'.wrote[n] == ev.now && s'.wrote[n - 1] == s.wrote[n - 1];
      LaterSlot(c, s.wrote[n - 1], ev.now);
    }
  }

  /** A tick that sees every archive never repeats a slot. */
  lemma CompleteNeverRepeats(c: Schedule, s: State, ev: Event)
    requires Served(c, s) && ev.Tick? && ev.listing.Some? && IsComplete(ev.listing.value, s.dir)
    ensures !Repeats(c, s, ev)
  {
    hide LastSlot;
    if s.wrote != [] {
      var t := LastSlot(c, s.wrote[|s.wrote| - 1]);
      assert Covered(s.dir, t);
      var e :| e in s.dir && e.kind != PreRestore && e.stamp >= t;
      assert e in ev.listing.value;
    }
  }

  ghost predicate NeverRepeats(c: Schedule, s: State, evs: seq<Event>)
    decreases |evs|
  {
    evs == [] || (!Repeats(c, s, evs[0]) && NeverRepeats(c, Next(c, s, evs[0]), evs[1..]))
  }

  lemma {:induction false} WroteGrows(c: Schedule, s: State, evs: seq<Event>)
    ensures s.wrote <= Ticking(c).Final(s, evs).wrote
    decreases |evs|
  {
    hide LastSlot;
    if evs != [] {
      WroteGrows(c, Next(c, s, evs[0]), evs[1..]);
    }
  }

  /** Whatever archives are there at the start, whatever the ticks could list, and whatever
      is added or pruned along the way: a run writes at most one scheduled archive per slot if
      and only if no tick of it, in the slot served last, overlooks every archive as new as
      that slot; and every slot served stays covered either way. */
  lemma {:induction false} OncePerSlotExactly(c: Schedule, s: State, evs: seq<Event>)
    requires ValidSchedule(c) && Served(c, s) && OncePerSlot(c, s) && Ticking(c).IsRun(s, evs)
    ensures Served(c, Ticking(c).Final(s, evs))
    ensures OncePerSlot(c, Ticking(c).Final(s, evs)) <==> NeverRepeats(c, s, evs)
    decreases |evs|
  {
    hide LastSlot, Possible, Covered, Next;
    if evs != [] {
      var s1 := Next(c, s, evs[0]);
      StepServed(c, s, evs[0]);
      StepOnce(c, s, evs[0]);
      if OncePerSlot(c, s1) {
        OncePerSlotExactly(c, s1, evs[1..]);
      } else {
        WroteGrows(c, s1, evs[1..]);
        RunServed(c, s1, evs[1..]);
      }
    }
  }

  lemma RunServed(c: Schedule, s: State, evs: seq<Event>)
    requires ValidSchedule(c) && Served(c, s) && Ticking(c).IsRun(s, evs)
    ensures Served(c, Ticking(c).Final(s, evs))
  {
    hide Served, Possible, Next;
    var inv := (x: State) => Served(c, x);
    forall x, ev | inv(x) && Ticking(c).enabled(x, ev) ensures inv(Ticking(c).next(x, ev)) {
      StepServed(c, x, ev);
    }
    Ticking(c).Keeps(inv, s, evs);
  }

  /** Every tick of the run sees every archive. */
  ghost predicate AllComplete(c: Schedule, s: State, evs: seq<Event>)
    decreases |evs|
  {
    evs == [] ||
    (&& (evs[0].Tick? ==> evs[0].listing.Some? && IsComplete(evs[0].listing.value, s.dir))
     && AllComplete(c, Next(c, s, evs[0]), evs[1..]))
  }

  /** In particular, when every tick can list the directory, no slot is served twice. */
  lemma CompleteRunsServeOnce(c: Schedule, s: State, evs: seq<Event>)
    requires ValidSchedule(c) && Served(c, s) && OncePerSlot(c, s)
    requires Ticking(c).IsRun(s, evs) && AllComplete(c, s, evs)
    ensures OncePerSlot(c, Ticking(c).Final(s, evs))
  {
    hide Served, OncePerSlot, AllComplete, NeverRepeats;
    CompleteRunsNeverRepeat(c, s, evs);
    OncePerSlotExactly(c, s, evs);
  }

  lemma {:induction false} CompleteRunsNeverRepeat(c: Schedule, s: State, evs: seq<Event>)
    requires ValidSchedule(c) && Served(c, s) && Ticking(c).IsRun(s, evs) && AllComplete(c, s, evs)
    ensures NeverRepeats(c, s, evs)
    decreases |evs|
  {
    hide LastSlot, Possible, Served, Next, IsComplete;
    if evs != [] {
      StepServed(c, s, evs[0]);
      if evs[0].Tick? {
        CompleteNeverRepeats(c, s, evs[0]);
      }
      CompleteRunsNeverRepeat(c, Next(c, s, evs[0]), evs[1..]);
    }
  }

  /** A directory that can be written but not listed looks empty: one listed tick and one
      that cannot list it, a minute later, write two archives for the same slot. */
  lemma UnlistableWritesAgain() returns (s: State, evs: seq<Event>)
    ensures s.wrote == [] && Ticking(MIDNIGHT).IsRun(s, evs)
    ensures var wrote := Ticking(MIDNIGHT).Final(s, evs).wrote;
            && |wrote| == 2 && wrote[0] < wrote[1]
            && LastSlot(MIDNIGHT, wrote[0]) == LastSlot(MIDNIGHT, wrote[1])
  {
    hide LastSlot;
    MidnightSlot(SECOND);
    MidnightSlot(MINUTE);
    s := State({}, ZERO_TIME, 0, [], []);
    var first, second := Written(SECOND), Written(MINUTE);
    var a := Tick(SECOND, Some([]), true, SECOND, [first], {});
    var b := Tick(MINUTE, None, true, MINUTE, [second, first], {});
    evs := [];
    Ticking(MIDNIGHT).Then(s, evs, a);
    evs := evs + [a];
    Ticking(MIDNIGHT).Then(s, evs, b);
    evs := evs + [b];
  }

  // --- Failures -----------------------------------------------------------------------------------

  /** No attempt can follow a failure within the hour. */
  ghost predicate Spaced(s: State) {
    && (forall i, j :: 0 <= i < j < |s.failed| ==> s.failed[i] + HOUR <= s.failed[j])
    && (forall i :: 0 <= i < |s.failed| ==> s.failed[i] + HOUR <= s.retryAt || s.failed[i] + HOUR <= s.clock)
  }

  lemma StepSpaced(c: Schedule, s: State, ev: Event)
    requires Spaced(s) && Possible(c, s, ev)
    ensures Spaced(Next(c, s, ev))
  {
    hide LastSlot, Pruned, IsListing;
  }

  /** In every run, listed or not, failed attempts are at least an hour apart. */
  lemma FailuresApart(c: Schedule, s: State, evs: seq<Event>)
    requires Spaced(s) && Ticking(c).IsRun(s, evs)
    ensures Spaced(Ticking(c).Final(s, evs))
  {
    hide Spaced, Possible, Next;
    forall x, ev | Spaced(x) && Ticking(c).enabled(x, ev) ensures Spaced(Ticking(c).next(x, ev)) {
      StepSpaced(c, x, ev);
    }
    Ticking(c).Keeps(Spaced, s, evs);
  }
}
