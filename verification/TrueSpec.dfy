/** Fetching the state of imported files from Sonarr or Radarr, whose batch request
    fails as a whole when one id is gone. */
module MediaFetch {
  import opened Wrappers

  type Flags = bv64

  datatype MediaFile = MediaFile(id: int, flags: Option<Flags>)

  datatype Reply<T> = Answer(value: T) | Status500 | NotFound | Failure

  datatype Fault = Fine | Spurious500 | Broken

  const IDS_PER_CALL := 100

  /** The files among ids that exist, in the order asked for. */
  function Existing(db: map<int, MediaFile>, ids: seq<int>): seq<MediaFile> {
    if ids == [] then []
    else (if ids[0] in db then [db[ids[0]]] else []) + Existing(db, ids[1..])
  }

  lemma {:induction false} ExistingAppend(db: map<int, MediaFile>, a: seq<int>, b: seq<int>)
    ensures Existing(db, a + b) == Existing(db, a) + Existing(db, b)
    decreases |a|
  {
    if a == [] {
      assert a + b == b;
    } else {
      assert (a + b)[1..] == a[1..] + b;
      ExistingAppend(db, a[1..], b);
    }
  }

  lemma ExistingNone(db: map<int, MediaFile>)
    ensures Existing(db, []) == []
  {
  }

  ghost predicate Keyed(db: map<int, MediaFile>) {
    forall id :: id in db ==> db[id].id == id
  }

  /** Of distinct ids, each existing file is there once and nothing else is. */
  lemma {:induction false} ExistingOnce(db: map<int, MediaFile>, ids: seq<int>, f: MediaFile)
    requires Keyed(db) && forall i, j :: 0 <= i < j < |ids| ==> ids[i] != ids[j]
    ensures multiset(Existing(db, ids))[f] == if f.id in ids && f.id in db && db[f.id] == f then 1 else 0
    decreases |ids|
  {
    if ids != [] {
      ExistingOnce(db, ids[1..], f);
      assert ids == [ids[0]] + ids[1..];
      if ids[0] in db {
        assert multiset([db[ids[0]]] + Existing(db, ids[1..]))[f]
            == multiset(Existing(db, ids[1..]))[f] + if f == db[ids[0]] then 1 else 0;
      }
    }
  }

  /** An *arr with a library and any pattern of faults on its batch and single
      requests. It may answer a batch in any order. */
  class Client {
    var db: map<int, MediaFile>
    const batchFault: nat -> Fault
    const singleFails: nat -> bool
    var batches: nat
    var singles: nat

    constructor (db: map<int, MediaFile>, batchFault: nat -> Fault, singleFails: nat -> bool)
      ensures this.db == db && this.batchFault == batchFault && this.singleFails == singleFails
      ensures batches == singles == 0
    {
      this.db, this.batchFault, this.singleFails, batches, singles := db, batchFault, singleFails, 0, 0;
    }

    ghost predicate Healthy() {
      forall n :: !batchFault(n).Broken? && !singleFails(n)
    }

    method GetBatch(ids: seq<int>) returns (r: Reply<seq<MediaFile>>)
      modifies this`batches
      ensures batches == old(batches) + 1
      ensures r.Failure? <==> batchFault(old(batches)).Broken?
      ensures r.Status500? <==> batchFault(old(batches)).Spurious500?
                                || (!batchFault(old(batches)).Broken? && exists i :: 0 <= i < |ids| && ids[i] !in db)
      ensures r.Answer? ==> multiset(r.value) == multiset(Existing(db, ids))
      ensures !r.NotFound?
    {
      var fault := batchFault(batches);
      batches := batches + 1;
      if fault.Broken? {
        return Failure;
      }
      if fault.Spurious500? || exists i :: 0 <= i < |ids| && ids[i] !in db {
        return Status500;
      }
      r := Answer(Existing(db, ids));
    }

    method GetOne(id: int) returns (r: Reply<MediaFile>)
      modifies this`singles
      ensures singles == old(singles) + 1
      ensures r == if singleFails(old(singles)) then Failure else if id in db then Answer(db[id]) else NotFound
    {
      var failing := singleFails(singles);
      singles := singles + 1;
      r := if failing then Failure else if id in db then Answer(db[id]) else NotFound;
    }

    method MediaFileOne(id: int) returns (r: Reply<seq<MediaFile>>)
      modifies this`singles
      ensures singles == old(singles) + 1
      ensures r == if singleFails(old(singles)) then Failure else Answer(Existing(db, [id]))
    {
      assert [id][1..] == [];
      assert Existing(db, [id]) == if id in db then [db[id]] else [];
      var one := GetOne(id);
      match one
      case Answer(f) => r := Answer([f]);
      case NotFound => r := Answer([]);
      case _ => r := Failure;
    }

    /** mediaFilesBatch: halves a failing batch until the orphans are isolated. Asked for
        nothing, it would halve for ever on a 500. */
    method MediaFilesBatch(ids: seq<int>) returns (r: Reply<seq<MediaFile>>)
      requires ids == [] ==> !batchFault(batches).Spurious500?
      modifies this`batches, this`singles
      ensures r.Answer? || r.Failure?
      ensures r.Answer? ==> multiset(r.value) == multiset(Existing(db, ids))
      ensures Healthy() ==> r.Answer?
      ensures old(batches) < batches <= old(batches) + if ids == [] then 1 else 2 * |ids| - 1
      ensures old(singles) <= singles <= old(singles) + |ids|
      decreases |ids|
    {
      hide Existing;
      r := GetBatch(ids);
      if !r.Status500? {
        return;
      }
      if |ids| == 1 {
        assert ids == [ids[0]];
        r := MediaFileOne(ids[0]);
        return;
      }
      var half := |ids| / 2;
      var a := MediaFilesBatch(ids[..half]);
      if a.Failure? {
        return Failure;
      }
      var b := MediaFilesBatch(ids[half..]);
      if b.Failure? {
        return Failure;
      }
      ExistingAppend(db, ids[..half], ids[half..]);
      assert ids[..half] + ids[half..] == ids;
      r := Answer(a.value + b.value);
    }

    /** MediaFiles: exactly the requested files that exist, whatever ids are orphans
        and whatever batch requests fail with a 500 for no reason. */
    method MediaFiles(ids: seq<int>) returns (r: Reply<seq<MediaFile>>)
      modifies this`batches, this`singles
      ensures r.Answer? || r.Failure?
      ensures r.Answer? ==> multiset(r.value) == multiset(Existing(db, ids))
      ensures Healthy() ==> r.Answer?
      ensures batches <= old(batches) + 2 * |ids| && singles <= old(singles) + |ids|
      ensures ids != [] ==> batches <= old(batches) + 2 * |ids| - 1
    {
      hide Existing, Healthy;
      var out: seq<MediaFile> := [];
      var start := 0;
      ExistingNone(db);
      while start < |ids|
        invariant 0 <= start <= |ids|
        invariant multiset(out) == multiset(Existing(db, ids[..start]))
        invariant batches <= old(batches) + 2 * start && singles <= old(singles) + start
        invariant start > 0 ==> batches <= old(batches) + 2 * start - 1
      {
        var end := if start + IDS_PER_CALL <= |ids| then start + IDS_PER_CALL else |ids|;
        var batch := MediaFilesBatch(ids[start..end]);
        if batch.Failure? {
          return Failure;
        }
        ExistingAppend(db, ids[..start], ids[start..end]);
        assert ids[..end] == ids[..start] + ids[start..end];
        out := out + batch.value;
        start := end;
      }
      assert ids[..|ids|] == ids;
      r := Answer(out);
    }
  }
}

/** Which torrent each imported file came from, read from the *arr history. */
module ImportHistory {
  import opened Wrappers
  import opened Ascii

  /** fileId is None when the event's file id is not a number. */
  datatype HistoryRecord = HistoryRecord(fileId: Option<int>, downloadId: string, indexer: string, date: int)

  const PAGE_SIZE := 1000

  predicate IsInfoHash(s: string) {
    |s| == 40 && forall i :: 0 <= i < |s| ==> '0' <= s[i] <= '9' || 'a' <= s[i] <= 'f'
  }

  /** The record names a file and a torrent and is not older than the window. */
  predicate Counts(r: HistoryRecord, since: Option<int>) {
    r.fileId.Some? && IsInfoHash(Lower(r.downloadId)) && (since.Some? ==> r.date >= since.value)
  }

  /** A digit or a letter up to f, small or capital. */
  predicate IsHex(c: char) { '0' <= c <= '9' || 'a' <= c <= 'f' || 'A' <= c <= 'F' }

  lemma LowerHex(s: string)
    ensures IsInfoHash(Lower(s)) <==> |s| == 40 && forall i :: 0 <= i < |s| ==> IsHex(s[i])
  {
    hide Lower, LowerChar, IsHex;
    LowerLength(s);
    forall i | 0 <= i < |s|
      ensures '0' <= Lower(s)[i] <= '9' || 'a' <= Lower(s)[i] <= 'f' <==> IsHex(s[i])
    {
      LowerAt(s, i);
      LowerHexChar(s[i]);
    }
  }

  lemma LowerHexChar(c: char)
    ensures '0' <= LowerChar(c) <= '9' || 'a' <= LowerChar(c) <= 'f' <==> IsHex(c)
  {
  }

  /** A record counts exactly when it names a file by number and a torrent by forty hex
      digits, and is not older than the window. */
  lemma CountsExactly(r: HistoryRecord, since: Option<int>)
    ensures Counts(r, since)
            <==> && r.fileId.Some? && |r.downloadId| == 40
                 && (forall i :: 0 <= i < 40 ==> IsHex(r.downloadId[i]))
                 && !(since.Some? && r.date < since.value)
  {
    hide Lower, IsInfoHash;
    LowerHex(r.downloadId);
  }

  datatype Import = Import(hash: string, at: int)

  /** The import in force for each file after reading the records in order. */
  function Latest(rs: seq<HistoryRecord>, since: Option<int>): map<int, Import> {
    if rs == [] then map[]
    else
      var r := rs[|rs| - 1];
      var m := Latest(rs[..|rs| - 1], since);
      if Counts(r, since) && (r.fileId.value !in m || r.date > m[r.fileId.value].at)
      then m[r.fileId.value := Import(Lower(r.downloadId), r.date)]
      else m
  }

  function HashOf(rs: seq<HistoryRecord>, since: Option<int>): map<int, string> {
    map id | id in Latest(rs, since) :: Latest(rs, since)[id].hash
  }

  method LatestImports(rs: seq<HistoryRecord>, since: Option<int>) returns (out: map<int, string>)
    ensures out == HashOf(rs, since)
  {
    var latest: map<int, Import> := map[];
    for i := 0 to |rs|
      invariant latest == Latest(rs[..i], since)
    {
      hide Counts, Lower;
      assert rs[..i + 1][..i] == rs[..i];
      var r := rs[i];
      if !Counts(r, since) {
        continue;
      }
      assert r.fileId.Some? by { CountsHasFile(r, since); }
      if r.fileId.value !in latest || r.date > latest[r.fileId.value].at {
        latest := latest[r.fileId.value := Import(Lower(r.downloadId), r.date)];
      }
    }
    assert rs[..|rs|] == rs;
    out := map id | id in latest :: latest[id].hash;
  }

  lemma CountsHasFile(r: HistoryRecord, since: Option<int>)
    requires Counts(r, since)
    ensures r.fileId.Some?
  {
  }

  /** The record at i is the newest that counts for its file, and the first of those
      with its date. */
  ghost predicate IsNewest(rs: seq<HistoryRecord>, since: Option<int>, id: int, i: nat) {
    && i < |rs| && Counts(rs[i], since) && rs[i].fileId.value == id
    && (forall j :: 0 <= j < |rs| && Counts(rs[j], since) && rs[j].fileId.value == id ==>
          rs[j].date <= rs[i].date && (j < i ==> rs[j].date < rs[i].date))
  }

  lemma {:induction false} UnmappedHasNone(rs: seq<HistoryRecord>, since: Option<int>, id: int, j: nat)
    requires id !in Latest(rs, since) && j < |rs| && Counts(rs[j], since)
    ensures rs[j].fileId.value != id
    decreases |rs|
  {
    hide IsInfoHash, Lower;
    if j < |rs| - 1 {
      UnmappedHasNone(rs[..|rs| - 1], since, id, j);
    }
  }

  /** Each file maps to its newest counting import. */
  lemma {:induction false} LatestIsNewest(rs: seq<HistoryRecord>, since: Option<int>, id: int) returns (i: nat)
    requires id in Latest(rs, since)
    ensures IsNewest(rs, since, id, i) && Latest(rs, since)[id] == Import(Lower(rs[i].downloadId), rs[i].date)
    decreases |rs|
  {
    hide IsInfoHash, Lower;
    var n := |rs| - 1;
    var init, r := rs[..n], rs[n];
    if id !in Latest(init, since) {
      i := n;
      forall j | 0 <= j < n && Counts(rs[j], since) ensures rs[j].fileId.value != id {
        UnmappedHasNone(init, since, id, j);
      }
    } else {
      i := LatestIsNewest(init, since, id);
      assert forall j :: 0 <= j < n ==> rs[j] == init[j];
      if Counts(r, since) && r.fileId.value == id && r.date > Latest(init, since)[id].at {
        i := n;
      }
    }
  }

  /** The indexer of each torrent's last grab that names one. */
  function Indexers(rs: seq<HistoryRecord>): map<string, string> {
    if rs == [] then map[]
    else
      var r := rs[|rs| - 1];
      var m := Indexers(rs[..|rs| - 1]);
      if IsInfoHash(Lower(r.downloadId)) && r.indexer != "" then m[Lower(r.downloadId) := r.indexer] else m
  }

  /** The record is a grab of the torrent that names its indexer. */
  predicate Names(r: HistoryRecord, hash: string) {
    IsInfoHash(Lower(r.downloadId)) && Lower(r.downloadId) == hash && r.indexer != ""
  }

  /** Each torrent maps to the indexer of the last record that names one for it. */
  lemma {:induction false} IndexerIsLast(rs: seq<HistoryRecord>, hash: string) returns (i: nat)
    requires hash in Indexers(rs)
    ensures i < |rs| && Names(rs[i], hash) && Indexers(rs)[hash] == rs[i].indexer
    ensures forall j :: i < j < |rs| ==> !Names(rs[j], hash)
    decreases |rs|
  {
    hide IsInfoHash, Lower;
    var n := |rs| - 1;
    if Names(rs[n], hash) {
      i := n;
    } else {
      i := IndexerIsLast(rs[..n], hash);
    }
  }

  lemma {:induction false} NoIndexerHasNone(rs: seq<HistoryRecord>, hash: string, j: nat)
    requires hash !in Indexers(rs) && j < |rs|
    ensures !Names(rs[j], hash)
    decreases |rs|
  {
    hide IsInfoHash, Lower;
    if j < |rs| - 1 {
      NoIndexerHasNone(rs[..|rs| - 1], hash, j);
    }
  }

  method GrabIndexers(rs: seq<HistoryRecord>) returns (out: map<string, string>)
    ensures out == Indexers(rs)
  {
    hide IsInfoHash, Lower;
    out := map[];
    for i := 0 to |rs|
      invariant out == Indexers(rs[..i])
    {
      assert rs[..i + 1][..i] == rs[..i];
      var h := Lower(rs[i].downloadId);
      if IsInfoHash(h) && rs[i].indexer != "" {
        out := out[h := rs[i].indexer];
      }
    }
    assert rs[..|rs|] == rs;
  }

  ghost predicate NewestFirst(rs: seq<HistoryRecord>) {
    forall i, j :: 0 <= i <= j < |rs| ==> rs[i].date >= rs[j].date
  }

  /** historyEvents: whole pages of the date-descending history, until one comes back
      short or its oldest record is before the window; None when a page request fails. */
  method HistoryEvents(history: seq<HistoryRecord>, stopBefore: Option<int>, fails: nat -> bool)
      returns (r: Option<seq<HistoryRecord>>)
    ensures r.None? ==> exists n :: fails(n)
    ensures r.Some? ==>
              var all := r.value;
              && all <= history
              && (|all| < |history| ==> all != [] && stopBefore.Some? && all[|all| - 1].date < stopBefore.value)
              && (forall k: nat :: 0 < k * PAGE_SIZE < |all| && stopBefore.Some? ==>
                    history[k * PAGE_SIZE - 1].date >= stopBefore.value)
  {
    var all: seq<HistoryRecord> := [];
    var pages: nat := 0;
    while true
      invariant all <= history && |all| == pages * PAGE_SIZE
      invariant forall k: nat :: 0 < k <= pages && stopBefore.Some? ==>
                  history[k * PAGE_SIZE - 1].date >= stopBefore.value
      decreases |history| - |all|
    {
      if fails(pages) {
        return None;
      }
      var end := if |all| + PAGE_SIZE <= |history| then |all| + PAGE_SIZE else |history|;
      var page := history[|all|..end];
      assert history[..end] == history[..|all|] + page;
      all := all + page;
      assert all == history[..end];
      if |page| < PAGE_SIZE {
        return Some(all);
      }
      if stopBefore.Some? && page[|page| - 1].date < stopBefore.value {
        return Some(all);
      }
      pages := pages + 1;
    }
  }

  lemma {:induction false} OldRecordsDoNotCount(history: seq<HistoryRecord>, n: nat, since: Option<int>)
    requires n <= |history| && forall i :: n <= i < |history| ==> !Counts(history[i], since)
    ensures Latest(history, since) == Latest(history[..n], since)
    decreases |history|
  {
    hide Counts, Lower;
    if n < |history| {
      OldRecordsDoNotCount(history[..|history| - 1], n, since);
      assert history[..|history| - 1][..n] == history[..n];
    } else {
      assert history[..n] == history;
    }
  }

  /** Stopping at the window's edge loses nothing: the pages fetched give the same
      file-to-torrent map as the whole history. */
  method FetchImports(history: seq<HistoryRecord>, since: Option<int>, fails: nat -> bool)
      returns (r: Option<map<int, string>>)
    requires NewestFirst(history)
    ensures r.None? ==> exists n :: fails(n)
    ensures r.Some? ==> r.value == HashOf(history, since)
  {
    var fetched := HistoryEvents(history, since, fails);
    if fetched.None? {
      return None;
    }
    var records := fetched.value;
    var hashOf := LatestImports(records, since);
    if |records| < |history| {
      assert records[|records| - 1] == history[|records| - 1];
      assert forall i :: |records| <= i < |history| ==> history[i].date < since.value;
      OldRecordsDoNotCount(history, |records|, since);
      assert history[..|records|] == records;
    } else {
      assert records == history;
    }
    r := Some(hashOf);
  }

  lemma {:induction false} HashesAreInfoHashes(rs: seq<HistoryRecord>, since: Option<int>)
    ensures forall id :: id in HashOf(rs, since) ==> IsInfoHash(HashOf(rs, since)[id])
  {
    hide IsInfoHash, Lower, Latest;
    forall id | id in HashOf(rs, since) ensures IsInfoHash(HashOf(rs, since)[id]) {
      var i := LatestIsNewest(rs, since, id);
    }
  }
}

/** Which indexer flags TrueSpec says must change. */
module FlagPlan {
  import opened Wrappers
  import opened Ascii
  import opened MediaFetch

  const FREELEECH: Flags := 1

  function InternalFlag(app: string): Flags {
    if app == "sonarr" then 8 else if app == "radarr" then 32 else 0
  }

  datatype TrueSpecState = TrueSpecState(verified: bool, mismatch: bool)

  type Database = map<string, TrueSpecState>

  datatype FlagChange = FlagChange(id: int, flags: Flags, was: Flags, hash: string, verified: bool, fromTC: bool)

  datatype Inputs = Inputs(
    app: string,
    hashOf: map<int, string>,
    indexerOf: map<string, string>,
    trueSpec: Database,
    tcMatch: string)

  predicate ContainsText(s: string, sub: string) {
    exists i :: 0 <= i <= |s| - |sub| && FoundAt(s, sub, i)
  }

  predicate FoundAt(s: string, sub: string, i: nat) { i + |sub| <= |s| && s[i..i + |sub|] == sub }

  predicate FromTC(n: Inputs, hash: string) {
    n.tcMatch != "" && ContainsText(Lower(if hash in n.indexerOf then n.indexerOf[hash] else ""), Lower(n.tcMatch))
  }

  function NextFlags(was: Flags, internal: Flags, verified: bool, fromTC: bool): Flags {
    var n := if verified then was | internal else if fromTC then was & !internal else was;
    if fromTC then n & !FREELEECH else n
  }

  function PlanOne(f: MediaFile, n: Inputs): Option<FlagChange> {
    var hash := if f.id in n.hashOf then n.hashOf[f.id] else "";
    if f.flags.None? || hash == "" || hash !in n.trueSpec then None
    else
      var was, verified, fromTC := f.flags.value, n.trueSpec[hash].verified, FromTC(n, hash);
      var next := NextFlags(was, InternalFlag(n.app), verified, fromTC);
      if next == was then None else Some(FlagChange(f.id, next, was, hash, verified, fromTC))
  }

  function Plan(files: seq<MediaFile>, n: Inputs): seq<FlagChange> {
    if files == [] || InternalFlag(n.app) == 0 then []
    else (if PlanOne(files[0], n).Some? then [PlanOne(files[0], n).value] else []) + Plan(files[1..], n)
  }

  method PlanFlagChanges(files: seq<MediaFile>, n: Inputs) returns (out: seq<FlagChange>)
    ensures out == Plan(files, n)
  {
    hide PlanOne;
    out := [];
    if InternalFlag(n.app) == 0 {
      return;
    }
    for i := 0 to |files|
      invariant Plan(files, n) == out + Plan(files[i..], n)
    {
      assert files[i..][1..] == files[i + 1..];
      var c := PlanOne(files[i], n);
      if c.Some? {
        out := out + [c.value];
      }
    }
  }

  // --- What a plan may touch ---------------------------------------------------------------------

  /** The two differ in the Internal and Freeleech bits at most. */
  predicate DifferOnlyIn(was: Flags, next: Flags, internal: Flags) {
    (was ^ next) & !(internal | FREELEECH) == 0
  }

  lemma BitsTouched(was: Flags, internal: Flags, verified: bool, fromTC: bool)
    ensures DifferOnlyIn(was, NextFlags(was, internal, verified, fromTC), internal)
    ensures !verified && !fromTC ==> NextFlags(was, internal, verified, fromTC) == was
    ensures fromTC && internal & FREELEECH == 0 ==> NextFlags(was, internal, verified, fromTC) & FREELEECH == 0
    ensures verified && internal & FREELEECH == 0 ==> NextFlags(was, internal, verified, fromTC) & internal == internal
  {
  }

  /** The flags a file should have: Internal set if verified, cleared if not and from the
      tracker; Freeleech cleared if from the tracker; every other bit as it was. */
  predicate Wanted(was: Flags, next: Flags, internal: Flags, verified: bool, fromTC: bool) {
    && next & internal == (if verified then internal else if fromTC then 0 else was & internal)
    && next & 1 == (if fromTC then 0 else was & 1)
    && next & !(internal | 1) == was & !(internal | 1)
  }

  /** The Internal bit is not the Freeleech bit. */
  predicate Apart(internal: Flags) { internal & 1 == 0 }

  lemma NextIsWanted(was: Flags, internal: Flags, verified: bool, fromTC: bool)
    requires Apart(internal)
    ensures Wanted(was, NextFlags(was, internal, verified, fromTC), internal, verified, fromTC)
  {
    hide Wanted, Apart, NextFlags;
    if verified && fromTC {
      VerifiedTracker(was, internal);
    } else if verified {
      VerifiedOther(was, internal);
    } else if fromTC {
      UnverifiedTracker(was, internal);
    } else {
      UnverifiedOther(was, internal);
    }
  }

  lemma UnverifiedOther(was: Flags, internal: Flags)
    ensures Wanted(was, NextFlags(was, internal, false, false), internal, false, false)
  {
  }

  lemma VerifiedTracker(was: Flags, internal: Flags)
    requires Apart(internal)
    ensures Wanted(was, NextFlags(was, internal, true, true), internal, true, true)
  {
  }

  lemma VerifiedOther(was: Flags, internal: Flags)
    requires Apart(internal)
    ensures Wanted(was, NextFlags(was, internal, true, false), internal, true, false)
  {
  }

  lemma UnverifiedTracker(was: Flags, internal: Flags)
    requires Apart(internal)
    ensures Wanted(was, NextFlags(was, internal, false, true), internal, false, true)
  {
  }

  /** Only one value is wanted. */
  lemma WantedOnce(was: Flags, a: Flags, b: Flags, internal: Flags, verified: bool, fromTC: bool)
    requires Wanted(was, a, internal, verified, fromTC) && Wanted(was, b, internal, verified, fromTC)
    ensures a == b
  {
    BitByBit(a, internal);
    BitByBit(b, internal);
  }

  lemma BitByBit(a: Flags, internal: Flags)
    ensures a == (a & internal) | (a & 1) | (a & !(internal | 1))
  {
  }

  lemma FlagsApart(app: string)
    ensures InternalFlag(app) == (if app == "sonarr" then 8 else if app == "radarr" then 32 else 0)
    ensures Apart(InternalFlag(app))
  {
  }

  /** The tracker's name appears in the indexer's, in whatever case. */
  ghost predicate Mentions(indexer: string, match': string) {
    match' != "" && exists a, b :: Lower(indexer) == a + Lower(match') + b
  }

  lemma ContainsExactly(s: string, sub: string)
    ensures ContainsText(s, sub) <==> exists a, b :: s == a + sub + b
  {
    if ContainsText(s, sub) {
      var i :| 0 <= i <= |s| - |sub| && FoundAt(s, sub, i);
      assert s == s[..i] + sub + s[i + |sub|..];
    }
    if a, b :| s == a + sub + b {
      assert s[|a|..|a| + |sub|] == sub;
      assert FoundAt(s, sub, |a|);
    }
  }

  lemma FromTCExactly(n: Inputs, hash: string)
    ensures FromTC(n, hash) <==> Mentions(if hash in n.indexerOf then n.indexerOf[hash] else "", n.tcMatch)
  {
    hide ContainsText, Lower;
    ContainsExactly(Lower(if hash in n.indexerOf then n.indexerOf[hash] else ""), Lower(n.tcMatch));
  }

  /** What is planned for a file: nothing when its flags or its torrent are not known, or when
      it has the wanted flags; otherwise the wanted flags. */
  lemma PlanOneExact(f: MediaFile, n: Inputs, next: Flags)
    ensures var hash := if f.id in n.hashOf then n.hashOf[f.id] else "";
            if f.flags.None? || hash == "" || hash !in n.trueSpec then PlanOne(f, n).None?
            else
              var was, verified := f.flags.value, n.trueSpec[hash].verified;
              var fromTC := Mentions(if hash in n.indexerOf then n.indexerOf[hash] else "", n.tcMatch);
              Wanted(was, next, InternalFlag(n.app), verified, fromTC) ==>
                PlanOne(f, n) == if next == was then None
                                 else Some(FlagChange(f.id, next, was, hash, verified, fromTC))
  {
    hide NextFlags, Wanted, FromTC, Mentions, InternalFlag, Apart;
    var hash := if f.id in n.hashOf then n.hashOf[f.id] else "";
    if !(f.flags.None? || hash == "" || hash !in n.trueSpec) {
      var was, verified, internal := f.flags.value, n.trueSpec[hash].verified, InternalFlag(n.app);
      FlagsApart(n.app);
      FromTCExactly(n, hash);
      if Wanted(was, next, internal, verified, FromTC(n, hash)) {
        OnlyNext(was, next, internal, verified, FromTC(n, hash));
      }
    }
  }

  lemma OnlyNext(was: Flags, next: Flags, internal: Flags, verified: bool, fromTC: bool)
    requires Apart(internal) && Wanted(was, next, internal, verified, fromTC)
    ensures next == NextFlags(was, internal, verified, fromTC)
  {
    hide NextFlags, Wanted, Apart;
    NextIsWanted(was, internal, verified, fromTC);
    WantedOnce(was, next, NextFlags(was, internal, verified, fromTC), internal, verified, fromTC);
  }

  lemma SetThenDrop(w: Flags, i: Flags)
    ensures (((w | i) & !FREELEECH) | i) & !FREELEECH == (w | i) & !FREELEECH
  {
  }

  lemma DropBoth(w: Flags, i: Flags)
    ensures (((w & !i) & !FREELEECH) & !i) & !FREELEECH == (w & !i) & !FREELEECH
  {
  }

  lemma SetTwice(w: Flags, i: Flags)
    ensures (w | i) | i == w | i
  {
  }

  lemma NextFlagsSettles(was: Flags, internal: Flags, verified: bool, fromTC: bool)
    ensures var next := NextFlags(was, internal, verified, fromTC);
            NextFlags(next, internal, verified, fromTC) == next
  {
    if verified && fromTC {
      SetThenDrop(was, internal);
    } else if verified {
      SetTwice(was, internal);
    } else if fromTC {
      DropBoth(was, internal);
    }
  }

  /** Every planned change is of a listed file whose torrent is known, and differs from
      what it had in the Internal and Freeleech bits alone. */
  lemma {:induction false} OnlyKnownFilesAndBits(files: seq<MediaFile>, n: Inputs, c: FlagChange)
    requires c in Plan(files, n)
    ensures MediaFile(c.id, Some(c.was)) in files
    ensures c.id in n.hashOf && n.hashOf[c.id] == c.hash && c.hash in n.trueSpec
    ensures c.flags != c.was && DifferOnlyIn(c.was, c.flags, InternalFlag(n.app))
    decreases |files|
  {
    hide InternalFlag, PlanOne, DifferOnlyIn;
    if PlanOne(files[0], n) == Some(c) {
      PlanOneTouches(files[0], n);
    } else {
      OnlyKnownFilesAndBits(files[1..], n, c);
    }
  }

  lemma PlanOneTouches(f: MediaFile, n: Inputs)
    requires PlanOne(f, n).Some?
    ensures var c := PlanOne(f, n).value;
            && f == MediaFile(c.id, Some(c.was))
            && c.id in n.hashOf && n.hashOf[c.id] == c.hash && c.hash in n.trueSpec
            && c.flags != c.was && DifferOnlyIn(c.was, c.flags, InternalFlag(n.app))
  {
    hide NextFlags, InternalFlag, FromTC, DifferOnlyIn;
    var c := PlanOne(f, n).value;
    BitsTouched(c.was, InternalFlag(n.app), c.verified, c.fromTC);
  }

  /** The files after the changes were written back. */
  function Applied(f: MediaFile, changes: seq<FlagChange>): MediaFile {
    if changes == [] then f
    else if changes[0].id == f.id then f.(flags := Some(changes[0].flags))
    else Applied(f, changes[1..])
  }

  function ApplyAll(files: seq<MediaFile>, changes: seq<FlagChange>): (r: seq<MediaFile>)
    ensures |r| == |files| && forall i :: 0 <= i < |files| ==> r[i] == Applied(files[i], changes)
  {
    if files == [] then [] else [Applied(files[0], changes)] + ApplyAll(files[1..], changes)
  }

  ghost predicate DistinctIds(files: seq<MediaFile>) {
    forall i, j :: 0 <= i < j < |files| ==> files[i].id != files[j].id
  }

  /** A file gets exactly its own planned flags. */
  lemma {:induction false} AppliedIsOwn(files: seq<MediaFile>, n: Inputs, i: nat)
    requires DistinctIds(files) && i < |files| && InternalFlag(n.app) != 0
    ensures var own := PlanOne(files[i], n);
            Applied(files[i], Plan(files, n))
            == if own.None? then files[i] else files[i].(flags := Some(own.value.flags))
    decreases |files|
  {
    hide InternalFlag, PlanOne;
    var rest := Plan(files[1..], n);
    PlanOneId(files[0], n);
    if i == 0 {
      NoChangeOf(files[1..], n, files[0].id);
      NotApplied(files[0], rest);
      if PlanOne(files[0], n).Some? {
        assert Plan(files, n)[0] == PlanOne(files[0], n).value;
      } else {
        assert Plan(files, n) == rest;
      }
    } else {
      AppliedIsOwn(files[1..], n, i - 1);
      if PlanOne(files[0], n).Some? {
        assert Plan(files, n)[1..] == rest;
      } else {
        assert Plan(files, n) == rest;
      }
    }
  }

  lemma PlanOneId(f: MediaFile, n: Inputs)
    ensures PlanOne(f, n).Some? ==> PlanOne(f, n).value.id == f.id
  {
  }

  lemma {:induction false} NotApplied(f: MediaFile, changes: seq<FlagChange>)
    requires forall c :: c in changes ==> c.id != f.id
    ensures Applied(f, changes) == f
    decreases |changes|
  {
    if changes != [] {
      assert changes[0] in changes;
      NotApplied(f, changes[1..]);
    }
  }

  lemma {:induction false} NoChangeOf(files: seq<MediaFile>, n: Inputs, id: int)
    requires forall i :: 0 <= i < |files| ==> files[i].id != id
    ensures forall c :: c in Plan(files, n) ==> c.id != id
    decreases |files|
  {
    hide PlanOne, InternalFlag;
    if files != [] {
      PlanOneId(files[0], n);
      NoChangeOf(files[1..], n, id);
    }
  }

  lemma PlanOneSettles(f: MediaFile, n: Inputs)
    ensures PlanOne(f, n).Some? ==> PlanOne(f.(flags := Some(PlanOne(f, n).value.flags)), n).None?
  {
    hide NextFlags, InternalFlag, FromTC;
    if PlanOne(f, n).Some? {
      var c := PlanOne(f, n).value;
      NextFlagsSettles(c.was, InternalFlag(n.app), c.verified, c.fromTC);
    }
  }

  lemma {:induction false} NothingPlanned(files: seq<MediaFile>, n: Inputs)
    requires forall i :: 0 <= i < |files| ==> PlanOne(files[i], n).None?
    ensures Plan(files, n) == []
    decreases |files|
  {
    hide PlanOne, InternalFlag;
    if files != [] {
      NothingPlanned(files[1..], n);
    }
  }

  /** Planning again over the files as written back finds nothing left to change. */
  lemma PlanAgainIsEmpty(files: seq<MediaFile>, n: Inputs)
    requires DistinctIds(files)
    ensures Plan(ApplyAll(files, Plan(files, n)), n) == []
  {
    hide PlanOne, InternalFlag, Plan, Applied;
    if InternalFlag(n.app) == 0 {
      NoPlanWithoutFlags(files, n);
      NoPlanWithoutFlags(ApplyAll(files, Plan(files, n)), n);
    } else {
      forall i | 0 <= i < |files| ensures PlanOne(ApplyAll(files, Plan(files, n))[i], n).None? {
        AppliedIsOwn(files, n, i);
        PlanOneSettles(files[i], n);
      }
      NothingPlanned(ApplyAll(files, Plan(files, n)), n);
    }
  }

  lemma NoPlanWithoutFlags(files: seq<MediaFile>, n: Inputs)
    requires InternalFlag(n.app) == 0
    ensures Plan(files, n) == []
  {
  }
}

/** The reconciliation: only five characters of each infohash leave the machine. */
module TrueSpecSync {
  import opened Wrappers
  import opened MediaFetch
  import opened ImportHistory
  import opened FlagPlan

  const PREFIX_LEN := 5
  const MAX_PREFIXES_PER_CALL := 100

  /** What the server answers: every torrent that starts with one of the prefixes. */
  function Lookup(db: Database, prefixes: seq<string>): Database {
    map h | h in db && |h| >= PREFIX_LEN && h[..PREFIX_LEN] in prefixes :: db[h]
  }

  lemma LookupAppend(db: Database, a: seq<string>, b: seq<string>)
    ensures Lookup(db, a + b) == Lookup(db, a) + Lookup(db, b)
  {
  }

  /** lookupAll: the same answer, asked for a hundred prefixes at a time; None when one of
      the calls fails. */
  method LookupAll(db: Database, prefixes: seq<string>, fails: nat -> bool) returns (r: Option<Database>)
    ensures r.None? ==> exists n :: fails(n)
    ensures r.Some? ==> r.value == Lookup(db, prefixes)
  {
    var all: Database := map[];
    var start, calls := 0, 0;
    while start < |prefixes|
      invariant 0 <= start <= |prefixes| && calls >= 0
      invariant all == Lookup(db, prefixes[..start])
    {
      if fails(calls) {
        return None;
      }
      var end := if start + MAX_PREFIXES_PER_CALL <= |prefixes| then start + MAX_PREFIXES_PER_CALL else |prefixes|;
      var got := Lookup(db, prefixes[start..end]);
      LookupAppend(db, prefixes[..start], prefixes[start..end]);
      assert prefixes[..end] == prefixes[..start] + prefixes[start..end];
      all := all + got;
      start, calls := end, calls + 1;
    }
    assert prefixes[..|prefixes|] == prefixes;
    r := Some(all);
  }

  ghost predicate LongHashes(hashOf: map<int, string>) {
    forall id :: id in hashOf ==> |hashOf[id]| >= PREFIX_LEN
  }

  /** prefixesOf: each prefix once, in some order. */
  method PrefixesOf(hashOf: map<int, string>) returns (out: seq<string>)
    requires LongHashes(hashOf)
    ensures forall p :: p in out <==> exists id :: id in hashOf && hashOf[id][..5] == p
    ensures forall i, j :: 0 <= i < j < |out| ==> out[i] != out[j]
  {
    out := [];
    var ids: set<int> := hashOf.Keys;
    while exists x :: x in ids
      invariant ids <= hashOf.Keys
      invariant forall p :: p in out <==> exists id :: id in hashOf && id !in ids && hashOf[id][..PREFIX_LEN] == p
      invariant forall i, j :: 0 <= i < j < |out| ==> out[i] != out[j]
      decreases ids
    {
      var id :| id in ids;
      var p := hashOf[id][..PREFIX_LEN];
      if p !in out {
        out := out + [p];
      }
      ids := ids - {id};
    }
  }

  method IdsOf(hashOf: map<int, string>) returns (out: seq<int>)
    ensures forall id :: id in out <==> id in hashOf
    ensures forall i, j :: 0 <= i < j < |out| ==> out[i] != out[j]
  {
    out := [];
    var ids: set<int> := hashOf.Keys;
    while exists x :: x in ids
      invariant ids <= hashOf.Keys
      invariant forall id :: id in out <==> id in hashOf && id !in ids
      invariant forall i, j :: 0 <= i < j < |out| ==> out[i] != out[j]
      decreases ids
    {
      var id :| id in ids;
      out := out + [id];
      ids := ids - {id};
    }
  }

  /** The plan from the prefix answer equals the plan from the whole database, for every
      database and every import map. */
  lemma {:induction false} PrefixPlanIsFullPlan(files: seq<MediaFile>, n: Inputs, db: Database, prefixes: seq<string>)
    requires forall id :: id in n.hashOf ==> |n.hashOf[id]| >= PREFIX_LEN && n.hashOf[id][..PREFIX_LEN] in prefixes
    ensures Plan(files, n.(trueSpec := Lookup(db, prefixes))) == Plan(files, n.(trueSpec := db))
    decreases |files|
  {
    hide InternalFlag, NextFlags, ContainsText;
    if files != [] {
      PrefixPlanIsFullPlan(files[1..], n, db, prefixes);
    }
  }

  /** How often a change is planned depends only on how often its file is listed. */
  lemma {:induction false} PlanCount(files: seq<MediaFile>, n: Inputs, c: FlagChange)
    requires InternalFlag(n.app) != 0
    ensures var f := MediaFile(c.id, Some(c.was));
            multiset(Plan(files, n))[c] == if PlanOne(f, n) == Some(c) then multiset(files)[f] else 0
    decreases |files|
  {
    hide InternalFlag, NextFlags, FromTC, PlanOne;
    if files != [] {
      var f := MediaFile(c.id, Some(c.was));
      PlanCount(files[1..], n, c);
      assert files == [files[0]] + files[1..];
      assert multiset(files)[f] == multiset(files[1..])[f] + if files[0] == f then 1 else 0;
      var one := PlanOne(files[0], n);
      ChangeTellsFile(files[0], n);
      if one.Some? {
        assert multiset([one.value] + Plan(files[1..], n))[c]
            == multiset(Plan(files[1..], n))[c] + if one.value == c then 1 else 0;
      }
    }
  }

  lemma ChangeTellsFile(f: MediaFile, n: Inputs)
    ensures PlanOne(f, n).Some? ==> f == MediaFile(PlanOne(f, n).value.id, Some(PlanOne(f, n).value.was))
  {
  }

  /** What the naive reconciliation would plan: the whole history, every file asked for
      one by one, every torrent looked up by its full hash. */
  ghost predicate NaivelyPlanned(library: map<int, MediaFile>, n: Inputs, c: FlagChange) {
    c.id in n.hashOf && c.id in library && PlanOne(library[c.id], n) == Some(c)
  }

  /** changes are exactly the naive ones, each once. */
  ghost predicate IsNaivePlan(library: map<int, MediaFile>, n: Inputs, changes: seq<FlagChange>) {
    forall c :: multiset(changes)[c] == if NaivelyPlanned(library, n, c) then 1 else 0
  }

  /** This version of the *arr returns the flags of its files. */
  ghost predicate Exposed(library: map<int, MediaFile>) {
    forall id :: id in library ==> library[id].flags.Some?
  }

  /** Which requests of a sync fail, apart from those for the files. */
  datatype Faults = Faults(importPage: nat -> bool, grabPage: nat -> bool, lookup: nat -> bool, put: bool) {
    ghost predicate None() {
      !put && forall n :: !importPage(n) && !grabPage(n) && !lookup(n)
    }
  }

  /** SyncTrueSpecFlags up to its write: the paged, bisected, prefix-only
      reconciliation plans exactly the naive changes, each once. */
  method SyncPlan(client: Client, app: string, imports: seq<HistoryRecord>, grabs: seq<HistoryRecord>,
                  db: Database, since: Option<int>, tcMatch: string, faults: Faults)
      returns (r: Option<seq<FlagChange>>)
    requires NewestFirst(imports) && Keyed(client.db)
    modifies client`batches, client`singles
    ensures r.Some? ==>
              IsNaivePlan(client.db, Inputs(app, HashOf(imports, since), Indexers(grabs), db, tcMatch), r.value)
    ensures InternalFlag(app) != 0 && client.Healthy() && faults.None() && Exposed(client.db) ==> r.Some?
  {
    hide Plan, PlanOne, InternalFlag, Latest, IsInfoHash, Existing;
    if InternalFlag(app) == 0 {
      return None;
    }
    var fetched := FetchImports(imports, since, faults.importPage);
    if fetched.None? {
      return None;
    }
    var hashOf := fetched.value;
    var grabbed := HistoryEvents(grabs, None, faults.grabPage);
    if grabbed.None? {
      return None;
    }
    assert grabbed.value == grabs;
    var indexerOf := GrabIndexers(grabbed.value);
    if hashOf == map[] {
      return Some([]);
    }
    HashesAreInfoHashes(imports, since);
    r := PlanFetched(client, Inputs(app, hashOf, indexerOf, db, tcMatch), faults);
  }

  /** The second half: the files, the lookup and the plan. */
  method PlanFetched(client: Client, n: Inputs, faults: Faults) returns (r: Option<seq<FlagChange>>)
    requires Keyed(client.db) && InternalFlag(n.app) != 0
    requires forall id :: id in n.hashOf ==> IsInfoHash(n.hashOf[id])
    modifies client`batches, client`singles
    ensures r.Some? ==> IsNaivePlan(client.db, n, r.value)
    ensures client.Healthy() && faults.None() && Exposed(client.db) ==> r.Some?
  {
    hide Plan, PlanOne, InternalFlag, IsInfoHash, Existing;
    var ids := IdsOf(n.hashOf);
    var reply := client.MediaFiles(ids);
    if !reply.Answer? {
      return None;
    }
    var files := reply.value;
    forall f: MediaFile
      ensures multiset(files)[f] == if f.id in ids && f.id in client.db && client.db[f.id] == f then 1 else 0
    {
      ExistingOnce(client.db, ids, f);
    }
    if exists i :: 0 <= i < |files| && files[i].flags.None? {
      ghost var i :| 0 <= i < |files| && files[i].flags.None?;
      assert multiset(files)[files[i]] > 0;
      return None;
    }
    assert LongHashes(n.hashOf) by { LongEnough(n.hashOf); }
    var prefixes := PrefixesOf(n.hashOf);
    var state := LookupAll(n.trueSpec, prefixes, faults.lookup);
    if state.None? {
      return None;
    }
    var changes := PlanFlagChanges(files, n.(trueSpec := state.value));
    PrefixPlanIsFullPlan(files, n, n.trueSpec, prefixes);
    assert changes == Plan(files, n);
    forall c: FlagChange ensures multiset(changes)[c] == if NaivelyPlanned(client.db, n, c) then 1 else 0 {
      PlanCount(files, n, c);
      if c.id in client.db { ChangeTellsFile(client.db[c.id], n); }
    }
    r := Some(changes);
  }

  // --- The write-back ------------------------------------------------------------------------------

  /** The library after the bulk update. */
  function Patched(library: map<int, MediaFile>, changes: seq<FlagChange>): map<int, MediaFile> {
    map id | id in library :: Applied(library[id], changes)
  }

  lemma {:induction false} AppliedOwn(f: MediaFile, changes: seq<FlagChange>, own: FlagChange)
    requires own in changes && own.id == f.id && forall x :: x in changes && x.id == f.id ==> x == own
    ensures Applied(f, changes) == f.(flags := Some(own.flags))
    decreases |changes|
  {
    if changes[0].id != f.id {
      AppliedOwn(f, changes[1..], own);
    } else {
      assert changes[0] in changes;
    }
  }

  /** Once the naive plan is written back, there is nothing left to plan. */
  lemma PatchedSettles(library: map<int, MediaFile>, n: Inputs, changes: seq<FlagChange>, c: FlagChange)
    requires Keyed(library) && IsNaivePlan(library, n, changes)
    ensures !NaivelyPlanned(Patched(library, changes), n, c)
  {
    hide PlanOne, Applied;
    if c.id in n.hashOf && c.id in library {
      var f := library[c.id];
      var own := PlanOne(f, n);
      forall x | x in changes ensures NaivelyPlanned(library, n, x) { assert multiset(changes)[x] > 0; }
      PlanOneId(f, n);
      if own.Some? {
        assert NaivelyPlanned(library, n, own.value) && multiset(changes)[own.value] == 1;
        AppliedOwn(f, changes, own.value);
        PlanOneSettles(f, n);
      } else {
        NotApplied(f, changes);
      }
    }
  }

  datatype Report = Report(changes: seq<FlagChange>, applied: bool)

  /** SyncTrueSpecFlags: writes the plan back unless asked not to. A failed sync changes
      nothing, and one that was applied leaves nothing to do. */
  method SyncTrueSpecFlags(client: Client, app: string, imports: seq<HistoryRecord>, grabs: seq<HistoryRecord>,
                           db: Database, since: Option<int>, tcMatch: string, dryRun: bool, faults: Faults)
      returns (r: Option<Report>)
    requires NewestFirst(imports) && Keyed(client.db)
    modifies client`batches, client`singles, client`db
    ensures r.None? ==> client.db == old(client.db)
    ensures r.Some? ==>
              var naive := Inputs(app, HashOf(imports, since), Indexers(grabs), db, tcMatch);
              && IsNaivePlan(old(client.db), naive, r.value.changes)
              && (r.value.applied <==> !dryRun && r.value.changes != [])
              && client.db == (if r.value.applied then Patched(old(client.db), r.value.changes) else old(client.db))
              && (!dryRun ==> forall c :: !NaivelyPlanned(client.db, naive, c))
    ensures InternalFlag(app) != 0 && client.Healthy() && faults.None() && Exposed(old(client.db)) ==> r.Some?
  {
    hide PlanOne, InternalFlag, Latest, Patched;
    var plan := SyncPlan(client, app, imports, grabs, db, since, tcMatch, faults);
    if plan.None? {
      return None;
    }
    var changes := plan.value;
    ghost var naive := Inputs(app, HashOf(imports, since), Indexers(grabs), db, tcMatch);
    if dryRun || changes == [] {
      return Some(Report(changes, false));
    }
    if faults.put {
      return None;
    }
    forall c ensures !NaivelyPlanned(Patched(client.db, changes), naive, c) {
      PatchedSettles(client.db, naive, changes, c);
    }
    client.db := Patched(client.db, changes);
    r := Some(Report(changes, true));
  }

  lemma LongEnough(hashOf: map<int, string>)
    requires forall id :: id in hashOf ==> IsInfoHash(hashOf[id])
    ensures LongHashes(hashOf)
  {
  }
}
