/** Planning a restore against a machine, and applying the plan as a transaction. */
module RestorePlan {
  import opened Wrappers
  import opened Ascii
  import opened ConfigMerge
  import opened ConfigFit
  import opened BackupLimits
  import opened BackupArchive

  datatype Action = CreateFile | Overwrite | Unchanged

  /** One file a restore would touch; prev is what is on disk, None when absent. */
  datatype Item = Item(name: string, dest: string, action: Action, data: string, prev: Option<string>)

  predicate SecretFree(a: Archive) { a.manifest.secrets == SECRETS_REDACTED }

  function Held(a: Archive, name: string): string {
    if name in a.files then a.files[name] else ""
  }

  /** What restoring member name would write over cur. */
  function Fitted(c: Codec, quote: string -> string, a: Archive, name: string, cur: string): string {
    if name == CONFIG_NAME && SecretFree(a) then Fit(c.decode, quote, Held(a, name), cur) else Held(a, name)
  }

  function PlanOver(c: Codec, quote: string -> string, a: Archive, name: string, dest: string, cur: string)
      : Result<Item>
  {
    var data := Fitted(c, quote, a, name, cur);
    if name == CONFIG_NAME && SecretFree(a) && !Loads(c, name, data) then Err(BadContent)
    else Ok(Item(name, dest, if c.sum(cur) == c.sum(data) then Unchanged else Overwrite, data, Some(cur)))
  }

  /** The archive's own bytes must load, and carry no credential when it claims none. */
  function Refusal(c: Codec, a: Archive, name: string): Option<Error> {
    if name !in SOURCES then Some(UnsafePath)
    else if !Loads(c, name, Held(a, name)) then Some(BadContent)
    else if name == CONFIG_NAME && SecretFree(a) && !IsRedacted(c.decode, Held(a, name)) then Some(NotRedacted)
    else None
  }

  function PlanItem(c: Codec, quote: string -> string, a: Archive, l: Layout, disk: Disk, name: string): Result<Item> {
    var refusal := Refusal(c, a, name);
    if refusal.Some? then Err(refusal.value)
    else
      var dest := PathOf(l, name);
      match ReadSource(disk, dest)
      case Unreadable => Err(CannotRead)
      case Absent => Ok(Item(name, dest, CreateFile, Held(a, name), None))
      case Content(cur) => PlanOver(c, quote, a, name, dest, cur)
  }

  function PlanFrom(c: Codec, quote: string -> string, a: Archive, l: Layout, disk: Disk, files: seq<FileEntry>)
      : Result<seq<Item>>
    decreases |files|
  {
    if files == [] then Ok([])
    else
      match PlanItem(c, quote, a, l, disk, files[0].name)
      case Err(e) => Err(e)
      case Ok(it) =>
        match PlanFrom(c, quote, a, l, disk, files[1..])
        case Err(e) => Err(e)
        case Ok(rest) => Ok([it] + rest)
  }

  /** Plan: one item per file the manifest lists, in order, or the first refusal. */
  method Plan(c: Codec, quote: string -> string, a: Archive, l: Layout, disk: Disk) returns (r: Result<seq<Item>>)
    ensures r == PlanFrom(c, quote, a, l, disk, a.manifest.files)
  {
    hide PlanItem;
    var items: seq<Item> := [];
    var files := a.manifest.files;
    assert files[0..] == files && forall rest: seq<Item> :: [] + rest == rest;
    for i := 0 to |files|
      invariant PlanFrom(c, quote, a, l, disk, files) == match PlanFrom(c, quote, a, l, disk, files[i..])
                                                         case Err(e) => Err(e)
                                                         case Ok(rest) => Ok(items + rest)
    {
      assert files[i..][1..] == files[i + 1..];
      var it := PlanItem(c, quote, a, l, disk, files[i].name);
      if it.Err? {
        return Err(it.error);
      }
      assert forall rest: seq<Item> :: items + ([it.value] + rest) == (items + [it.value]) + rest;
      items := items + [it.value];
    }
    assert files[|files|..] == [] && items + [] == items;
    r := Ok(items);
  }

  /** Planning one file, in full. Only the two known files are planned, and only from bytes that
      load; a config that is said to hold no secrets must hold none. Where the file is absent
      it would be created with the archive's bytes. Where it is there, it is unchanged if its
      sum is that of what would be written, else overwritten; and what would be written is the
      archive's bytes, but for a secret-free config, which is fitted onto the machine's and
      must load. */
  lemma PlanItemExact(c: Codec, quote: string -> string, a: Archive, l: Layout, disk: Disk, name: string)
    ensures var r := PlanItem(c, quote, a, l, disk, name);
            if name != "config.toml" && name != "active-tasks.json" then r == Err(UnsafePath)
            else
              var config := name == "config.toml";
              var dest := if config then l.configPath else l.tasksPath;
              var bytes := if name in a.files then a.files[name] else "";
              var fits := config && a.manifest.secrets == "redacted";
              if !(if config then c.decode(bytes).Some? else c.loadsTasks(bytes)) then r == Err(BadContent)
              else if fits && exists s :: s in SECRETS && c.decode(bytes).value.Secret(s) != ""
              then r == Err(NotRedacted)
              else if dest in disk.unreadable then r == Err(CannotRead)
              else if dest !in disk.files then r == Ok(Item(name, dest, CreateFile, bytes, None))
              else
                var cur := disk.files[dest];
                var data := if fits then Fit(c.decode, quote, bytes, cur) else bytes;
                if fits && c.decode(data).None? then r == Err(BadContent)
                else
                  var action := if c.sum(cur) == c.sum(data) then Unchanged else Overwrite;
                  r == Ok(Item(name, dest, action, data, Some(cur)))
  {
    hide Fit;
  }

  lemma {:induction false} PlanExact(c: Codec, quote: string -> string, a: Archive, l: Layout, disk: Disk,
                                     files: seq<FileEntry>)
    ensures PlanFrom(c, quote, a, l, disk, files).Ok?
            <==> forall i :: 0 <= i < |files| ==> PlanItem(c, quote, a, l, disk, files[i].name).Ok?
    ensures PlanFrom(c, quote, a, l, disk, files).Ok? ==>
              var items := PlanFrom(c, quote, a, l, disk, files).value;
              && |items| == |files|
              && forall i :: 0 <= i < |files| ==> PlanItem(c, quote, a, l, disk, files[i].name) == Ok(items[i])
    decreases |files|
  {
    hide PlanItem;
    if files != [] {
      PlanExact(c, quote, a, l, disk, files[1..]);
      assert forall i :: 1 <= i < |files| ==> files[i] == files[1..][i - 1];
      if PlanFrom(c, quote, a, l, disk, files).Ok? {
        var items := PlanFrom(c, quote, a, l, disk, files).value;
        assert forall i :: 1 <= i < |files| ==> items[i] == items[1..][i - 1];
      }
    }
  }

  // --- A fresh machine ---------------------------------------------------------------------

  const FRESH := Disk(map[], {})

  /** What create puts in an archive, restore is willing to load. */
  lemma MembersAreWelcome(c: Codec, l: Layout, disk: Disk, redact: bool, k: Kind, m: Member, a: Archive)
    requires Faithful(c) && !k.PreRestore? && IsMemberOf(c, l, disk, redact, k, m) && m.name in SOURCES
    requires Held(a, m.name) == m.data && (SecretFree(a) ==> redact)
    ensures Refusal(c, a, m.name).None?
  {
    hide Lower, Redact;
  }

  /** Every manual or scheduled archive create writes opens with its passphrase and
      plans on an empty machine: each file it holds would be created as it is. */
  lemma CreateThenPlan(c: Codec, quote: string -> string, l: Layout, disk: Disk, k: Kind,
                       passphrase: string, about: string, l': Layout)
    requires Faithful(c) && !k.PreRestore?
    requires Create(c, l, disk, k, passphrase, about).Ok?
    ensures var files := Collected(c, l, disk, passphrase == "", k, SOURCES).value;
            var got := Open(c, Create(c, l, disk, k, passphrase, about).value, passphrase);
            got.Ok? && var plan := PlanFrom(c, quote, got.value, l', FRESH, got.value.manifest.files);
            plan.Ok? && |plan.value| == |files| && forall i :: 0 <= i < |files| ==>
              plan.value[i] == Item(files[i].name, PathOf(l', files[i].name), CreateFile, files[i].data, None)
  {
    hide Open, Create, Collected, Faithful, Refusal, FilesOf, IsMemberOf, DistinctNames;
    CreatedCollects(c, l, disk, k, passphrase, about);
    var files := Collected(c, l, disk, passphrase == "", k, SOURCES).value;
    CollectedShape(c, l, disk, passphrase == "", k);
    CreateThenOpen(c, l, disk, k, passphrase, about);
    var a := Open(c, Create(c, l, disk, k, passphrase, about).value, passphrase).value;
    var entries := a.manifest.files;
    forall i | 0 <= i < |files|
      ensures PlanItem(c, quote, a, l', FRESH, entries[i].name)
           == Ok(Item(files[i].name, PathOf(l', files[i].name), CreateFile, files[i].data, None))
    {
      assert files[i] in files;
      FilesOfHolds(files, files[i]);
      MembersAreWelcome(c, l, disk, passphrase == "", k, files[i], a);
    }
    PlanExact(c, quote, a, l', FRESH, entries);
  }

  lemma CreatedCollects(c: Codec, l: Layout, disk: Disk, k: Kind, passphrase: string, about: string)
    requires Create(c, l, disk, k, passphrase, about).Ok?
    ensures Collected(c, l, disk, !KeepsSecrets(passphrase, k), k, SOURCES).Ok?
  {
  }
}

/** Applying a plan: snapshot first, then replace the files one by one, putting back
    the ones already replaced as soon as one cannot be written. */
module RestoreApply {
  import opened RestorePlan

  type Files = map<string, string>

  predicate SameAt(f: Files, g: Files, p: string) {
    (p in f <==> p in g) && (p in f ==> f[p] == g[p])
  }

  /** A file system whose operations fail in any pattern; a failed one changes
      nothing, as the write goes to a temporary file that is renamed last. */
  class FileSystem {
    var files: Files
    var ops: nat
    const fails: nat -> bool

    constructor (files: Files, fails: nat -> bool)
      ensures this.files == files && this.fails == fails
    {
      this.files, ops, this.fails := files, 0, fails;
    }

    method WriteFileAtomic(path: string, data: string) returns (ok: bool)
      modifies this
      ensures ok == !fails(old(ops)) && ops == old(ops) + 1
      ensures files == if ok then old(files)[path := data] else old(files)
    {
      ok := !fails(ops);
      ops := ops + 1;
      if ok {
        files := files[path := data];
      }
    }

    method RemoveFile(path: string) returns (ok: bool)
      modifies this
      ensures ok == (!fails(old(ops)) && path in old(files)) && ops == old(ops) + 1
      ensures files == if ok then old(files) - {path} else old(files)
    {
      ok := !fails(ops) && path in files;
      ops := ops + 1;
      if ok {
        files := files - {path};
      }
    }
  }

  predicate Changes(it: Item) { !it.action.Unchanged? }

  /** The items were planned against these files: each remembers what was there, and
      items for one destination agree. */
  ghost predicate PlannedOn(items: seq<Item>, files: Files) {
    && (forall it :: it in items ==>
          (it.prev.None? <==> it.dest !in files) && (it.prev.Some? ==> files[it.dest] == it.prev.value))
    && (forall x, y :: x in items && y in items && x.dest == y.dest ==> x.data == y.data)
  }

  ghost predicate IsDest(items: seq<Item>, p: string) {
    exists it :: it in items && it.dest == p
  }

  lemma DestAppend(items: seq<Item>, it: Item, p: string)
    ensures IsDest(items + [it], p) <==> IsDest(items, p) || p == it.dest
  {
    assert it in items + [it];
    assert forall x :: x in items + [it] <==> x in items || x == it;
  }

  predicate HoldsPlanned(files: Files, it: Item) { it.dest in files && files[it.dest] == it.data }

  /** Every changed file holds its planned bytes and no other path moved. */
  ghost predicate Landed(items: seq<Item>, before: Files, after: Files) {
    && (forall it :: it in items && Changes(it) ==> HoldsPlanned(after, it))
    && (forall p :: !(exists it :: it in items && Changes(it) && it.dest == p) ==> SameAt(before, after, p))
  }

  datatype Snapshot = Saved(path: string, blob: string) | NothingSaved | SnapshotFailed

  datatype Outcome =
    | NothingToDo
    | Applied
    | NoSnapshot                      // refused before anything was written
    | RolledBack(cause: string)       // the destination that could not be written
    | Stuck(cause: string, left: seq<string>)  // and the ones that could not be put back

  lemma LeftAreDests(items: seq<Item>, written: seq<Item>, left: seq<string>, base: Files, files: Files)
    requires forall it :: it in written ==> it in items
    requires PlannedOn(items, base)
    requires forall p :: p in left ==> IsDest(written, p)
    requires forall it :: it in written ==> HoldsPlanned(files, it) || SameAt(base, files, it.dest)
    ensures forall p :: p in left ==> IsDest(items, p)
    ensures forall it :: it in items && it.dest in left ==> HoldsPlanned(files, it) || SameAt(base, files, it.dest)
  {
    forall it | it in items && it.dest in left ensures HoldsPlanned(files, it) || SameAt(base, files, it.dest) {
      var w :| w in written && w.dest == it.dest;
    }
  }

  /** The items from i on have been put back, but for the destinations left. */
  ghost predicate PutBackFrom(written: seq<Item>, i: nat, base: Files, files: Files, left: seq<string>)
    requires i <= |written|
  {
    && (forall p :: p !in left && !IsDest(written[..i], p) ==> SameAt(base, files, p))
    && (forall p :: p in left ==> IsDest(written, p))
    && (forall it :: it in written ==> HoldsPlanned(files, it) || SameAt(base, files, it.dest))
  }

  /** One item was put back, or could not be and is left. */
  lemma PutBackStep(written: seq<Item>, i: nat, base: Files, files: Files, left: seq<string>, files': Files, ok: bool)
    requires i < |written| && PutBackFrom(written, i + 1, base, files, left)
    requires forall p :: p != written[i].dest ==> SameAt(files, files', p)
    requires if ok then SameAt(base, files', written[i].dest) else files' == files
    ensures PutBackFrom(written, i, base, files', if ok then left else left + [written[i].dest])
  {
    var it := written[i];
    assert it in written;
    assert written[..i + 1] == written[..i] + [it];
    var left' := if ok then left else left + [it.dest];
    forall p | p !in left' && !IsDest(written[..i], p) ensures SameAt(base, files', p) {
      DestAppend(written[..i], it, p);
      assert p != it.dest ==> SameAt(files, files', p);
    }
    forall x | x in written ensures HoldsPlanned(files', x) || SameAt(base, files', x.dest) {
      assert x.dest != it.dest ==> SameAt(files, files', x.dest);
    }
    forall p | p in left' ensures IsDest(written, p) {
      assert p in left || p == it.dest;
    }
  }

  /** rollback: newest first; a destination that cannot be put back is named. */
  method Rollback(fs: FileSystem, written: seq<Item>, ghost base: Files) returns (left: seq<string>)
    requires PlannedOn(written, base)
    requires forall it :: it in written ==> HoldsPlanned(fs.files, it)
    requires forall p :: !IsDest(written, p) ==> SameAt(base, fs.files, p)
    modifies fs
    ensures forall p :: p !in left ==> SameAt(base, fs.files, p)
    ensures forall p :: p in left ==> IsDest(written, p)
    ensures forall it :: it in written ==> HoldsPlanned(fs.files, it) || SameAt(base, fs.files, it.dest)
  {
    left := [];
    var i := |written|;
    assert written[..i] == written;
    assert PutBackFrom(written, i, base, fs.files, left);
    while i > 0
      invariant 0 <= i <= |written|
      invariant PutBackFrom(written, i, base, fs.files, left)
    {
      hide PutBackFrom;
      i := i - 1;
      var it := written[i];
      assert it in written;
      ghost var files := fs.files;
      var ok;
      if it.prev.Some? {
        ok := fs.WriteFileAtomic(it.dest, it.prev.value);
      } else {
        ok := fs.RemoveFile(it.dest);
      }
      PutBackStep(written, i, base, files, left, fs.files, ok);
      if !ok {
        left := left + [it.dest];
      }
    }
    assert written[..0] == [];
  }

  /** The changed ones among the first i items, and no others, have been written. */
  ghost predicate WrittenUpTo(items: seq<Item>, i: nat, written: seq<Item>, base: Files, files: Files)
    requires i <= |items|
  {
    && (forall it :: it in written ==> it in items && Changes(it))
    && (forall it :: it in items[..i] && Changes(it) ==> it in written)
    && (forall it :: it in written ==> HoldsPlanned(files, it))
    && (forall p :: !IsDest(written, p) ==> SameAt(base, files, p))
  }

  lemma WriteStep(items: seq<Item>, i: nat, written: seq<Item>, base: Files, files: Files)
    requires i < |items| && WrittenUpTo(items, i, written, base, files)
    requires forall x, y :: x in items && y in items && x.dest == y.dest ==> x.data == y.data
    ensures var it := items[i];
            if Changes(it) then WrittenUpTo(items, i + 1, written + [it], base, files[it.dest := it.data])
            else WrittenUpTo(items, i + 1, written, base, files)
  {
    var it := items[i];
    assert items[..i + 1] == items[..i] + [it];
    forall p ensures IsDest(written + [it], p) <==> IsDest(written, p) || p == it.dest {
      DestAppend(written, it, p);
    }
  }

  lemma AllLanded(items: seq<Item>, written: seq<Item>, base: Files, files: Files)
    requires WrittenUpTo(items, |items|, written, base, files)
    ensures Landed(items, base, files)
  {
    assert items[..|items|] == items;
  }

  /** Apply: for every pattern of failures the files end up all as planned, all as
      before, or as before everywhere but at the destinations it names. */
  method Apply(fs: FileSystem, items: seq<Item>, snapshot: Snapshot) returns (r: Outcome)
    requires PlannedOn(items, fs.files)
    requires snapshot.Saved? ==> snapshot.path !in fs.files && !IsDest(items, snapshot.path)
    modifies fs
    ensures r.NothingToDo? <==> forall it :: it in items ==> !Changes(it)
    ensures r.NoSnapshot? <==> !r.NothingToDo? && snapshot.SnapshotFailed?
    ensures r.RolledBack? || r.Stuck? ==> exists n :: fs.fails(n)
    ensures var base := if r.NothingToDo? || !snapshot.Saved? then old(fs.files)
                        else old(fs.files)[snapshot.path := snapshot.blob];
            match r
            case NothingToDo => fs.files == base
            case NoSnapshot => fs.files == base
            case Applied => Landed(items, base, fs.files)
            case RolledBack(cause) => IsDest(items, cause) && forall p :: SameAt(base, fs.files, p)
            case Stuck(cause, left) => && IsDest(items, cause) && left != []
                                       && (forall p :: p !in left ==> SameAt(base, fs.files, p))
                                       && (forall p :: p in left ==> IsDest(items, p))
                                       && (forall it :: it in items && it.dest in left ==>
                                             HoldsPlanned(fs.files, it) || SameAt(base, fs.files, it.dest))
  {
    if forall it :: it in items ==> !Changes(it) {
      return NothingToDo;
    }
    if snapshot.SnapshotFailed? {
      return NoSnapshot;
    }
    if snapshot.Saved? {
      fs.files := fs.files[snapshot.path := snapshot.blob];
    }
    ghost var base := fs.files;
    var written: seq<Item> := [];
    assert WrittenUpTo(items, 0, written, base, fs.files);
    for i := 0 to |items|
      invariant PlannedOn(items, base) && WrittenUpTo(items, i, written, base, fs.files)
    {
      var it := items[i];
      WriteStep(items, i, written, base, fs.files);
      if Changes(it) {
        var ok := fs.WriteFileAtomic(it.dest, it.data);
        if !ok {
          var left := Rollback(fs, written, base);
          LeftAreDests(items, written, left, base, fs.files);
          return if left == [] then RolledBack(it.dest) else Stuck(it.dest, left);
        }
        written := written + [it];
      }
    }
    AllLanded(items, written, base, fs.files);
    r := Applied;
  }
}

/** Restoring the same archive twice. */
module RestoreTwice {
  import opened Wrappers
  import opened ConfigText
  import opened ConfigEdit
  import opened ConfigMerge
  import opened ConfigFit
  import opened BackupLimits
  import opened BackupArchive
  import opened RestorePlan
  import opened RestoreApply

  /** A plan made for two distinct destinations meets what Apply asks of it. */
  lemma PlanIsPlannedOn(c: Codec, quote: string -> string, a: Archive, l: Layout, disk: Disk)
    requires l.configPath != l.tasksPath
    requires PlanFrom(c, quote, a, l, disk, a.manifest.files).Ok?
    ensures PlannedOn(PlanFrom(c, quote, a, l, disk, a.manifest.files).value, disk.files)
  {
    hide PlanItem, PlanFrom;
    var files := a.manifest.files;
    PlanExact(c, quote, a, l, disk, files);
    var items := PlanFrom(c, quote, a, l, disk, files).value;
    forall it | it in items
      ensures PlanItem(c, quote, a, l, disk, it.name) == Ok(it) && it.name in SOURCES && it.dest == PathOf(l, it.name)
      ensures (it.prev.None? <==> it.dest !in disk.files) && (it.prev.Some? ==> disk.files[it.dest] == it.prev.value)
    {
      var i :| 0 <= i < |items| && items[i] == it;
      PlanItemNames(c, quote, a, l, disk, files[i].name);
      PlanItemPrev(c, quote, a, l, disk, files[i].name);
    }
    forall x, y | x in items && y in items && x.dest == y.dest ensures x == y {
      assert x.name == y.name;
    }
  }

  lemma PlanItemPrev(c: Codec, quote: string -> string, a: Archive, l: Layout, disk: Disk, name: string)
    requires PlanItem(c, quote, a, l, disk, name).Ok?
    ensures var it := PlanItem(c, quote, a, l, disk, name).value;
            (it.prev.None? <==> it.dest !in disk.files) && (it.prev.Some? ==> disk.files[it.dest] == it.prev.value)
  {
    hide Fitted, Refusal, Loads;
  }

  lemma AllowedNames(c: Codec, a: Archive, name: string)
    ensures Refusal(c, a, name).None? ==> name in SOURCES
  {
  }

  /** Some credential is written both empty and with a value. */
  ghost predicate Mixed(evs: seq<Event>) {
    exists ev :: ev in evs && IsEmptyString(ev.quoted) && ev.setting in Have(evs)
  }

  /** Merging a config into itself changes nothing, if and only if it is not mixed. */
  lemma FitSelf(decode: Decoder, quote: string -> string, text: string)
    requires Quotes(quote)
    ensures Fit(decode, quote, text, text) == text <==> !Mixed(SecretEvents(text))
  {
    hide SplitLines, Rewritten, Join, Events, Have, SetAgentId, Quotes;
    FitKeepsSecrets(decode, quote, text, text);
    MergeSelf(text);
    if Merge(text, text) != text && SecretEvents(Merge(text, text)) == SecretEvents(text) {
      MixedReadsApart(text);
    }
  }

  lemma MergeSelf(text: string)
    ensures Merge(text, text) == text <==> !Mixed(SecretEvents(text))
  {
    hide SplitLines, Rewritten, Join, Events, Have, GoodEdit, IsLines, AllOneLine;
    var e := Fill(Have(SecretEvents(text)));
    var ls := SplitLines(text);
    HaveGood(text);
    HaveIsWritten(SecretEvents(text));
    EditedText(text, SECRETS, e);
    KeepIsIdentity(ls, "", SECRETS);
    JoinSplit(text);
    JoinInjective(Rewritten(ls, "", SECRETS, e), ls);
    SameRewrite(ls, "", SECRETS, e, Keep);
  }

  /** Filling a mixed config in shows in what it reads. */
  lemma MixedReadsApart(text: string)
    requires Mixed(SecretEvents(text))
    ensures SecretEvents(Merge(text, text)) != SecretEvents(text)
  {
    hide SplitLines, Rewritten, Join, Events, Have;
    var evs := SecretEvents(text);
    MergeEvents(text, text);
    HaveIsWritten(evs);
    HaveGood(text);
    var ev :| ev in evs && IsEmptyString(ev.quoted) && ev.setting in Have(evs);
    var i :| 0 <= i < |evs| && evs[i] == ev;
    assert EditAll(evs, SECRETS, Fill(Have(evs)))[i] == Edited(ev, SECRETS, Fill(Have(evs)));
  }

  /** A config that merging into itself changes: its empty key takes the text of a
      multi-line string. */
  lemma MixedFillsItself(decode: Decoder, quote: string -> string)
    requires Quotes(quote)
    ensures Fit(decode, quote, UnsettledArchive(), UnsettledArchive()) != UnsettledArchive()
  {
    hide SecretEvents, UnsettledArchive, Have, Settled, Fit;
    UnsettledReads();
    var evs := SecretEvents(UnsettledArchive());
    assert evs[0] in evs;
    FitSelf(decode, quote, UnsettledArchive());
  }

  lemma OnceIsNotMixed(evs: seq<Event>)
    requires Once(evs)
    ensures !Mixed(evs)
  {
    forall ev | ev in evs ensures !(IsEmptyString(ev.quoted) && ev.setting in Have(evs)) {
      HaveOnce(evs, ev);
    }
  }

  /** Restoring the file again would change it: the archive's config sets a credential in
      two ways, so that a second merge fills in what the first did not; or the config came
      out with the machine's id kept but neither of the credentials that id belongs to. */
  ghost predicate Relapses(c: Codec, quote: string -> string, a: Archive, it: Item) {
    && it.name == CONFIG_NAME && SecretFree(a) && Changes(it)
    && var archived := Held(a, CONFIG_NAME);
       if it.prev.None? then Mixed(SecretEvents(archived))
       else || !Settled(SecretEvents(archived), Have(SecretEvents(it.prev.value)))
            || (IdKept(c.decode, quote, archived, it.prev.value) && LacksAgentCredentials(c.decode, it.data))
  }

  lemma PlanItemNames(c: Codec, quote: string -> string, a: Archive, l: Layout, disk: Disk, name: string)
    requires PlanItem(c, quote, a, l, disk, name).Ok?
    ensures var it := PlanItem(c, quote, a, l, disk, name).value;
            it.name == name && name in SOURCES && it.dest == PathOf(l, name)
  {
    hide Fitted, Refusal, Loads;
    AllowedNames(c, a, name);
  }

  /** One file planned again after it landed: it is found unchanged if and only if it does
      not relapse, and is never refused when its archive sets each credential once. */
  lemma PlanItemAgain(c: Codec, quote: string -> string, a: Archive, l: Layout, disk: Disk, after: Disk, it: Item)
    requires Quotes(quote)
    requires forall x, y :: c.sum(x) == c.sum(y) ==> x == y
    requires PlanItem(c, quote, a, l, disk, it.name) == Ok(it)
    requires after.unreadable == disk.unreadable
    requires if Changes(it) then HoldsPlanned(after.files, it) else SameAt(disk.files, after.files, it.dest)
    ensures var again := PlanItem(c, quote, a, l, after, it.name);
            && (again.Ok? && again.value.action == Unchanged <==> !Relapses(c, quote, a, it))
            && (Once(SecretEvents(Held(a, CONFIG_NAME))) ==> again.Ok?)
  {
    hide Fit, IdKept, Quotes, Once, Refusal, SecretEvents, LacksAgentCredentials, Settled, Have, Mixed;
    var archived := Held(a, it.name);
    if Changes(it) && it.name == CONFIG_NAME && SecretFree(a) {
      ArchivedLoads(c, a, it.name);
      if it.prev.None? {
        FitSelf(c.decode, quote, archived);
        if Once(SecretEvents(archived)) { OnceIsNotMixed(SecretEvents(archived)); }
      } else {
        FitAgain(c.decode, quote, archived, it.prev.value);
        if Once(SecretEvents(archived)) { FitAgainLoads(c.decode, quote, archived, it.prev.value); }
      }
    }
  }

  lemma ArchivedLoads(c: Codec, a: Archive, name: string)
    requires Refusal(c, a, name).None?
    ensures Loads(c, name, Held(a, name))
  {
  }

  /** Fitted again, the config still parses. */
  lemma FitAgainLoads(decode: Decoder, quote: string -> string, restored: string, current: string)
    requires Quotes(quote) && Once(SecretEvents(restored))
    requires decode(Fit(decode, quote, restored, current)).Some?
    ensures decode(Fit(decode, quote, restored, Fit(decode, quote, restored, current))).Some?
  {
    hide Merge, SetAgentId, SecretEvents, GoodQuoted, Have, Settled, Once, QuotedAgentId;
    var merged, fitted := Merge(restored, current), Fit(decode, quote, restored, current);
    FitKeepsSecrets(decode, quote, restored, current);
    SameSecretsMergeSame(restored, fitted, merged);
    OnceSettled(SecretEvents(restored), Have(SecretEvents(current)));
    MergeAgain(restored, current);
  }

  /** Landed, as far as the two files a restore can touch are concerned. */
  ghost predicate LandedOn(items: seq<Item>, before: Files, after: Files) {
    && (forall it :: it in items && Changes(it) ==> HoldsPlanned(after, it))
    && (forall it :: it in items && !Changes(it) && (forall x :: x in items && x.dest == it.dest ==> !Changes(x)) ==>
          SameAt(before, after, it.dest))
  }

  lemma LandedItem(items: seq<Item>, before: Files, after: Files, it: Item)
    requires LandedOn(items, before, after) && it in items
    requires forall x :: x in items && x.dest == it.dest ==> x == it
    ensures if Changes(it) then HoldsPlanned(after, it) else SameAt(before, after, it.dest)
  {
  }

  /** Restore is idempotent: once a plan has landed, planning the same archive again finds
      every file unchanged, if and only if none of them relapses. An archive that sets each
      credential at most once is never refused the second time. */
  lemma RestoreAgain(c: Codec, quote: string -> string, a: Archive, l: Layout, disk: Disk, after: Disk)
    requires Quotes(quote)
    requires forall x, y :: c.sum(x) == c.sum(y) ==> x == y
    requires l.configPath != l.tasksPath && after.unreadable == disk.unreadable
    requires PlanFrom(c, quote, a, l, disk, a.manifest.files).Ok?
    requires LandedOn(PlanFrom(c, quote, a, l, disk, a.manifest.files).value, disk.files, after.files)
    ensures var items := PlanFrom(c, quote, a, l, disk, a.manifest.files).value;
            SettledBy(c, quote, a, items, PlanFrom(c, quote, a, l, after, a.manifest.files))
  {
    hide PlanFrom, Quotes, Once, SecretEvents, PlanItem, Relapses, LandedOn, Changes, HoldsPlanned, SameAt;
    var files := a.manifest.files;
    var items := PlanFrom(c, quote, a, l, disk, files).value;
    PlanExact(c, quote, a, l, disk, files);
    forall i | 0 <= i < |files|
      ensures PlanItem(c, quote, a, l, after, files[i].name).Ok?
              && PlanItem(c, quote, a, l, after, files[i].name).value.action == Unchanged
              <==> !Relapses(c, quote, a, items[i])
      ensures Once(SecretEvents(Held(a, CONFIG_NAME))) ==> PlanItem(c, quote, a, l, after, files[i].name).Ok?
    {
      var it := items[i];
      PlanItemNames(c, quote, a, l, disk, files[i].name);
      forall x | x in items && x.dest == it.dest ensures x == it {
        var j :| 0 <= j < |items| && items[j] == x;
        PlanItemNames(c, quote, a, l, disk, files[j].name);
      }
      LandedItem(items, disk.files, after.files, it);
      PlanItemAgain(c, quote, a, l, disk, after, it);
    }
    PlanExact(c, quote, a, l, after, files);
  }

  /** How a second plan of the same archive comes out. */
  ghost predicate SettledBy(c: Codec, quote: string -> string, a: Archive, items: seq<Item>, again: Result<seq<Item>>) {
    && ((again.Ok? && forall i :: 0 <= i < |again.value| ==> again.value[i].action == Unchanged)
        <==> forall i :: 0 <= i < |items| ==> !Relapses(c, quote, a, items[i]))
    && (again.Ok? ==> |again.value| == |items| && forall i :: 0 <= i < |items| ==>
          (again.value[i].action == Unchanged <==> !Relapses(c, quote, a, items[i])))
    && (Once(SecretEvents(Held(a, CONFIG_NAME))) ==> again.Ok?)
  }

  /** An archive of nothing but a config, without secrets. */
  function ConfigOnly(c: Codec, text: string): Archive {
    Archive(Manifest(SCHEMA_VERSION, SECRETS_REDACTED, [FileEntry(CONFIG_NAME, |text|, c.sum(text))], ""),
            false, map[CONFIG_NAME := text])
  }

  /** Restoring twice can change a file twice: whatever the decoder, if it reads the archive
      as one without secrets and what the first restore writes loads, the key of the machine
      is replaced by the text of a multi-line string the second time. */
  lemma SecondRestoreDiffers(c: Codec, quote: string -> string, l: Layout)
    requires Quotes(quote)
    ensures var a := ConfigOnly(c, UnsettledArchive());
            var disk := Disk(map[l.configPath := Machine()], {});
            var written := Fit(c.decode, quote, UnsettledArchive(), Machine());
            && c.decode(UnsettledArchive()).Some? && IsRedacted(c.decode, UnsettledArchive())
            && c.decode(written).Some? && c.sum(Machine()) != c.sum(written)
            ==> var it := Item(CONFIG_NAME, l.configPath, Overwrite, written, Some(Machine()));
                PlanFrom(c, quote, a, l, disk, a.manifest.files) == Ok([it]) && Relapses(c, quote, a, it)
  {
    hide SecretEvents, UnsettledArchive, Machine, Have, Settled, Fit, Mixed, IdKept;
    UnsettledReads();
    var a := ConfigOnly(c, UnsettledArchive());
    PlanSingle(c, quote, a, l, Disk(map[l.configPath := Machine()], {}), a.manifest.files[0]);
  }

  lemma PlanSingle(c: Codec, quote: string -> string, a: Archive, l: Layout, disk: Disk, f: FileEntry)
    ensures var it := PlanItem(c, quote, a, l, disk, f.name);
            it.Ok? ==> PlanFrom(c, quote, a, l, disk, [f]) == Ok([it.value])
  {
    hide PlanItem;
    assert [f][1..] == [];
    assert PlanFrom(c, quote, a, l, disk, []) == Ok([]);
    assert forall it: Item :: [it] + [] == [it];
  }

  /** What an archive create wrote holds for the config is redacted, if it claims no secrets. */
  lemma CreatedIsRedacted(c: Codec, l: Layout, disk: Disk, k: Kind, about: string)
    requires Faithful(c) && !k.PreRestore? && Create(c, l, disk, k, "", about).Ok?
    ensures var got := Open(c, Create(c, l, disk, k, "", about).value, "");
            && got.Ok? && SecretFree(got.value)
            && (CONFIG_NAME in got.value.files ==> exists text :: got.value.files[CONFIG_NAME] == Redact(text))
  {
    hide Open, Create, Collected, Faithful, FilesOf, DistinctNames, Redact;
    CreatedCollects(c, l, disk, k, "", about);
    var files := Collected(c, l, disk, true, k, SOURCES).value;
    CollectedShape(c, l, disk, true, k);
    CreateThenOpen(c, l, disk, k, "", about);
    var a := Open(c, Create(c, l, disk, k, "", about).value, "").value;
    if CONFIG_NAME in a.files {
      FilesOfNames(files, CONFIG_NAME);
      var m :| m in files && m.name == CONFIG_NAME;
      FilesOfHolds(files, m);
      var text := ReadSource(disk, PathOf(l, CONFIG_NAME)).data;
      assert a.files[CONFIG_NAME] == Redact(text);
    }
  }

  lemma RedactedIsSettled(text: string, have: map<Setting, string>)
    ensures Settled(SecretEvents(Redact(text)), have) && !Mixed(SecretEvents(Redact(text)))
  {
    hide SecretEvents, Redact, Have;
    RedactReads(text);
    HaveIsWritten(SecretEvents(Redact(text)));
  }

  /** For the archives create itself writes: restored onto any machine, a secret-free one
      relapses if and only if the machine's id was kept and both of the credentials it
      belongs to were lost. */
  lemma CreatedRelapses(c: Codec, quote: string -> string, l: Layout, disk: Disk, k: Kind, about: string, it: Item)
    requires Faithful(c) && !k.PreRestore? && Create(c, l, disk, k, "", about).Ok?
    requires it.name == CONFIG_NAME && Changes(it)
    ensures var got := Open(c, Create(c, l, disk, k, "", about).value, "");
            got.Ok? && (CONFIG_NAME in got.value.files ==>
              (Relapses(c, quote, got.value, it)
               <==> && it.prev.Some? && LacksAgentCredentials(c.decode, it.data)
                    && IdKept(c.decode, quote, got.value.files[CONFIG_NAME], it.prev.value)))
  {
    hide Open, Create, Faithful, SecretEvents, Redact, Have, Settled, Mixed, IdKept, LacksAgentCredentials;
    CreatedIsRedacted(c, l, disk, k, about);
    var a := Open(c, Create(c, l, disk, k, "", about).value, "").value;
    if CONFIG_NAME in a.files {
      var text :| a.files[CONFIG_NAME] == Redact(text);
      RedactedIsSettled(text, if it.prev.None? then map[] else Have(SecretEvents(it.prev.value)));
    }
  }

  /** The snapshot create takes of the machine as it is: path is the name generated for it,
      bytes what an archive is on disk, saves whether it could be written. */
  function SnapshotOf(c: Codec, l: Layout, disk: Disk, about: string, path: string,
                      bytes: Blob -> string, saves: bool): Snapshot {
    match Create(c, l, disk, PreRestore, "", about)
    case Ok(blob) => if saves then Saved(path, bytes(blob)) else SnapshotFailed
    case Err(NothingToBackup) => NothingSaved
    case Err(_) => SnapshotFailed
  }

  /** A whole restore, its snapshot included, followed by a second plan: when the first was
      applied, the second has nothing to do but what a relapse brings back. */
  method RestoreAndReplan(c: Codec, quote: string -> string, a: Archive, l: Layout, fs: FileSystem,
                          about: string, path: string, bytes: Blob -> string, saves: bool)
      returns (plan: Result<seq<Item>>, r: Outcome, again: Result<seq<Item>>)
    requires Quotes(quote)
    requires forall x, y :: c.sum(x) == c.sum(y) ==> x == y
    requires l.configPath != l.tasksPath
    requires path !in fs.files && path != l.configPath && path != l.tasksPath
    modifies fs
    ensures plan.Err? ==> fs.files == old(fs.files)
    ensures plan.Ok? && (r.Applied? || r.NothingToDo?) ==> SettledBy(c, quote, a, plan.value, again)
    ensures r.NoSnapshot? ==> fs.files == old(fs.files)
    ensures plan.Ok? && !r.NothingToDo? && !r.NoSnapshot? ==>
              match Create(c, l, Disk(old(fs.files), {}), PreRestore, "", about)
              case Ok(blob) => saves && path in fs.files && fs.files[path] == bytes(blob)
              case Err(e) => e == NothingToBackup
  {
    hide PlanFrom, Quotes, SettledBy, SecretEvents, Fitted, Refusal, Loads, PlanItem, PathOf, Create;
    var disk := Disk(fs.files, {});
    plan := Plan(c, quote, a, l, disk);
    again, r := plan, NothingToDo;
    if plan.Err? {
      return;
    }
    PlanIsPlannedOn(c, quote, a, l, disk);
    DestsAreSources(c, quote, a, l, disk);
    r := Apply(fs, plan.value, SnapshotOf(c, l, disk, about, path, bytes, saves));
    var after := Disk(fs.files, {});
    again := Plan(c, quote, a, l, after);
    if r.Applied? || r.NothingToDo? {
      RestoreAgain(c, quote, a, l, disk, after);
    }
  }

  lemma DestsAreSources(c: Codec, quote: string -> string, a: Archive, l: Layout, disk: Disk)
    requires PlanFrom(c, quote, a, l, disk, a.manifest.files).Ok?
    ensures forall it :: it in PlanFrom(c, quote, a, l, disk, a.manifest.files).value ==>
              it.dest == l.configPath || it.dest == l.tasksPath
  {
    hide Fitted, Refusal, PlanFrom, Loads;
    PlanExact(c, quote, a, l, disk, a.manifest.files);
    var items := PlanFrom(c, quote, a, l, disk, a.manifest.files).value;
    forall it | it in items ensures it.dest == l.configPath || it.dest == l.tasksPath {
      var i :| 0 <= i < |items| && items[i] == it;
      assert PlanItem(c, quote, a, l, disk, a.manifest.files[i].name) == Ok(items[i]);
    }
  }
}

/** The snapshot as the undo of a restore. */
module RestoreUndo {
  import opened BackupLimits
  import opened BackupArchive
  import opened RestorePlan
  import opened RestoreApply

  /** Taken as they are, the files that exist are collected, all of them, byte by byte. */
  lemma {:induction false} CollectedAsIs(c: Codec, l: Layout, disk: Disk, names: seq<string>)
    requires Collected(c, l, disk, false, PreRestore, names).Ok?
    ensures var ms := Collected(c, l, disk, false, PreRestore, names).value;
            && (forall m :: m in ms ==> m.name in names && ReadSource(disk, PathOf(l, m.name)) == Content(m.data))
            && (forall n :: n in names ==>
                  ReadSource(disk, PathOf(l, n)) == Absent || exists m :: m in ms && m.name == n)
    decreases |names|
  {
    hide ReadSource, PathOf, Cap;
    if names != [] {
      CollectedAsIs(c, l, disk, names[1..]);
      var ms := Collected(c, l, disk, false, PreRestore, names).value;
      var rest := Collected(c, l, disk, false, PreRestore, names[1..]).value;
      assert forall m :: m in rest ==> m in ms;
      match ReadSource(disk, PathOf(l, names[0]))
      case Content(data) => assert Member(names[0], data) in ms;
      case _ =>
    }
  }

  /** Every file that was there before loads. */
  predicate AllLoad(c: Codec, l: Layout, disk: Disk) {
    forall n :: n in SOURCES && ReadSource(disk, PathOf(l, n)).Content? ==>
      Loads(c, n, ReadSource(disk, PathOf(l, n)).data)
  }

  /** The item puts back what was at its destination. */
  predicate PutsBack(l: Layout, disk: Disk, it: Item) {
    it.name in SOURCES && it.dest == PathOf(l, it.name) && ReadSource(disk, it.dest) == Content(it.data)
  }

  lemma PlanSnapshotFile(c: Codec, quote: string -> string, a: Archive, l: Layout, disk: Disk, after: Disk, n: string)
    requires a.manifest.secrets == SECRETS_INCLUDED && n in SOURCES
    requires ReadSource(disk, PathOf(l, n)) == Content(Held(a, n))
    requires !ReadSource(after, PathOf(l, n)).Unreadable?
    ensures var r := PlanItem(c, quote, a, l, after, n);
            && (r.Ok? <==> Loads(c, n, Held(a, n)))
            && (r.Ok? ==> PutsBack(l, disk, r.value) && r.value.name == n)
  {
    hide Loads, SOURCES;
  }

  lemma OpenedSnapshot(c: Codec, l: Layout, disk: Disk, about: string)
    requires Faithful(c) && Create(c, l, disk, PreRestore, "", about).Ok?
    requires Open(c, Create(c, l, disk, PreRestore, "", about).value, "").Ok?
    ensures var files := Collected(c, l, disk, false, PreRestore, SOURCES).value;
            && OnlySources(files)
            && Open(c, Create(c, l, disk, PreRestore, "", about).value, "").value
               == Archive(ManifestOf(c, files, "", PreRestore, about), false, FilesOf(files))
  {
    hide SpendAll, OpenEntries, Collected, Faithful;
    var files := Collected(c, l, disk, false, PreRestore, SOURCES).value;
    CollectedShape(c, l, disk, false, PreRestore);
    OpenPacked(c, files, ManifestOf(c, files, "", PreRestore, about), false);
  }

  /** A snapshot that opens plans, on the machine as any restore left it, if and only if
      every file that was there before loads; and then it puts each of them back. */
  lemma SnapshotPlans(c: Codec, quote: string -> string, l: Layout, disk: Disk, about: string, after: Disk)
    requires Faithful(c) && Create(c, l, disk, PreRestore, "", about).Ok?
    requires after.unreadable == {}
    ensures var got := Open(c, Create(c, l, disk, PreRestore, "", about).value, "");
            got.Ok? ==>
            var a := got.value;
            var plan := PlanFrom(c, quote, a, l, after, a.manifest.files);
            && (plan.Ok? <==> AllLoad(c, l, disk))
            && (plan.Ok? ==>
                  && (forall it :: it in plan.value ==> PutsBack(l, disk, it))
                  && (forall n :: n in SOURCES && ReadSource(disk, PathOf(l, n)).Content? ==>
                        exists it :: it in plan.value && it.name == n))
  {
    hide Open, Create, Collected, Faithful, PlanItem, PlanFrom, Loads, FilesOf, ReadSource, DistinctNames;
    hide AllLoad, PutsBack, PathOf;
    if Open(c, Create(c, l, disk, PreRestore, "", about).value, "").Err? {
      return;
    }
    CreatedCollects(c, l, disk, PreRestore, "", about);
    var files := Collected(c, l, disk, false, PreRestore, SOURCES).value;
    CollectedAsIs(c, l, disk, SOURCES);
    OpenedSnapshot(c, l, disk, about);
    var a := Open(c, Create(c, l, disk, PreRestore, "", about).value, "").value;
    var entries := a.manifest.files;
    PlanExact(c, quote, a, l, after, entries);
    forall i | 0 <= i < |files|
      ensures entries[i].name == files[i].name && Held(a, files[i].name) == files[i].data
      ensures var r := PlanItem(c, quote, a, l, after, entries[i].name);
              && (r.Ok? <==> Loads(c, files[i].name, files[i].data))
              && (r.Ok? ==> PutsBack(l, disk, r.value) && r.value.name == files[i].name)
    {
      assert files[i] in files;
      FilesOfHolds(files, files[i]);
      Readable(after, PathOf(l, files[i].name));
      PlanSnapshotFile(c, quote, a, l, disk, after, files[i].name);
    }
    AllLoadExactly(c, l, disk, files);
    var plan := PlanFrom(c, quote, a, l, after, entries);
    if plan.Ok? {
      forall n | n in SOURCES && ReadSource(disk, PathOf(l, n)).Content?
        ensures exists it :: it in plan.value && it.name == n
      {
        var x :| x in files && x.name == n;
        var i :| 0 <= i < |files| && files[i] == x;
        assert plan.value[i] in plan.value && plan.value[i].name == n;
      }
    }
  }

  /** A config that does not parse is snapshotted like any other, and that snapshot, small
      as it is, opens but cannot be restored. */
  lemma BrokenSnapshotIsNotRestored(c: Codec, quote: string -> string, l: Layout, about: string, after: Disk)
    requires Faithful(c) && after.unreadable == {} && l.configPath != l.tasksPath && c.decode("=").None?
    ensures var files := [Member(CONFIG_NAME, "=")];
            var manifest := c.encodeManifest(ManifestOf(c, files, "", PreRestore, about));
            var blob := Plain(Zipped([Member(MANIFEST_NAME, manifest)] + files));
            |manifest| <= MAX_MANIFEST && c.size(blob) <= MAX_ARCHIVE ==>
              && Create(c, l, Disk(map[l.configPath := "="], {}), PreRestore, "", about) == Ok(blob)
              && var got := Open(c, blob, "");
                 got.Ok? && PlanFrom(c, quote, got.value, l, after, got.value.manifest.files).Err?
  {
    hide SpendAll, OpenEntries, Faithful, Zipped, Entries, PlanFrom;
    var disk := Disk(map[l.configPath := "="], {});
    assert SOURCES[1..] == [TASKS_NAME] && SOURCES[1..][1..] == [];
    assert Collected(c, l, disk, false, PreRestore, [TASKS_NAME]) == Ok([]);
    var files := [Member(CONFIG_NAME, "=")];
    assert [Member(CONFIG_NAME, "=")] + [] == files;
    assert Collected(c, l, disk, false, PreRestore, SOURCES) == Ok(files);
    var first := Member(MANIFEST_NAME, c.encodeManifest(ManifestOf(c, files, "", PreRestore, about)));
    SpendAllExact(MAX_CONTENT, true, [first] + files);
    TotalOfTwo(first, files[0]);
    if Create(c, l, disk, PreRestore, "", about).Ok? {
      SnapshotOpens(c, l, disk, about);
      SnapshotPlans(c, quote, l, disk, about, after);
      assert CONFIG_NAME in SOURCES && !Loads(c, CONFIG_NAME, "=");
    }
  }

  lemma Readable(disk: Disk, path: string)
    requires disk.unreadable == {}
    ensures !ReadSource(disk, path).Unreadable?
  {
  }

  lemma AllLoadExactly(c: Codec, l: Layout, disk: Disk, files: seq<Member>)
    requires forall m :: m in files ==> m.name in SOURCES && ReadSource(disk, PathOf(l, m.name)) == Content(m.data)
    requires forall n :: n in SOURCES ==>
               ReadSource(disk, PathOf(l, n)) == Absent || exists m :: m in files && m.name == n
    ensures AllLoad(c, l, disk) <==> forall i :: 0 <= i < |files| ==> Loads(c, files[i].name, files[i].data)
  {
    hide Loads, ReadSource, PathOf;
    if forall i :: 0 <= i < |files| ==> Loads(c, files[i].name, files[i].data) {
      forall n | n in SOURCES && ReadSource(disk, PathOf(l, n)).Content?
        ensures Loads(c, n, ReadSource(disk, PathOf(l, n)).data)
      {
        var m :| m in files && m.name == n;
        var i :| 0 <= i < |files| && files[i] == m;
      }
    } else {
      var i :| 0 <= i < |files| && !Loads(c, files[i].name, files[i].data);
      assert files[i] in files;
    }
  }

  /** The undo button works: whatever a restore did to the machine, once the plan of its
      snapshot has landed every file that existed before holds its previous bytes. A file
      the restore created is not in the snapshot and stays. */
  lemma SnapshotUndoes(c: Codec, quote: string -> string, l: Layout, disk: Disk, about: string,
                       after: Disk, undone: Files)
    requires Faithful(c) && Create(c, l, disk, PreRestore, "", about).Ok?
    requires forall x, y :: c.sum(x) == c.sum(y) ==> x == y
    requires after.unreadable == {} && disk.unreadable == {} && l.configPath != l.tasksPath
    requires Open(c, Create(c, l, disk, PreRestore, "", about).value, "").Ok? && AllLoad(c, l, disk)
    ensures var a := Open(c, Create(c, l, disk, PreRestore, "", about).value, "").value;
            var plan := PlanFrom(c, quote, a, l, after, a.manifest.files);
            && plan.Ok?
            && (Landed(plan.value, after.files, undone) ==>
                  forall n :: n in SOURCES ==>
                    SameAt(undone, if PathOf(l, n) in disk.files then disk.files else after.files, PathOf(l, n)))
  {
    hide Open, Create, Faithful, PlanFrom, AllLoad;
    SnapshotPlans(c, quote, l, disk, about, after);
    var a := Open(c, Create(c, l, disk, PreRestore, "", about).value, "").value;
    var plan := PlanFrom(c, quote, a, l, after, a.manifest.files);
    UnchangedIsEqual(c, quote, a, l, after);
    if Landed(plan.value, after.files, undone) {
      forall n | n in SOURCES
        ensures SameAt(undone, if PathOf(l, n) in disk.files then disk.files else after.files, PathOf(l, n))
      {
        PutBack(l, disk, plan.value, after.files, undone, n);
      }
    }
  }

  lemma UnchangedIsEqual(c: Codec, quote: string -> string, a: Archive, l: Layout, after: Disk)
    requires forall x, y :: c.sum(x) == c.sum(y) ==> x == y
    requires PlanFrom(c, quote, a, l, after, a.manifest.files).Ok?
    ensures forall it :: it in PlanFrom(c, quote, a, l, after, a.manifest.files).value && !Changes(it) ==>
              HoldsPlanned(after.files, it)
  {
    hide Fitted, Refusal, Loads, PlanFrom;
    var files := a.manifest.files;
    PlanExact(c, quote, a, l, after, files);
    var items := PlanFrom(c, quote, a, l, after, files).value;
    forall it | it in items && !Changes(it) ensures HoldsPlanned(after.files, it) {
      var i :| 0 <= i < |items| && items[i] == it;
      assert PlanItem(c, quote, a, l, after, files[i].name) == Ok(it);
    }
  }

  lemma PutBack(l: Layout, disk: Disk, items: seq<Item>, after: Files, undone: Files, n: string)
    requires l.configPath != l.tasksPath && disk.unreadable == {} && n in SOURCES
    requires forall it :: it in items ==> PutsBack(l, disk, it)
    requires ReadSource(disk, PathOf(l, n)).Content? ==> exists it :: it in items && it.name == n
    requires forall it :: it in items && !Changes(it) ==> HoldsPlanned(after, it)
    requires Landed(items, after, undone)
    ensures SameAt(undone, if PathOf(l, n) in disk.files then disk.files else after, PathOf(l, n))
  {
    var p := PathOf(l, n);
    if p in disk.files {
      var it :| it in items && it.name == n;
      assert PutsBack(l, disk, it);
      if x :| x in items && Changes(x) && x.dest == p {
        assert PutsBack(l, disk, x) && HoldsPlanned(undone, x);
      } else {
        assert SameAt(after, undone, p) && HoldsPlanned(after, it);
      }
    } else {
      forall it | it in items ensures it.dest != p { assert PutsBack(l, disk, it); }
      assert SameAt(after, undone, p);
    }
  }
}
