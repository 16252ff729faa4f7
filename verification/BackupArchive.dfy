/** Writing a backup archive and reading it back. Zip and encryption are faithful
    containers; TOML, JSON and the checksum are parameters. */
module BackupArchive {
  import opened Wrappers
  import opened Ascii
  import opened ConfigMerge
  import opened ConfigFit
  import opened BackupLimits

  datatype Error =
    | BadManifest | BadChecksum | UnsafePath | TooLarge | BadContent | NotRedacted
    | PassphraseRequired | BadPassphrase | NothingToBackup | CannotRedact | CannotRead

  datatype Result<T> = Ok(value: T) | Err(error: Error)

  const SECRETS_REDACTED := "redacted"
  const SECRETS_INCLUDED := "included"
  const SCHEMA_VERSION := 1

  datatype FileEntry = FileEntry(name: string, size: nat, sum: string)

  /** about stands for the fields nothing is decided by: version, OS, time. */
  datatype Manifest = Manifest(schema: int, secrets: string, files: seq<FileEntry>, about: string)

  /** How inflating a zip member goes. */
  datatype Inflating = Inflates | WontOpen | BreaksOff

  /** One zip member as the reader meets it: the size it declares need not be the
      size of what it inflates to. */
  datatype ZipEntry = ZipEntry(name: string, regular: bool, declared: nat, inflating: Inflating, data: string)

  datatype Blob = Plain(entries: seq<ZipEntry>) | Sealed(passphrase: string, entries: seq<ZipEntry>) | NotZip

  datatype Archive = Archive(manifest: Manifest, encrypted: bool, files: map<string, string>)

  datatype Codec = Codec(
    decode: Decoder,                               // config.toml
    loadsTasks: string -> bool,                    // the queue decodes as the daemon's task list
    redactTasks: string -> Option<string>,
    encodeManifest: Manifest -> string,
    decodeManifest: string -> Option<Manifest>,
    sum: string -> string,                         // SHA-256, in hex
    size: Blob -> nat)                             // of the archive file

  /** What the libraries promise: a manifest survives its encoding, checksums are
      written in lower case, and a queue that loads still loads once redacted. */
  ghost predicate Faithful(c: Codec) {
    && (forall m :: c.decodeManifest(c.encodeManifest(m)) == Some(m))
    && (forall d :: Lower(c.sum(d)) == c.sum(d))
    && (forall d :: c.loadsTasks(d) && c.redactTasks(d).Some? ==> c.loadsTasks(c.redactTasks(d).value))
  }

  // --- Create ----------------------------------------------------------------------------

  /** Where the state lives: what reading each path gives. */
  datatype Disk = Disk(files: map<string, string>, unreadable: set<string>)
  datatype Layout = Layout(configPath: string, tasksPath: string)
  datatype Read = Absent | Unreadable | Content(data: string)

  const SOURCES := [CONFIG_NAME, TASKS_NAME]

  function PathOf(l: Layout, name: string): string {
    if name == CONFIG_NAME then l.configPath else l.tasksPath
  }

  function ReadSource(disk: Disk, path: string): Read {
    if path in disk.unreadable then Unreadable
    else if path in disk.files then Content(disk.files[path])
    else Absent
  }

  /** unarr can load the file. */
  predicate Loads(c: Codec, name: string, data: string) {
    if name == CONFIG_NAME then c.decode(data).Some? else c.loadsTasks(data)
  }

  function RedactSource(c: Codec, name: string, data: string): Result<string> {
    if name == CONFIG_NAME then
      if c.decode(Redact(data)).Some? && IsRedacted(c.decode, Redact(data)) then Ok(Redact(data)) else Err(CannotRedact)
    else if c.redactTasks(data).Some? then Ok(c.redactTasks(data).value)
    else Err(CannotRedact)
  }

  /** A file read from disk as its archive member. */
  function Prepare(c: Codec, name: string, data: string, redact: bool, check: bool): Result<string> {
    if check && !Loads(c, name, data) then Err(BadContent)
    else if !redact then Ok(data)
    else RedactSource(c, name, data)
  }

  function Collected(c: Codec, l: Layout, disk: Disk, redact: bool, k: Kind, names: seq<string>): Result<seq<Member>>
    decreases |names|
  {
    if names == [] then Ok([])
    else
      match ReadSource(disk, PathOf(l, names[0]))
      case Absent => Collected(c, l, disk, redact, k, names[1..])
      case Unreadable => Err(CannotRead)
      case Content(data) =>
        if |data| > Min(Cap(k.AsIs(), names[0]), MAX_CONTENT) then Err(TooLarge)
        else
          match Prepare(c, names[0], data, redact, !k.AsIs())
          case Err(e) => Err(e)
          case Ok(out) =>
            match Collected(c, l, disk, redact, k, names[1..])
            case Err(e) => Err(e)
            case Ok(rest) => Ok([Member(names[0], out)] + rest)
  }

  function Entries(c: Codec, files: seq<Member>): (r: seq<FileEntry>)
    ensures |r| == |files|
    ensures forall i :: 0 <= i < |files| ==> r[i] == FileEntry(files[i].name, |files[i].data|, c.sum(files[i].data))
  {
    if files == [] then []
    else [FileEntry(files[0].name, |files[0].data|, c.sum(files[0].data))] + Entries(c, files[1..])
  }

  function Zipped(members: seq<Member>): (r: seq<ZipEntry>)
    ensures |r| == |members|
    ensures forall i :: 0 <= i < |members| ==>
              r[i] == ZipEntry(members[i].name, true, |members[i].data|, Inflates, members[i].data)
  {
    if members == [] then []
    else [ZipEntry(members[0].name, true, |members[0].data|, Inflates, members[0].data)] + Zipped(members[1..])
  }

  function Pack(c: Codec, m: Manifest, files: seq<Member>, passphrase: string, uncapped: bool): Result<Blob> {
    var members := [Member(MANIFEST_NAME, c.encodeManifest(m))] + files;
    if SpendAll(MAX_CONTENT, uncapped, members).None? then Err(TooLarge)
    else
      var blob := if passphrase != "" then Sealed(passphrase, Zipped(members)) else Plain(Zipped(members));
      if c.size(blob) > MAX_ARCHIVE then Err(TooLarge) else Ok(blob)
  }

  predicate KeepsSecrets(passphrase: string, k: Kind) { passphrase != "" || k.PreRestore? }

  function ManifestOf(c: Codec, files: seq<Member>, passphrase: string, k: Kind, about: string): Manifest {
    var secrets := if KeepsSecrets(passphrase, k) then SECRETS_INCLUDED else SECRETS_REDACTED;
    Manifest(SCHEMA_VERSION, secrets, Entries(c, files), about)
  }

  function Create(c: Codec, l: Layout, disk: Disk, k: Kind, passphrase: string, about: string): Result<Blob> {
    match Collected(c, l, disk, !KeepsSecrets(passphrase, k), k, SOURCES)
    case Err(e) => Err(e)
    case Ok(files) =>
      if files == [] then Err(NothingToBackup)
      else Pack(c, ManifestOf(c, files, passphrase, k, about), files, passphrase, k.AsIs())
  }

  // --- Open ------------------------------------------------------------------------------

  predicate SafeMemberName(name: string) {
    name != "" && name != "." && name != ".." && forall i :: 0 <= i < |name| ==> SafeChar(name[i])
  }

  predicate SafeChar(c: char) { c != '/' && c != '\\' && c != ':' && c != '\0' }

  function ReadMembersFrom(entries: seq<ZipEntry>, left: nat, got: map<string, string>): Result<map<string, string>>
    decreases |entries|
  {
    if entries == [] then Ok(got)
    else
      var f := entries[0];
      var room := Min(MemberCap(f.name), left);
      if !SafeMemberName(f.name) || !f.regular then Err(UnsafePath)
      else if f.name in got then Err(BadManifest)
      else if f.declared > room then Err(TooLarge)
      else if f.inflating.WontOpen? then Err(BadManifest)
      else if f.inflating.BreaksOff? then Err(BadChecksum)
      else if |f.data| > room then Err(TooLarge)
      else ReadMembersFrom(entries[1..], left - |f.data|, got[f.name := f.data])
  }

  function ReadMembers(entries: seq<ZipEntry>): Result<map<string, string>> {
    if |entries| > MAX_MEMBERS then Err(TooLarge) else ReadMembersFrom(entries, MAX_CONTENT, map[])
  }

  function ParseManifest(c: Codec, data: string): Result<Manifest> {
    match c.decodeManifest(data)
    case None => Err(BadManifest)
    case Some(m) =>
      if m.schema < 1 || m.schema > SCHEMA_VERSION then Err(BadManifest)
      else if m.secrets != SECRETS_REDACTED && m.secrets != SECRETS_INCLUDED then Err(BadManifest)
      else Ok(m)
  }

  /** The first thing wrong with the listed files, None when all of them match. */
  function FirstMismatch(c: Codec, files: seq<FileEntry>, members: map<string, string>): Option<Error> {
    if files == [] then None
    else
      var e := files[0];
      if !SafeMemberName(e.name) then Some(UnsafePath)
      else if e.name !in members then Some(BadManifest)
      else if |members[e.name]| != e.size || c.sum(members[e.name]) != Lower(e.sum) then Some(BadChecksum)
      else FirstMismatch(c, files[1..], members)
  }

  function Listed(files: seq<FileEntry>): set<string> { set e | e in files :: e.name }

  function Verify(c: Codec, m: Manifest, members: map<string, string>): Option<Error> {
    var bad := FirstMismatch(c, m.files, members);
    if bad.Some? then bad
    else if members.Keys <= Listed(m.files) then None
    else Some(BadManifest)
  }

  function OpenEntries(c: Codec, entries: seq<ZipEntry>, encrypted: bool): Result<Archive> {
    match ReadMembers(entries)
    case Err(e) => Err(e)
    case Ok(members) =>
      if MANIFEST_NAME !in members then Err(BadManifest)
      else
        match ParseManifest(c, members[MANIFEST_NAME])
        case Err(e) => Err(e)
        case Ok(m) =>
          var files := members - {MANIFEST_NAME};
          match Verify(c, m, files)
          case Some(e) => Err(e)
          case None => Ok(Archive(m, encrypted, files))
  }

  function Open(c: Codec, blob: Blob, passphrase: string): Result<Archive> {
    if c.size(blob) > MAX_ARCHIVE then Err(TooLarge)
    else
      match blob
      case NotZip => Err(BadManifest)
      case Plain(entries) => OpenEntries(c, entries, false)
      case Sealed(key, entries) =>
        if passphrase == "" then Err(PassphraseRequired)
        else if passphrase != key then Err(BadPassphrase)
        else OpenEntries(c, entries, true)
  }

  // --- What create writes, open reads ---------------------------------------------------------

  ghost predicate DistinctNames(ms: seq<Member>) {
    forall i, j :: 0 <= i < j < |ms| ==> ms[i].name != ms[j].name
  }

  function FilesOf(ms: seq<Member>): map<string, string> {
    if ms == [] then map[] else FilesOf(ms[1..])[ms[0].name := ms[0].data]
  }

  lemma {:induction false} FilesOfHolds(ms: seq<Member>, m: Member)
    requires DistinctNames(ms) && m in ms
    ensures m.name in FilesOf(ms) && FilesOf(ms)[m.name] == m.data
    decreases |ms|
  {
    if m != ms[0] {
      assert m in ms[1..];
      FilesOfHolds(ms[1..], m);
    }
  }

  lemma {:induction false} FilesOfNames(ms: seq<Member>, n: string)
    ensures n in FilesOf(ms) <==> exists m :: m in ms && m.name == n
    decreases |ms|
  {
    if ms != [] {
      FilesOfNames(ms[1..], n);
      assert ms == [ms[0]] + ms[1..];
    }
  }

  /** Reading back what was zipped spends the same budget the writer spent, so it
      succeeds exactly when the members fit the reader's caps. */
  lemma {:induction false} ReadBack(ms: seq<Member>, left: nat, got: map<string, string>)
    requires DistinctNames(ms)
    requires forall i :: 0 <= i < |ms| ==> SafeMemberName(ms[i].name) && ms[i].name !in got
    ensures ReadMembersFrom(Zipped(ms), left, got)
         == if SpendAll(left, false, ms).Some? then Ok(got + FilesOf(ms)) else Err(TooLarge)
    decreases |ms|
  {
    hide SafeMemberName, MemberCap, FilesOf;
    if ms == [] {
      assert FilesOf(ms) == map[] by { NoFiles(); }
      assert got + FilesOf(ms) == got;
    } else {
      var m, rest := ms[0], ms[1..];
      assert Zipped(ms)[1..] == Zipped(rest);
      assert forall i :: 0 <= i < |rest| ==> rest[i] == ms[i + 1];
      if |m.data| <= Min(MemberCap(m.name), left) {
        ReadBack(rest, left - |m.data|, got[m.name := m.data]);
        MergeFirst(ms, got);
      }
    }
  }

  lemma NoFiles()
    ensures FilesOf([]) == map[]
  {
  }

  lemma MergeFirst(ms: seq<Member>, got: map<string, string>)
    requires ms != [] && DistinctNames(ms)
    ensures got[ms[0].name := ms[0].data] + FilesOf(ms[1..]) == got + FilesOf(ms)
  {
    FilesOfNames(ms[1..], ms[0].name);
  }

  ghost predicate OnlySources(ms: seq<Member>) {
    DistinctNames(ms) && |ms| <= 2 && forall m :: m in ms ==> m.name == CONFIG_NAME || m.name == TASKS_NAME
  }

  ghost predicate DistinctStrings(names: seq<string>) {
    forall i, j :: 0 <= i < j < |names| ==> names[i] != names[j]
  }

  /** m is what collecting its file gives. */
  ghost predicate IsMemberOf(c: Codec, l: Layout, disk: Disk, redact: bool, k: Kind, m: Member) {
    var read := ReadSource(disk, PathOf(l, m.name));
    read.Content? && Prepare(c, m.name, read.data, redact, !k.AsIs()) == Ok(m.data)
  }

  lemma {:induction false} CollectedFrom(c: Codec, l: Layout, disk: Disk, redact: bool, k: Kind, names: seq<string>)
    requires DistinctStrings(names) && Collected(c, l, disk, redact, k, names).Ok?
    ensures var ms := Collected(c, l, disk, redact, k, names).value;
            && |ms| <= |names| && DistinctNames(ms)
            && (forall i :: 0 <= i < |ms| ==> ms[i].name in names && IsMemberOf(c, l, disk, redact, k, ms[i]))
    decreases |names|
  {
    hide Prepare, ReadSource, PathOf, Cap;
    if names != [] {
      var ms := Collected(c, l, disk, redact, k, names).value;
      CollectedFrom(c, l, disk, redact, k, names[1..]);
      var rest := Collected(c, l, disk, redact, k, names[1..]).value;
      assert forall n :: n in names[1..] ==> n in names && n != names[0];
      if ms != rest {
        assert forall i :: 1 <= i < |ms| ==> ms[i] == rest[i - 1];
      }
    }
  }

  lemma CollectedShape(c: Codec, l: Layout, disk: Disk, redact: bool, k: Kind)
    requires Collected(c, l, disk, redact, k, SOURCES).Ok?
    ensures OnlySources(Collected(c, l, disk, redact, k, SOURCES).value)
    ensures forall m :: m in Collected(c, l, disk, redact, k, SOURCES).value ==> IsMemberOf(c, l, disk, redact, k, m)
  {
    hide Collected, IsMemberOf;
    CollectedFrom(c, l, disk, redact, k, SOURCES);
  }

  /** No file that exists is passed over. */
  lemma {:induction false} CollectedAll(c: Codec, l: Layout, disk: Disk, redact: bool, k: Kind, names: seq<string>)
    requires Collected(c, l, disk, redact, k, names).Ok?
    ensures var ms := Collected(c, l, disk, redact, k, names).value;
            forall n :: n in names ==>
              ReadSource(disk, PathOf(l, n)) == Absent || exists m :: m in ms && m.name == n
    decreases |names|
  {
    hide Prepare, ReadSource, PathOf, Cap;
    if names != [] {
      CollectedAll(c, l, disk, redact, k, names[1..]);
      var ms := Collected(c, l, disk, redact, k, names).value;
      var rest := Collected(c, l, disk, redact, k, names[1..]).value;
      assert forall m :: m in rest ==> m in ms;
      if ReadSource(disk, PathOf(l, names[0])) != Absent {
        assert ms[0] in ms && ms[0].name == names[0];
      }
    }
  }

  lemma {:induction false} EntriesMatch(c: Codec, ms: seq<Member>, files: map<string, string>)
    requires forall d :: Lower(c.sum(d)) == c.sum(d)
    requires forall m :: m in ms ==> SafeMemberName(m.name) && m.name in files && files[m.name] == m.data
    ensures FirstMismatch(c, Entries(c, ms), files).None?
    decreases |ms|
  {
    if ms != [] {
      assert Entries(c, ms)[1..] == Entries(c, ms[1..]);
      assert ms[0] in ms;
      EntriesMatch(c, ms[1..], files);
    }
  }

  lemma SafeNames()
    ensures SafeMemberName(CONFIG_NAME) && SafeMemberName(TASKS_NAME) && SafeMemberName(MANIFEST_NAME)
  {
  }

  /** Open on a packed archive: the only thing left to go wrong is a member over
      the caps Open holds every archive to. */
  lemma OpenPacked(c: Codec, ms: seq<Member>, m: Manifest, encrypted: bool)
    requires Faithful(c) && OnlySources(ms)
    requires m.schema == SCHEMA_VERSION && (m.secrets == SECRETS_REDACTED || m.secrets == SECRETS_INCLUDED)
    requires m.files == Entries(c, ms)
    ensures var members := [Member(MANIFEST_NAME, c.encodeManifest(m))] + ms;
            OpenEntries(c, Zipped(members), encrypted) ==
            if SpendAll(MAX_CONTENT, false, members).Some? then Ok(Archive(m, encrypted, FilesOf(ms)))
            else Err(TooLarge)
  {
    hide SpendAll, SafeMemberName, ReadMembersFrom, FirstMismatch, Entries, Zipped, Lower, FilesOf;
    SafeNames();
    var mm := Member(MANIFEST_NAME, c.encodeManifest(m));
    var members := [mm] + ms;
    assert DistinctNames(members);
    ReadBack(members, MAX_CONTENT, map[]);
    assert map[] + FilesOf(members) == FilesOf(members);
    if SpendAll(MAX_CONTENT, false, members).Some? {
      FilesAside(mm, ms);
      var files := FilesOf(members) - {MANIFEST_NAME};
      forall x | x in ms ensures x.name in files && files[x.name] == x.data { FilesOfHolds(ms, x); }
      EntriesMatch(c, ms, files);
      ListedAll(c, ms);
    }
  }

  lemma FilesAside(m: Member, ms: seq<Member>)
    requires forall x :: x in ms ==> x.name != m.name
    ensures var all := FilesOf([m] + ms);
            m.name in all && all[m.name] == m.data && all - {m.name} == FilesOf(ms)
  {
    assert ([m] + ms)[1..] == ms;
    FilesOfNames(ms, m.name);
  }

  lemma ListedAll(c: Codec, ms: seq<Member>)
    ensures FilesOf(ms).Keys <= Listed(Entries(c, ms))
  {
    forall n | n in FilesOf(ms) ensures n in Listed(Entries(c, ms)) {
      FilesOfNames(ms, n);
      var m :| m in ms && m.name == n;
      var i :| 0 <= i < |ms| && ms[i] == m;
      assert Entries(c, ms)[i] in Entries(c, ms);
    }
  }

  /** Every manual or scheduled archive create writes is accepted by open with the
      same passphrase, and holds exactly the collected files. */
  lemma CreateThenOpen(c: Codec, l: Layout, disk: Disk, k: Kind, passphrase: string, about: string)
    requires Faithful(c) && !k.PreRestore?
    requires Create(c, l, disk, k, passphrase, about).Ok?
    ensures var files := Collected(c, l, disk, passphrase == "", k, SOURCES).value;
            Open(c, Create(c, l, disk, k, passphrase, about).value, passphrase) ==
            Ok(Archive(ManifestOf(c, files, passphrase, k, about), passphrase != "", FilesOf(files)))
  {
    hide SpendAll, OpenEntries, Collected, Faithful;
    var files := Collected(c, l, disk, passphrase == "", k, SOURCES).value;
    CollectedShape(c, l, disk, passphrase == "", k);
    OpenPacked(c, files, ManifestOf(c, files, passphrase, k, about), passphrase != "");
  }

  /** What a member of an archive is, file by file: the file's own bytes when secrets are
      included, else the redacted config, in which every credential decodes to nothing, or
      the redacted queue; and of a file that unarr can load. */
  ghost predicate IsCopyOf(c: Codec, name: string, bytes: string, member: string, secrets: bool) {
    if name == "config.toml" then
      && c.decode(bytes).Some?
      && if secrets then member == bytes
         else
           && member == Redact(bytes) && c.decode(member).Some?
           && forall s :: s in SECRETS ==> c.decode(member).value.Secret(s) == ""
    else
      && c.loadsTasks(bytes)
      && if secrets then member == bytes else c.redactTasks(bytes) == Some(member)
  }

  /** A manual or scheduled archive, read back: it holds each of the two files that exists, and
      nothing else, as a faithful or a redacted copy according to whether it is sealed. */
  lemma CreatedHolds(c: Codec, l: Layout, disk: Disk, k: Kind, passphrase: string, about: string)
    requires Faithful(c) && !k.PreRestore?
    requires Create(c, l, disk, k, passphrase, about).Ok?
    ensures var got := Open(c, Create(c, l, disk, k, passphrase, about).value, passphrase);
            && got.Ok? && got.value.encrypted == (passphrase != "")
            && got.value.manifest.secrets == (if passphrase == "" then "redacted" else "included")
            && got.value.files != map[]
            && forall name :: name in got.value.files
                 <==> || (name == "config.toml" && l.configPath in disk.files)
                      || (name == "active-tasks.json" && l.tasksPath in disk.files)
    ensures var files := Open(c, Create(c, l, disk, k, passphrase, about).value, passphrase).value.files;
            && ("config.toml" in files ==>
                  IsCopyOf(c, "config.toml", disk.files[l.configPath], files["config.toml"], passphrase != ""))
            && ("active-tasks.json" in files ==>
                  var queue := files["active-tasks.json"];
                  IsCopyOf(c, "active-tasks.json", disk.files[l.tasksPath], queue, passphrase != ""))
  {
    hide Open, Collected, Faithful, FilesOf, IsCopyOf, DistinctNames, Pack, IsMemberOf;
    var redact := passphrase == "";
    var ms := Collected(c, l, disk, redact, k, SOURCES).value;
    CollectedShape(c, l, disk, redact, k);
    CreateThenOpen(c, l, disk, k, passphrase, about);
    CollectedNames(c, l, disk, redact, k);
    assert ms[0] in ms;
    forall m | m in ms
      ensures m.name in FilesOf(ms) && FilesOf(ms)[m.name] == m.data && PathOf(l, m.name) in disk.files
      ensures IsCopyOf(c, m.name, disk.files[PathOf(l, m.name)], m.data, !redact)
    {
      FilesOfHolds(ms, m);
      MemberIsCopy(c, l, disk, redact, k, m);
    }
    FilesOfNames(ms, CONFIG_NAME);
    FilesOfNames(ms, TASKS_NAME);
  }

  /** The members are named after the files that are there. */
  lemma CollectedNames(c: Codec, l: Layout, disk: Disk, redact: bool, k: Kind)
    requires Collected(c, l, disk, redact, k, SOURCES).Ok?
    ensures forall name :: name in FilesOf(Collected(c, l, disk, redact, k, SOURCES).value)
              <==> || (name == CONFIG_NAME && l.configPath in disk.files)
                   || (name == TASKS_NAME && l.tasksPath in disk.files)
  {
    hide Collected, FilesOf, DistinctNames, Prepare;
    var ms := Collected(c, l, disk, redact, k, SOURCES).value;
    CollectedShape(c, l, disk, redact, k);
    CollectedAll(c, l, disk, redact, k, SOURCES);
    CollectedReads(c, l, disk, redact, k, SOURCES);
    assert CONFIG_NAME in SOURCES && TASKS_NAME in SOURCES;
    forall name ensures name in FilesOf(ms) <==> exists m :: m in ms && m.name == name { FilesOfNames(ms, name); }
  }

  lemma MemberIsCopy(c: Codec, l: Layout, disk: Disk, redact: bool, k: Kind, m: Member)
    requires IsMemberOf(c, l, disk, redact, k, m) && !k.PreRestore? && (m.name == CONFIG_NAME || m.name == TASKS_NAME)
    ensures PathOf(l, m.name) in disk.files
    ensures IsCopyOf(c, m.name, disk.files[PathOf(l, m.name)], m.data, !redact)
  {
    hide IsCopyOf, Prepare;
    PreparedIsCopy(c, m.name, disk.files[PathOf(l, m.name)], m.data, redact);
  }

  lemma PreparedIsCopy(c: Codec, name: string, bytes: string, member: string, redact: bool)
    requires Prepare(c, name, bytes, redact, true) == Ok(member) && (name == CONFIG_NAME || name == TASKS_NAME)
    ensures IsCopyOf(c, name, bytes, member, !redact)
  {
    hide Redact;
  }

  /** Reading what is there must have worked. */
  lemma {:induction false} CollectedReads(c: Codec, l: Layout, disk: Disk, redact: bool, k: Kind, names: seq<string>)
    requires Collected(c, l, disk, redact, k, names).Ok?
    ensures forall n :: n in names ==> PathOf(l, n) !in disk.unreadable
    decreases |names|
  {
    hide Prepare, PathOf, Cap;
    if names != [] {
      CollectedReads(c, l, disk, redact, k, names[1..]);
    }
  }

  /** There is nothing to back up exactly when neither file is there. */
  lemma NothingThere(c: Codec, l: Layout, disk: Disk, k: Kind, passphrase: string, about: string)
    ensures Create(c, l, disk, k, passphrase, about) == Err(NothingToBackup)
            <==> forall p :: p == l.configPath || p == l.tasksPath ==> p !in disk.files && p !in disk.unreadable
  {
    hide Pack, Collected;
    var redact := !KeepsSecrets(passphrase, k);
    PackErrors(c, passphrase, k.AsIs());
    CollectedErrors(c, l, disk, redact, k, SOURCES);
    assert CONFIG_NAME in SOURCES && TASKS_NAME in SOURCES;
    if Collected(c, l, disk, redact, k, SOURCES).Ok? {
      var ms := Collected(c, l, disk, redact, k, SOURCES).value;
      CollectedAll(c, l, disk, redact, k, SOURCES);
      CollectedShape(c, l, disk, redact, k);
      if ms != [] { assert ms[0] in ms; }
    }
  }

  lemma {:induction false} CollectedErrors(c: Codec, l: Layout, disk: Disk, redact: bool, k: Kind, names: seq<string>)
    ensures Collected(c, l, disk, redact, k, names) != Err(NothingToBackup)
    ensures (forall n :: n in names ==> ReadSource(disk, PathOf(l, n)) == Absent) ==>
              Collected(c, l, disk, redact, k, names).Ok?
    decreases |names|
  {
    hide ReadSource, PathOf, Cap, Redact;
    if names != [] {
      CollectedErrors(c, l, disk, redact, k, names[1..]);
    }
  }

  lemma PackErrors(c: Codec, passphrase: string, uncapped: bool)
    ensures forall m, files :: Pack(c, m, files, passphrase, uncapped) != Err(NothingToBackup)
  {
    hide SpendAll;
  }

  /** A pre-restore snapshot is held to the shared bound alone, so it opens exactly
      when its members happen to fit their own caps too. */
  lemma SnapshotOpens(c: Codec, l: Layout, disk: Disk, about: string)
    requires Faithful(c) && Create(c, l, disk, PreRestore, "", about).Ok?
    ensures var files := Collected(c, l, disk, false, PreRestore, SOURCES).value;
            var m := ManifestOf(c, files, "", PreRestore, about);
            Open(c, Create(c, l, disk, PreRestore, "", about).value, "").Ok?
            <==> FitCaps(false, [Member(MANIFEST_NAME, c.encodeManifest(m))] + files)
  {
    hide SpendAll, OpenEntries, Collected, Faithful;
    var files := Collected(c, l, disk, false, PreRestore, SOURCES).value;
    var m := ManifestOf(c, files, "", PreRestore, about);
    CollectedShape(c, l, disk, false, PreRestore);
    OpenPacked(c, files, m, false);
    var members := [Member(MANIFEST_NAME, c.encodeManifest(m))] + files;
    SpendAllExact(MAX_CONTENT, true, members);
    SpendAllExact(MAX_CONTENT, false, members);
  }

  /** A config one byte over its cap is snapshotted before a restore, as long as the
      archive as a whole is not too large, and that snapshot cannot be opened. */
  lemma OversizedSnapshotIsRefused(c: Codec, about: string)
    requires Faithful(c)
    ensures var data := seq(MAX_CONFIG + 1, i => 'x');
            var files := [Member(CONFIG_NAME, data)];
            var manifest := c.encodeManifest(ManifestOf(c, files, "", PreRestore, about));
            var blob := Plain(Zipped([Member(MANIFEST_NAME, manifest)] + files));
            |manifest| + |data| <= MAX_CONTENT && c.size(blob) <= MAX_ARCHIVE ==>
              && Create(c, Layout("c", "t"), Disk(map["c" := data], {}), PreRestore, "", about) == Ok(blob)
              && Open(c, blob, "") == Err(TooLarge)
  {
    hide SpendAll, OpenEntries, Faithful, Zipped, Entries;
    var data: string := seq(MAX_CONFIG + 1, i => 'x');
    var disk := Disk(map["c" := data], {});
    var l := Layout("c", "t");
    assert SOURCES[1..] == [TASKS_NAME] && SOURCES[1..][1..] == [];
    assert Collected(c, l, disk, false, PreRestore, [TASKS_NAME]) == Ok([]);
    assert Collected(c, l, disk, false, PreRestore, SOURCES) == Ok([Member(CONFIG_NAME, data)] + []);
    var files := [Member(CONFIG_NAME, data)];
    assert [Member(CONFIG_NAME, data)] + [] == files;
    var m := ManifestOf(c, files, "", PreRestore, about);
    OpenPacked(c, files, m, false);
    var first := Member(MANIFEST_NAME, c.encodeManifest(m));
    SpendAllExact(MAX_CONTENT, false, [first] + files);
    SpendAllExact(MAX_CONTENT, true, [first] + files);
    assert files[0] in [first] + files;
    TotalOfTwo(first, files[0]);
  }

  lemma TotalOfTwo(x: Member, y: Member)
    ensures Total([x] + [y]) == |x.data| + |y.data|
  {
    TotalSplit([x], [y]);
    assert [x][1..] == [] && [y][1..] == [];
  }

  // --- What open accepts is verified ------------------------------------------------------------

  lemma {:induction false} MatchedFiles(c: Codec, files: seq<FileEntry>, members: map<string, string>)
    requires FirstMismatch(c, files, members).None?
    ensures forall e :: e in files ==>
              && SafeMemberName(e.name) && e.name in members
              && |members[e.name]| == e.size && c.sum(members[e.name]) == Lower(e.sum)
    decreases |files|
  {
    hide SafeMemberName, Lower;
    if files != [] {
      MatchedFiles(c, files[1..], members);
    }
  }

  lemma {:induction false} ReadWithinCaps(entries: seq<ZipEntry>, left: nat, got: map<string, string>)
    requires ReadMembersFrom(entries, left, got).Ok?
    requires forall n :: n in got ==> SafeMemberName(n) && |got[n]| <= MemberCap(n)
    ensures var r := ReadMembersFrom(entries, left, got).value;
            forall n :: n in r ==> SafeMemberName(n) && |r[n]| <= MemberCap(n)
    decreases |entries|
  {
    hide SafeMemberName, MemberCap;
    if entries != [] {
      var f := entries[0];
      ReadWithinCaps(entries[1..], left - |f.data|, got[f.name := f.data]);
    }
  }

  /** A plain file name: no path, no drive, no directory. */
  predicate PlainName(n: string) {
    n != "" && n != "." && n != ".." && '/' !in n && '\\' !in n && ':' !in n && '\0' !in n
  }

  lemma SafeIsPlain(n: string)
    ensures SafeMemberName(n) <==> PlainName(n)
  {
    if SafeMemberName(n) {
      forall c | c in n ensures SafeChar(c) {
        var i :| 0 <= i < |n| && n[i] == c;
      }
    } else if n != "" && n != "." && n != ".." {
      var i :| 0 <= i < |n| && !SafeChar(n[i]);
      assert n[i] in n;
    }
  }

  /** An archive open returns is no larger than 129 MiB and of the one known schema, and lists
      exactly the files it holds, each under a plain file name, within its cap and matching its
      size and checksum; a sealed one needed its own passphrase. */
  lemma OpenIsVerified(c: Codec, blob: Blob, passphrase: string)
    requires Open(c, blob, passphrase).Ok?
    ensures var a := Open(c, blob, passphrase).value;
            && a.files.Keys == Listed(a.manifest.files)
            && (forall e :: e in a.manifest.files ==>
                  |a.files[e.name]| == e.size && c.sum(a.files[e.name]) == Lower(e.sum))
            && (forall n :: n in a.files ==> PlainName(n) && n != "manifest.json")
            && (forall n :: n in a.files ==>
                  |a.files[n]| <= (if n == "config.toml" then 4 * 1024 * 1024 else 128 * 1024 * 1024))
            && (a.manifest.secrets == "redacted" || a.manifest.secrets == "included") && a.manifest.schema == 1
            && c.size(blob) <= 129 * 1024 * 1024
            && a.encrypted == blob.Sealed? && (blob.Sealed? ==> passphrase == blob.passphrase != "")
  {
    hide SafeMemberName, MemberCap, Lower, FirstMismatch, ReadMembersFrom;
    var a := Open(c, blob, passphrase).value;
    ReadWithinCaps(blob.entries, MAX_CONTENT, map[]);
    MatchedFiles(c, a.manifest.files, a.files);
    forall n | n in a.files ensures PlainName(n) { SafeIsPlain(n); }
    CapsAre();
  }

  lemma CapsAre()
    ensures forall n :: MemberCap(n) == if n == "config.toml" then 4 * 1024 * 1024
                                        else if n == "manifest.json" then 1024 * 1024
                                        else 128 * 1024 * 1024
    ensures MAX_CONTENT == 128 * 1024 * 1024 && MAX_ARCHIVE == 129 * 1024 * 1024 && MAX_MEMBERS == 16
  {
  }

  // --- The loops ------------------------------------------------------------------------------

  /** collect: reads, checks and redacts the files that exist, stopping at the first
      one that cannot go into the archive. */
  method CollectSources(c: Codec, l: Layout, disk: Disk, redact: bool, k: Kind) returns (r: Result<seq<Member>>)
    ensures r == Collected(c, l, disk, redact, k, SOURCES)
  {
    var out: seq<Member> := [];
    var names := SOURCES;
    assert names[0..] == names && forall rest: seq<Member> :: [] + rest == rest;
    for i := 0 to |names|
      invariant Collected(c, l, disk, redact, k, names) == match Collected(c, l, disk, redact, k, names[i..])
                                                           case Err(e) => Err(e)
                                                           case Ok(rest) => Ok(out + rest)
    {
      hide Prepare, ReadSource;
      var name := names[i];
      assert names[i..][1..] == names[i + 1..];
      match ReadSource(disk, PathOf(l, name))
      case Absent =>
      case Unreadable => return Err(CannotRead);
      case Content(data) =>
        var budget := new ContentBudget(k.AsIs());
        if |data| > budget.Room(name) {
          return Err(TooLarge);
        }
        match Prepare(c, name, data, redact, !k.AsIs()) {
          case Err(e) => return Err(e);
          case Ok(member) =>
            ghost var before := out;
            out := out + [Member(name, member)];
            assert forall rest: seq<Member> :: before + ([Member(name, member)] + rest) == out + rest;
        }
    }
    assert names[|names|..] == [] && out + [] == out;
    r := Ok(out);
  }

  /** pack's budget loop. */
  method SpendMembers(budget: ContentBudget, members: seq<Member>) returns (ok: bool)
    requires budget.left >= 0
    modifies budget
    ensures ok <==> SpendAll(old(budget.left), budget.uncapped, members).Some?
    ensures ok ==> budget.left >= 0 && SpendAll(old(budget.left), budget.uncapped, members) == Some(budget.left)
  {
    for i := 0 to |members|
      invariant budget.left >= 0
      invariant SpendAll(old(budget.left), budget.uncapped, members)
             == SpendAll(budget.left, budget.uncapped, members[i..])
    {
      assert members[i..][1..] == members[i + 1..];
      ok := budget.Spend(members[i].name, |members[i].data|);
      if !ok {
        return;
      }
    }
    ok := true;
  }

  /** readMembers: loads every member within the same budget. */
  method LoadMembers(entries: seq<ZipEntry>) returns (r: Result<map<string, string>>)
    ensures r == ReadMembers(entries)
  {
    if |entries| > MAX_MEMBERS {
      return Err(TooLarge);
    }
    var out: map<string, string> := map[];
    var budget := new ContentBudget(false);
    for i := 0 to |entries|
      invariant budget.left >= 0 && !budget.uncapped
      invariant ReadMembersFrom(entries, MAX_CONTENT, map[]) == ReadMembersFrom(entries[i..], budget.left, out)
    {
      hide SafeMemberName;
      assert entries[i..][1..] == entries[i + 1..];
      var f := entries[i];
      if !SafeMemberName(f.name) || !f.regular {
        return Err(UnsafePath);
      }
      if f.name in out {
        return Err(BadManifest);
      }
      if f.declared > budget.Room(f.name) {
        return Err(TooLarge);
      }
      if !f.inflating.Inflates? {
        return Err(if f.inflating.WontOpen? then BadManifest else BadChecksum);
      }
      if |f.data| > budget.Room(f.name) {
        return Err(TooLarge);
      }
      var _ := budget.Spend(f.name, |f.data|);
      out := out[f.name := f.data];
    }
    r := Ok(out);
  }

  /** verify: the manifest and the members describe exactly the same files. */
  method VerifyMembers(c: Codec, m: Manifest, members: map<string, string>) returns (bad: Option<Error>)
    ensures bad == Verify(c, m, members)
  {
    var seen: set<string> := {};
    for i := 0 to |m.files|
      invariant FirstMismatch(c, m.files, members) == FirstMismatch(c, m.files[i..], members)
      invariant seen == Listed(m.files[..i])
    {
      hide SafeMemberName, Lower;
      var e := m.files[i];
      assert m.files[i..][1..] == m.files[i + 1..];
      assert m.files[..i + 1] == m.files[..i] + [e];
      if !SafeMemberName(e.name) {
        return Some(UnsafePath);
      }
      if e.name !in members {
        return Some(BadManifest);
      }
      if |members[e.name]| != e.size || c.sum(members[e.name]) != Lower(e.sum) {
        return Some(BadChecksum);
      }
      seen := seen + {e.name};
    }
    assert m.files[..|m.files|] == m.files;
    bad := if members.Keys <= seen then None else Some(BadManifest);
  }
}
