/** Redacting config.toml for a secret-free archive, and fitting such a config onto
    the machine it is restored on. Decoding TOML is a parameter: nothing here
    depends on how it reads a text, only on its reading a text the same way twice. */
module ConfigMerge {
  import opened Wrappers
  import opened ConfigText
  import opened ConfigEdit

  const API_KEY := Setting("auth", "api_key")
  const AGENT_HASH := Setting("agent", "agent_hash")
  const SECRETS := [API_KEY, AGENT_HASH, Setting("downloads", "webdav_username"),
                    Setting("downloads", "webdav_password"), Setting("metrics", "token")]
  const AGENT_ID := Setting("agent", "id")
  const ID_KEYS := [AGENT_ID]

  /** The decoded fields the backup looks at. */
  datatype Config = Config(secrets: map<Setting, string>, agentId: string) {
    function Secret(s: Setting): string {
      if s in secrets then secrets[s] else ""
    }
  }

  type Decoder = string -> Option<Config>

  function SecretEvents(text: string): seq<Event> {
    Events(SplitLines(text), "", SECRETS)
  }

  function Redact(text: string): string {
    Join(Rewritten(SplitLines(text), "", SECRETS, Erase))
  }

  /** The last non-empty value of each setting. */
  function Have(evs: seq<Event>): map<Setting, string> {
    if evs == [] then map[]
    else
      var ev := evs[|evs| - 1];
      var h := Have(evs[..|evs| - 1]);
      if IsEmptyString(ev.quoted) then h else h[ev.setting := ev.quoted]
  }

  /** What is at hand is a non-empty value of that setting, and every setting with
      one is at hand. */
  lemma {:induction false} HaveIsWritten(evs: seq<Event>)
    ensures forall s :: s in Have(evs) ==> Event(s, Have(evs)[s]) in evs && !IsEmptyString(Have(evs)[s])
    ensures forall ev :: ev in evs && !IsEmptyString(ev.quoted) ==> ev.setting in Have(evs)
    decreases |evs|
  {
    if evs != [] {
      HaveIsWritten(evs[..|evs| - 1]);
    }
  }

  /** The last value of s, empty or not. */
  function LastOf(evs: seq<Event>, s: Setting): (r: Option<string>)
    ensures r.Some? ==> Event(s, r.value) in evs
    ensures r.None? <==> forall ev :: ev in evs ==> ev.setting != s
  {
    if evs == [] then None
    else if evs[|evs| - 1].setting == s then Some(evs[|evs| - 1].quoted)
    else LastOf(evs[..|evs| - 1], s)
  }

  function Merge(restored: string, current: string): string {
    Join(Rewritten(SplitLines(restored), "", SECRETS, Fill(Have(SecretEvents(current)))))
  }

  lemma HaveGood(text: string)
    ensures GoodEdit(Fill(Have(SecretEvents(text))))
    ensures forall ev :: ev in SecretEvents(text) ==> ev.setting in SECRETS && GoodQuoted(ev.quoted)
  {
    hide SplitLines, Events, GoodQuoted;
    LinesAreOneLine(SplitLines(text));
    EventsGood(SplitLines(text), "", SECRETS);
    HaveIsWritten(SecretEvents(text));
  }

  lemma JoinInjective(a: seq<string>, b: seq<string>)
    requires IsLines(a) && IsLines(b)
    ensures Join(a) == Join(b) <==> a == b
  {
    hide IsLines, Join, SplitLines;
    SplitJoin(a);
    SplitJoin(b);
  }

  /** Reading an edited text back gives the edited lines. */
  lemma EditedText(text: string, keys: seq<Setting>, e: Edit)
    requires GoodEdit(e)
    ensures AllOneLine(SplitLines(text))
    ensures IsLines(Rewritten(SplitLines(text), "", keys, e))
    ensures SplitLines(Join(Rewritten(SplitLines(text), "", keys, e))) == Rewritten(SplitLines(text), "", keys, e)
  {
    hide GoodEdit, Rewritten, Join;
    LinesAreOneLine(SplitLines(text));
    RewrittenIsLines(SplitLines(text), keys, e);
    SplitJoin(Rewritten(SplitLines(text), "", keys, e));
  }

  // --- Redact, then merge ------------------------------------------------------------

  /** What merging a redacted config with its original writes for s. */
  function Refilled(have: map<Setting, string>, s: Setting): string {
    if s in have then have[s] else EMPTY_BASIC
  }

  lemma RoundTripLines(text: string)
    ensures Merge(Redact(text), text)
         == Join(Rewritten(SplitLines(text), "", SECRETS, Then(Erase, Fill(Have(SecretEvents(text))))))
  {
    hide Rewritten, Join, SplitLines, Have, SecretEvents;
    EditedText(text, SECRETS, Erase);
    RewrittenTwice(SplitLines(text), "", SECRETS, Erase, Fill(Have(SecretEvents(text))));
  }

  /** Redacting a config and merging it with the very config it came from gives
      that config back exactly when every recognised credential already reads as
      its last non-empty value, or as "" when it has none. */
  lemma RedactMergeRoundTrip(text: string)
    ensures Merge(Redact(text), text) == text
            <==> forall ev :: ev in SecretEvents(text) ==> ev.quoted == Refilled(Have(SecretEvents(text)), ev.setting)
  {
    hide Rewritten, Join, SplitLines, Have, IsLines, AllOneLine, GoodEdit;
    var ls := SplitLines(text);
    var e := Then(Erase, Fill(Have(SecretEvents(text))));
    RoundTripLines(text);
    assert GoodEdit(e) && GoodEdit(Keep) by {
      HaveGood(text);
      GoodThen(Have(SecretEvents(text)));
    }
    EditedText(text, SECRETS, e);
    EditedText(text, SECRETS, Keep);
    KeepIsIdentity(ls, "", SECRETS);
    JoinSplit(text);
    JoinInjective(Rewritten(ls, "", SECRETS, e), Rewritten(ls, "", SECRETS, Keep));
    SameRewrite(ls, "", SECRETS, e, Keep);
  }

  lemma GoodThen(have: map<Setting, string>)
    requires GoodEdit(Fill(have))
    ensures GoodEdit(Then(Erase, Fill(have))) && GoodEdit(Keep)
  {
  }

  /** Each setting is recognised at most once. */
  ghost predicate Once(evs: seq<Event>) {
    forall i, j :: 0 <= i < j < |evs| ==> evs[i].setting != evs[j].setting
  }

  lemma HaveOnce(evs: seq<Event>, ev: Event)
    requires Once(evs) && ev in evs
    ensures ev.setting in Have(evs) <==> !IsEmptyString(ev.quoted)
    ensures ev.setting in Have(evs) ==> Have(evs)[ev.setting] == ev.quoted
  {
    var h := Have(evs);
    HaveIsWritten(evs);
    if ev.setting in h {
      var i :| 0 <= i < |evs| && evs[i] == ev;
      var j :| 0 <= j < |evs| && evs[j] == Event(ev.setting, h[ev.setting]);
      assert i == j;
    }
  }

  /** With each credential written once, the round trip restores every line as it
      was, save that an empty '' comes back as "". */
  lemma RedactMergeOnce(text: string)
    requires Once(SecretEvents(text))
    ensures Merge(Redact(text), text) == Join(Rewritten(SplitLines(text), "", SECRETS, Tidy))
  {
    hide Rewritten, Join, SplitLines, Have;
    var e := Then(Erase, Fill(Have(SecretEvents(text))));
    RoundTripLines(text);
    forall ev | ev in SecretEvents(text)
      ensures Value(e, ev.setting, ev.quoted) == Value(Tidy, ev.setting, ev.quoted)
    {
      HaveOnce(SecretEvents(text), ev);
    }
    SameRewrite(SplitLines(text), "", SECRETS, e, Tidy);
  }

  // --- Merging again -------------------------------------------------------------------

  /** A second merge of the same archive would fill in what the first one did. */
  ghost predicate Settled(archive: seq<Event>, have: map<Setting, string>) {
    forall ev :: ev in archive && IsEmptyString(ev.quoted) ==>
      if ev.setting in have
      then IsEmptyString(LastOf(archive, ev.setting).value) || LastOf(archive, ev.setting).value == have[ev.setting]
      else forall other :: other in archive && other.setting == ev.setting ==> IsEmptyString(other.quoted)
  }

  lemma EditAllInit(evs: seq<Event>, keys: seq<Setting>, e: Edit)
    requires evs != []
    ensures EditAll(evs, keys, e)[..|evs| - 1] == EditAll(evs[..|evs| - 1], keys, e)
  {
  }

  lemma HaveLast(evs: seq<Event>)
    requires evs != []
    ensures var ev, h := evs[|evs| - 1], Have(evs[..|evs| - 1]);
            Have(evs) == if IsEmptyString(ev.quoted) then h else h[ev.setting := ev.quoted]
  {
  }

  lemma HaveNone()
    ensures Have([]) == map[]
  {
  }

  /** After the fill, a setting at hand reads as its last value, filled in. */
  lemma {:induction false} FilledFromHand(evs: seq<Event>, have: map<Setting, string>, s: Setting)
    requires s in SECRETS && s in have && !IsEmptyString(have[s]) && LastOf(evs, s).Some?
    ensures var h' := Have(EditAll(evs, SECRETS, Fill(have)));
            s in h' && h'[s] == Value(Fill(have), s, LastOf(evs, s).value)
    decreases |evs|
  {
    hide EditAll, SECRETS, Have;
    var last := evs[|evs| - 1];
    EditAllInit(evs, SECRETS, Fill(have));
    HaveLast(EditAll(evs, SECRETS, Fill(have)));
    if last.setting != s {
      FilledFromHand(evs[..|evs| - 1], have, s);
    }
  }

  /** After the fill, a setting not at hand reads as before. */
  lemma {:induction false} FilledUntouched(evs: seq<Event>, have: map<Setting, string>, s: Setting)
    requires s !in have
    ensures var h' := Have(EditAll(evs, SECRETS, Fill(have)));
            (s in h' <==> s in Have(evs)) && (s in h' ==> h'[s] == Have(evs)[s])
    decreases |evs|
  {
    hide EditAll, SECRETS, Have;
    HaveNone();
    if evs != [] {
      HaveLast(evs);
      HaveLast(EditAll(evs, SECRETS, Fill(have)));
      EditAllInit(evs, SECRETS, Fill(have));
      FilledUntouched(evs[..|evs| - 1], have, s);
    }
  }

  lemma SettledExact(evs: seq<Event>, have: map<Setting, string>)
    requires forall ev :: ev in evs ==> ev.setting in SECRETS
    requires forall x :: x in have ==> !IsEmptyString(have[x])
    ensures var h' := Have(EditAll(evs, SECRETS, Fill(have)));
            Settled(evs, have)
            <==> forall ev :: ev in evs ==>
                   Value(Fill(h'), ev.setting, ev.quoted) == Value(Fill(have), ev.setting, ev.quoted)
  {
    hide Have;
    var h' := Have(EditAll(evs, SECRETS, Fill(have)));
    HaveIsWritten(EditAll(evs, SECRETS, Fill(have)));
    HaveIsWritten(evs);
    forall ev | ev in evs && IsEmptyString(ev.quoted)
      ensures Value(Fill(h'), ev.setting, ev.quoted) == Value(Fill(have), ev.setting, ev.quoted)
              <==> if ev.setting in have
                   then || IsEmptyString(LastOf(evs, ev.setting).value)
                        || LastOf(evs, ev.setting).value == have[ev.setting]
                   else forall other :: other in evs && other.setting == ev.setting ==> IsEmptyString(other.quoted)
    {
      if ev.setting in have {
        FilledFromHand(evs, have, ev.setting);
      } else {
        FilledUntouched(evs, have, ev.setting);
      }
      assert ev.setting in Have(evs) ==> Event(ev.setting, Have(evs)[ev.setting]) in evs;
    }
  }

  lemma MergeEvents(restored: string, current: string)
    ensures SplitLines(Merge(restored, current))
         == Rewritten(SplitLines(restored), "", SECRETS, Fill(Have(SecretEvents(current))))
    ensures SecretEvents(Merge(restored, current))
         == EditAll(SecretEvents(restored), SECRETS, Fill(Have(SecretEvents(current))))
  {
    hide SplitLines, Join, Rewritten, Have, GoodEdit, EditAll, AllOneLine, Events;
    HaveGood(current);
    EditedText(restored, SECRETS, Fill(Have(SecretEvents(current))));
    EventsRewritten(SplitLines(restored), "", SECRETS, Fill(Have(SecretEvents(current))), SECRETS);
  }

  /** Merging the same archive again over the result changes nothing exactly when
      the first merge was settled. */
  lemma MergeAgain(restored: string, current: string)
    ensures Merge(restored, Merge(restored, current)) == Merge(restored, current)
            <==> Settled(SecretEvents(restored), Have(SecretEvents(current)))
  {
    hide SplitLines, Join, Rewritten, Have, GoodEdit, EditAll, AllOneLine, Events, IsLines, Settled;
    var merged := Merge(restored, current);
    var e, e' := Fill(Have(SecretEvents(current))), Fill(Have(SecretEvents(merged)));
    HaveGood(current);
    HaveGood(merged);
    HaveGood(restored);
    HaveIsWritten(SecretEvents(current));
    EditedText(restored, SECRETS, e);
    EditedText(restored, SECRETS, e');
    MergeEvents(restored, current);
    JoinInjective(Rewritten(SplitLines(restored), "", SECRETS, e'), Rewritten(SplitLines(restored), "", SECRETS, e));
    SameRewrite(SplitLines(restored), "", SECRETS, e', e);
    SettledExact(SecretEvents(restored), Have(SecretEvents(current)));
  }

  lemma OnceSettled(evs: seq<Event>, have: map<Setting, string>)
    requires Once(evs)
    ensures Settled(evs, have)
  {
    forall ev, other | ev in evs && other in evs && other.setting == ev.setting
      ensures other == ev
    {
      var i :| 0 <= i < |evs| && evs[i] == ev;
      var j :| 0 <= j < |evs| && evs[j] == other;
      assert i == j;
    }
  }
}
