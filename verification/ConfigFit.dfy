/** A secret-free config restored onto a machine that has one: its credentials stay,
    and so does the agent id they belong to. */
module ConfigFit {
  import opened Wrappers
  import opened ConfigText
  import opened ConfigEdit
  import opened ConfigMerge

  // --- Simple lines ------------------------------------------------------------------

  function IdLine(quoted: string): string { "id = " + quoted + "\n" }

  const AGENT_HEADER := "[agent]\n"

  /** A lead, a literal and nothing else. */
  lemma PlainLineReads(lead: string, key: string, q: string)
    requires IsLead(lead, key) && '\n' !in lead && GoodQuoted(q)
    ensures Classify(lead + q + "\n") == Pair(KeyValue(lead, key, q, "")) && EndsInNewline(lead + q + "\n")
    ensures Eol(lead + q + "\n") == "\n"
  {
    hide IsLead, Classify, IsQuoted;
    var kv := KeyValue(lead, key, q, "");
    assert IsTail("");
    PutBody(kv, q, "\n");
    var line := lead + q + "\n";
    assert Put(kv, q, "\n") == line;
    assert line[..|line| - 1] == lead + q;
  }

  lemma IdLineReads(q: string)
    requires GoodQuoted(q)
    ensures Classify(IdLine(q)) == Pair(KeyValue("id = ", "id", q, "")) && EndsInNewline(IdLine(q))
    ensures Eol(IdLine(q)) == "\n"
  {
    hide Classify, GoodQuoted, Eol;
    assert LeadAt("id = ", "id", 0, 2, 3);
    PlainLineReads("id = ", "id", q);
  }

  lemma BareHeader(name: string)
    requires IsRun(name, 0, |name|, TableChar) && name != ""
    ensures ParseHeader("[" + name + "]") == Some(name)
  {
    var body := "[" + name + "]";
    var n := |name| + 1;
    assert forall i :: 1 <= i < n ==> body[i] == name[i - 1];
    assert IsRun(body, 0, 0, Blank) && IsRun(body, 1, 1, Blank);
    assert IsRun(body, 1, n, TableChar) && IsRun(body, n, n, Blank);
    assert body[n + 1..] == "" && body[1..n] == name;
  }

  lemma HeaderReads(name: string)
    requires IsRun(name, 0, |name|, TableChar) && name != ""
    ensures Classify("[" + name + "]\n") == Header(name) && EndsInNewline("[" + name + "]\n")
  {
    hide ParseKeyValue, ParseHeader;
    var body := "[" + name + "]";
    var line := "[" + name + "]\n";
    BareHeader(name);
    BodyIs(body, "\n");
    assert line == body + "\n" && line[..|line| - 1] == body;
  }

  lemma AgentHeaderReads()
    ensures Classify(AGENT_HEADER) == Header("agent") && EndsInNewline(AGENT_HEADER)
  {
    hide Classify;
    HeaderReads("agent");
    assert "[" + "agent" + "]\n" == AGENT_HEADER;
  }

  lemma EmptyLinesRead()
    ensures Classify("") == Other && Classify("\n") == Other
  {
    BodyIs("", "");
    BodyIs("", "\n");
    assert "" + "" == "" && "" + "\n" == "\n";
  }

  lemma NewlineReadsSame(line: string)
    ensures Classify(line + "\n") == Classify(line)
  {
    hide ParseHeader, ParseKeyValue;
    assert Body(line) == "" || !IsEol(Body(line)[|Body(line)| - 1]);
    BodyIs(Body(line), Eol(line) + "\n");
    assert line + "\n" == Body(line) + (Eol(line) + "\n");
  }

  // --- Adding whole lines --------------------------------------------------------------

  /** The lines of text followed by line: text's last line runs on into it. */
  lemma AppendLine(text: string, line: string)
    requires EndsInNewline(line)
    ensures var ls := SplitLines(text);
            SplitLines(text + line) == ls[..|ls| - 1] + [ls[|ls| - 1] + line, ""]
  {
    hide SplitLines, Join;
    var ls := SplitLines(text);
    var n := |ls| - 1;
    var r := ls[..n] + [ls[n] + line, ""];
    assert Join(r) == text + line by {
      InitLast(text);
      JoinAppend(ls[..n], [ls[n] + line, ""]);
      JoinTwo(ls[n] + line, "");
      assert Join(ls[..n]) + (ls[n] + line + "") == (Join(ls[..n]) + ls[n]) + line;
    }
    assert IsLines(r) by {
      var last := ls[n] + line;
      assert last[..|last| - 1] == ls[n] + line[..|line| - 1];
    }
    SplitJoin(r);
  }

  lemma InitLast(text: string)
    ensures var ls := SplitLines(text);
            text == Join(ls[..|ls| - 1]) + ls[|ls| - 1]
  {
    hide SplitLines, Join;
    JoinEmpty();
    var ls := SplitLines(text);
    var n := |ls| - 1;
    JoinSplit(text);
    assert ls == ls[..n] + [ls[n]];
    JoinAppend(ls[..n], [ls[n]]);
    JoinCons(ls[n], []);
    assert [ls[n]] + [] == [ls[n]];
  }

  lemma JoinTwo(x: string, y: string)
    ensures Join([x, y]) == x + y
  {
    assert [x, y][1..] == [y] && [y][1..] == [];
    assert Join([y]) == y + "";
  }

  lemma EventsOne(line: string, table: string, keys: seq<Setting>)
    ensures Events([line], table, keys) == EventOf(line, table, keys)
    ensures EndTable([line], table) == NextTable(line, table)
  {
    assert [line][1..] == [];
  }

  /** Ending the last line with a newline adds no setting and changes none. */
  lemma NewlineEvents(text: string, keys: seq<Setting>)
    ensures Events(SplitLines(text + "\n"), "", keys) == Events(SplitLines(text), "", keys)
  {
    hide SplitLines, Classify;
    var ls := SplitLines(text);
    var n := |ls| - 1;
    assert EndsInNewline("\n");
    AppendLine(text, "\n");
    var a := ls[..n];
    var t := EndTable(a, "");
    assert ls == a + [ls[n]];
    EventsAppend(a, [ls[n]], "", keys);
    EventsOne(ls[n], t, keys);
    assert [ls[n] + "\n", ""] == [ls[n] + "\n"] + [""];
    EventsAppend(a, [ls[n] + "\n", ""], "", keys);
    EventsAppend([ls[n] + "\n"], [""], t, keys);
    EventsOne(ls[n] + "\n", t, keys);
    EventsOne("", EndTable([ls[n] + "\n"], t), keys);
    NewlineReadsSame(ls[n]);
    EmptyLinesRead();
  }

  /** A text that is empty or ends in a newline has an empty last line. */
  lemma EmptyLastLine(text: string)
    requires text == "" || text[|text| - 1] == '\n'
    ensures var ls := SplitLines(text); ls[|ls| - 1] == ""
  {
    hide SplitLines, Join;
    InitLast(text);
    var ls := SplitLines(text);
    var last := ls[|ls| - 1];
    assert text == Join(ls[..|ls| - 1]) + last;
  }

  lemma HeaderEvents(text: string, keys: seq<Setting>)
    requires text == "" || text[|text| - 1] == '\n'
    ensures var ls := SplitLines(text);
            SplitLines(text + AGENT_HEADER) == ls[..|ls| - 1] + [AGENT_HEADER, ""]
    ensures Events(SplitLines(text + AGENT_HEADER), "", keys) == Events(SplitLines(text), "", keys)
  {
    hide SplitLines, Classify;
    AgentHeaderReads();
    EmptyLinesRead();
    EmptyLastLine(text);
    AppendLine(text, AGENT_HEADER);
    var ls := SplitLines(text);
    var a := ls[..|ls| - 1];
    var t := EndTable(a, "");
    assert ls == a + [""];
    EventsAppend(a, [""], "", keys);
    EventsOne("", t, keys);
    assert "" + AGENT_HEADER == AGENT_HEADER;
    assert [AGENT_HEADER, ""] == [AGENT_HEADER] + [""];
    EventsAppend(a, [AGENT_HEADER, ""], "", keys);
    EventsAppend([AGENT_HEADER], [""], t, keys);
    EventsOne(AGENT_HEADER, t, keys);
    EventsOne("", "agent", keys);
  }

  // --- Setting the agent id -----------------------------------------------------------------

  function IdEvents(text: string): seq<Event> {
    Events(SplitLines(text), "", ID_KEYS)
  }

  /** The first [agent] header from line i on. */
  function AgentHeader(ls: seq<string>, i: nat): (r: Option<nat>)
    requires i <= |ls|
    ensures r.Some? ==> i <= r.value < |ls| && Classify(ls[r.value]) == Header("agent")
    decreases |ls| - i
  {
    if i == |ls| then None
    else if Classify(ls[i]) == Header("agent") then Some(i)
    else AgentHeader(ls, i + 1)
  }

  function SetAgentId(data: string, quoted: string): string {
    var ls := SplitLines(data);
    var h := AgentHeader(ls, 0);
    if IdEvents(data) != [] then Join(Rewritten(ls, "", ID_KEYS, Replace(quoted)))
    else if h.Some? then
      var nl := if EndsInNewline(ls[h.value]) then "" else "\n";
      Join(ls[..h.value + 1]) + nl + IdLine(quoted) + Join(ls[h.value + 1..])
    else
      var s := if data != "" && data[|data| - 1] != '\n' then data + "\n" else data;
      s + "\n" + AGENT_HEADER + IdLine(quoted)
  }

  lemma InsertEvents(a: seq<string>, b: seq<string>, q: string, keys: seq<Setting>)
    requires GoodQuoted(q) && EndTable(a, "") == "agent"
    ensures Events(a + [IdLine(q)] + b, "", keys)
         == Events(a, "", keys) + (if AGENT_ID in keys then [Event(AGENT_ID, q)] else []) + Events(b, "agent", keys)
    ensures Events(a + b, "", keys) == Events(a, "", keys) + Events(b, "agent", keys)
  {
    hide Classify, Events, IdLine;
    IdLineReads(q);
    EventsAppend(a, b, "", keys);
    EventsAppend(a + [IdLine(q)], b, "", keys);
    EventsAppend(a, [IdLine(q)], "", keys);
    EventsOne(IdLine(q), "agent", keys);
  }

  lemma InsertLines(text: string, i: nat, q: string)
    requires i < |SplitLines(text)| && EndsInNewline(SplitLines(text)[i]) && GoodQuoted(q)
    ensures var ls := SplitLines(text);
            SplitLines(Join(ls[..i + 1]) + IdLine(q) + Join(ls[i + 1..])) == ls[..i + 1] + [IdLine(q)] + ls[i + 1..]
  {
    hide SplitLines, Classify, IdLine, GoodQuoted, Join;
    var ls := SplitLines(text);
    var a, b := ls[..i + 1], ls[i + 1..];
    assert '\n' in ls[i];
    assert i + 1 < |ls|;
    IdLineReads(q);
    var lines := a + [IdLine(q)] + b;
    assert IsLines(lines) by {
      forall j | 0 <= j < |lines| - 1 ensures EndsInNewline(lines[j]) {
        if j <= i { assert lines[j] == ls[j]; } else if j > i + 1 { assert lines[j] == ls[j - 1]; }
      }
      assert lines[|lines| - 1] == ls[|ls| - 1];
    }
    SplitJoin(lines);
    JoinInserted(a, IdLine(q), b);
  }

  lemma JoinInserted(a: seq<string>, line: string, b: seq<string>)
    ensures Join(a + [line] + b) == Join(a) + line + Join(b)
  {
    hide Join;
    JoinAppend(a + [line], b);
    JoinAppend(a, [line]);
    JoinCons(line, []);
    JoinEmpty();
    assert [line] + [] == [line];
  }

  lemma JoinEmpty()
    ensures Join([]) == ""
  {
  }

  /** Inserted under an [agent] header, the new line is the only agent id, and no
      credential is touched. */
  lemma InsertedId(text: string, i: nat, q: string)
    requires i < |SplitLines(text)| && EndsInNewline(SplitLines(text)[i]) && GoodQuoted(q)
    requires Classify(SplitLines(text)[i]) == Header("agent") && IdEvents(text) == []
    ensures var ls := SplitLines(text);
            var out := Join(ls[..i + 1]) + IdLine(q) + Join(ls[i + 1..]);
            SecretEvents(out) == SecretEvents(text) && IdEvents(out) == [Event(AGENT_ID, q)]
  {
    hide SplitLines, Classify, IdLine, GoodQuoted, Join, Events;
    var ls := SplitLines(text);
    InsertLines(text, i, q);
    var a, b := ls[..i + 1], ls[i + 1..];
    assert a == ls[..i] + [ls[i]];
    EventsAppend(ls[..i], [ls[i]], "", ID_KEYS);
    EventsOne(ls[i], EndTable(ls[..i], ""), ID_KEYS);
    assert EndTable(a, "") == "agent";
    assert ls == a + b;
    InsertEvents(a, b, q, ID_KEYS);
    InsertEvents(a, b, q, SECRETS);
  }

  /** The same when the header is the last line but one. */
  lemma InsertedLast(text: string, q: string)
    requires GoodQuoted(q)
    ensures var ls := SplitLines(text);
            && IdEvents(text) == [] && |ls| >= 2 && ls[|ls| - 1] == "" && Classify(ls[|ls| - 2]) == Header("agent")
            ==> && SecretEvents(text + IdLine(q)) == SecretEvents(text)
                && IdEvents(text + IdLine(q)) == [Event(AGENT_ID, q)]
  {
    hide SplitLines, Classify, IdLine, GoodQuoted, Join, Events;
    var ls := SplitLines(text);
    if !(IdEvents(text) == [] && |ls| >= 2 && ls[|ls| - 1] == "" && Classify(ls[|ls| - 2]) == Header("agent")) {
      return;
    }
    var i := |ls| - 2;
    InsertedId(text, i, q);
    assert ls[i + 1..] == [""] && ls[..i + 1] == ls[..|ls| - 1];
    InitLast(text);
    JoinTwo("", "");
    assert Join([""]) == "" by { JoinCons("", []); JoinEmpty(); assert [""] + [] == [""]; }
    assert text == Join(ls[..i + 1]) + "";
    assert Join(ls[..i + 1]) + IdLine(q) + "" == text + IdLine(q);
  }

  lemma AppendedId(data: string, q: string)
    requires GoodQuoted(q) && IdEvents(data) == []
    ensures var s := if data != "" && data[|data| - 1] != '\n' then data + "\n" else data;
            var out := s + "\n" + AGENT_HEADER + IdLine(q);
            SecretEvents(out) == SecretEvents(data) && IdEvents(out) == [Event(AGENT_ID, q)]
  {
    hide SplitLines, Classify, IdLine, GoodQuoted, Join, Events;
    var s := if data != "" && data[|data| - 1] != '\n' then data + "\n" else data;
    NewlineEvents(data, SECRETS);
    NewlineEvents(data, ID_KEYS);
    NewlineEvents(s, SECRETS);
    NewlineEvents(s, ID_KEYS);
    var t := s + "\n";
    HeaderEvents(t, SECRETS);
    HeaderEvents(t, ID_KEYS);
    AgentHeaderReads();
    InsertedLast(t + AGENT_HEADER, q);
  }

  lemma UnderLastHeader(data: string, i: nat, q: string)
    requires GoodQuoted(q) && IdEvents(data) == []
    requires i < |SplitLines(data)| && !EndsInNewline(SplitLines(data)[i])
    requires Classify(SplitLines(data)[i]) == Header("agent")
    ensures var ls := SplitLines(data);
            var out := Join(ls[..i + 1]) + "\n" + IdLine(q) + Join(ls[i + 1..]);
            SecretEvents(out) == SecretEvents(data) && IdEvents(out) == [Event(AGENT_ID, q)]
  {
    hide SplitLines, Classify, IdLine, GoodQuoted, Join, Events;
    var ls := SplitLines(data);
    assert i == |ls| - 1;
    NewlineEvents(data, SECRETS);
    NewlineEvents(data, ID_KEYS);
    assert EndsInNewline("\n");
    AppendLine(data, "\n");
    NewlineReadsSame(ls[i]);
    InsertedLast(data + "\n", q);
    JoinSplit(data);
    assert ls[..i + 1] == ls && ls[i + 1..] == [];
    JoinEmpty();
    assert Join(ls[..i + 1]) + "\n" + IdLine(q) + Join(ls[i + 1..]) == data + "\n" + IdLine(q);
  }

  lemma ReplacedId(data: string, q: string)
    requires GoodQuoted(q) && IdEvents(data) != []
    ensures var out := Join(Rewritten(SplitLines(data), "", ID_KEYS, Replace(q)));
            SecretEvents(out) == SecretEvents(data) && LastOf(IdEvents(out), AGENT_ID) == Some(q)
  {
    hide SplitLines, Classify, Rewritten, Join, Events, GoodQuoted, AllOneLine, IsLines, EditAll;
    var ls := SplitLines(data);
    EditedText(data, ID_KEYS, Replace(q));
    EventsRewritten(ls, "", ID_KEYS, Replace(q), SECRETS);
    EventsRewritten(ls, "", ID_KEYS, Replace(q), ID_KEYS);
    EventsGood(ls, "", SECRETS);
    EventsGood(ls, "", ID_KEYS);
    var evs := SecretEvents(data);
    assert EditAll(evs, ID_KEYS, Replace(q)) == evs;
    var ids := EditAll(IdEvents(data), ID_KEYS, Replace(q));
    assert IdEvents(data)[|ids| - 1] in IdEvents(data);
    assert ids[|ids| - 1] == Event(AGENT_ID, q);
  }

  /** However the id is set, reading the config back finds it, and finds every
      credential as it was. */
  lemma SetAgentIdReads(data: string, q: string)
    requires GoodQuoted(q)
    ensures LastOf(IdEvents(SetAgentId(data, q)), AGENT_ID) == Some(q)
    ensures SecretEvents(SetAgentId(data, q)) == SecretEvents(data)
  {
    hide SplitLines, Classify, Rewritten, Join, Events, GoodQuoted, IdLine, SecretEvents, IdEvents;
    var ls := SplitLines(data);
    var h := AgentHeader(ls, 0);
    if IdEvents(data) != [] {
      ReplacedId(data, q);
    } else if h.Some? {
      if EndsInNewline(ls[h.value]) {
        InsertedId(data, h.value, q);
        assert Join(ls[..h.value + 1]) + "" == Join(ls[..h.value + 1]);
      } else {
        UnderLastHeader(data, h.value, q);
      }
    } else {
      AppendedId(data, q);
    }
  }

  // --- Keeping the local identity ---------------------------------------------------------------

  /** The [agent] id as current writes it, or id quoted afresh. */
  function QuotedAgentId(quote: string -> string, current: string, id: string): string {
    var last := LastOf(IdEvents(current), AGENT_ID);
    if last.Some? then last.value else quote(id)
  }

  predicate NoAgentCredentials(c: Config) { c.Secret(API_KEY) == "" && c.Secret(AGENT_HASH) == "" }

  function KeepLocalAgentId(decode: Decoder, quote: string -> string, restored: string, current: string): string {
    var cur, arc := decode(current), decode(restored);
    if cur.None? || arc.None? then restored
    else if cur.value.agentId == arc.value.agentId || NoAgentCredentials(cur.value) then restored
    else
      var out := SetAgentId(restored, QuotedAgentId(quote, current, cur.value.agentId));
      if decode(out).None? || decode(out).value.agentId != cur.value.agentId then restored else out
  }

  /** mergeRedactedConfig without its warnings. */
  function Fit(decode: Decoder, quote: string -> string, restored: string, current: string): string {
    KeepLocalAgentId(decode, quote, Merge(restored, current), current)
  }

  /** strconv.Quote gives one basic string on one line. */
  ghost predicate Quotes(quote: string -> string) {
    forall id :: GoodQuoted(quote(id))
  }

  lemma QuotedAgentIdGood(quote: string -> string, current: string, id: string)
    requires Quotes(quote)
    ensures GoodQuoted(QuotedAgentId(quote, current, id))
  {
    hide SplitLines, Events, GoodQuoted;
    LinesAreOneLine(SplitLines(current));
    EventsGood(SplitLines(current), "", ID_KEYS);
  }

  /** The machine's id replaces the archive's: both configs parse, the ids differ, the
      machine has a credential its id belongs to, and setting the id takes. */
  predicate IdKept(decode: Decoder, quote: string -> string, restored: string, current: string) {
    var merged := Merge(restored, current);
    var cur, arc := decode(current), decode(merged);
    && cur.Some? && arc.Some? && cur.value.agentId != arc.value.agentId && !NoAgentCredentials(cur.value)
    && var out := decode(SetAgentId(merged, QuotedAgentId(quote, current, cur.value.agentId)));
       out.Some? && out.value.agentId == cur.value.agentId
  }

  /** The config decodes, with neither of the credentials an agent id belongs to. */
  predicate LacksAgentCredentials(decode: Decoder, text: string) {
    decode(text).Some? && NoAgentCredentials(decode(text).value)
  }

  lemma FitKeepsSecrets(decode: Decoder, quote: string -> string, restored: string, current: string)
    requires Quotes(quote)
    ensures SecretEvents(Fit(decode, quote, restored, current)) == SecretEvents(Merge(restored, current))
  {
    hide Merge, SetAgentId, SecretEvents, GoodQuoted, QuotedAgentId;
    if decode(current).Some? {
      var q := QuotedAgentId(quote, current, decode(current).value.agentId);
      QuotedAgentIdGood(quote, current, decode(current).value.agentId);
      SetAgentIdReads(Merge(restored, current), q);
    }
  }

  /** Two merges of one archive that read alike are alike. */
  lemma MergeReadsApart(restored: string, a: string, b: string)
    ensures SecretEvents(Merge(restored, a)) == SecretEvents(Merge(restored, b)) ==>
              Merge(restored, a) == Merge(restored, b)
  {
    hide SplitLines, Rewritten, Join, Events, Have, GoodEdit;
    if SecretEvents(Merge(restored, a)) != SecretEvents(Merge(restored, b)) {
      return;
    }
    var evs := SecretEvents(restored);
    var e, f := Fill(Have(SecretEvents(a))), Fill(Have(SecretEvents(b)));
    MergeEvents(restored, a);
    MergeEvents(restored, b);
    HaveGood(restored);
    var x, y := EditAll(evs, SECRETS, e), EditAll(evs, SECRETS, f);
    forall ev | ev in evs ensures Value(e, ev.setting, ev.quoted) == Value(f, ev.setting, ev.quoted) {
      var i :| 0 <= i < |evs| && evs[i] == ev;
      assert x[i] == Edited(ev, SECRETS, e) && y[i] == Edited(ev, SECRETS, f);
    }
    SameRewrite(SplitLines(restored), "", SECRETS, e, f);
  }

  /** Fitting the same secret-free archive over its own result changes nothing, if and only
      if the merge is settled and it is not the case that the machine's id was kept in a
      config that came out with neither an api_key nor an agent_hash: then the archive's id
      comes back the second time. */
  lemma FitAgain(decode: Decoder, quote: string -> string, restored: string, current: string)
    requires Quotes(quote)
    ensures var fitted := Fit(decode, quote, restored, current);
            Fit(decode, quote, restored, fitted) == fitted
            <==> && Settled(SecretEvents(restored), Have(SecretEvents(current)))
                 && !(IdKept(decode, quote, restored, current) && LacksAgentCredentials(decode, fitted))
  {
    hide Merge, SetAgentId, SecretEvents, GoodQuoted, Have, Settled;
    var merged := Merge(restored, current);
    var fitted := Fit(decode, quote, restored, current);
    FitKeepsSecrets(decode, quote, restored, current);
    FitKeepsSecrets(decode, quote, restored, fitted);
    SameSecretsMergeSame(restored, fitted, merged);
    MergeAgain(restored, current);
    if Merge(restored, merged) != merged {
      if SecretEvents(Merge(restored, merged)) == SecretEvents(merged) {
        MergeReadsApart(restored, merged, current);
      }
    } else if fitted != merged {
      var id := decode(current).value.agentId;
      var q := QuotedAgentId(quote, current, id);
      QuotedAgentIdGood(quote, current, id);
      SetAgentIdReads(merged, q);
      assert QuotedAgentId(quote, fitted, id) == q;
    }
  }

  lemma SameSecretsMergeSame(restored: string, a: string, b: string)
    requires SecretEvents(a) == SecretEvents(b)
    ensures Merge(restored, a) == Merge(restored, b)
  {
  }

  // --- What the restore reports and refuses -------------------------------------------------

  /** The credentials set on this machine that the merged config no longer sets. */
  function Lost(decode: Decoder, merged: string, current: string, from: nat := 0): (r: seq<Setting>)
    requires from <= |SECRETS|
    ensures forall s :: s in r <==> s in SECRETS[from..] && decode(current).Some? && decode(merged).Some?
                                    && decode(current).value.Secret(s) != "" && decode(merged).value.Secret(s) == ""
    decreases |SECRETS| - from
  {
    if decode(current).None? || decode(merged).None? || from == |SECRETS| then []
    else
      var rest := Lost(decode, merged, current, from + 1);
      if decode(current).value.Secret(SECRETS[from]) != "" && decode(merged).value.Secret(SECRETS[from]) == ""
      then [SECRETS[from]] + rest else rest
  }

  /** With no credential reported lost, and the merge settled, restoring the same archive
      again leaves the config as it is, as long as setting the id does not change whether
      a credential decodes to a value. */
  lemma FitAgainNothingLost(decode: Decoder, quote: string -> string, restored: string, current: string)
    requires Quotes(quote)
    ensures var merged, fitted := Merge(restored, current), Fit(decode, quote, restored, current);
            && Settled(SecretEvents(restored), Have(SecretEvents(current)))
            && Lost(decode, merged, current) == []
            && (decode(merged).Some? && decode(fitted).Some? ==> SameCredentials(decode, fitted, merged))
            ==> Fit(decode, quote, restored, fitted) == fitted
  {
    hide Merge, SetAgentId, SecretEvents, Quotes, Settled, Have;
    var merged := Merge(restored, current);
    FitAgain(decode, quote, restored, current);
    if IdKept(decode, quote, restored, current) {
      assert SECRETS[0..] == SECRETS;
      assert API_KEY in SECRETS && AGENT_HASH in SECRETS;
      var key := if decode(current).value.Secret(API_KEY) != "" then API_KEY else AGENT_HASH;
      assert key in Lost(decode, merged, current) <==> decode(merged).value.Secret(key) == "";
    }
  }

  /** The two texts decode to the same credentials being set. */
  predicate SameCredentials(decode: Decoder, a: string, b: string)
    requires decode(a).Some? && decode(b).Some?
  {
    forall s :: s in SECRETS ==> (decode(a).value.Secret(s) == "" <==> decode(b).value.Secret(s) == "")
  }

  datatype RedactError = DoesNotParse | StillSet(s: Setting)
  datatype Redaction = Redacted(text: string) | Refused(why: RedactError)

  /** redactConfig: blanks the credentials, then fails closed unless decoding shows
      every one of them gone. */
  method RedactConfig(decode: Decoder, data: string) returns (r: Redaction)
    ensures r.Redacted?
            <==> decode(Redact(data)).Some? && forall s :: s in SECRETS ==> decode(Redact(data)).value.Secret(s) == ""
    ensures r.Redacted? ==> r.text == Redact(data) && IsRedacted(decode, r.text)
    ensures r == Refused(DoesNotParse) <==> decode(Redact(data)).None?
    ensures r.Refused? && r.why.StillSet? ==> r.why.s in SECRETS && decode(Redact(data)).value.Secret(r.why.s) != ""
  {
    hide SplitLines, Rewritten, Join, Events;
    var out, _ := RewriteKeys(data, SECRETS, Erase);
    assert out == Redact(data);
    var c := decode(out);
    if c.None? {
      return Refused(DoesNotParse);
    }
    for i := 0 to |SECRETS|
      invariant forall j :: 0 <= j < i ==> c.value.Secret(SECRETS[j]) == ""
    {
      if c.value.Secret(SECRETS[i]) != "" {
        return Refused(StillSet(SECRETS[i]));
      }
    }
    r := Redacted(out);
  }

  /** The check restore makes of a config whose manifest says it has no secrets: one
      that does not parse is left to the content check. */
  predicate IsRedacted(decode: Decoder, data: string) {
    decode(data).Some? ==> forall s :: s in SECRETS ==> decode(data).value.Secret(s) == ""
  }

  /** mergeConfigSecrets: one pass over the current config collects its credentials,
      a second over the archive's fills them in. */
  method MergeConfigSecrets(decode: Decoder, restored: string, current: string)
      returns (merged: string, lost: seq<Setting>)
    ensures merged == Merge(restored, current)
    ensures forall s :: s in lost <==> s in SECRETS && decode(current).Some? && decode(merged).Some?
                                       && decode(current).value.Secret(s) != "" && decode(merged).value.Secret(s) == ""
  {
    hide SplitLines, Rewritten, Join, Events;
    var _, seen := RewriteKeys(current, SECRETS, Keep);
    var have: map<Setting, string> := map[];
    for i := 0 to |seen|
      invariant have == Have(seen[..i])
    {
      assert seen[..i + 1][..i] == seen[..i];
      if !IsEmptyString(seen[i].quoted) {
        have := have[seen[i].setting := seen[i].quoted];
      }
    }
    assert seen[..|seen|] == seen;
    merged, seen := RewriteKeys(restored, SECRETS, Fill(have));
    lost := Lost(decode, merged, current);
    assert SECRETS[0..] == SECRETS;
  }

  /** setAgentID: replaces the id where it is recognised, else adds it under the
      first [agent] header, else adds that table too. */
  method SetAgentIdByLines(data: string, quoted: string) returns (out: string)
    ensures out == SetAgentId(data, quoted)
  {
    hide SplitLines, Rewritten, Join, Events, Classify, IdLine;
    var found: seq<Event>;
    out, found := RewriteKeys(data, ID_KEYS, Replace(quoted));
    if found != [] {
      return;
    }
    var lines := SplitLines(data);
    for i := 0 to |lines|
      invariant AgentHeader(lines, 0) == AgentHeader(lines, i)
    {
      if Classify(lines[i]) == Header("agent") {
        var nl := if EndsInNewline(lines[i]) then "" else "\n";
        return Join(lines[..i + 1]) + nl + IdLine(quoted) + Join(lines[i + 1..]);
      }
    }
    var s := data;
    if s != "" && s[|s| - 1] != '\n' {
      s := s + "\n";
    }
    out := s + "\n" + AGENT_HEADER + IdLine(quoted);
  }

  // --- A credential seen twice ----------------------------------------------------------------

  function KeyLine(quoted: string): string { "api_key = " + quoted + "\n" }

  lemma KeyLineReads(q: string)
    requires GoodQuoted(q)
    ensures Classify(KeyLine(q)) == Pair(KeyValue("api_key = ", "api_key", q, "")) && EndsInNewline(KeyLine(q))
  {
    hide Classify, GoodQuoted;
    assert LeadAt("api_key = ", "api_key", 0, 7, 8);
    PlainLineReads("api_key = ", "api_key", q);
  }

  const AUTH := "[auth]\n"
  const NOTE := "note = \"\"\"\n"      // opens a multi-line string
  const CLOSE := "\"\"\"\n"            // and closes it

  /** A config that sets api_key to x, followed by a multi-line string whose text looks like
      one that sets it to y: TOML with one key, in which the line patterns see two. */
  function TwiceLines(x: string, y: string): seq<string> {
    [AUTH, KeyLine(x), NOTE] + [AUTH, KeyLine(y), CLOSE, ""]
  }

  function Twice(x: string, y: string): string { Join(TwiceLines(x, y)) }

  lemma AuthReads()
    ensures Classify(AUTH) == Header("auth") && EndsInNewline(AUTH)
  {
    hide Classify;
    HeaderReads("auth");
    assert "[" + "auth" + "]\n" == AUTH;
  }

  const TRIPLE := "\"\"\""

  lemma TripleIsNoLiteral()
    ensures QuotedLength(TRIPLE) == Some(2) && !IsTail(TRIPLE[2..])
  {
    assert TRIPLE[1..][0] == '"';
    assert TRIPLE[2..] == "\"" && IsRun("\"", 0, 0, Blank);
  }

  /** What opens a multi-line string sets nothing the line pattern sees. */
  lemma TripleIsNoSetting(lead: string, key: string)
    requires IsLead(lead, key)
    ensures ParseKeyValue(lead + TRIPLE).None?
  {
    hide ParseLead, QuotedLength, IsTail, IsLead;
    TripleIsNoLiteral();
    LeadComplete(lead, key, TRIPLE);
    var body := lead + TRIPLE;
    assert body[|lead|..] == TRIPLE && body[|lead| + 2..] == TRIPLE[2..];
  }

  lemma NoteReads()
    ensures Classify(NOTE) == Other && EndsInNewline(NOTE)
  {
    hide ParseKeyValue, IsTail;
    var body := "note = " + TRIPLE;
    BodyIs(body, "\n");
    assert NOTE == body + "\n" && NOTE[..|NOTE| - 1] == body;
    assert LeadAt("note = ", "note", 0, 4, 5);
    TripleIsNoSetting("note = ", "note");
    assert IsRun(body, 0, 0, Blank);
  }

  lemma CloseReads()
    ensures Classify(CLOSE) == Other && EndsInNewline(CLOSE)
  {
    var body := "\"\"\"";
    BodyIs(body, "\n");
    assert CLOSE == body + "\n" && CLOSE[..|CLOSE| - 1] == body;
    assert IsRun(body, 0, 0, Blank) && IsRun(body, 0, 0, KeyChar);
  }

  lemma EventsTwo(a: string, b: string, rest: seq<string>, q: string, table: string)
    requires Classify(a) == Header("auth")
    requires Classify(b) == Pair(KeyValue("api_key = ", "api_key", q, ""))
    ensures Events([a, b] + rest, table, SECRETS) == [Event(API_KEY, q)] + Events(rest, "auth", SECRETS)
  {
    hide Classify, Events;
    assert [a, b] == [a] + [b];
    EventsAppend([a, b], rest, table, SECRETS);
    EventsAppend([a], [b], table, SECRETS);
    EventsOne(a, table, SECRETS);
    EventsOne(b, "auth", SECRETS);
  }

  lemma OthersRead(a: string, rest: seq<string>, table: string)
    requires Classify(a) == Other
    ensures Events([a] + rest, table, SECRETS) == Events(rest, table, SECRETS)
  {
    hide Classify, Events;
    EventsAppend([a], rest, table, SECRETS);
    EventsOne(a, table, SECRETS);
  }

  lemma TwiceReads(x: string, y: string)
    requires GoodQuoted(x) && GoodQuoted(y)
    ensures IsLines(TwiceLines(x, y)) && SecretEvents(Twice(x, y)) == [Event(API_KEY, x), Event(API_KEY, y)]
  {
    hide Classify, KeyLine, GoodQuoted, Events, SplitLines, Join, EndsInNewline;
    AuthReads();
    KeyLineReads(x);
    KeyLineReads(y);
    NoteReads();
    CloseReads();
    EmptyLinesRead();
    var tail := [CLOSE] + [""];
    var second := [AUTH, KeyLine(y)] + tail;
    assert TwiceLines(x, y) == [AUTH, KeyLine(x)] + ([NOTE] + second);
    SplitJoin(TwiceLines(x, y));
    EventsTwo(AUTH, KeyLine(x), [NOTE] + second, x, "");
    OthersRead(NOTE, second, "auth");
    EventsTwo(AUTH, KeyLine(y), tail, y, "auth");
    OthersRead(CLOSE, [""], "auth");
    EventsOne("", "auth", SECRETS);
  }

  lemma GoodLiterals()
    ensures GoodQuoted("'a'") && GoodQuoted("'b'") && GoodQuoted(EMPTY_BASIC)
  {
    assert IsRun("'a'", 1, 2, NotApostrophe) && IsRun("'b'", 1, 2, NotApostrophe);
    assert EMPTY_BASIC[1..] == "\"";
  }

  lemma HaveTwo(x: Event, y: Event)
    requires x.setting == y.setting && !IsEmptyString(y.quoted)
    ensures y.setting in Have([x, y]) && Have([x, y])[y.setting] == y.quoted
    ensures LastOf([x, y], y.setting) == Some(y.quoted)
  {
    assert [x, y][..1] == [x];
  }

  /** The round trip gives a key the text of a multi-line string: redacted and merged with
      the config it came from, the live key comes back as the one that only looked like it. */
  lemma WrittenTwiceIsNotRestored() returns (text: string)
    ensures text == Twice("'b'", "'a'")
    ensures SecretEvents(text) == [Event(API_KEY, "'b'"), Event(API_KEY, "'a'")]
    ensures SecretEvents(Merge(Redact(text), text)) == [Event(API_KEY, "'a'"), Event(API_KEY, "'a'")]
    ensures Merge(Redact(text), text) != text
  {
    hide SecretEvents, Merge, Redact, Have, Twice, GoodQuoted, EditAll;
    text := Twice("'b'", "'a'");
    var x, y := Event(API_KEY, "'b'"), Event(API_KEY, "'a'");
    GoodLiterals();
    TwiceReads("'b'", "'a'");
    HaveTwo(x, y);
    RedactReads(text);
    EditTwo(x, y, Erase);
    MergeEvents(Redact(text), text);
    EditTwo(x.(quoted := EMPTY_BASIC), y.(quoted := EMPTY_BASIC), Fill(Have([x, y])));
    assert SecretEvents(text)[0] != SecretEvents(Merge(Redact(text), text))[0];
  }

  lemma EditTwo(x: Event, y: Event, e: Edit)
    requires x.setting in SECRETS && y.setting in SECRETS
    ensures EditAll([x, y], SECRETS, e)
         == [x.(quoted := Value(e, x.setting, x.quoted)), y.(quoted := Value(e, y.setting, y.quoted))]
  {
  }

  /** Every credential the patterns recognise in a redacted config is empty. */
  lemma RedactReads(text: string)
    ensures SecretEvents(Redact(text)) == EditAll(SecretEvents(text), SECRETS, Erase)
    ensures forall ev :: ev in SecretEvents(Redact(text)) ==> ev.quoted == EMPTY_BASIC
  {
    hide SplitLines, Join, Rewritten, AllOneLine, Events, GoodQuoted;
    EditedText(text, SECRETS, Erase);
    EventsRewritten(SplitLines(text), "", SECRETS, Erase, SECRETS);
    HaveGood(text);
    var evs, r := SecretEvents(text), SecretEvents(Redact(text));
    forall ev | ev in r ensures ev.quoted == EMPTY_BASIC {
      var i :| 0 <= i < |r| && r[i] == ev;
      assert evs[i] in evs;
    }
  }

  /** A secret-free archive whose config reads as empty, with a key in a multi-line string. */
  function UnsettledArchive(): string { Twice(EMPTY_BASIC, "'a'") }

  function MachineLines(): seq<string> { [AUTH, KeyLine("'b'")] + [""] }

  /** A machine with a key. */
  function Machine(): string { Join(MachineLines()) }

  lemma MachineReads()
    ensures SecretEvents(Machine()) == [Event(API_KEY, "'b'")]
  {
    hide Classify, KeyLine, GoodQuoted, Events, SplitLines, Join, EndsInNewline;
    GoodLiterals();
    AuthReads();
    KeyLineReads("'b'");
    EmptyLinesRead();
    assert IsLines(MachineLines());
    SplitJoin(MachineLines());
    EventsTwo(AUTH, KeyLine("'b'"), [""], "'b'", "");
    EventsOne("", "auth", SECRETS);
  }

  lemma UnsettledReads()
    ensures SecretEvents(UnsettledArchive()) == [Event(API_KEY, EMPTY_BASIC), Event(API_KEY, "'a'")]
    ensures !Settled(SecretEvents(UnsettledArchive()), Have(SecretEvents(Machine())))
    ensures API_KEY in Have(SecretEvents(UnsettledArchive()))
  {
    hide GoodQuoted, SecretEvents, Twice, Machine;
    GoodLiterals();
    assert SecretEvents(UnsettledArchive()) == [Event(API_KEY, EMPTY_BASIC), Event(API_KEY, "'a'")] by {
      TwiceReads(EMPTY_BASIC, "'a'");
    }
    MachineReads();
    var evs := SecretEvents(UnsettledArchive());
    HaveTwo(evs[0], evs[1]);
    HaveIsWritten(evs);
    assert evs[1] in evs;
    assert [Event(API_KEY, "'b'")][..0] == [];
    assert Have(SecretEvents(Machine())) == map[API_KEY := "'b'"];
    assert evs[0] in evs;
  }

  /** Merged a second time over its own result, such an archive changes the live key. */
  lemma SecondMergeDiffers()
    ensures var once := Merge(UnsettledArchive(), Machine());
            Merge(UnsettledArchive(), once) != once
  {
    hide SecretEvents, Merge, Settled, Have, Machine, UnsettledArchive;
    UnsettledReads();
    MergeAgain(UnsettledArchive(), Machine());
  }

  // --- A credential the line patterns do not see -----------------------------------------------

  const DOTTED := "auth.api_key = \"k\"\n"

  /** A decoder that reads the dotted key on the first line, and the agent id. */
  function DottedDecode(text: string): Option<Config> {
    var id := LastOf(IdEvents(text), AGENT_ID);
    Some(Config(if DOTTED <= text then map[API_KEY := "k"] else map[], if id.Some? then id.value else ""))
  }

  lemma DottedIsOther()
    ensures Classify(DOTTED) == Other && EndsInNewline(DOTTED)
  {
    hide ParseHeader, ParseKeyValue;
    var body := "auth.api_key = \"k\"";
    BodyIs(body, "\n");
    assert DOTTED == body + "\n" && DOTTED[..|DOTTED| - 1] == body;
    NotASetting(body, 4);
  }

  lemma NotASetting(body: string, k: nat)
    requires IsRun(body, 0, k, KeyChar) && 0 < k < |body| && body[k] != '=' && !Has(Blank, body[k])
    ensures ParseHeader(body).None? && ParseKeyValue(body).None?
  {
    assert Has(KeyChar, body[0]);
    assert IsRun(body, 0, 0, Blank) && IsRun(body, k, k, Blank);
  }

  function AgentLines(q: string): seq<string> { [AGENT_HEADER, IdLine(q), ""] }

  lemma AgentLinesRead(q: string, keys: seq<Setting>)
    requires GoodQuoted(q)
    ensures IsLines(AgentLines(q))
    ensures Events(AgentLines(q), "", keys) == if AGENT_ID in keys then [Event(AGENT_ID, q)] else []
  {
    hide Classify, IdLine, GoodQuoted;
    AgentHeaderReads();
    IdLineReads(q);
    EmptyLinesRead();
    var ls := AgentLines(q);
    assert ls[1..] == [IdLine(q), ""] && ls[1..][1..] == [""];
    EventsOne("", "agent", keys);
  }

  lemma AgentLinesEdited(q: string, r: string)
    requires GoodQuoted(q)
    ensures Rewritten(AgentLines(q), "", ID_KEYS, Replace(r)) == AgentLines(r)
  {
    hide Classify, GoodQuoted, Eol;
    AgentHeaderReads();
    IdLineReads(q);
    EmptyLinesRead();
    var e := Replace(r);
    assert "id = " + r + "" + "\n" == "id = " + r + "\n";
    assert RewriteLine(IdLine(q), "agent", ID_KEYS, e) == IdLine(r);
    assert RewriteLine("", "agent", ID_KEYS, e) == "";
    assert [IdLine(q), ""][1..] == [""] && [""][1..] == [];
    assert Rewritten([""], "agent", ID_KEYS, e) == [""] + Rewritten([], "agent", ID_KEYS, e);
    assert Rewritten([IdLine(q), ""], "agent", ID_KEYS, e) == [IdLine(r), ""];
    assert AgentLines(q)[1..] == [IdLine(q), ""];
  }

  lemma MergeNothing(restored: string, current: string)
    requires SecretEvents(restored) == []
    ensures Merge(restored, current) == restored
  {
    hide SplitLines, Rewritten, Join, Events;
    var ls := SplitLines(restored);
    SameRewrite(ls, "", SECRETS, Fill(Have(SecretEvents(current))), Keep);
    LinesAreOneLine(ls);
    KeepIsIdentity(ls, "", SECRETS);
    JoinSplit(restored);
  }

  /** An archive with another agent id, fitted onto a machine whose key is one the line
      patterns do not see. */
  lemma FittedOnce(quote: string -> string, a: string, b: string)
    requires GoodQuoted(a) && GoodQuoted(b) && a != b
    ensures var restored, current, fitted := Join(AgentLines(a)), Join([DOTTED] + AgentLines(b)), Join(AgentLines(b));
            && SecretEvents(restored) == [] && Merge(restored, current) == restored
            && SetAgentId(restored, b) == fitted
            && DottedDecode(current) == Some(Config(map[API_KEY := "k"], b))
            && DottedDecode(restored) == Some(Config(map[], a)) && DottedDecode(fitted) == Some(Config(map[], b))
            && QuotedAgentId(quote, current, b) == b
  {
    hide SplitLines, Join, Merge, Events, IdLine, Rewritten, Have, GoodQuoted;
    AgentLinesRead(a, SECRETS);
    NotDotted(a);
    NotDotted(b);
    DottedRead(b);
    SplitJoin(AgentLines(a));
    MergeNothing(Join(AgentLines(a)), Join([DOTTED] + AgentLines(b)));
    AgentLinesEdited(a, b);
  }

  lemma NotDotted(q: string)
    requires GoodQuoted(q)
    ensures IdEvents(Join(AgentLines(q))) == [Event(AGENT_ID, q)] && !(DOTTED <= Join(AgentLines(q)))
  {
    hide SplitLines, Join, Events, IdLine, GoodQuoted;
    AgentLinesRead(q, ID_KEYS);
    SplitJoin(AgentLines(q));
    JoinCons(AGENT_HEADER, AgentLines(q)[1..]);
    assert AgentLines(q) == [AGENT_HEADER] + AgentLines(q)[1..];
    assert Join(AgentLines(q))[0] == '[';
  }

  /** The exception in FitAgain is real: a machine whose only key is written as a dotted
      key keeps its id and loses its key on the first restore, and its id on the second. */
  lemma LostKeyRelapses(quote: string -> string) returns (restored: string, current: string)
    requires Quotes(quote)
    ensures Once(SecretEvents(restored))
    ensures var fitted := Fit(DottedDecode, quote, restored, current);
            Fit(DottedDecode, quote, restored, fitted) != fitted
  {
    hide SplitLines, Join, Merge, Events, IdLine, SetAgentId;
    hide DottedDecode, QuotedAgentId, Quotes, GoodQuoted, SecretEvents;
    GoodLiterals();
    restored, current := Join(AgentLines("'a'")), Join([DOTTED] + AgentLines("'b'"));
    FittedOnce(quote, "'a'", "'b'");
    FitAgain(DottedDecode, quote, restored, current);
  }

  lemma DottedRead(q: string)
    requires GoodQuoted(q)
    ensures IdEvents(Join([DOTTED] + AgentLines(q))) == [Event(AGENT_ID, q)]
    ensures DOTTED <= Join([DOTTED] + AgentLines(q))
  {
    hide SplitLines, Join, Events, IdLine, GoodQuoted, Classify;
    var ls := [DOTTED] + AgentLines(q);
    DottedIsOther();
    AgentLinesRead(q, ID_KEYS);
    assert IsLines(ls) by {
      assert forall i :: 1 <= i < |ls| ==> ls[i] == AgentLines(q)[i - 1];
    }
    SplitJoin(ls);
    EventsAppend([DOTTED], AgentLines(q), "", ID_KEYS);
    EventsOne(DOTTED, "", ID_KEYS);
    JoinCons(DOTTED, AgentLines(q));
  }
}
