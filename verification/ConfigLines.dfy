/** What restoring a config leaves of the archive's text: every line but the ones that set a
    credential or the agent id. */
module ConfigLines {
  import opened Wrappers
  import opened ConfigText
  import opened ConfigPatterns
  import opened ConfigEdit
  import opened ConfigMerge
  import opened ConfigFit

  /** The table line i belongs to. */
  function TableAt(ls: seq<string>, i: nat): string
    requires i <= |ls|
  {
    EndTable(ls[..i], "")
  }

  lemma {:induction false} RewrittenAt(ls: seq<string>, table: string, keys: seq<Setting>, e: Edit, i: nat)
    requires i < |ls|
    ensures Rewritten(ls, table, keys, e)[i] == RewriteLine(ls[i], EndTable(ls[..i], table), keys, e)
    decreases |ls|
  {
    hide RewriteLine, NextTable;
    if i > 0 {
      RewrittenAt(ls[1..], NextTable(ls[0], table), keys, e, i - 1);
      assert ls[..i][1..] == ls[1..][..i - 1];
    }
  }

  /** A merged config has the archive's lines: each is the same, unless it sets a credential
      to nothing and the machine has a value for it; then that value alone is put in. */
  lemma MergedLines(restored: string, current: string, i: nat)
    requires i < |SplitLines(restored)|
    ensures |SplitLines(Merge(restored, current))| == |SplitLines(restored)|
    ensures var ls, have := SplitLines(restored), Have(SecretEvents(current));
            var line, out := ls[i], SplitLines(Merge(restored, current))[i];
            match Classify(line)
            case Pair(kv) =>
              var s := Setting(TableAt(ls, i), kv.key);
              if s in SECRETS && s in have && (kv.quoted == "\"\"" || kv.quoted == "''")
              then out == kv.lead + have[s] + kv.tail + Eol(line)
              else out == line
            case _ => out == line
  {
    hide Classify, Eol, SplitLines, Have, SecretEvents, Rewritten, Merge;
    var ls := SplitLines(restored);
    MergeEvents(restored, current);
    RewrittenAt(ls, "", SECRETS, Fill(Have(SecretEvents(current))), i);
    LinesAreOneLine(ls);
    PairParts(ls[i]);
  }

  // --- Where the id goes ------------------------------------------------------------------

  function HeaderOf(line: string): seq<string> {
    match Classify(line)
    case Header(t) => [t]
    case _ => []
  }

  /** The table headers of a config, in order. */
  function Headers(ls: seq<string>): seq<string> {
    if ls == [] then []
    else HeaderOf(ls[0]) + Headers(ls[1..])
  }

  lemma {:induction false} HeadersAppend(a: seq<string>, b: seq<string>)
    ensures Headers(a + b) == Headers(a) + Headers(b)
    decreases |a|
  {
    hide HeaderOf;
    if a == [] {
      assert a + b == b;
    } else {
      assert (a + b)[1..] == a[1..] + b;
      HeadersAppend(a[1..], b);
    }
  }

  lemma {:induction false} HeadersRewritten(ls: seq<string>, table: string, keys: seq<Setting>, e: Edit)
    requires AllOneLine(ls) && GoodEdit(e)
    ensures Headers(Rewritten(ls, table, keys, e)) == Headers(ls)
    decreases |ls|
  {
    hide Classify, Body, Eol, GoodEdit;
    if ls != [] {
      RewriteLineShape(ls[0], table, keys, e);
      HeadersRewritten(ls[1..], NextTable(ls[0], table), keys, e);
      assert Rewritten(ls, table, keys, e)[1..] == Rewritten(ls[1..], NextTable(ls[0], table), keys, e);
    }
  }

  lemma OneHeader(line: string)
    ensures Headers([line]) == HeaderOf(line)
  {
    assert [line][1..] == [];
  }

  /** Where an id is recognised, setting it changes those lines only, and in them the literal
      only. */
  lemma ReplacedIdLines(data: string, q: string, i: nat)
    requires GoodQuoted(q) && IdEvents(data) != [] && i < |SplitLines(data)|
    ensures |SplitLines(SetAgentId(data, q))| == |SplitLines(data)|
    ensures var ls := SplitLines(data);
            var line, out := ls[i], SplitLines(SetAgentId(data, q))[i];
            match Classify(line)
            case Pair(kv) =>
              if TableAt(ls, i) == "agent" && kv.key == "id" then out == kv.lead + q + kv.tail + Eol(line)
              else out == line
            case _ => out == line
  {
    hide Classify, Eol, SplitLines, Rewritten, Join, Events, GoodQuoted;
    EditedText(data, ID_KEYS, Replace(q));
    RewrittenAt(SplitLines(data), "", ID_KEYS, Replace(q), i);
  }

  /** outs is ls with the id as the first line of the [agent] table line h opens, and with
      the same headers. */
  ghost predicate IdUnder(ls: seq<string>, outs: seq<string>, h: nat, q: string)
    requires h < |ls|
  {
    && Headers(outs) == Headers(ls)
    && |outs| >= h + 2
    && outs[..h] == ls[..h]
    && Classify(outs[h]) == Header("agent")
    && outs[h + 1] == "id = " + q + "\n"
    && outs[h + 2..] == (if h + 1 < |ls| then ls[h + 1..] else [""])
  }

  /** Where none is, but there is an [agent] table, the id becomes the first line of the
      first such table, and no header is added; and where there is no such table either, the
      text stays as it is and the table is added after it. */
  lemma AddedIdLines(data: string, q: string)
    requires GoodQuoted(q) && IdEvents(data) == []
    ensures var ls, out := SplitLines(data), SetAgentId(data, q);
            var h := FirstAgent(ls, 0);
            if h < |ls| then IdUnder(ls, SplitLines(out), h, q)
            else
              && "agent" !in Headers(ls) && Headers(SplitLines(out)) == Headers(ls) + ["agent"]
              && (out == data + "\n[agent]\nid = " + q + "\n" || out == data + "\n\n[agent]\nid = " + q + "\n")
  {
    hide SplitLines, Classify, IdEvents, GoodQuoted, Headers, FirstAgent;
    hide AgentHeader, IdUnder, SetAgentId, EndsInNewline;
    var ls := SplitLines(data);
    var h := FirstAgent(ls, 0);
    FirstAgentIs(ls, 0);
    if h == |ls| {
      NoAgentHeader(ls, 0);
      assert ls[0..] == ls;
      AddedTable(data, q);
    } else if EndsInNewline(ls[h]) {
      UnderHeader(data, h, q);
    } else {
      UnderBareHeader(data, h, q);
    }
  }

  /** The first line from i on that opens an [agent] table, or the end. */
  function FirstAgent(ls: seq<string>, i: nat): (h: nat)
    requires i <= |ls|
    ensures i <= h <= |ls|
    decreases |ls| - i
  {
    if i == |ls| || Classify(ls[i]) == Header("agent") then i else FirstAgent(ls, i + 1)
  }

  lemma {:induction false} FirstAgentFirst(ls: seq<string>, i: nat)
    requires i <= |ls|
    ensures var h := FirstAgent(ls, i);
            && (forall j :: i <= j < h ==> Classify(ls[j]) != Header("agent"))
            && (h < |ls| ==> Classify(ls[h]) == Header("agent"))
    decreases |ls| - i
  {
    hide Classify;
    if i < |ls| && Classify(ls[i]) != Header("agent") {
      FirstAgentFirst(ls, i + 1);
    }
  }

  lemma {:induction false} FirstAgentIs(ls: seq<string>, i: nat)
    requires i <= |ls|
    ensures AgentHeader(ls, i) == if FirstAgent(ls, i) < |ls| then Some(FirstAgent(ls, i)) else None
    decreases |ls| - i
  {
    hide Classify;
    if i < |ls| && Classify(ls[i]) != Header("agent") {
      FirstAgentIs(ls, i + 1);
    }
  }

  lemma {:induction false} NoAgentHeader(ls: seq<string>, i: nat)
    requires i <= |ls|
    ensures FirstAgent(ls, i) == |ls| ==> "agent" !in Headers(ls[i..])
    decreases |ls| - i
  {
    hide Classify;
    if i < |ls| && FirstAgent(ls, i) == |ls| {
      NoAgentHeader(ls, i + 1);
      assert ls[i..][1..] == ls[i + 1..];
    }
  }

  /** No id is recognised, and line h opens the first [agent] table; ended tells whether that
      line ends in a newline. */
  ghost predicate AddsUnder(data: string, h: nat, q: string, ended: bool) {
    && GoodQuoted(q) && IdEvents(data) == []
    && h < |SplitLines(data)| && AgentHeader(SplitLines(data), 0) == Some(h)
    && EndsInNewline(SplitLines(data)[h]) == ended
  }

  lemma HeaderLines(data: string, h: nat, q: string)
    ensures AddsUnder(data, h, q, true) ==>
              var ls := SplitLines(data);
              && h + 1 < |ls|
              && SplitLines(SetAgentId(data, q)) == ls[..h + 1] + [IdLine(q)] + ls[h + 1..]
  {
    hide SplitLines, Join, Classify, IdLine, GoodQuoted, AgentHeader, SetAgentId, IdEvents;
    if !AddsUnder(data, h, q, true) {
      return;
    }
    var ls := SplitLines(data);
    assert '\n' in ls[h];
    SetUnder(data, h, q);
    assert Join(ls[..h + 1]) + "" == Join(ls[..h + 1]);
    AgentHeaderIs(ls, 0);
    InsertLines(data, h, q);
  }

  lemma SetUnder(data: string, h: nat, q: string)
    requires IdEvents(data) == [] && h < |SplitLines(data)| && AgentHeader(SplitLines(data), 0) == Some(h)
    ensures var ls := SplitLines(data);
            SetAgentId(data, q)
            == Join(ls[..h + 1]) + (if EndsInNewline(ls[h]) then "" else "\n") + IdLine(q) + Join(ls[h + 1..])
  {
    hide SplitLines, Join, Classify, IdLine, IdEvents, AgentHeader, EndsInNewline;
  }

  lemma AgentHeaderIs(ls: seq<string>, i: nat)
    requires i <= |ls|
    ensures AgentHeader(ls, i).Some? ==>
              i <= AgentHeader(ls, i).value < |ls| && Classify(ls[AgentHeader(ls, i).value]) == Header("agent")
  {
  }

  lemma UnderHeader(data: string, h: nat, q: string)
    ensures AddsUnder(data, h, q, true) ==>
              IdUnder(SplitLines(data), SplitLines(SetAgentId(data, q)), h, q)
  {
    hide SplitLines, SetAgentId, IdEvents, Classify, IdLine, GoodQuoted, AgentHeader, Headers, EndsInNewline;
    if !AddsUnder(data, h, q, true) {
      return;
    }
    HeaderLines(data, h, q);
    var ls := SplitLines(data);
    IdLineReads(q);
    IdLineText(q);
    HeadersAppend(ls[..h + 1] + [IdLine(q)], ls[h + 1..]);
    HeadersAppend(ls[..h + 1], [IdLine(q)]);
    OneHeader(IdLine(q));
    assert ls == ls[..h + 1] + ls[h + 1..];
    HeadersAppend(ls[..h + 1], ls[h + 1..]);
    var outs := ls[..h + 1] + [IdLine(q)] + ls[h + 1..];
    assert outs[..h] == ls[..h] && outs[h] == ls[h] && outs[h + 1] == IdLine(q) && outs[h + 2..] == ls[h + 1..];
  }

  lemma IdLineText(q: string)
    ensures IdLine(q) == "id = " + q + "\n"
  {
  }

  lemma UnderBareHeader(data: string, h: nat, q: string)
    ensures AddsUnder(data, h, q, false) ==>
              IdUnder(SplitLines(data), SplitLines(SetAgentId(data, q)), h, q)
  {
    hide SplitLines, SetAgentId, IdEvents, Classify, IdLine, GoodQuoted, AgentHeader, Headers, EndsInNewline;
    if !AddsUnder(data, h, q, false) {
      return;
    }
    BareHeaderLines(data, h, q);
    var ls := SplitLines(data);
    IdLineReads(q);
    IdLineText(q);
    EmptyLinesRead();
    NewlineReadsSame(ls[h]);
    var outs := ls[..h] + ([ls[h] + "\n"] + ([IdLine(q)] + [""]));
    HeadersAppend(ls[..h], [ls[h] + "\n"] + ([IdLine(q)] + [""]));
    HeadersAppend([ls[h] + "\n"], [IdLine(q)] + [""]);
    HeadersAppend([IdLine(q)], [""]);
    assert ls == ls[..h] + [ls[h]];
    HeadersAppend(ls[..h], [ls[h]]);
    OneHeader(ls[h]);
    OneHeader(ls[h] + "\n");
    OneHeader(IdLine(q));
    OneHeader("");
    assert outs[h + 2..] == [""];
  }

  lemma BareHeaderLines(data: string, h: nat, q: string)
    ensures AddsUnder(data, h, q, false) ==>
              var ls := SplitLines(data);
              && h == |ls| - 1
              && SplitLines(SetAgentId(data, q)) == ls[..h] + ([ls[h] + "\n"] + ([IdLine(q)] + [""]))
  {
    hide SplitLines, Join, Classify, IdLine, GoodQuoted, SetAgentId, IdEvents, AgentHeader, EndsInNewline, IsLines;
    if !AddsUnder(data, h, q, false) {
      return;
    }
    SetUnder(data, h, q);
    var ls := SplitLines(data);
    OnlyLastUnended(ls, h);
    IdLineReads(q);
    JoinSplit(data);
    JoinEmpty();
    assert ls[..h + 1] == ls && ls[h + 1..] == [];
    assert SetAgentId(data, q) == (data + "\n") + IdLine(q);
    NewlineEnds();
    AppendLine(data, "\n");
    var first := ls[..h] + [ls[h] + "\n", ""];
    AppendLine(data + "\n", IdLine(q));
    assert "" + IdLine(q) == IdLine(q);
    assert first[..|first| - 1] == ls[..h] + [ls[h] + "\n"];
  }

  lemma OnlyLastUnended(ls: seq<string>, h: nat)
    requires IsLines(ls) && h < |ls| && !EndsInNewline(ls[h])
    ensures h == |ls| - 1
  {
    hide EndsInNewline;
  }

  lemma NewlineEnds()
    ensures EndsInNewline("\n")
  {
  }

  /** Appending a whole line to a text that is empty or ends in a newline. */
  lemma HeadersPlusLine(text: string, line: string)
    requires EndsInNewline(line) && (text == "" || text[|text| - 1] == '\n')
    ensures Headers(SplitLines(text + line))
         == Headers(SplitLines(text)) + HeaderOf(line)
  {
    hide SplitLines, Classify, EndsInNewline;
    var ls := SplitLines(text);
    var n := |ls| - 1;
    EmptyLastLine(text);
    EmptyLinesRead();
    AppendLine(text, line);
    assert "" + line == line;
    assert ls == ls[..n] + [""] && [line, ""] == [line] + [""];
    HeadersAppend(ls[..n], [""]);
    HeadersAppend(ls[..n], [line, ""]);
    HeadersAppend([line], [""]);
    OneHeader(line);
    OneHeader("");
  }

  lemma HeadersPlusNewline(text: string)
    ensures Headers(SplitLines(text + "\n")) == Headers(SplitLines(text))
  {
    hide SplitLines, Classify;
    var ls := SplitLines(text);
    var n := |ls| - 1;
    assert EndsInNewline("\n");
    AppendLine(text, "\n");
    NewlineReadsSame(ls[n]);
    EmptyLinesRead();
    assert ls == ls[..n] + [ls[n]] && [ls[n] + "\n", ""] == [ls[n] + "\n"] + [""];
    HeadersAppend(ls[..n], [ls[n]]);
    HeadersAppend(ls[..n], [ls[n] + "\n", ""]);
    HeadersAppend([ls[n] + "\n"], [""]);
    OneHeader(ls[n]);
    OneHeader(ls[n] + "\n");
    OneHeader("");
  }

  lemma AddedTable(data: string, q: string)
    requires GoodQuoted(q) && IdEvents(data) == [] && AgentHeader(SplitLines(data), 0).None?
    ensures var out := SetAgentId(data, q);
            && Headers(SplitLines(out)) == Headers(SplitLines(data)) + ["agent"]
            && (out == data + "\n[agent]\nid = " + q + "\n" || out == data + "\n\n[agent]\nid = " + q + "\n")
  {
    hide SplitLines, Classify, IdLine, GoodQuoted, Events, AgentHeader, Headers;
    var s := if data != "" && data[|data| - 1] != '\n' then data + "\n" else data;
    var t := s + "\n";
    HeadersPlusNewline(data);
    HeadersPlusNewline(s);
    AgentHeaderReads();
    IdLineReads(q);
    HeadersPlusLine(t, AGENT_HEADER);
    HeadersPlusLine(t + AGENT_HEADER, IdLine(q));
    AddedText(data, q);
  }

  lemma AddedText(data: string, q: string)
    ensures data + "\n" + AGENT_HEADER + IdLine(q) == data + "\n[agent]\nid = " + q + "\n"
    ensures data + "\n" + "\n" + AGENT_HEADER + IdLine(q) == data + "\n\n[agent]\nid = " + q + "\n"
  {
  }

  // --- Whose id stays -----------------------------------------------------------------------

  /** Whose id a secret-free restore leaves: the archive's when either config does not parse,
      when the ids agree, or when the machine has neither an api_key nor an agent_hash; else
      the machine's, spelled as the machine spells it, if the config then decodes to it. */
  lemma WhoseId(decode: Decoder, quote: string -> string, restored: string, current: string)
    requires Quotes(quote)
    ensures var merged, fitted := Merge(restored, current), Fit(decode, quote, restored, current);
            var cur, arc := decode(current), decode(merged);
            var owns := cur.Some? && (cur.value.Secret(Setting("auth", "api_key")) != ""
                                      || cur.value.Secret(Setting("agent", "agent_hash")) != "");
            if cur.None? || arc.None? || cur.value.agentId == arc.value.agentId || !owns then fitted == merged
            else
              var written := LastOf(IdEvents(current), Setting("agent", "id"));
              var q := if written.Some? then written.value else quote(cur.value.agentId);
              var out := SetAgentId(merged, q);
              if decode(out).Some? && decode(out).value.agentId == cur.value.agentId
              then fitted == out && LastOf(IdEvents(fitted), Setting("agent", "id")) == Some(q)
              else fitted == merged
  {
    hide Merge, SetAgentId, IdEvents, SecretEvents, GoodQuoted;
    if decode(current).Some? {
      var id := decode(current).value.agentId;
      QuotedAgentIdGood(quote, current, id);
      SetAgentIdReads(Merge(restored, current), QuotedAgentId(quote, current, id));
    }
  }

  // --- The five credentials ---------------------------------------------------------------

  /** One setting, written the way unarr writes it. */
  function Canonical(table: string, key: string, q: string): string {
    "[" + table + "]\n" + (key + " = " + q + "\n")
  }

  const FIVE := {("auth", "api_key"), ("agent", "agent_hash"), ("downloads", "webdav_username"),
                 ("downloads", "webdav_password"), ("metrics", "token")}

  lemma SecretsAreFive(s: Setting)
    ensures s in SECRETS <==> (s.table, s.key) in FIVE
  {
  }

  lemma FiveAreNames(table: string, key: string)
    requires (table, key) in FIVE
    ensures IsTable(table) && IsKey(key)
  {
  }

  lemma CanonicalLines(table: string, key: string, q: string)
    requires IsTable(table) && IsKey(key) && GoodQuoted(q)
    ensures Classify("[" + table + "]\n") == Header(table)
    ensures Classify(key + " = " + q + "\n") == Pair(KeyValue(key + " = ", key, q, ""))
    ensures SplitLines(Canonical(table, key, q)) == ["[" + table + "]\n", key + " = " + q + "\n", ""]
  {
    hide Classify, SplitLines, Join, GoodQuoted;
    var lead := key + " = ";
    assert lead == "" + key + " " + "=" + " ";
    PartsAreLead(lead, key, "", " ", " ");
    NoNewline(key);
    PlainLineReads(lead, key, q);
    assert table[0..0 + |table|] == table;
    TableRun(table, 0, table);
    HeaderReads(table);
    var ls := ["[" + table + "]\n", lead + q + "\n", ""];
    SplitJoin(ls);
    assert ls == [ls[0]] + [ls[1], ls[2]];
    JoinCons(ls[0], [ls[1], ls[2]]);
    JoinTwo(ls[1], "");
    assert Canonical(table, key, q) == ls[0] + (ls[1] + "");
  }

  lemma NoNewline(key: string)
    requires IsKey(key)
    ensures '\n' !in key + " = "
  {
  }

  /** Each of the five credentials is recognised where unarr writes it, and redacting leaves
      it empty. */
  lemma CredentialIsRedacted(table: string, key: string, q: string)
    requires (table, key) in FIVE && GoodQuoted(q)
    ensures SecretEvents(Canonical(table, key, q)) == [Event(Setting(table, key), q)]
    ensures SecretEvents(Redact(Canonical(table, key, q))) == [Event(Setting(table, key), "\"\"")]
  {
    hide Classify, SplitLines, Redact, GoodQuoted, Canonical, IsTable, IsKey, Events;
    FiveAreNames(table, key);
    CanonicalLines(table, key, q);
    var head, line := "[" + table + "]\n", key + " = " + q + "\n";
    assert [head, line, ""] == [head] + ([line] + [""]);
    EventsAppend([head], [line] + [""], "", SECRETS);
    EventsAppend([line], [""], table, SECRETS);
    EventsOne(head, "", SECRETS);
    EventsOne(line, table, SECRETS);
    EventsOne("", table, SECRETS);
    EmptyLinesRead();
    assert Setting(table, key) in SECRETS;
    RedactReads(Canonical(table, key, q));
  }
}
