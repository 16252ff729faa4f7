/** Editing string settings of config.toml line by line: blanking the credentials
    of a secret-free backup, and filling them in again on restore. */
module ConfigEdit {
  import opened ConfigText

  datatype Setting = Setting(table: string, key: string)

  /** The value an edit writes over a recognised setting. */
  datatype Edit =
    | Keep
    | Erase
    | Tidy                                // '' becomes ""
    | Fill(have: map<Setting, string>)    // an empty value takes the one at hand
    | Replace(value: string)
    | Then(first: Edit, second: Edit)

  const EMPTY_BASIC := "\"\""
  const EMPTY_LITERAL := "''"

  predicate IsEmptyString(q: string) { q == EMPTY_BASIC || q == EMPTY_LITERAL }

  function Value(e: Edit, s: Setting, q: string): string {
    match e
    case Keep => q
    case Erase => EMPTY_BASIC
    case Tidy => if q == EMPTY_LITERAL then EMPTY_BASIC else q
    case Fill(have) => if s in have && IsEmptyString(q) then have[s] else q
    case Replace(v) => v
    case Then(first, second) => Value(second, s, Value(first, s, q))
  }

  /** One string literal on one line. */
  predicate GoodQuoted(q: string) { IsQuoted(q) && '\n' !in q }

  predicate GoodEdit(e: Edit) {
    match e
    case Fill(have) => forall s :: s in have ==> GoodQuoted(have[s])
    case Replace(v) => GoodQuoted(v)
    case Then(first, second) => GoodEdit(first) && GoodEdit(second)
    case _ => true
  }

  lemma ValueGood(e: Edit, s: Setting, q: string)
    requires GoodEdit(e) && GoodQuoted(q)
    ensures GoodQuoted(Value(e, s, q))
  {
    match e
    case Then(first, second) =>
      ValueGood(first, s, q);
      ValueGood(second, s, Value(first, s, q));
    case _ =>
  }

  // --- One line -------------------------------------------------------------------

  datatype LineKind = Header(table: string) | Pair(kv: KeyValue) | Other

  function Classify(line: string): LineKind {
    var h := ParseHeader(Body(line));
    var p := ParseKeyValue(Body(line));
    if h.Some? then Header(h.value) else if p.Some? then Pair(p.value) else Other
  }

  function NextTable(line: string, table: string): string {
    match Classify(line)
    case Header(t) => t
    case _ => table
  }

  /** The line sets one of keys, in the table it belongs to. */
  predicate Sets(line: string, table: string, keys: seq<Setting>) {
    Classify(line).Pair? && Setting(table, Classify(line).kv.key) in keys
  }

  function Put(kv: KeyValue, quoted: string, eol: string): string {
    kv.lead + quoted + kv.tail + eol
  }

  function RewriteLine(line: string, table: string, keys: seq<Setting>, e: Edit): string {
    if Sets(line, table, keys) then
      var kv := Classify(line).kv;
      Put(kv, Value(e, Setting(table, kv.key), kv.quoted), Eol(line))
    else line
  }

  /** A line as splitting produces it. */
  predicate OneLine(line: string) { EndsInNewline(line) || '\n' !in line }

  lemma PairParts(line: string)
    requires OneLine(line)
    ensures Classify(line).Pair? ==>
            var kv := Classify(line).kv;
            && Body(line) == kv.lead + kv.quoted + kv.tail
            && IsLead(kv.lead, kv.key) && GoodQuoted(kv.quoted) && IsTail(kv.tail)
            && '\n' !in kv.lead && '\n' !in kv.tail
            && line == kv.lead + kv.quoted + kv.tail + Eol(line)
  {
    hide ParseHeader, ParseKeyValue, IsLead, IsQuoted, IsTail;
    if Classify(line).Pair? {
      var kv := Classify(line).kv;
      ParseSound(Body(line));
      assert '\n' !in Body(line);
      assert line == Body(line) + Eol(line);
      assert forall x :: x in kv.lead + kv.quoted + kv.tail <==> x in kv.lead || x in kv.quoted || x in kv.tail;
    }
  }

  lemma PutBody(kv: KeyValue, q: string, eol: string)
    requires IsLead(kv.lead, kv.key) && IsQuoted(q) && IsTail(kv.tail)
    requires kv.tail == "" || !IsEol(kv.tail[|kv.tail| - 1])
    requires forall i :: 0 <= i < |eol| ==> IsEol(eol[i])
    ensures Body(Put(kv, q, eol)) == kv.lead + q + kv.tail && Eol(Put(kv, q, eol)) == eol
    ensures Classify(Put(kv, q, eol)) == Pair(kv.(quoted := q))
  {
    var body := kv.lead + q + kv.tail;
    assert body[|body| - 1] == if kv.tail == "" then q[|q| - 1] else kv.tail[|kv.tail| - 1];
    BodyIs(body, eol);
    ParseComplete(kv.lead, kv.key, q, kv.tail);
    SettingIsNoHeader(body);
  }

  /** Putting another literal in place of a value changes nothing else about the
      line: not its key, its spacing, its comment or its line ending. */
  lemma PutValue(line: string, q: string)
    requires OneLine(line) && GoodQuoted(q)
    ensures Classify(line).Pair? ==>
            var kv := Classify(line).kv;
            var line' := Put(kv, q, Eol(line));
            Classify(line') == Pair(kv.(quoted := q)) && Eol(line') == Eol(line) && OneLine(line')
            && (EndsInNewline(line) <==> EndsInNewline(line'))
  {
    hide Classify, IsLead, IsQuoted, IsTail;
    PairParts(line);
    if Classify(line).Pair? {
      var kv := Classify(line).kv;
      assert kv.tail != "" ==> Body(line)[|Body(line)| - 1] == kv.tail[|kv.tail| - 1];
      PutBody(kv, q, Eol(line));
      var body := kv.lead + q + kv.tail;
      assert forall x :: x in body <==> x in kv.lead || x in q || x in kv.tail;
      assert Put(kv, q, Eol(line)) == body + Eol(line);
      assert |q| >= 2 by { QuotedIsLong(q); }
      NewlineAtEnd(line, body);
    }
  }

  lemma QuotedIsLong(q: string)
    requires IsQuoted(q)
    ensures |q| >= 2
  {
  }

  lemma NewlineAtEnd(line: string, body: string)
    requires OneLine(line) && '\n' !in body && body != ""
    ensures OneLine(body + Eol(line)) && (EndsInNewline(line) <==> EndsInNewline(body + Eol(line)))
  {
    var e := Eol(line);
    var line' := body + e;
    assert line == Body(line) + e;
    if EndsInNewline(line) {
      assert line[|line| - 1] == '\n' && IsEol('\n');
      assert |e| > 0;
      assert e[|e| - 1] == '\n' && '\n' !in e[..|e| - 1];
      assert line'[..|line'| - 1] == body + e[..|e| - 1];
    } else {
      assert '\n' !in e;
    }
  }

  lemma RewriteLineShape(line: string, table: string, keys: seq<Setting>, e: Edit)
    requires OneLine(line) && GoodEdit(e)
    ensures var line' := RewriteLine(line, table, keys, e);
            && OneLine(line') && (EndsInNewline(line) <==> EndsInNewline(line'))
            && Eol(line') == Eol(line)
            && NextTable(line', table) == NextTable(line, table)
            && Classify(line') == if !Sets(line, table, keys) then Classify(line)
                                  else
                                    var kv := Classify(line).kv;
                                    Pair(kv.(quoted := Value(e, Setting(table, kv.key), kv.quoted)))
  {
    if Sets(line, table, keys) {
      var kv := Classify(line).kv;
      PairParts(line);
      ValueGood(e, Setting(table, kv.key), kv.quoted);
      PutValue(line, Value(e, Setting(table, kv.key), kv.quoted));
    }
  }

  /** Two edits leave the same line exactly when they write the same value. */
  lemma SameLine(line: string, table: string, keys: seq<Setting>, e: Edit, f: Edit)
    requires Sets(line, table, keys)
    ensures var kv := Classify(line).kv;
            RewriteLine(line, table, keys, e) == RewriteLine(line, table, keys, f)
            <==> Value(e, Setting(table, kv.key), kv.quoted) == Value(f, Setting(table, kv.key), kv.quoted)
  {
    var kv := Classify(line).kv;
    var s := Setting(table, kv.key);
    PutInjective(kv, Value(e, s, kv.quoted), Value(f, s, kv.quoted), Eol(line));
  }

  lemma PutInjective(kv: KeyValue, x: string, y: string, eol: string)
    ensures Put(kv, x, eol) == Put(kv, y, eol) <==> x == y
  {
    var a, b := Put(kv, x, eol), Put(kv, y, eol);
    if a == b {
      assert x == a[|kv.lead|..|kv.lead| + |x|];
      assert y == b[|kv.lead|..|kv.lead| + |y|];
    }
  }

  // --- All lines --------------------------------------------------------------------

  function Rewritten(ls: seq<string>, table: string, keys: seq<Setting>, e: Edit): (r: seq<string>)
    ensures |r| == |ls|
    decreases |ls|
  {
    if ls == [] then []
    else [RewriteLine(ls[0], table, keys, e)] + Rewritten(ls[1..], NextTable(ls[0], table), keys, e)
  }

  function EndTable(ls: seq<string>, table: string): string
    decreases |ls|
  {
    if ls == [] then table else EndTable(ls[1..], NextTable(ls[0], table))
  }

  /** One recognised setting, as written. */
  datatype Event = Event(setting: Setting, quoted: string)

  function EventOf(line: string, table: string, keys: seq<Setting>): seq<Event> {
    if Sets(line, table, keys)
    then [Event(Setting(table, Classify(line).kv.key), Classify(line).kv.quoted)]
    else []
  }

  /** Every recognised setting among keys, in file order: what the rewrite's
      callback is called with. */
  function Events(ls: seq<string>, table: string, keys: seq<Setting>): seq<Event>
    decreases |ls|
  {
    if ls == [] then []
    else EventOf(ls[0], table, keys) + Events(ls[1..], NextTable(ls[0], table), keys)
  }

  function Edited(ev: Event, keys: seq<Setting>, e: Edit): Event {
    if ev.setting in keys then ev.(quoted := Value(e, ev.setting, ev.quoted)) else ev
  }

  function EditAll(evs: seq<Event>, keys: seq<Setting>, e: Edit): (r: seq<Event>)
    ensures |r| == |evs| && forall i :: 0 <= i < |evs| ==> r[i] == Edited(evs[i], keys, e)
  {
    if evs == [] then [] else [Edited(evs[0], keys, e)] + EditAll(evs[1..], keys, e)
  }

  ghost predicate AllOneLine(ls: seq<string>) { forall i :: 0 <= i < |ls| ==> OneLine(ls[i]) }

  lemma {:induction false} RewrittenAppend(a: seq<string>, b: seq<string>, table: string, keys: seq<Setting>, e: Edit)
    ensures Rewritten(a + b, table, keys, e) == Rewritten(a, table, keys, e) + Rewritten(b, EndTable(a, table), keys, e)
    decreases |a|
  {
    hide RewriteLine, NextTable;
    if a == [] {
      assert a + b == b;
    } else {
      assert (a + b)[1..] == a[1..] + b;
      RewrittenAppend(a[1..], b, NextTable(a[0], table), keys, e);
    }
  }

  lemma {:induction false} EventsAppend(a: seq<string>, b: seq<string>, table: string, keys: seq<Setting>)
    ensures Events(a + b, table, keys) == Events(a, table, keys) + Events(b, EndTable(a, table), keys)
    ensures EndTable(a + b, table) == EndTable(b, EndTable(a, table))
    decreases |a|
  {
    hide EventOf, NextTable;
    if a == [] {
      assert a + b == b;
    } else {
      assert (a + b)[1..] == a[1..] + b;
      EventsAppend(a[1..], b, NextTable(a[0], table), keys);
    }
  }

  /** Rewriting some settings and then reading any settings is reading them first
      and editing what was read: table context and every other line survive. */
  lemma {:induction false} EventsRewritten(ls: seq<string>, table: string, keys: seq<Setting>, e: Edit,
                                           read: seq<Setting>)
    requires AllOneLine(ls) && GoodEdit(e)
    ensures Events(Rewritten(ls, table, keys, e), table, read) == EditAll(Events(ls, table, read), keys, e)
    ensures AllOneLine(Rewritten(ls, table, keys, e))
    ensures EndTable(Rewritten(ls, table, keys, e), table) == EndTable(ls, table)
    decreases |ls|
  {
    hide Classify, Body, Eol;
    if ls != [] {
      var r := Rewritten(ls, table, keys, e);
      RewriteLineShape(ls[0], table, keys, e);
      EventsRewritten(ls[1..], NextTable(ls[0], table), keys, e, read);
      assert r[1..] == Rewritten(ls[1..], NextTable(ls[0], table), keys, e);
      assert EventOf(r[0], table, read) == EditAll(EventOf(ls[0], table, read), keys, e);
      EditAllAppend(EventOf(ls[0], table, read), Events(ls[1..], NextTable(ls[0], table), read), keys, e);
    }
  }

  lemma EditAllAppend(a: seq<Event>, b: seq<Event>, keys: seq<Setting>, e: Edit)
    ensures EditAll(a + b, keys, e) == EditAll(a, keys, e) + EditAll(b, keys, e)
  {
  }

  lemma {:induction false} RewrittenLines(ls: seq<string>, table: string, keys: seq<Setting>, e: Edit)
    requires AllOneLine(ls) && GoodEdit(e)
    ensures forall i :: 0 <= i < |ls| ==>
              && (EndsInNewline(ls[i]) <==> EndsInNewline(Rewritten(ls, table, keys, e)[i]))
              && OneLine(Rewritten(ls, table, keys, e)[i])
              && Eol(Rewritten(ls, table, keys, e)[i]) == Eol(ls[i])
    decreases |ls|
  {
    hide Classify, Body, Eol, RewriteLine;
    if ls != [] {
      RewriteLineShape(ls[0], table, keys, e);
      RewrittenLines(ls[1..], NextTable(ls[0], table), keys, e);
    }
  }

  lemma LinesAreOneLine(ls: seq<string>)
    requires IsLines(ls)
    ensures AllOneLine(ls)
  {
    forall i | 0 <= i < |ls| ensures OneLine(ls[i]) {
      if i < |ls| - 1 { assert EndsInNewline(ls[i]); }
    }
  }

  lemma RewrittenIsLines(ls: seq<string>, keys: seq<Setting>, e: Edit)
    requires IsLines(ls) && GoodEdit(e)
    ensures IsLines(Rewritten(ls, "", keys, e))
  {
    LinesAreOneLine(ls);
    RewrittenLines(ls, "", keys, e);
    var r := Rewritten(ls, "", keys, e);
    assert !EndsInNewline(ls[|ls| - 1]);
  }

  lemma RewriteLineTwice(line: string, table: string, keys: seq<Setting>, e: Edit, f: Edit)
    requires OneLine(line) && GoodEdit(e)
    ensures RewriteLine(RewriteLine(line, table, keys, e), table, keys, f) == RewriteLine(line, table, keys, Then(e, f))
  {
    hide Classify, Body, Eol;
    RewriteLineShape(line, table, keys, e);
  }

  /** One pass with two edits in turn equals two passes. */
  lemma {:induction false} RewrittenTwice(ls: seq<string>, table: string, keys: seq<Setting>, e: Edit, f: Edit)
    requires AllOneLine(ls) && GoodEdit(e)
    ensures Rewritten(Rewritten(ls, table, keys, e), table, keys, f) == Rewritten(ls, table, keys, Then(e, f))
    decreases |ls|
  {
    if ls != [] {
      RewriteLineShape(ls[0], table, keys, e);
      var r := Rewritten(ls, table, keys, e);
      assert r[1..] == Rewritten(ls[1..], NextTable(ls[0], table), keys, e);
      RewrittenTwice(ls[1..], NextTable(ls[0], table), keys, e, f);
      RewriteLineTwice(ls[0], table, keys, e, f);
    }
  }

  /** Two edits of the same lines agree exactly when they agree on every
      recognised value. */
  lemma {:induction false} SameRewrite(ls: seq<string>, table: string, keys: seq<Setting>, e: Edit, f: Edit)
    ensures Rewritten(ls, table, keys, e) == Rewritten(ls, table, keys, f)
            <==> forall ev :: ev in Events(ls, table, keys) ==>
                   Value(e, ev.setting, ev.quoted) == Value(f, ev.setting, ev.quoted)
    decreases |ls|
  {
    if ls != [] {
      var x, y := Rewritten(ls, table, keys, e), Rewritten(ls, table, keys, f);
      var t := NextTable(ls[0], table);
      SameRewrite(ls[1..], t, keys, e, f);
      assert x[1..] == Rewritten(ls[1..], t, keys, e) && y[1..] == Rewritten(ls[1..], t, keys, f);
      assert x == y <==> x[0] == y[0] && x[1..] == y[1..];
      if Sets(ls[0], table, keys) {
        SameLine(ls[0], table, keys, e, f);
      }
    }
  }

  lemma {:induction false} KeepIsIdentity(ls: seq<string>, table: string, keys: seq<Setting>)
    requires AllOneLine(ls)
    ensures Rewritten(ls, table, keys, Keep) == ls
    decreases |ls|
  {
    hide Classify, Body, Eol;
    if ls != [] {
      KeepIsIdentity(ls[1..], NextTable(ls[0], table), keys);
      if Sets(ls[0], table, keys) {
        PairParts(ls[0]);
      }
    }
  }

  lemma {:induction false} EventsGood(ls: seq<string>, table: string, keys: seq<Setting>)
    requires AllOneLine(ls)
    ensures forall ev :: ev in Events(ls, table, keys) ==> GoodQuoted(ev.quoted) && ev.setting in keys
    decreases |ls|
  {
    if ls != [] {
      EventsGood(ls[1..], NextTable(ls[0], table), keys);
      if Sets(ls[0], table, keys) {
        PairParts(ls[0]);
      }
    }
  }

  lemma RewriteStep(ls: seq<string>, i: nat, keys: seq<Setting>, e: Edit)
    requires i < |ls|
    ensures var t := EndTable(ls[..i], "");
            && Rewritten(ls[..i + 1], "", keys, e) == Rewritten(ls[..i], "", keys, e) + [RewriteLine(ls[i], t, keys, e)]
            && Events(ls[..i + 1], "", keys) == Events(ls[..i], "", keys) + EventOf(ls[i], t, keys)
            && EndTable(ls[..i + 1], "") == NextTable(ls[i], t)
  {
    hide RewriteLine, NextTable, EventOf;
    assert ls[..i + 1] == ls[..i] + [ls[i]];
    RewrittenAppend(ls[..i], [ls[i]], "", keys, e);
    EventsAppend(ls[..i], [ls[i]], "", keys);
    assert [ls[i]][1..] == [];
  }

  lemma Nothing(keys: seq<Setting>, e: Edit)
    ensures Rewritten([], "", keys, e) == [] && Events([], "", keys) == [] && EndTable([], "") == ""
  {
  }

  /** rewriteKeys: edits the matching lines in place and reports each setting it
      found, in order. */
  method RewriteKeys(data: string, keys: seq<Setting>, e: Edit) returns (out: string, found: seq<Event>)
    ensures out == Join(Rewritten(SplitLines(data), "", keys, e))
    ensures found == Events(SplitLines(data), "", keys)
  {
    hide Classify, Value, Put, Eol, SplitLines, Join, Rewritten, Events, EndTable;
    var original := SplitLines(data);
    var lines := original;
    var table := "";
    found := [];
    Nothing(keys, e);
    for i := 0 to |lines|
      invariant |lines| == |original| && forall j :: i <= j < |lines| ==> lines[j] == original[j]
      invariant table == EndTable(original[..i], "")
      invariant lines[..i] == Rewritten(original[..i], "", keys, e)
      invariant found == Events(original[..i], "", keys)
    {
      var line := lines[i];
      RewriteStep(original, i, keys, e);
      match Classify(line)
      case Header(t) =>
        table := t;
      case Other =>
      case Pair(kv) =>
        var s := Setting(table, kv.key);
        if s in keys {
          found := found + [Event(s, kv.quoted)];
          lines := lines[i := Put(kv, Value(e, s, kv.quoted), Eol(line))];
        }
    }
    assert original[..|lines|] == original && lines[..|lines|] == lines;
    out := Join(lines);
  }
}
