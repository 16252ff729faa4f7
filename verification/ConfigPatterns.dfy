/** The two line patterns of config.toml in their own words, apart from the scanners that
    look for them: what a table header, a key, a string literal and a tail are made of. */
module ConfigPatterns {
  import opened Wrappers
  import opened ConfigText

  predicate IsBare(c: char) {
    || ('a' <= c && c <= 'z') || ('A' <= c && c <= 'Z') || ('0' <= c && c <= '9')
    || c == '_' || c == '-'
  }

  predicate AllBlank(s: string) { forall i :: 0 <= i < |s| ==> s[i] == ' ' || s[i] == '\t' }
  predicate IsKey(s: string) { s != "" && forall i :: 0 <= i < |s| ==> IsBare(s[i]) }
  predicate IsTable(s: string) { s != "" && forall i :: 0 <= i < |s| ==> IsBare(s[i]) || s[i] == '.' }

  /** The slice is a whole run when all of it is in the class and what follows is not. */
  lemma RunOf(s: string, i: nat, part: string, k: CharClass)
    requires i + |part| <= |s| && s[i..i + |part|] == part
    requires forall x :: 0 <= x < |part| ==> Has(k, part[x])
    requires i + |part| < |s| ==> !Has(k, s[i + |part|])
    ensures RunEnd(s, i, k) == i + |part|
  {
    assert forall x :: i <= x < i + |part| ==> s[x] == part[x - i];
    assert IsRun(s, i, i + |part|, k);
  }

  lemma BlankRun(s: string, i: nat, part: string)
    requires i + |part| <= |s| && s[i..i + |part|] == part && AllBlank(part)
    requires i + |part| < |s| ==> s[i + |part|] != ' ' && s[i + |part|] != '\t'
    ensures RunEnd(s, i, Blank) == i + |part|
  {
    RunOf(s, i, part, Blank);
  }

  lemma TableRun(s: string, i: nat, part: string)
    requires i + |part| <= |s| && s[i..i + |part|] == part && IsTable(part)
    requires i + |part| < |s| ==> s[i + |part|] == ' ' || s[i + |part|] == '\t' || s[i + |part|] == ']'
    ensures RunEnd(s, i, TableChar) == i + |part|
  {
    RunOf(s, i, part, TableChar);
  }

  lemma KeyRun(s: string, i: nat, part: string)
    requires i + |part| <= |s| && s[i..i + |part|] == part && IsKey(part)
    requires i + |part| < |s| ==> s[i + |part|] == ' ' || s[i + |part|] == '\t' || s[i + |part|] == '='
    ensures RunEnd(s, i, KeyChar) == i + |part|
  {
    RunOf(s, i, part, KeyChar);
  }

  lemma RunClass(s: string, i: nat, k: CharClass)
    requires i <= |s|
    ensures var part := s[i..RunEnd(s, i, k)];
            && (k == Blank ==> AllBlank(part))
            && (k == KeyChar && part != "" ==> IsKey(part))
            && (k == TableChar && part != "" ==> IsTable(part))
  {
    var part := s[i..RunEnd(s, i, k)];
    forall x | 0 <= x < |part| ensures Has(k, part[x]) && part[x] == s[i + x] {}
  }

  // --- Line endings -----------------------------------------------------------------------

  /** The body of a line is all of it before the carriage returns and newlines at its end. */
  lemma BodyExact(line: string)
    ensures line == Body(line) + Eol(line)
    ensures forall i :: 0 <= i < |Eol(line)| ==> Eol(line)[i] == '\r' || Eol(line)[i] == '\n'
    ensures var b := Body(line); b != "" ==> b[|b| - 1] != '\r' && b[|b| - 1] != '\n'
  {
  }

  // --- Tails ----------------------------------------------------------------------------

  /** Blanks, or blanks and a comment. */
  ghost predicate TailText(t: string) {
    exists blanks, rest :: t == blanks + rest && AllBlank(blanks) && IsComment(rest)
  }

  predicate IsComment(s: string) { s == "" || (s[0] == '#' && '\n' !in s) }

  lemma TailExact(t: string)
    ensures IsTail(t) <==> TailText(t)
  {
    var n := RunEnd(t, 0, Blank);
    RunClass(t, 0, Blank);
    assert t == t[..n] + t[n..];
    if IsTail(t) {
      assert t[0..n] == t[..n] && IsComment(t[n..]);
    }
    if TailText(t) {
      var blanks, rest :| t == blanks + rest && AllBlank(blanks) && IsComment(rest);
      assert t[0..0 + |blanks|] == blanks && (rest != "" ==> t[|blanks|] == rest[0]);
      BlankRun(t, 0, blanks);
      assert t[n..] == rest;
    }
  }

  // --- String literals ------------------------------------------------------------------

  /** One character of a basic string: any but a quote or a backslash, or an escape. */
  predicate IsUnit(u: string) {
    || (|u| == 1 && u[0] != '"' && u[0] != '\\')
    || (|u| == 2 && u[0] == '\\' && u[1] != '\n')
  }

  ghost predicate AreUnits(us: seq<string>) { forall i :: 0 <= i < |us| ==> IsUnit(us[i]) }

  /** A whole literal: a quote, units and a quote, or anything between two apostrophes. */
  ghost predicate LiteralText(q: string) {
    || (exists us :: AreUnits(us) && q == "\"" + Join(us) + "\"")
    || (exists s :: q == "'" + s + "'" && '\'' !in s)
  }

  lemma {:induction false} UnitsRead(us: seq<string>)
    requires AreUnits(us)
    ensures BasicRest(Join(us) + "\"") == Some(|Join(us)| + 1)
    decreases |us|
  {
    hide Join, BasicRest;
    if us == [] {
      JoinNone();
      UnitRead("", "");
      assert "" + "\"" == "\"";
    } else {
      var rest := Join(us[1..]) + "\"";
      UnitsRead(us[1..]);
      JoinCons(us[0], us[1..]);
      assert us == [us[0]] + us[1..];
      assert Join(us) + "\"" == us[0] + rest;
      UnitRead(us[0], rest);
    }
  }

  lemma JoinNone()
    ensures Join([]) == ""
  {
  }

  lemma UnitRead(u: string, rest: string)
    ensures BasicRest("\"") == Some(1)
    ensures IsUnit(u) && BasicRest(rest).Some? ==> BasicRest(u + rest) == Some(|u| + BasicRest(rest).value)
  {
    if IsUnit(u) {
      var s := u + rest;
      assert s[0] == u[0] && s[|u|..] == rest;
      if |u| == 2 { assert s[1] == u[1]; }
    }
  }

  lemma {:induction false} ReadUnits(s: string) returns (us: seq<string>)
    requires BasicRest(s) == Some(|s|)
    ensures AreUnits(us) && s == Join(us) + "\""
    decreases |s|
  {
    if s[0] == '"' {
      us := [];
      assert s == "" + "\"";
    } else {
      var n := if s[0] == '\\' then 2 else 1;
      var rest := ReadUnits(s[n..]);
      us := [s[..n]] + rest;
      JoinCons(s[..n], rest);
      assert s == s[..n] + s[n..];
    }
  }

  lemma ApostropheRun(q: string, s: string)
    requires q == "'" + s + "'" && '\'' !in s
    ensures IsQuoted(q)
  {
    assert q[1..1 + |s|] == s && q[1 + |s|] == '\'';
    RunOf(q, 1, s, NotApostrophe);
  }

  lemma LiteralExact(q: string)
    ensures IsQuoted(q) <==> LiteralText(q)
  {
    if IsQuoted(q) {
      if q[0] == '"' {
        var us := ReadUnits(q[1..]);
        assert q == "\"" + q[1..] && q == "\"" + Join(us) + "\"";
      } else {
        var s := q[1..|q| - 1];
        assert q == "'" + s + "'";
        assert forall i :: 0 <= i < |s| ==> s[i] == q[i + 1];
      }
    }
    if LiteralText(q) {
      if us :| AreUnits(us) && q == "\"" + Join(us) + "\"" {
        UnitsRead(us);
        assert q[1..] == Join(us) + "\"";
      } else {
        var s :| q == "'" + s + "'" && '\'' !in s;
        ApostropheRun(q, s);
      }
    }
  }

  // --- key = "value" --------------------------------------------------------------------

  /** Blanks, a key, blanks, '=', blanks. */
  ghost predicate LeadText(lead: string, key: string) {
    exists a, b, c :: LeadParts(lead, key, a, b, c)
  }

  predicate LeadParts(lead: string, key: string, a: string, b: string, c: string) {
    IsKey(key) && AllBlank(a) && AllBlank(b) && AllBlank(c) && lead == a + key + b + "=" + c
  }

  lemma LeadExact(lead: string, key: string)
    ensures IsLead(lead, key) <==> LeadText(lead, key)
  {
    if IsLead(lead, key) {
      var a: nat, k: nat, b: nat :| LeadAt(lead, key, a, k, b);
      LeadHasParts(lead, key, a, k, b);
    }
    if LeadText(lead, key) {
      var a, b, c :| LeadParts(lead, key, a, b, c);
      PartsAreLead(lead, key, a, b, c);
    }
  }

  lemma LeadHasParts(lead: string, key: string, a: nat, k: nat, b: nat)
    requires LeadAt(lead, key, a, k, b)
    ensures LeadParts(lead, key, lead[..a], lead[k..b], lead[b + 1..])
  {
    forall x | 0 <= x < |key| ensures IsBare(key[x]) {
      assert key[x] == lead[a + x];
    }
    assert lead == lead[..a] + lead[a..k] + lead[k..b] + lead[b..b + 1] + lead[b + 1..];
  }

  lemma KeyStart(key: string)
    requires IsKey(key)
    ensures key[0] != ' ' && key[0] != '\t' && key[0] != '='
  {
  }

  lemma BlankStart(s: string)
    requires AllBlank(s) && s != ""
    ensures s[0] == ' ' || s[0] == '\t'
  {
  }

  lemma PartsAreLead(lead: string, key: string, a: string, b: string, c: string)
    requires LeadParts(lead, key, a, b, c)
    ensures IsLead(lead, key)
  {
    hide IsKey, AllBlank, Has, RunEnd;
    var i, j, k := |a|, |a| + |key|, |a| + |key| + |b|;
    KeyNonEmpty(key);
    assert lead[0..i] == a && lead[i..j] == key && lead[j..k] == b && lead[k] == '=';
    assert lead[k + 1..k + 1 + |c|] == c && |lead| == k + 1 + |c|;
    assert lead[i] == key[0] && (b != "" ==> lead[j] == b[0]);
    KeyStart(key);
    if b != "" { BlankStart(b); }
    BlankRun(lead, 0, a);
    KeyRun(lead, i, key);
    BlankRun(lead, j, b);
    BlankRun(lead, k + 1, c);
    assert LeadAt(lead, key, i, j, k);
  }

  lemma KeyNonEmpty(key: string)
    requires IsKey(key)
    ensures key != ""
  {
  }

  /** The key/value pattern accepts a line exactly when it is blanks, a bare key, blanks, '=',
      blanks, one string literal, and blanks or blanks and a comment; in one way only. */
  lemma SettingExact(body: string, kv: KeyValue)
    ensures ParseKeyValue(body) == Some(kv)
        <==> body == kv.lead + kv.quoted + kv.tail
             && LeadText(kv.lead, kv.key) && LiteralText(kv.quoted) && TailText(kv.tail)
  {
    hide ParseKeyValue, IsLead, IsQuoted, IsTail, LeadText, LiteralText, TailText;
    ParseExact(body, kv);
    LeadExact(kv.lead, kv.key);
    LiteralExact(kv.quoted);
    TailExact(kv.tail);
  }

  // --- [table] --------------------------------------------------------------------------

  datatype HeaderParts = HeaderParts(
    a: string, open: string, b: string, name: string, c: string, close: string, tail: string)

  function Text(h: HeaderParts): string { h.a + h.open + h.b + h.name + h.c + h.close + h.tail }

  /** Blanks, one or two brackets, blanks, a table name, blanks, one or two brackets, a tail. */
  ghost predicate IsHeader(h: HeaderParts) {
    && AllBlank(h.a) && (h.open == "[" || h.open == "[[") && AllBlank(h.b)
    && IsTable(h.name)
    && AllBlank(h.c) && (h.close == "]" || h.close == "]]") && TailText(h.tail)
  }

  ghost predicate HeaderText(body: string, name: string) {
    exists h :: IsHeader(h) && h.name == name && Text(h) == body
  }

  /** Where the parts of a header begin, and what the scanner meets there. */
  ghost predicate Positioned(h: HeaderParts, body: string) {
    var i := |h.a|;
    var o := i + |h.open|;
    var n := o + |h.b|;
    var e := n + |h.name|;
    var c := e + |h.c|;
    var t := c + |h.close|;
    && n < e && c < t <= |body|
    && body[i] == '[' && (body[i + 1] == '[' <==> o == i + 2)
    && body[c] == ']' && (c + 1 < |body| && body[c + 1] == ']' <==> t == c + 2)
    && RunEnd(body, 0, Blank) == i && RunEnd(body, o, Blank) == n
    && RunEnd(body, n, TableChar) == e && RunEnd(body, e, Blank) == c
    && body[n..e] == h.name && body[t..] == h.tail
  }

  lemma OpenPositions(h: HeaderParts)
    requires IsHeader(h)
    ensures var body, i := Text(h), |h.a|;
            var o := i + |h.open|;
            RunEnd(body, 0, Blank) == i && RunEnd(body, o, Blank) == o + |h.b|
  {
    hide TailText, AllBlank, IsTable, RunEnd, IsRun, Text;
    TableStart(h.name);
    Slices(h);
    BlankRun(Text(h), 0, h.a);
    BlankRun(Text(h), |h.a| + |h.open|, h.b);
  }

  lemma ClosePositions(h: HeaderParts)
    requires IsHeader(h)
    ensures var body, n := Text(h), |h.a| + |h.open| + |h.b|;
            var e := n + |h.name|;
            RunEnd(body, n, TableChar) == e && RunEnd(body, e, Blank) == e + |h.c|
  {
    hide TailText, AllBlank, IsTable, RunEnd, IsRun, Text;
    TableStart(h.name);
    Slices(h);
    var n := |h.a| + |h.open| + |h.b|;
    if h.c != "" { BlankStart(h.c); }
    TableRun(Text(h), n, h.name);
    BlankRun(Text(h), n + |h.name|, h.c);
  }

  lemma HeaderPositions(h: HeaderParts)
    requires IsHeader(h)
    ensures Positioned(h, Text(h))
  {
    hide TailText, AllBlank, IsTable, RunEnd, IsRun, Text;
    OpenPositions(h);
    ClosePositions(h);
    TableStart(h.name);
    Slices(h);
    if h.b != "" { BlankStart(h.b); }
    TailStart(h.tail);
  }

  lemma HeaderRead(h: HeaderParts)
    requires IsHeader(h)
    ensures ParseHeader(Text(h)) == Some(h.name)
  {
    hide TailText, IsTail, AllBlank, IsTable, RunEnd, IsRun, Text;
    HeaderPositions(h);
    TailExact(h.tail);
  }

  lemma TableStart(name: string)
    requires IsTable(name)
    ensures name != "" && name[0] != ' ' && name[0] != '\t' && name[0] != '[' && name[0] != ']'
  {
  }

  lemma Slices(h: HeaderParts)
    requires IsHeader(h)
    ensures var body := Text(h);
            var i := |h.a|;
            var o := i + |h.open|;
            var n := o + |h.b|;
            var e := n + |h.name|;
            var c := e + |h.c|;
            var t := c + |h.close|;
            && |body| == t + |h.tail| && i < o && n < e && c < t
            && body[0..i] == h.a && body[i..o] == h.open && body[o..n] == h.b && body[n..e] == h.name
            && body[e..c] == h.c && body[c..t] == h.close && body[t..] == h.tail
            && body[i] == '[' && body[n] == h.name[0] && body[c] == ']'
            && (|h.open| == 2 ==> body[i + 1] == '[') && (|h.close| == 2 ==> body[c + 1] == ']')
            && body[o] == (if h.b == "" then h.name[0] else h.b[0])
            && body[e] == (if h.c == "" then ']' else h.c[0])
            && (t < |body| ==> body[t] == h.tail[0])
  {
    hide TailText;
  }

  lemma TailStart(t: string)
    requires TailText(t)
    ensures t != "" ==> t[0] != ']'
  {
    var blanks, rest :| t == blanks + rest && AllBlank(blanks) && IsComment(rest);
    if t != "" {
      assert t[0] == if blanks == "" then rest[0] else blanks[0];
    }
  }

  lemma Brackets(s: string, i: nat, j: nat, bracket: char)
    requires i < j <= |s| && j <= i + 2 && s[i] == bracket && (j == i + 2 ==> s[i + 1] == bracket)
    ensures s[i..j] == if j == i + 2 then [bracket, bracket] else [bracket]
  {
  }

  lemma ReadHeader(body: string) returns (h: HeaderParts)
    requires ParseHeader(body).Some?
    ensures IsHeader(h) && Text(h) == body && h.name == ParseHeader(body).value
  {
    hide TailText, IsTail, AllBlank, IsTable, RunEnd, IsRun, Text, Has;
    var a := RunEnd(body, 0, Blank);
    var o := if a + 1 < |body| && body[a + 1] == '[' then a + 2 else a + 1;
    var n := RunEnd(body, o, Blank);
    var e := RunEnd(body, n, TableChar);
    var c := RunEnd(body, e, Blank);
    var t := if c + 1 < |body| && body[c + 1] == ']' then c + 2 else c + 1;
    h := HeaderParts(body[0..a], body[a..o], body[o..n], body[n..e], body[e..c], body[c..t], body[t..]);
    assert IsHeader(h) by {
      RunClass(body, 0, Blank);
      RunClass(body, o, Blank);
      RunClass(body, n, TableChar);
      RunClass(body, e, Blank);
      TailExact(h.tail);
      Brackets(body, a, o, '[');
      Brackets(body, c, t, ']');
    }
    assert Text(h) == body by {
      Together(body, a, o, n, e, c, t);
      TextOf(h);
    }
  }

  lemma TextOf(h: HeaderParts)
    ensures Text(h) == h.a + h.open + h.b + h.name + h.c + h.close + h.tail
  {
  }

  lemma Together(s: string, a: nat, o: nat, n: nat, e: nat, c: nat, t: nat)
    requires a <= o <= n <= e <= c <= t <= |s|
    ensures s[0..a] + s[a..o] + s[o..n] + s[n..e] + s[e..c] + s[c..t] + s[t..] == s
  {
  }

  /** The header pattern accepts a line exactly when it is blanks, one or two '[', blanks, a
      table name, blanks, one or two ']', and blanks or blanks and a comment. */
  lemma HeaderExact(body: string, name: string)
    ensures ParseHeader(body) == Some(name) <==> HeaderText(body, name)
  {
    hide ParseHeader, IsHeader, Text;
    if ParseHeader(body) == Some(name) {
      var h := ReadHeader(body);
    }
    if HeaderText(body, name) {
      var h :| IsHeader(h) && h.name == name && Text(h) == body;
      HeaderRead(h);
    }
  }
}
