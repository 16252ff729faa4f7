/** The two line patterns config.toml is edited by, as scanners over one line
    without its line ending, and the splitting of a file into lines. */
module ConfigText {
  import opened Wrappers

  datatype CharClass = Blank | KeyChar | TableChar | NotApostrophe | NotNewline

  predicate IsBareKeyChar(c: char) {
    'A' <= c <= 'Z' || 'a' <= c <= 'z' || '0' <= c <= '9' || c == '_' || c == '-'
  }

  predicate Has(k: CharClass, c: char) {
    match k
    case Blank => c == ' ' || c == '\t'
    case KeyChar => IsBareKeyChar(c)
    case TableChar => IsBareKeyChar(c) || c == '.'
    case NotApostrophe => c != '\''
    case NotNewline => c != '\n'
  }

  /** Where the longest run of characters in class k starting at i ends. */
  function RunEnd(s: string, i: nat, k: CharClass): (j: nat)
    requires i <= |s|
    ensures i <= j <= |s| && IsRun(s, i, j, k)
    decreases |s| - i
  {
    if i == |s| || !Has(k, s[i]) then i else RunEnd(s, i + 1, k)
  }

  /** [i, j) is the whole run of class k from i on. */
  predicate IsRun(s: string, i: nat, j: nat, k: CharClass) {
    i <= j <= |s| && (forall x :: i <= x < j ==> Has(k, s[x])) && (j < |s| ==> !Has(k, s[j]))
  }

  // --- Quoted values ----------------------------------------------------------

  /** Length of a basic string after its opening quote, closing quote included. */
  function BasicRest(s: string): (r: Option<nat>)
    ensures r.Some? ==> 0 < r.value <= |s| && s[r.value - 1] == '"'
  {
    if s == "" then None
    else if s[0] == '"' then Some(1)
    else if s[0] == '\\' then
      if |s| < 2 || s[1] == '\n' then None
      else
        var r := BasicRest(s[2..]);
        if r.None? then None else Some(r.value + 2)
    else
      var r := BasicRest(s[1..]);
      if r.None? then None else Some(r.value + 1)
  }

  /** Length of the one-line string literal s starts with. */
  function QuotedLength(s: string): (r: Option<nat>)
    ensures r.Some? ==> 2 <= r.value <= |s| && (s[r.value - 1] == '"' || s[r.value - 1] == '\'')
  {
    if s == "" then None
    else if s[0] == '"' then
      var r := BasicRest(s[1..]);
      if r.None? then None else Some(r.value + 1)
    else if s[0] == '\'' then
      var n := RunEnd(s, 1, NotApostrophe);
      if n == |s| then None else Some(n + 1)
    else None
  }

  /** q is one whole string literal. */
  predicate IsQuoted(q: string) {
    QuotedLength(q) == Some(|q|)
  }

  lemma {:induction false} BasicRestLocal(s: string, n: nat, t: string)
    requires BasicRest(s) == Some(n)
    ensures BasicRest(s[..n] + t) == Some(n)
    decreases |s|
  {
    var u := s[..n] + t;
    assert u[0] == s[0];
    if s[0] == '"' {
    } else if s[0] == '\\' {
      assert u[1] == s[1] && u[2..] == s[2..][..n - 2] + t;
      BasicRestLocal(s[2..], n - 2, t);
    } else {
      assert u[1..] == s[1..][..n - 1] + t;
      BasicRestLocal(s[1..], n - 1, t);
    }
  }

  /** What a literal is does not depend on what follows it. */
  lemma QuotedLocal(s: string, n: nat, t: string)
    requires QuotedLength(s) == Some(n)
    ensures QuotedLength(s[..n] + t) == Some(n)
  {
    var u := s[..n] + t;
    if s[0] == '"' {
      BasicRestLocal(s[1..], n - 1, t);
      assert u[1..] == s[1..][..n - 1] + t;
    } else {
      assert IsRun(u, 1, n - 1, NotApostrophe);
    }
  }

  lemma QuotedPrefix(s: string, n: nat)
    requires QuotedLength(s) == Some(n)
    ensures IsQuoted(s[..n])
  {
    QuotedLocal(s, n, "");
    assert s[..n] + "" == s[..n];
  }

  // --- key = "value" lines ------------------------------------------------------

  /** Blanks, then nothing or a comment. */
  predicate IsTail(t: string) {
    var n := RunEnd(t, 0, Blank);
    n == |t| || (t[n] == '#' && '\n' !in t[n..])
  }

  datatype KeyValue = KeyValue(lead: string, key: string, quoted: string, tail: string)

  /** Everything up to the value: blanks, a bare key, blanks, '=', blanks. */
  predicate LeadAt(lead: string, key: string, a: nat, k: nat, b: nat) {
    && a < k <= b < |lead|
    && IsRun(lead, 0, a, Blank) && IsRun(lead, a, k, KeyChar) && lead[a..k] == key
    && IsRun(lead, k, b, Blank) && lead[b] == '=' && IsRun(lead, b + 1, |lead|, Blank)
  }

  ghost predicate IsLead(lead: string, key: string) {
    exists a: nat, k: nat, b: nat :: LeadAt(lead, key, a, k, b)
  }

  datatype Lead = Lead(length: nat, key: string)

  function ParseLead(body: string): (r: Option<Lead>)
    ensures r.Some? ==> r.value.length <= |body|
  {
    var a := RunEnd(body, 0, Blank);
    var k := RunEnd(body, a, KeyChar);
    var b := RunEnd(body, k, Blank);
    if k == a || b == |body| || body[b] != '=' then None
    else Some(Lead(RunEnd(body, b + 1, Blank), body[a..k]))
  }

  function ParseKeyValue(body: string): (r: Option<KeyValue>) {
    var lead := ParseLead(body);
    if lead.None? then None
    else
      var p := lead.value.length;
      var n := QuotedLength(body[p..]);
      if n.None? || !IsTail(body[p + n.value..]) then None
      else Some(KeyValue(body[..p], lead.value.key, body[p..p + n.value], body[p + n.value..]))
  }

  lemma LeadSound(body: string)
    requires ParseLead(body).Some?
    ensures var l := ParseLead(body).value; IsLead(body[..l.length], l.key)
  {
    var a := RunEnd(body, 0, Blank);
    var k := RunEnd(body, a, KeyChar);
    var b := RunEnd(body, k, Blank);
    var lead := body[..RunEnd(body, b + 1, Blank)];
    assert lead[a..k] == body[a..k];
    assert LeadAt(lead, body[a..k], a, k, b);
  }

  lemma LeadComplete(lead: string, key: string, rest: string)
    requires IsLead(lead, key) && rest != "" && !Has(Blank, rest[0])
    ensures ParseLead(lead + rest) == Some(Lead(|lead|, key))
  {
    var a: nat, k: nat, b: nat :| LeadAt(lead, key, a, k, b);
    var body := lead + rest;
    assert IsRun(body, 0, a, Blank) && IsRun(body, a, k, KeyChar) && IsRun(body, k, b, Blank);
    assert IsRun(body, b + 1, |lead|, Blank);
    assert body[a..k] == lead[a..k];
  }

  lemma ParseSound(body: string)
    requires ParseKeyValue(body).Some?
    ensures var kv := ParseKeyValue(body).value;
            && body == kv.lead + kv.quoted + kv.tail
            && IsLead(kv.lead, kv.key) && IsQuoted(kv.quoted) && IsTail(kv.tail)
  {
    hide ParseLead, IsLead, IsTail, QuotedLength;
    LeadSound(body);
    var p := ParseLead(body).value.length;
    var n := QuotedLength(body[p..]).value;
    QuotedPrefix(body[p..], n);
    assert body[p..][..n] == body[p..p + n];
    assert body == body[..p] + body[p..p + n] + body[p + n..];
  }

  lemma ParseComplete(lead: string, key: string, quoted: string, tail: string)
    requires IsLead(lead, key) && IsQuoted(quoted) && IsTail(tail)
    ensures ParseKeyValue(lead + quoted + tail) == Some(KeyValue(lead, key, quoted, tail))
  {
    var body := lead + quoted + tail;
    assert body == lead + (quoted + tail);
    LeadComplete(lead, key, quoted + tail);
    assert body[|lead|..] == quoted + tail;
    assert quoted[..|quoted|] == quoted;
    QuotedLocal(quoted, |quoted|, tail);
  }

  /** The scanner accepts a line exactly when it reads as lead, one string literal
      and tail, and that reading is unique. */
  lemma ParseExact(body: string, kv: KeyValue)
    ensures ParseKeyValue(body) == Some(kv)
        <==> body == kv.lead + kv.quoted + kv.tail
             && IsLead(kv.lead, kv.key) && IsQuoted(kv.quoted) && IsTail(kv.tail)
  {
    if ParseKeyValue(body).Some? { ParseSound(body); }
    if IsLead(kv.lead, kv.key) && IsQuoted(kv.quoted) && IsTail(kv.tail) {
      ParseComplete(kv.lead, kv.key, kv.quoted, kv.tail);
    }
  }

  // --- [table] lines --------------------------------------------------------------

  function ParseHeader(body: string): (r: Option<string>) {
    var a := RunEnd(body, 0, Blank);
    if a == |body| || body[a] != '[' then None
    else
      var o := if a + 1 < |body| && body[a + 1] == '[' then a + 2 else a + 1;
      var n := RunEnd(body, o, Blank);
      var e := RunEnd(body, n, TableChar);
      var c := RunEnd(body, e, Blank);
      if e == n || c == |body| || body[c] != ']' then None
      else
        var t := if c + 1 < |body| && body[c + 1] == ']' then c + 2 else c + 1;
        if IsTail(body[t..]) then Some(body[n..e]) else None
  }

  lemma SettingIsNoHeader(body: string)
    requires ParseKeyValue(body).Some?
    ensures ParseHeader(body).None?
  {
    var a := RunEnd(body, 0, Blank);
    assert RunEnd(body, a, KeyChar) > a;
  }

  // --- Lines --------------------------------------------------------------------------

  predicate IsEol(c: char) { c == '\r' || c == '\n' }

  /** Length of a line without its trailing carriage returns and newlines. */
  function BodyLength(line: string): (n: nat)
    ensures n <= |line|
    ensures n > 0 ==> !IsEol(line[n - 1])
    ensures forall i :: n <= i < |line| ==> IsEol(line[i])
  {
    if line == "" then 0
    else if IsEol(line[|line| - 1]) then BodyLength(line[..|line| - 1])
    else |line|
  }

  function Body(line: string): string { line[..BodyLength(line)] }
  function Eol(line: string): string { line[BodyLength(line)..] }

  lemma BodyIs(b: string, e: string)
    requires b == "" || !IsEol(b[|b| - 1])
    requires forall i :: 0 <= i < |e| ==> IsEol(e[i])
    ensures Body(b + e) == b && Eol(b + e) == e
  {
    assert forall i :: |b| <= i < |b + e| ==> (b + e)[i] == e[i - |b|];
    assert b != "" ==> (b + e)[|b| - 1] == b[|b| - 1];
  }

  /** The pieces of a text, each ending after its newline; the last has none. */
  function SplitLines(t: string): (ls: seq<string>)
    ensures IsLines(ls)
    decreases |t|
  {
    var n := RunEnd(t, 0, NotNewline);
    if n == |t| then [t]
    else
      var rest := SplitLines(t[n + 1..]);
      var ls := [t[..n + 1]] + rest;
      assert forall i :: 1 <= i < |ls| ==> ls[i] == rest[i - 1];
      ls
  }

  predicate EndsInNewline(s: string) { s != "" && s[|s| - 1] == '\n' && '\n' !in s[..|s| - 1] }

  predicate IsLines(ls: seq<string>) {
    && ls != []
    && (forall i :: 0 <= i < |ls| - 1 ==> EndsInNewline(ls[i]))
    && '\n' !in ls[|ls| - 1]
  }

  function Join(ls: seq<string>): string {
    if ls == [] then "" else ls[0] + Join(ls[1..])
  }

  lemma JoinCons(x: string, ls: seq<string>)
    ensures Join([x] + ls) == x + Join(ls)
  {
    assert ([x] + ls)[1..] == ls;
  }

  lemma {:induction false} JoinSplit(t: string)
    ensures Join(SplitLines(t)) == t
    decreases |t|
  {
    var n := RunEnd(t, 0, NotNewline);
    if n == |t| {
      JoinCons(t, []);
      assert [t] + [] == [t] && t + "" == t;
    } else {
      JoinSplit(t[n + 1..]);
      JoinCons(t[..n + 1], SplitLines(t[n + 1..]));
      assert t == t[..n + 1] + t[n + 1..];
    }
  }

  lemma SplitFirst(line: string, rest: string)
    requires EndsInNewline(line)
    ensures SplitLines(line + rest) == [line] + SplitLines(rest)
  {
    var t, n := line + rest, |line| - 1;
    assert IsRun(t, 0, n, NotNewline);
    assert t[..n + 1] == line && t[n + 1..] == rest;
  }

  lemma SplitLast(line: string)
    requires '\n' !in line
    ensures SplitLines(line) == [line]
  {
    assert IsRun(line, 0, |line|, NotNewline);
  }

  lemma {:induction false} SplitJoin(ls: seq<string>)
    requires IsLines(ls)
    ensures SplitLines(Join(ls)) == ls
    decreases |ls|
  {
    hide SplitLines, EndsInNewline;
    var rest := ls[1..];
    if rest == [] {
      assert Join(ls) == ls[0] + Join(rest) && ls[0] + "" == ls[0];
      SplitLast(ls[0]);
    } else {
      assert rest[|rest| - 1] == ls[|ls| - 1];
      SplitJoin(rest);
      SplitFirst(ls[0], Join(rest));
    }
  }

  lemma {:induction false} JoinAppend(a: seq<string>, b: seq<string>)
    ensures Join(a + b) == Join(a) + Join(b)
    decreases |a|
  {
    if a == [] {
      assert a + b == b;
    } else {
      assert (a + b)[1..] == a[1..] + b;
      JoinAppend(a[1..], b);
      assert Join(a + b) == a[0] + (Join(a[1..]) + Join(b));
    }
  }
}
