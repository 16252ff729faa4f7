/** Tokenizing a command line, and quoting a path for a Desktop Entry Exec key. */
module CommandLine {
  import opened Wrappers

  /** The tokenizer's variables. */
  datatype Scan = Scan(tokens: seq<string>, cur: string, quote: Option<char>, escaped: bool, started: bool)

  const START := Scan([], "", None, false, false)

  function Flush(s: Scan): Scan {
    if s.started || s.cur != "" then s.(tokens := s.tokens + [s.cur], cur := "", started := false) else s
  }

  function Step(s: Scan, c: char): Scan {
    if s.escaped then s.(cur := s.cur + [c], escaped := false)
    else if c == '\\' && s.quote != Some('\'') then s.(escaped := true)
    else if s.quote.Some? then
      if c == s.quote.value then s.(quote := None) else s.(cur := s.cur + [c])
    else if c == '\'' || c == '"' then s.(quote := Some(c), started := true)
    else if c == ' ' || c == '\t' || c == '\n' then Flush(s)
    else s.(cur := s.cur + [c])
  }

  function Run(s: Scan, text: string): Scan
    decreases |text|
  {
    if text == "" then s else Run(Step(s, text[0]), text[1..])
  }

  function Split(text: string): seq<string> {
    Flush(Run(START, text)).tokens
  }

  /** splitCommand. */
  method SplitCommand(text: string) returns (tokens: seq<string>)
    ensures tokens == Split(text)
  {
    var cur, quote, escaped, started := "", None, false, false;
    tokens := [];
    for i := 0 to |text|
      invariant Run(START, text) == Run(Scan(tokens, cur, quote, escaped, started), text[i..])
    {
      assert text[i..][1..] == text[i + 1..];
      var c := text[i];
      if escaped {
        cur, escaped := cur + [c], false;
      } else if c == '\\' && quote != Some('\'') {
        escaped := true;
      } else if quote.Some? {
        if c == quote.value {
          quote := None;
        } else {
          cur := cur + [c];
        }
      } else if c == '\'' || c == '"' {
        quote, started := Some(c), true;
      } else if c == ' ' || c == '\t' || c == '\n' {
        if started || cur != "" {
          tokens, cur, started := tokens + [cur], "", false;
        }
      } else {
        cur := cur + [c];
      }
    }
    if started || cur != "" {
      tokens := tokens + [cur];
    }
  }

  predicate Reserved(c: char) { c == '\\' || c == '"' || c == '`' || c == '$' }

  function EscapeChar(c: char): string { if Reserved(c) then ['\\', c] else [c] }

  function EscapeReserved(path: string): string {
    if path == "" then "" else EscapeChar(path[0]) + EscapeReserved(path[1..])
  }

  function DoublePercents(s: string): string {
    if s == "" then "" else (if s[0] == '%' then "%%" else [s[0]]) + DoublePercents(s[1..])
  }

  function DesktopExecValue(path: string): string {
    "\"" + DoublePercents(EscapeReserved(path)) + "\""
  }

  lemma {:induction false} RunAppend(s: Scan, a: string, b: string)
    ensures Run(s, a + b) == Run(Run(s, a), b)
    decreases |a|
  {
    if a == "" {
      assert a + b == b;
    } else {
      assert (a + b)[1..] == a[1..] + b;
      RunAppend(Step(s, a[0]), a[1..], b);
    }
  }

  lemma {:induction false} DoubleAppend(a: string, b: string)
    ensures DoublePercents(a + b) == DoublePercents(a) + DoublePercents(b)
    decreases |a|
  {
    if a == "" {
      assert a + b == b;
    } else {
      assert (a + b)[1..] == a[1..] + b;
      DoubleAppend(a[1..], b);
    }
  }

  lemma RunTwo(s: Scan, x: char, y: char)
    ensures Run(s, [x, y]) == Step(Step(s, x), y)
  {
    assert [x, y][1..] == [y];
    RunOne(Step(s, x), y);
  }

  lemma RunOne(s: Scan, x: char)
    ensures Run(s, [x]) == Step(s, x)
  {
    assert [x][1..] == "";
  }

  /** Inside double quotes an escaped character reads as itself, with % doubled. */
  lemma QuotedChar(s: Scan, c: char)
    requires s.quote == Some('"') && !s.escaped
    ensures Run(s, DoublePercents(EscapeChar(c))) == s.(cur := s.cur + DoublePercents([c]))
  {
    assert [c][1..] == "";
    if Reserved(c) {
      assert DoublePercents([c]) == [c];
      assert DoublePercents(['\\'] + [c]) == ['\\'] + [c] by { DoubleAppend(['\\'], [c]); assert ['\\'][1..] == ""; }
      assert ['\\'] + [c] == ['\\', c];
      RunTwo(s, '\\', c);
    } else if c == '%' {
      assert DoublePercents([c]) == ['%', '%'];
      RunTwo(s, '%', '%');
      assert s.cur + ['%'] + ['%'] == s.cur + ['%', '%'];
    } else {
      assert DoublePercents([c]) == [c];
      RunOne(s, c);
    }
  }

  lemma {:induction false} QuotedText(s: Scan, path: string)
    requires s.quote == Some('"') && !s.escaped
    ensures Run(s, DoublePercents(EscapeReserved(path))) == s.(cur := s.cur + DoublePercents(path))
    decreases |path|
  {
    hide Step, EscapeChar, DoublePercents;
    if path == "" {
      assert DoublePercents("") == "" && s.cur + "" == s.cur by { NoPercents(); }
    } else {
      var c := path[0];
      assert path == [c] + path[1..];
      var head, rest := EscapeChar(c), EscapeReserved(path[1..]);
      DoubleAppend(head, rest);
      RunAppend(s, DoublePercents(head), DoublePercents(rest));
      QuotedChar(s, c);
      var s' := s.(cur := s.cur + DoublePercents([c]));
      QuotedText(s', path[1..]);
      DoubleAppend([c], path[1..]);
      assert s.cur + DoublePercents([c]) + DoublePercents(path[1..]) == s.cur + DoublePercents(path);
    }
  }

  lemma NoPercents()
    ensures DoublePercents("") == ""
  {
  }

  /** Tokenizing an Exec value gives back one token for every path, the empty one and
      ones with quotes, backslashes, backticks and dollars included: the path itself,
      with each % doubled. */
  lemma ExecValueIsOneToken(path: string)
    ensures Split(DesktopExecValue(path)) == [DoublePercents(path)]
  {
    hide Step, DoublePercents, EscapeReserved;
    var mid := DoublePercents(EscapeReserved(path));
    var opened' := START.(quote := Some('"'), started := true);
    assert Step(START, '"') == opened' && Run(START, "\"") == opened' by { QuoteOpens(); }
    assert DesktopExecValue(path) == "\"" + (mid + "\"");
    RunAppend(START, "\"", mid + "\"");
    RunAppend(opened', mid, "\"");
    QuotedText(opened', path);
    var full := opened'.(cur := "" + DoublePercents(path));
    assert "" + DoublePercents(path) == DoublePercents(path);
    QuoteCloses(full);
  }

  lemma QuoteOpens()
    ensures Run(START, "\"") == Step(START, '"') == START.(quote := Some('"'), started := true)
  {
    assert "\""[1..] == "";
  }

  lemma QuoteCloses(s: Scan)
    requires s.quote == Some('"') && !s.escaped
    ensures Run(s, "\"") == s.(quote := None)
  {
    assert "\""[1..] == "";
  }

  /** Reading %% as a literal percent sign, as field codes are read. */
  function ReadPercents(s: string): string {
    if s == "" then ""
    else if s[0] == '%' && |s| >= 2 && s[1] == '%' then "%" + ReadPercents(s[2..])
    else [s[0]] + ReadPercents(s[1..])
  }

  lemma {:induction false} PercentsReadBack(s: string)
    ensures ReadPercents(DoublePercents(s)) == s
    decreases |s|
  {
    if s != "" {
      var d := DoublePercents(s);
      PercentsReadBack(s[1..]);
      if s[0] == '%' {
        assert d[2..] == DoublePercents(s[1..]);
      } else {
        assert d[1..] == DoublePercents(s[1..]);
      }
    }
  }

  /** So the launcher runs the very path that was quoted. */
  lemma ExecValueRoundTrip(path: string)
    ensures |Split(DesktopExecValue(path))| == 1 && ReadPercents(Split(DesktopExecValue(path))[0]) == path
  {
    ExecValueIsOneToken(path);
    PercentsReadBack(path);
  }

  /** Reading the inside of a quoted argument as the Exec key section of the Desktop Entry
      Specification has it: the four reserved characters only ever stand behind a backslash,
      and nothing else does. */
  function ReadQuoted(s: string): Option<string> {
    if s == "" then Some("")
    else if s[0] == '\\' then
      if |s| < 2 || !(s[1] == '"' || s[1] == '`' || s[1] == '$' || s[1] == '\\') then None
      else
        var rest := ReadQuoted(s[2..]);
        if rest.None? then None else Some([s[1]] + rest.value)
    else if s[0] == '"' || s[0] == '`' || s[0] == '$' then None
    else
      var rest := ReadQuoted(s[1..]);
      if rest.None? then None else Some([s[0]] + rest.value)
  }

  lemma {:induction false} EscapedReadsBack(path: string)
    ensures ReadQuoted(DoublePercents(EscapeReserved(path))) == Some(DoublePercents(path))
    decreases |path|
  {
    if path != "" {
      var c, rest := path[0], DoublePercents(EscapeReserved(path[1..]));
      EscapedReadsBack(path[1..]);
      DoubleAppend(EscapeChar(c), EscapeReserved(path[1..]));
      assert path == [c] + path[1..];
      DoubleAppend([c], path[1..]);
      DoubledChar(c);
      ReadChar(c, rest);
    }
  }

  lemma DoubledChar(c: char)
    ensures DoublePercents(EscapeChar(c))
         == if c == '%' then "%%" else if c == '\\' || c == '"' || c == '`' || c == '$' then ['\\', c] else [c]
    ensures DoublePercents([c]) == if c == '%' then "%%" else [c]
  {
    assert [c][1..] == "" && ['\\'][1..] == "";
    DoubleAppend(['\\'], [c]);
    assert ['\\'] + [c] == ['\\', c];
  }

  lemma ReadChar(c: char, rest: string)
    requires ReadQuoted(rest).Some?
    ensures var text := if c == '%' then "%%"
                        else if c == '\\' || c == '"' || c == '`' || c == '$' then ['\\', c]
                        else [c];
            ReadQuoted(text + rest) == Some((if c == '%' then "%%" else [c]) + ReadQuoted(rest).value)
  {
    if c == '%' {
      var s := "%%" + rest;
      assert s[1..] == "%" + rest && ("%" + rest)[1..] == rest;
      assert "%%" + ReadQuoted(rest).value == ['%'] + (['%'] + ReadQuoted(rest).value);
    } else if c == '\\' || c == '"' || c == '`' || c == '$' {
      var s := ['\\', c] + rest;
      assert s[0] == '\\' && s[1] == c && s[2..] == rest;
    } else {
      var s := [c] + rest;
      assert s[0] == c && s[1..] == rest;
    }
  }

  // --- What a command line means ------------------------------------------------------------

  /** One character between double quotes: any but a quote or a backslash, or an escape. */
  datatype Unit = Plain(c: char) | Escape(c: char)

  /** One way of writing part of a token. */
  datatype Piece = Bare(text: string) | Single(text: string) | Double(units: seq<Unit>) | Escaped(c: char)

  /** A token as written, after the blanks before it. */
  datatype Word = Word(gap: string, pieces: seq<Piece>)

  predicate Ordinary(c: char) { c != ' ' && c != '\t' && c != '\n' && c != '\\' && c != '\'' && c != '"' }

  predicate IsBlanks(s: string) { forall i :: 0 <= i < |s| ==> s[i] == ' ' || s[i] == '\t' || s[i] == '\n' }

  predicate PieceOk(p: Piece) {
    match p
    case Bare(text) => text != "" && forall i :: 0 <= i < |text| ==> Ordinary(text[i])
    case Single(text) => '\'' !in text
    case Double(units) => forall u :: u in units && u.Plain? ==> u.c != '"' && u.c != '\\'
    case Escaped(_) => true
  }

  function UnitText(u: Unit): string {
    match u
    case Plain(c) => [c]
    case Escape(c) => ['\\', c]
  }

  function UnitsText(us: seq<Unit>): string {
    if us == [] then ""
    else UnitText(us[0]) + UnitsText(us[1..])
  }

  function UnitsValue(us: seq<Unit>): string { if us == [] then "" else [us[0].c] + UnitsValue(us[1..]) }

  function PieceText(p: Piece): string {
    match p
    case Bare(text) => text
    case Single(text) => "'" + text + "'"
    case Double(units) => "\"" + UnitsText(units) + "\""
    case Escaped(c) => ['\\', c]
  }

  function PieceValue(p: Piece): string {
    match p
    case Bare(text) => text
    case Single(text) => text
    case Double(units) => UnitsValue(units)
    case Escaped(c) => [c]
  }

  function PiecesText(ps: seq<Piece>): string { if ps == [] then "" else PieceText(ps[0]) + PiecesText(ps[1..]) }
  function PiecesValue(ps: seq<Piece>): string { if ps == [] then "" else PieceValue(ps[0]) + PiecesValue(ps[1..]) }

  predicate Idle(s: Scan) { s.quote.None? && !s.escaped }

  lemma {:induction false} RunBare(s: Scan, text: string)
    requires Idle(s) && forall i :: 0 <= i < |text| ==> Ordinary(text[i])
    ensures Run(s, text) == s.(cur := s.cur + text)
    decreases |text|
  {
    if text == "" {
      assert s.cur + "" == s.cur;
    } else {
      RunBare(Step(s, text[0]), text[1..]);
      assert s.cur + [text[0]] + text[1..] == s.cur + text;
    }
  }

  lemma {:induction false} RunSingle(s: Scan, text: string)
    requires s.quote == Some('\'') && !s.escaped && '\'' !in text
    ensures Run(s, text + "'") == s.(cur := s.cur + text, quote := None)
    decreases |text|
  {
    if text == "" {
      assert s.cur + "" == s.cur && text + "'" == "'";
      RunOne(s, '\'');
    } else {
      assert (text + "'")[1..] == text[1..] + "'";
      RunSingle(Step(s, text[0]), text[1..]);
      assert s.cur + [text[0]] + text[1..] == s.cur + text;
    }
  }

  lemma {:induction false} RunUnits(s: Scan, us: seq<Unit>)
    requires s.quote == Some('"') && !s.escaped && PieceOk(Double(us))
    ensures Run(s, UnitsText(us) + "\"") == s.(cur := s.cur + UnitsValue(us), quote := None)
    decreases |us|
  {
    hide Step, UnitText;
    if us == [] {
      QuoteCloses(s);
      assert s.cur + "" == s.cur && UnitsText(us) + "\"" == "\"";
    } else {
      var rest := UnitsText(us[1..]) + "\"";
      var s' := s.(cur := s.cur + [us[0].c]);
      assert us[0] in us && PieceOk(Double(us[1..]));
      RunUnit(s, us[0]);
      RunUnits(s', us[1..]);
      assert s.cur + [us[0].c] + UnitsValue(us[1..]) == s.cur + UnitsValue(us);
      assert UnitsText(us) + "\"" == UnitText(us[0]) + rest;
      RunAppend(s, UnitText(us[0]), rest);
    }
  }

  lemma RunUnit(s: Scan, u: Unit)
    requires s.quote == Some('"') && !s.escaped && (u.Plain? ==> u.c != '"' && u.c != '\\')
    ensures Run(s, UnitText(u)) == s.(cur := s.cur + [u.c])
  {
    match u
    case Plain(c) => RunOne(s, c);
    case Escape(c) => RunTwo(s, '\\', c);
  }

  lemma RunPiece(s: Scan, p: Piece)
    requires Idle(s) && PieceOk(p)
    ensures Run(s, PieceText(p))
         == s.(cur := s.cur + PieceValue(p), started := s.started || p.Single? || p.Double?)
  {
    match p
    case Bare(text) => RunBare(s, text);
    case Single(text) =>
      assert PieceText(p) == "'" + (text + "'");
      RunAppend(s, "'", text + "'");
      RunOne(s, '\'');
      RunSingle(Step(s, '\''), text);
    case Double(units) =>
      assert PieceText(p) == "\"" + (UnitsText(units) + "\"");
      RunAppend(s, "\"", UnitsText(units) + "\"");
      RunOne(s, '"');
      RunUnits(Step(s, '"'), units);
    case Escaped(c) => RunTwo(s, '\\', c);
  }

  /** A scan that would add a token, be it an empty one, if it ended now. */
  predicate Pending(s: Scan) { s.started || s.cur != "" }

  lemma {:induction false} RunPieces(s: Scan, ps: seq<Piece>)
    requires Idle(s) && forall p :: p in ps ==> PieceOk(p)
    ensures var r := Run(s, PiecesText(ps));
            && Idle(r) && r.tokens == s.tokens && r.cur == s.cur + PiecesValue(ps)
            && (ps != [] || Pending(s) ==> Pending(r))
    decreases |ps|
  {
    hide PieceOk, PieceText, PieceValue, Step;
    if ps == [] {
      assert s.cur + "" == s.cur;
    } else {
      var r := s.(cur := s.cur + PieceValue(ps[0]), started := s.started || ps[0].Single? || ps[0].Double?);
      assert ps[0] in ps && forall p :: p in ps[1..] ==> p in ps;
      RunPiece(s, ps[0]);
      PieceLeaves(ps[0]);
      RunAppend(s, PieceText(ps[0]), PiecesText(ps[1..]));
      RunPieces(r, ps[1..]);
      assert s.cur + PieceValue(ps[0]) + PiecesValue(ps[1..]) == s.cur + PiecesValue(ps);
    }
  }

  lemma PieceLeaves(p: Piece)
    requires PieceOk(p)
    ensures p.Single? || p.Double? || PieceValue(p) != ""
  {
  }

  lemma {:induction false} RunGap(s: Scan, gap: string)
    requires Idle(s) && IsBlanks(gap) && gap != ""
    ensures Run(s, gap) == Flush(s)
    decreases |gap|
  {
    if |gap| == 1 {
      assert gap == [gap[0]];
      RunOne(s, gap[0]);
    } else {
      RunGap(Step(s, gap[0]), gap[1..]);
    }
  }

  function WordsText(ws: seq<Word>): string {
    if ws == [] then "" else ws[0].gap + PiecesText(ws[0].pieces) + WordsText(ws[1..])
  }

  function WordValues(ws: seq<Word>): seq<string> {
    if ws == [] then [] else [PiecesValue(ws[0].pieces)] + WordValues(ws[1..])
  }

  /** Every word is written somehow, and all but the first stand behind blanks. */
  ghost predicate WordsOk(ws: seq<Word>) {
    && (forall w :: w in ws ==> IsBlanks(w.gap) && w.pieces != [] && forall p :: p in w.pieces ==> PieceOk(p))
    && (forall i :: 1 <= i < |ws| ==> ws[i].gap != "")
  }

  lemma {:induction false} RunWords(s: Scan, ws: seq<Word>)
    requires Idle(s) && WordsOk(ws) && (ws != [] && Pending(s) ==> ws[0].gap != "")
    ensures var r := Run(s, WordsText(ws));
            Idle(r) && Flush(r).tokens == Flush(s).tokens + WordValues(ws)
    decreases |ws|
  {
    hide PieceOk, Step, PiecesText, PiecesValue, IsBlanks;
    if ws != [] {
      var w := ws[0];
      assert w in ws && WordsOk(ws[1..]);
      var s1 := Flush(s);
      if w.gap != "" { RunGap(s, w.gap); }
      assert Run(s, w.gap) == s1;
      RunPieces(s1, w.pieces);
      var s2 := Run(s1, PiecesText(w.pieces));
      assert s1.cur + PiecesValue(w.pieces) == PiecesValue(w.pieces);
      RunWords(s2, ws[1..]);
      RunAppend(s, w.gap + PiecesText(w.pieces), WordsText(ws[1..]));
      RunAppend(s, w.gap, PiecesText(w.pieces));
      assert Flush(s).tokens + ([PiecesValue(w.pieces)] + WordValues(ws[1..]))
          == Flush(s).tokens + [PiecesValue(w.pieces)] + WordValues(ws[1..]);
    }
  }

  /** Tokenizing gives back what was written: words apart by blanks, each of them any mix of
      ordinary characters, single quotes that keep everything, double quotes with escapes, and
      escaped characters; an empty pair of quotes is an empty token. */
  lemma SplitReads(ws: seq<Word>, end: string)
    requires WordsOk(ws) && IsBlanks(end)
    ensures Split(WordsText(ws) + end) == WordValues(ws)
  {
    hide Step, WordsText, WordValues, WordsOk;
    RunWords(START, ws);
    RunAppend(START, WordsText(ws), end);
    if end != "" {
      RunGap(Run(START, WordsText(ws)), end);
    }
    assert [] + WordValues(ws) == WordValues(ws);
  }
}
