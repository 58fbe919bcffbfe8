/** The parser of the constraint log: `dump_constraint` in src/fuzz/sync.py:38-63. */
module ConstraintLog {
  import opened Options
  import opened Text

  /** A line of the log; one that is not valid UTF-8 is skipped. */
  datatype LogLine = Undecodable | Decoded(text: string)

  /** What the three patterns make of a line. */
  datatype Token = Start(src: nat) | Expression(text: string) | End | Other

  const END_LINE: string := "CRACK-END"

  /** `^\[STAT] CRACK:(\d+),(\d+)$`: the source. */
  function MatchStart(line: string): Option<nat> {
    if !("[STAT] CRACK:" <= line) then None
    else
      var r := line[13..];
      var k := DigitRun(r);
      if k == 0 || k == |r| || r[k] != ',' || r[k + 1..] == "" || !AllDigits(r[k + 1..]) then None
      else Some(Number(r[..k]))
  }

  /** `^\s*\(.*$` */
  predicate MatchExpression(line: string) {
    line != "" && (line[0] == '(' || (IsSpace(line[0]) && MatchExpression(line[1..])))
  }

  /** White space, then a parenthesis, then anything. */
  ghost predicate BeginsWithParenthesis(line: string) {
    exists i :: ParenthesisAt(line, i)
  }

  predicate ParenthesisAt(line: string, i: int) {
    0 <= i < |line| && line[i] == '(' && forall j :: 0 <= j < i ==> IsSpace(line[j])
  }

  /** The matching, character by character, finds exactly that; blanks and tabs are white space. */
  lemma {:induction false} MatchExpressionIff(line: string)
    ensures MatchExpression(line) <==> BeginsWithParenthesis(line)
    ensures IsSpace(' ') && IsSpace('\t') && !IsSpace('(')
  {
    if line != "" {
      MatchExpressionIff(line[1..]);
      if line[0] == '(' { assert ParenthesisAt(line, 0); }
      if i :| ParenthesisAt(line[1..], i) && IsSpace(line[0]) {
        assert forall j :: 0 < j < i + 1 ==> line[j] == line[1..][j - 1];
        assert ParenthesisAt(line, i + 1);
      }
      if i :| ParenthesisAt(line, i) && i > 0 {
        assert IsSpace(line[0]);
        assert forall j :: 0 <= j < i - 1 ==> line[1..][j] == line[j + 1];
        assert ParenthesisAt(line[1..], i - 1);
      }
    }
  }

  /** The markers: a START line has two numbers, of which the first is the source. */
  predicate IsStart(line: string, src: string, dest: string) {
    && src != "" && dest != "" && AllDigits(src) && AllDigits(dest)
    && line == "[STAT] CRACK:" + src + "," + dest
  }

  lemma {:induction false} MatchStartIff(line: string)
    ensures MatchStart(line).Some? <==> exists src, dest :: IsStart(line, src, dest)
    ensures forall src, dest :: IsStart(line, src, dest) ==> MatchStart(line) == Some(Number(src))
  {
    if MatchStart(line).Some? {
      var r := line[13..];
      var k := DigitRun(r);
      assert line == "[STAT] CRACK:" + r[..k] + "," + r[k + 1..];
      assert IsStart(line, r[..k], r[k + 1..]);
    }
    forall src, dest | IsStart(line, src, dest) ensures MatchStart(line) == Some(Number(src)) {
      var r := line[13..];
      assert r == src + ("," + dest);
      DigitRunOf(src, "," + dest);
      assert r[..|src|] == src && r[|src|] == ',' && r[|src| + 1..] == dest;
    }
  }

  function Classify(line: LogLine): (t: Token)
    ensures t.Expression? ==> t.text != ""
  {
    if line.Undecodable? then Other
    else
      var start := MatchStart(line.text);
      if start.Some? then Start(start.value)
      else if MatchExpression(line.text) then Expression(line.text)
      else if line.text == END_LINE then End
      else Other
  }

  function Tokens(lines: seq<LogLine>): (ts: seq<Token>)
    ensures |ts| == |lines|
    ensures forall i :: 0 <= i < |ts| && ts[i].Expression? ==> ts[i].text != ""
  {
    seq(|lines|, i requires 0 <= i < |lines| => Classify(lines[i]))
  }

  datatype Entry = Entry(src: nat, text: string)

  /** '\n'.join */
  function Joined(texts: seq<string>): string {
    if texts == [] then ""
    else if |texts| == 1 then texts[0]
    else Joined(texts[..|texts| - 1]) + "\n" + texts[|texts| - 1]
  }

  /** constraint_dict: the texts of each source, in the order in which they were appended. */
  function Group(entries: seq<Entry>): map<nat, seq<string>> {
    if entries == [] then map[]
    else Append(Group(entries[..|entries| - 1]), entries[|entries| - 1])
  }

  function Append(dict: map<nat, seq<string>>, e: Entry): map<nat, seq<string>> {
    dict[e.src := (if e.src in dict then dict[e.src] else []) + [e.text]]
  }

  /** The parser's variables, with the appended entries in one list. */
  datatype State = State(entries: seq<Entry>, src: nat, recording: bool, pending: seq<string>)

  /** One line. With `clear`, a START line drops the expressions of a block that was not ended; the code keeps
      them. */
  function Step(s: State, t: Token, clear: bool): State {
    match t
    case Start(src) => s.(src := src, recording := true, pending := if clear then [] else s.pending)
    case Expression(text) => if s.recording then s.(pending := s.pending + [text]) else s
    case End =>
      if s.recording
      then s.(entries := s.entries + [Entry(s.src, Joined(s.pending))], pending := [], recording := false)
      else s
    case Other => s
  }

  function Run(s: State, ts: seq<Token>, clear: bool): State {
    if ts == [] then s else Step(Run(s, ts[..|ts| - 1], clear), ts[|ts| - 1], clear)
  }

  const FRESH := State([], 0, false, [])

  lemma {:induction false} RunPrefix(ts: seq<Token>, i: nat, clear: bool)
    requires i < |ts|
    ensures Run(FRESH, ts[..i + 1], clear) == Step(Run(FRESH, ts[..i], clear), ts[i], clear)
  {
    assert ts[..i + 1][..i] == ts[..i];
  }

  lemma GroupMore(entries: seq<Entry>, e: Entry)
    ensures Group(entries + [e]) == Append(Group(entries), e)
  {
    assert (entries + [e])[..|entries|] == entries;
  }

  method DumpConstraint(lines: seq<LogLine>) returns (dict: map<nat, seq<string>>)
    ensures dict == Group(Run(FRESH, Tokens(lines), false).entries)
  {
    dict := map[];
    var src, recording, pending: seq<string> := 0, false, [];
    ghost var entries := [];
    ghost var ts := Tokens(lines);
    for i := 0 to |lines|
      invariant Run(FRESH, ts[..i], false) == State(entries, src, recording, pending)
      invariant dict == Group(entries)
    {
      RunPrefix(ts, i, false);
      assert ts[i] == Classify(lines[i]);
      if lines[i].Undecodable? { continue; }
      var line := lines[i].text;
      var start := MatchStart(line);
      if start.Some? {
        src, recording := start.value, true;
        continue;
      }
      if recording && MatchExpression(line) {
        pending := pending + [line];
        continue;
      }
      if line == END_LINE && recording {
        var e := Entry(src, Joined(pending));
        GroupMore(entries, e);
        dict, entries := Append(dict, e), entries + [e];
        pending, recording := [], false;
        continue;
      }
    }
    assert ts[..|lines|] == ts;
  }

  lemma {:induction false} RunConcat(s: State, ts: seq<Token>, us: seq<Token>, clear: bool)
    ensures Run(s, ts + us, clear) == Run(Run(s, ts, clear), us, clear)
  {
    if us == [] {
      assert ts + us == ts;
    } else {
      assert (ts + us)[..|ts + us| - 1] == ts + us[..|us| - 1];
      RunConcat(s, ts, us[..|us| - 1], clear);
    }
  }

  lemma RunOne(s: State, t: Token, clear: bool)
    ensures Run(s, [t], clear) == Step(s, t, clear)
  {
    assert [t][..0] == [];
  }

  // ----- reading back a rendered log

  /** A line of a block: an expression, or something that is neither a marker nor an expression. */
  datatype Item = Constraint(text: string) | Chatter(line: LogLine)

  datatype Segment =
    | Noise(line: LogLine)
    | Block(src: nat, dest: nat, body: seq<Item>)

  /** The line starts a block. */
  ghost predicate Starts(line: LogLine) {
    line.Decoded? && exists src, dest :: IsStart(line.text, src, dest)
  }

  ghost predicate ItemOk(i: Item) {
    match i
    case Constraint(text) => BeginsWithParenthesis(text)
    case Chatter(line) =>
      line.Decoded? ==> !Starts(line) && !BeginsWithParenthesis(line.text) && line.text != "CRACK-END"
  }

  /** Between blocks anything may stand that does not start one, also stray expressions and END lines. */
  ghost predicate SegmentOk(g: Segment) {
    match g
    case Noise(line) => !Starts(line)
    case Block(_, _, body) => forall i :: 0 <= i < |body| ==> ItemOk(body[i])
  }

  function StartLine(src: nat, dest: nat): string {
    "[STAT] CRACK:" + (Decimal(src) + ("," + Decimal(dest)))
  }

  function RenderItem(i: Item): LogLine {
    match i
    case Constraint(text) => Decoded(text)
    case Chatter(line) => line
  }

  function RenderBody(body: seq<Item>): (lines: seq<LogLine>)
    ensures |lines| == |body|
  {
    seq(|body|, i requires 0 <= i < |body| => RenderItem(body[i]))
  }

  function Render(g: Segment): seq<LogLine> {
    match g
    case Noise(line) => [line]
    case Block(src, dest, body) => [Decoded(StartLine(src, dest))] + RenderBody(body) + [Decoded(END_LINE)]
  }

  function RenderAll(gs: seq<Segment>): seq<LogLine> {
    if gs == [] then [] else RenderAll(gs[..|gs| - 1]) + Render(gs[|gs| - 1])
  }

  function Constraints(body: seq<Item>): seq<string> {
    if body == [] then []
    else Constraints(body[..|body| - 1]) +
         (if body[|body| - 1].Constraint? then [body[|body| - 1].text] else [])
  }

  /** What the log says: one entry for each block. */
  function Entries(gs: seq<Segment>): seq<Entry> {
    if gs == [] then []
    else Entries(gs[..|gs| - 1]) +
         (if gs[|gs| - 1].Block? then [Entry(gs[|gs| - 1].src, Joined(Constraints(gs[|gs| - 1].body)))] else [])
  }

  /** What the parser makes of each line, in terms of its characters. */
  lemma {:induction false} ClassifyIs(line: LogLine)
    ensures Classify(line).Start? <==> Starts(line)
    ensures forall src, dest :: line.Decoded? && IsStart(line.text, src, dest) ==> Classify(line) == Start(Number(src))
    ensures line.Decoded? && BeginsWithParenthesis(line.text) ==> Classify(line) == Expression(line.text)
    ensures Classify(line).End? <==> line == Decoded("CRACK-END")
    ensures Classify(line).Other? <==>
      (line.Decoded? ==> !Starts(line) && !BeginsWithParenthesis(line.text) && line.text != "CRACK-END")
  {
    if line.Decoded? {
      MatchStartIff(line.text);
      MatchExpressionIff(line.text);
      if BeginsWithParenthesis(line.text) { ExpressionIsNoStart(line.text); }
      EndIsEnd();
    }
  }

  lemma MatchStartOfLine(src: nat, dest: nat)
    ensures MatchStart(StartLine(src, dest)) == Some(src)
  {
    var a, b := Decimal(src), Decimal(dest);
    var line, r := StartLine(src, dest), a + ("," + b);
    assert line[13..] == r;
    DigitRunOf(a, "," + b);
    assert r[..|a|] == a && r[|a|] == ',' && r[|a| + 1..] == b;
    NumberOfDecimal(src);
  }

  lemma ExpressionIsNoStart(text: string)
    requires MatchExpression(text)
    ensures Classify(Decoded(text)) == Expression(text)
  {
    var p := "[STAT] CRACK:";
    assert p[0] == '[' && !IsSpace('[');
  }

  lemma EndIsEnd()
    ensures Classify(Decoded(END_LINE)) == End
  {
    var p := "[STAT] CRACK:";
    assert p[0] == '[' && END_LINE[0] == 'C';
  }

  lemma {:induction false} RunBody(s: State, body: seq<Item>, clear: bool)
    requires s.recording && forall i :: 0 <= i < |body| ==> ItemOk(body[i])
    ensures Run(s, Tokens(RenderBody(body)), clear) == s.(pending := s.pending + Constraints(body))
  {
    var ts := Tokens(RenderBody(body));
    if body == [] {
      assert s.pending + [] == s.pending;
    } else {
      var n := |body| - 1;
      assert ts[..n] == Tokens(RenderBody(body[..n]));
      RunBody(s, body[..n], clear);
      assert ItemOk(body[n]);
      ClassifyIs(RenderItem(body[n]));
    }
  }

  lemma TokensConcat(a: seq<LogLine>, b: seq<LogLine>)
    ensures Tokens(a + b) == Tokens(a) + Tokens(b)
  {
    forall i | 0 <= i < |a + b| ensures Tokens(a + b)[i] == (Tokens(a) + Tokens(b))[i] {
      if i < |a| { assert (a + b)[i] == a[i]; } else { assert (a + b)[i] == b[i - |a|]; }
    }
  }

  lemma {:induction false} TokensOne(line: LogLine, t: Token)
    requires Classify(line) == t
    ensures Tokens([line]) == [t]
  {
  }

  lemma {:induction false} StartIsStart(src: nat, dest: nat)
    ensures Tokens([Decoded(StartLine(src, dest))]) == [Start(src)]
  {
    MatchStartOfLine(src, dest);
    TokensOne(Decoded(StartLine(src, dest)), Start(src));
  }

  lemma {:induction false} TokensOfBlock(src: nat, dest: nat, body: seq<Item>)
    ensures Tokens([Decoded(StartLine(src, dest))] + RenderBody(body) + [Decoded(END_LINE)]) ==
      [Start(src)] + Tokens(RenderBody(body)) + [End]
  {
    var first, middle, last := [Decoded(StartLine(src, dest))], RenderBody(body), [Decoded(END_LINE)];
    StartIsStart(src, dest);
    EndIsEnd();
    TokensOne(Decoded(END_LINE), End);
    TokensConcat(first, middle);
    TokensConcat(first + middle, last);
  }

  lemma {:induction false} RunBlock(s: State, src: nat, body: seq<Item>, clear: bool)
    requires !s.recording && s.pending == [] && forall i :: 0 <= i < |body| ==> ItemOk(body[i])
    ensures Run(s, [Start(src)] + Tokens(RenderBody(body)) + [End], clear) ==
      State(s.entries + [Entry(src, Joined(Constraints(body)))], src, false, [])
  {
    var middle := Tokens(RenderBody(body));
    RunConcat(s, [Start(src)] + middle, [End], clear);
    RunConcat(s, [Start(src)], middle, clear);
    RunOne(s, Start(src), clear);
    RunBody(Step(s, Start(src), clear), body, clear);
    assert [] + Constraints(body) == Constraints(body);
    RunOne(Run(s, [Start(src)] + middle, clear), End, clear);
  }

  lemma {:induction false} RunSegment(s: State, g: Segment, clear: bool)
    requires SegmentOk(g) && !s.recording && s.pending == []
    ensures var t := Run(s, Tokens(Render(g)), clear);
      && !t.recording && t.pending == []
      && t.entries == s.entries + if g.Block? then [Entry(g.src, Joined(Constraints(g.body)))] else []
  {
    match g
    case Noise(line) =>
      ClassifyIs(line);
      TokensOne(line, Classify(line));
      RunOne(s, Classify(line), clear);
    case Block(src, dest, body) =>
      TokensOfBlock(src, dest, body);
      RunBlock(s, src, body, clear);
  }

  lemma {:induction false} RunSegments(gs: seq<Segment>, clear: bool)
    requires forall i :: 0 <= i < |gs| ==> SegmentOk(gs[i])
    ensures var t := Run(FRESH, Tokens(RenderAll(gs)), clear);
      !t.recording && t.pending == [] && t.entries == Entries(gs)
  {
    if gs != [] {
      var n := |gs| - 1;
      var init, last := RenderAll(gs[..n]), Render(gs[n]);
      RunSegments(gs[..n], clear);
      TokensConcat(init, last);
      RunConcat(FRESH, Tokens(init), Tokens(last), clear);
      RunSegment(Run(FRESH, Tokens(init), clear), gs[n], clear);
    }
  }

  /** Reading undoes rendering: for any blocks with any noise between and inside them, the parser returns for
      each source the newline-joined expressions of its blocks, in order, and nothing else. */
  lemma {:induction false} ConstraintLogRoundTrip(gs: seq<Segment>)
    requires forall i :: 0 <= i < |gs| ==> SegmentOk(gs[i])
    ensures Group(Run(FRESH, Tokens(RenderAll(gs)), false).entries) == Group(Entries(gs))
  {
    RunSegments(gs, false);
  }

  /** The output as it comes, split into lines of bytes, which are then decoded. */
  function ReadLog(output: string, decode: string -> LogLine): seq<LogLine> {
    var raws := SplitLines(output);
    seq(|raws|, i requires 0 <= i < |raws| => decode(raws[i]))
  }

  /** The same from the output on: for any lines of bytes that are decoded to the lines of the blocks. */
  lemma {:induction false} OutputRoundTrip(gs: seq<Segment>, raws: seq<string>, decode: string -> LogLine)
    requires forall i :: 0 <= i < |gs| ==> SegmentOk(gs[i])
    requires |raws| == |RenderAll(gs)|
    requires forall i :: 0 <= i < |raws| ==> NoLineBreak(raws[i]) && decode(raws[i]) == RenderAll(gs)[i]
    ensures Group(Run(FRESH, Tokens(ReadLog(Unlines(raws), decode)), false).entries) == Group(Entries(gs))
  {
    SplitLinesOfUnlines(raws);
    assert ReadLog(Unlines(raws), decode) == RenderAll(gs);
    ConstraintLogRoundTrip(gs);
  }

  /** What Group returns: for each source, its texts in order. */
  function TextsOf(entries: seq<Entry>, src: nat): seq<string> {
    if entries == [] then []
    else TextsOf(entries[..|entries| - 1], src) +
         (if entries[|entries| - 1].src == src then [entries[|entries| - 1].text] else [])
  }

  lemma {:induction false} GroupMeaning(entries: seq<Entry>, src: nat)
    ensures src in Group(entries) <==> exists i :: 0 <= i < |entries| && entries[i].src == src
    ensures src in Group(entries) ==> Group(entries)[src] == TextsOf(entries, src)
    ensures src !in Group(entries) ==> TextsOf(entries, src) == []
  {
    if entries != [] {
      var n := |entries| - 1;
      GroupMeaning(entries[..n], src);
      if src in Group(entries[..n]) {
        var i :| 0 <= i < n && entries[..n][i].src == src;
        assert entries[i].src == src;
      }
      if i :| 0 <= i < |entries| && entries[i].src == src && i < n {
        assert entries[..n][i].src == src;
      }
    }
  }

  // ----- blocks that are not ended

  /** The last START of ts[..n] that no END follows. */
  predicate OpenAt(ts: seq<Token>, g: int, n: int) {
    0 <= g < n <= |ts| && ts[g].Start? && forall j :: g < j < n ==> !ts[j].End?
  }

  ghost predicate Opened(ts: seq<Token>, n: int) {
    exists g :: OpenAt(ts, g, n)
  }

  /** A block that begins at g has an expression, and before it is ended another block begins. */
  predicate Unfinished(ts: seq<Token>, g: int, h: int, i: int, n: int) {
    g < h < i < n && OpenAt(ts, g, n) && ts[h].Expression? && ts[i].Start?
  }

  ghost predicate Carries(ts: seq<Token>, n: int) {
    exists g, h, i :: Unfinished(ts, g, h, i, n)
  }

  /** ... and some END line follows. */
  ghost predicate Leaks(ts: seq<Token>) {
    exists k :: 0 <= k < |ts| && ts[k].End? && Carries(ts, k)
  }

  /** The open block has an expression. */
  ghost predicate HasPending(ts: seq<Token>, n: int) {
    exists g, h :: OpenAt(ts, g, n) && g < h < n && ts[h].Expression?
  }

  ghost predicate LeaksBefore(ts: seq<Token>, n: nat)
    requires n <= |ts|
  {
    exists k :: 0 <= k < n && ts[k].End? && Carries(ts, k)
  }

  function Sources(entries: seq<Entry>): seq<nat> {
    seq(|entries|, i requires 0 <= i < |entries| => entries[i].src)
  }

  /** The code's run and the run that clears, side by side. */
  ghost predicate Paired(ts: seq<Token>, n: nat, f: State, r: State)
    requires n <= |ts|
  {
    && f.recording == r.recording && f.src == r.src
    && (f.recording <==> Opened(ts, n))
    && (!f.recording ==> f.pending == [])
    && (exists extra :: f.pending == extra + r.pending)
    && (forall i :: 0 <= i < |f.pending| ==> f.pending[i] != "")
    && (f.pending != [] <==> HasPending(ts, n))
    && (f.pending != r.pending <==> Carries(ts, n))
    && Sources(f.entries) == Sources(r.entries)
    && (f.entries != r.entries <==> LeaksBefore(ts, n))
  }

  lemma {:induction false} JoinedGrows(extra: seq<string>, texts: seq<string>)
    requires extra != [] && forall i :: 0 <= i < |extra| ==> extra[i] != ""
    ensures |Joined(extra + texts)| > |Joined(texts)|
    decreases |texts|
  {
    if texts == [] {
      assert extra + texts == extra;
    } else {
      var init := texts[..|texts| - 1];
      assert (extra + texts)[..|extra + texts| - 1] == extra + init;
      JoinedGrows(extra, init);
    }
  }

  lemma StepStart(ts: seq<Token>, n: nat, f: State, r: State)
    requires n < |ts| && Paired(ts, n, f, r) && ts[n].Start?
    ensures Paired(ts, n + 1, Step(f, ts[n], false), Step(r, ts[n], true))
  {
    var m := n + 1;
    assert OpenAt(ts, n, m);
    forall g | g < n ensures OpenAt(ts, g, m) <==> OpenAt(ts, g, n) { }
    if g, h :| OpenAt(ts, g, n) && g < h < n && ts[h].Expression? {
      assert OpenAt(ts, g, m);
      assert Unfinished(ts, g, h, n, m);
    }
    if g, h :| OpenAt(ts, g, m) && g < h < m && ts[h].Expression? {
      assert OpenAt(ts, g, n);
    }
    if g, h, i :| Unfinished(ts, g, h, i, m) {
      assert OpenAt(ts, g, n) && g < h < n;
    }
    assert f.pending == f.pending + [];
    NoEndNoLeak(ts, n);
  }

  lemma NoEndNoLeak(ts: seq<Token>, n: nat)
    requires n < |ts| && !ts[n].End?
    ensures LeaksBefore(ts, n + 1) <==> LeaksBefore(ts, n)
  {
  }

  lemma MarksAfterOther(ts: seq<Token>, n: nat)
    requires n < |ts| && (ts[n].Other? || ts[n].Expression?)
    ensures Opened(ts, n + 1) <==> Opened(ts, n)
    ensures Carries(ts, n + 1) <==> Carries(ts, n)
    ensures HasPending(ts, n + 1) <==> HasPending(ts, n) || (Opened(ts, n) && ts[n].Expression?)
  {
    var m := n + 1;
    forall g ensures OpenAt(ts, g, m) <==> OpenAt(ts, g, n) { }
    forall g, h, i ensures Unfinished(ts, g, h, i, m) <==> Unfinished(ts, g, h, i, n) { }
    if g, h :| OpenAt(ts, g, n) && g < h < n && ts[h].Expression? {
      assert OpenAt(ts, g, m) && h < m;
    }
    if g :| OpenAt(ts, g, n) && ts[n].Expression? {
      assert OpenAt(ts, g, m) && g < n < m;
    }
    if g, h :| OpenAt(ts, g, m) && g < h < m && ts[h].Expression? {
      assert OpenAt(ts, g, n);
    }
  }

  lemma PendingGrows(p: seq<string>, q: seq<string>, text: string)
    requires exists extra :: p == extra + q
    ensures exists extra :: p + [text] == extra + (q + [text])
    ensures p + [text] == q + [text] <==> p == q
  {
    var extra :| p == extra + q;
    assert p + [text] == extra + (q + [text]);
    assert (p + [text])[..|p|] == p && (q + [text])[..|q|] == q;
  }

  lemma StepOther(ts: seq<Token>, n: nat, f: State, r: State)
    requires n < |ts| && Paired(ts, n, f, r) && (ts[n].Other? || ts[n].Expression?)
    requires ts[n].Expression? ==> ts[n].text != ""
    ensures Paired(ts, n + 1, Step(f, ts[n], false), Step(r, ts[n], true))
  {
    MarksAfterOther(ts, n);
    NoEndNoLeak(ts, n);
    if ts[n].Expression? {
      PendingGrows(f.pending, r.pending, ts[n].text);
    }
  }

  lemma StepEnd(ts: seq<Token>, n: nat, f: State, r: State)
    requires n < |ts| && Paired(ts, n, f, r) && ts[n].End?
    ensures Paired(ts, n + 1, Step(f, ts[n], false), Step(r, ts[n], true))
  {
    var m := n + 1;
    forall g ensures !OpenAt(ts, g, m) { if g < n { assert ts[n].End?; } }
    forall g, h, i ensures !Unfinished(ts, g, h, i, m) { assert !OpenAt(ts, g, m); }
    assert LeaksBefore(ts, m) <==> LeaksBefore(ts, n) || Carries(ts, n);
    if f.recording {
      var extra :| f.pending == extra + r.pending;
      if extra != [] {
        forall i | 0 <= i < |extra| ensures extra[i] != "" { assert extra[i] == f.pending[i]; }
        JoinedGrows(extra, r.pending);
      } else {
        assert f.pending == r.pending;
      }
      var e, d := Entry(f.src, Joined(f.pending)), Entry(r.src, Joined(r.pending));
      SameLast(f.entries, e, r.entries, d);
    } else {
      forall g, h, i ensures !Unfinished(ts, g, h, i, n) { assert !OpenAt(ts, g, n); }
    }
    assert [] == [] + Step(r, ts[n], true).pending;
  }

  lemma SameLast(es: seq<Entry>, e: Entry, ds: seq<Entry>, d: Entry)
    requires Sources(es) == Sources(ds) && e.src == d.src
    ensures Sources(es + [e]) == Sources(ds + [d])
    ensures es + [e] == ds + [d] <==> es == ds && e == d
  {
    assert |es| == |Sources(es)| == |ds|;
    forall i | 0 <= i < |es| ensures es[i].src == ds[i].src {
      assert Sources(es)[i] == Sources(ds)[i];
    }
    if es + [e] == ds + [d] {
      assert es == (es + [e])[..|es|] && ds == (ds + [d])[..|ds|];
      assert e == (es + [e])[|es|] && d == (ds + [d])[|ds|];
    }
  }

  lemma {:induction false} StepPaired(ts: seq<Token>, n: nat, f: State, r: State)
    requires n < |ts| && Paired(ts, n, f, r) && (ts[n].Expression? ==> ts[n].text != "")
    ensures Paired(ts, n + 1, Step(f, ts[n], false), Step(r, ts[n], true))
  {
    match ts[n]
    case Start(_) => StepStart(ts, n, f, r);
    case End => StepEnd(ts, n, f, r);
    case _ => StepOther(ts, n, f, r);
  }

  lemma FreshPaired(ts: seq<Token>)
    ensures Paired(ts, 0, FRESH, FRESH)
  {
    assert FRESH.pending == [] + FRESH.pending;
  }

  lemma {:induction false} RunsPaired(ts: seq<Token>, n: nat)
    requires n <= |ts| && forall i :: 0 <= i < |ts| && ts[i].Expression? ==> ts[i].text != ""
    ensures Paired(ts, n, Run(FRESH, ts[..n], false), Run(FRESH, ts[..n], true))
  {
    if n == 0 {
      FreshPaired(ts);
    } else {
      RunsPaired(ts, n - 1);
      RunPrefix(ts, n - 1, false);
      RunPrefix(ts, n - 1, true);
      StepPaired(ts, n - 1, Run(FRESH, ts[..n - 1], false), Run(FRESH, ts[..n - 1], true));
    }
  }

  /** With the same sources in the same order, the dictionary determines the entries. */
  lemma {:induction false} GroupInjective(es: seq<Entry>, ds: seq<Entry>)
    requires Sources(es) == Sources(ds) && Group(es) == Group(ds)
    ensures es == ds
  {
    assert |es| == |Sources(es)| == |ds|;
    if es != [] {
      var n := |es| - 1;
      assert Sources(es)[n] == es[n].src && Sources(ds)[n] == ds[n].src;
      assert Sources(es[..n]) == Sources(es)[..n] && Sources(ds[..n]) == Sources(ds)[..n];
      forall src ensures TextsOf(es, src) == TextsOf(ds, src) {
        GroupMeaning(es, src);
        GroupMeaning(ds, src);
      }
      TextsInjective(es, ds);
    }
  }

  lemma TextsOfLast(es: seq<Entry>, src: nat)
    requires es != []
    ensures var n := |es| - 1;
      TextsOf(es, src) == if es[n].src == src then TextsOf(es[..n], src) + [es[n].text] else TextsOf(es[..n], src)
  {
  }

  lemma {:induction false} TextsInjective(es: seq<Entry>, ds: seq<Entry>)
    requires Sources(es) == Sources(ds) && forall src :: TextsOf(es, src) == TextsOf(ds, src)
    ensures es == ds
  {
    assert |es| == |Sources(es)| == |ds|;
    if es != [] {
      var n := |es| - 1;
      var src := es[n].src;
      assert Sources(es)[n] == src && Sources(ds)[n] == ds[n].src;
      assert Sources(es[..n]) == Sources(es)[..n] && Sources(ds[..n]) == Sources(ds)[..n];
      forall q ensures TextsOf(es[..n], q) == TextsOf(ds[..n], q) {
        TextsOfLast(es, q);
        TextsOfLast(ds, q);
        assert TextsOf(es, q) == TextsOf(ds, q);
        if q == src { LastApart(TextsOf(es[..n], q), es[n].text, TextsOf(ds[..n], q), ds[n].text); }
      }
      TextsOfLast(es, src);
      TextsOfLast(ds, src);
      LastApart(TextsOf(es[..n], src), es[n].text, TextsOf(ds[..n], src), ds[n].text);
      TextsInjective(es[..n], ds[..n]);
      assert es == es[..n] + [es[n]] && ds == ds[..n] + [ds[n]];
    }
  }

  lemma LastApart<T>(xs: seq<T>, x: T, ys: seq<T>, y: T)
    ensures xs + [x] == ys + [y] ==> xs == ys && x == y
  {
    if xs + [x] == ys + [y] {
      assert xs == (xs + [x])[..|xs|] && x == (xs + [x])[|xs|];
      assert ys == (ys + [y])[..|ys|] && y == (ys + [y])[|ys|];
      assert |xs + [x]| == |ys + [y]|;
    }
  }

  /** For every log whatsoever: each returned text holds the expressions of its own block only, if and only if no
      block that already has an expression is interrupted by a START line and followed by an END line. The
      parser does not drop the expressions of an interrupted block, and the next END files them under the new
      block's source. */
  lemma {:induction false} OwnExpressionsIff(lines: seq<LogLine>)
    ensures var ts := Tokens(lines);
      Group(Run(FRESH, ts, false).entries) == Group(Run(FRESH, ts, true).entries) <==> !Leaks(ts)
  {
    var ts := Tokens(lines);
    assert ts[..|ts|] == ts;
    RunsPaired(ts, |ts|);
    var f, r := Run(FRESH, ts, false).entries, Run(FRESH, ts, true).entries;
    if Group(f) == Group(r) { GroupInjective(f, r); }
  }

  /** The log of a block for `first` that is interrupted by one for `second`. */
  function Interrupted(first: nat, x: string, second: nat, y: string): (lines: seq<LogLine>)
    ensures |lines| == 5
  {
    [Decoded(StartLine(first, 0)), Decoded(x), Decoded(StartLine(second, 0)), Decoded(y), Decoded(END_LINE)]
  }

  lemma {:induction false} RunMore(ts: seq<Token>, t: Token, clear: bool)
    ensures Run(FRESH, ts + [t], clear) == Step(Run(FRESH, ts, clear), t, clear)
  {
    assert (ts + [t])[..|ts|] == ts;
  }

  lemma {:induction false} RunInterrupted(first: nat, x: string, second: nat, y: string, clear: bool)
    ensures Run(FRESH, [Start(first)] + [Expression(x)] + [Start(second)] + [Expression(y)] + [End], clear) ==
      State([Entry(second, Joined(if clear then [y] else [x, y]))], second, false, [])
  {
    var ts := [Start(first)];
    RunOne(FRESH, Start(first), clear);
    RunMore(ts, Expression(x), clear);
    RunMore(ts + [Expression(x)], Start(second), clear);
    RunMore(ts + [Expression(x)] + [Start(second)], Expression(y), clear);
    RunMore(ts + [Expression(x)] + [Start(second)] + [Expression(y)], End, clear);
    assert [] + [x] == [x] && [x] + [y] == [x, y] && [] + [y] == [y];
  }

  lemma JoinedTwo(x: string, y: string)
    ensures Joined([x, y]) == x + "\n" + y && Joined([y]) == y
  {
    assert [x, y][..1] == [x];
  }

  lemma GroupOne(e: Entry)
    ensures Group([e]) == map[e.src := [e.text]]
  {
    GroupMore([], e);
    assert [] + [e] == [e] && [] + [e.text] == [e.text];
  }

  lemma {:induction false} TokensOfInterrupted(first: nat, x: string, second: nat, y: string)
    requires BeginsWithParenthesis(x) && BeginsWithParenthesis(y)
    ensures Tokens(Interrupted(first, x, second, y)) ==
      [Start(first)] + [Expression(x)] + [Start(second)] + [Expression(y)] + [End]
  {
    var l1, l2, l3 := [Decoded(StartLine(first, 0))], [Decoded(x)], [Decoded(StartLine(second, 0))];
    var l4, l5 := [Decoded(y)], [Decoded(END_LINE)];
    StartIsStart(first, 0);
    StartIsStart(second, 0);
    ClassifyIs(Decoded(x));
    ClassifyIs(Decoded(y));
    EndIsEnd();
    TokensOne(Decoded(x), Expression(x));
    TokensOne(Decoded(y), Expression(y));
    TokensOne(Decoded(END_LINE), End);
    TokensConcat(l1, l2);
    TokensConcat(l1 + l2, l3);
    TokensConcat(l1 + l2 + l3, l4);
    TokensConcat(l1 + l2 + l3 + l4, l5);
    assert Interrupted(first, x, second, y) == l1 + l2 + l3 + l4 + l5;
  }

  /** There the expression of the first source is returned as a part of the constraint of the second one. */
  lemma {:induction false} LeakedExpression(first: nat, x: string, second: nat, y: string)
    requires BeginsWithParenthesis(x) && BeginsWithParenthesis(y)
    ensures var ts := Tokens(Interrupted(first, x, second, y));
      && Group(Run(FRESH, ts, false).entries) == map[second := [x + "\n" + y]]
      && Group(Run(FRESH, ts, true).entries) == map[second := [y]]
  {
    TokensOfInterrupted(first, x, second, y);
    RunInterrupted(first, x, second, y, false);
    RunInterrupted(first, x, second, y, true);
    JoinedTwo(x, y);
    GroupOne(Entry(second, x + "\n" + y));
    GroupOne(Entry(second, y));
  }

  /** Two blocks, the first with two lines, as they are logged and as they are returned. */
  lemma {:induction false} DumpExample(a: string, b: string, src: string, dest: string, src': string, dest': string,
                                       x: string, y: string, z: string)
    requires IsStart(a, src, dest) && IsStart(b, src', dest')
    requires BeginsWithParenthesis(x) && BeginsWithParenthesis(y) && BeginsWithParenthesis(z)
    ensures var lines := [Decoded(a)] + [Decoded(x)] + [Decoded(y)] + [Decoded("CRACK-END")] +
        [Decoded(b)] + [Decoded(z)] + [Decoded("CRACK-END")];
      Group(Run(FRESH, Tokens(lines), false).entries) ==
        if Number(src) == Number(src') then map[Number(src) := [x + "\n" + y, z]]
        else map[Number(src) := [x + "\n" + y], Number(src') := [z]]
  {
    ClassifyIs(Decoded(a));
    ClassifyIs(Decoded(b));
    ClassifyIs(Decoded(x));
    ClassifyIs(Decoded(y));
    ClassifyIs(Decoded(z));
    ClassifyIs(Decoded("CRACK-END"));
    TokensOfSeven(Decoded(a), Decoded(x), Decoded(y), Decoded("CRACK-END"), Decoded(b), Decoded(z), Decoded("CRACK-END"));
    RunOfSeven(Number(src), x, y, Number(src'), z);
    TwoEntries(Entry(Number(src), x + "\n" + y), Entry(Number(src'), z));
  }

  lemma {:induction false} TokensOfSeven(
      a: LogLine, b: LogLine, c: LogLine, d: LogLine, e: LogLine, f: LogLine, g: LogLine)
    ensures Tokens([a] + [b] + [c] + [d] + [e] + [f] + [g]) ==
      [Classify(a)] + [Classify(b)] + [Classify(c)] + [Classify(d)] + [Classify(e)] + [Classify(f)] + [Classify(g)]
  {
  }

  lemma {:induction false} RunOfSeven(src: nat, x: string, y: string, src': nat, z: string)
    ensures Run(FRESH, [Start(src)] + [Expression(x)] + [Expression(y)] + [End] + [Start(src')] + [Expression(z)] + [End],
                false).entries == [Entry(src, x + "\n" + y)] + [Entry(src', z)]
  {
    var t3 := [Start(src)] + [Expression(x)] + [Expression(y)];
    RunOne(FRESH, Start(src), false);
    RunMore([Start(src)], Expression(x), false);
    RunMore([Start(src)] + [Expression(x)], Expression(y), false);
    assert [] + [x] == [x] && [x] + [y] == [x, y] && [] + [z] == [z];
    RunMore(t3, End, false);
    RunMore(t3 + [End], Start(src'), false);
    RunMore(t3 + [End] + [Start(src')], Expression(z), false);
    RunMore(t3 + [End] + [Start(src')] + [Expression(z)], End, false);
    JoinedTwo(x, y);
    JoinedTwo(x, z);
    assert [] + [Entry(src, x + "\n" + y)] == [Entry(src, x + "\n" + y)];
  }

  lemma TwoEntries(d: Entry, e: Entry)
    ensures Group([d] + [e]) ==
      if d.src == e.src then map[d.src := [d.text, e.text]] else map[d.src := [d.text], e.src := [e.text]]
  {
    GroupOne(d);
    GroupMore([d], e);
    assert [d.text] + [e.text] == [d.text, e.text];
    assert [] + [e.text] == [e.text];
  }
}
