/** The trace language: the runtime that prints one line per executed branch or switch (trace/trace-rt.o.c), and
    the tracer that reads the lines back into the execution tree (src/fuzz/trace.py). */
module TraceLog {
  import opened Options
  import opened Text
  import opened Condition

  /** One executed terminator. `taken` tells, case by case, whether the switch value equals the case value. */
  datatype Event =
    | Branch(src: nat, succTrue: nat, succFalse: nat, condition: string, outcome: bool)
    | Switch(width: nat, src: nat, defaultLoc: nat, taken: seq<bool>, locs: seq<nat>)

  predicate WellFormed(e: Event) {
    match e
    case Branch(_, _, _, condition, _) => NoLineBreak(condition)
    case Switch(_, _, _, taken, locs) => |taken| == |locs|
  }

  function TailText(src: nat, dest: nat): string {
    "): " + (Decimal(src) + ("," + Decimal(dest)))
  }

  function LineText(condition: string, src: nat, dest: nat): string {
    "[*] (" + (condition + TailText(src, dest))
  }

  /** __log_branch: what is read back from the line is a branch with this outcome and condition, and the edge from
      src to the successor of the outcome. */
  method LogBranch(src: nat, succTrue: nat, succFalse: nat, condition: string, outcome: bool) returns (line: string)
    ensures NoLineBreak(condition) ==> line == Line(Branch(src, succTrue, succFalse, condition, outcome))
    ensures var dest := if outcome then succTrue else succFalse;
      ParseLine(line) == Some(Parsed(BranchText(outcome, condition), src, dest))
    ensures ParseCondition(BranchText(outcome, condition)) ==
      BrCond(outcome, EdgeType(condition), CondWidth(condition))
  {
    ParseBranchText(outcome, condition);
    ParseLineOfText(BranchText(outcome, condition), src, if outcome then succTrue else succFalse);
    if outcome {
      line := LineText("Br_true_" + condition, src, succTrue);
    } else {
      line := LineText("Br_false_" + condition, src, succFalse);
    }
  }

  /** The case that the search of __log_switch stops at. */
  function FirstTaken(taken: seq<bool>): Option<nat>
    ensures FirstTaken(taken).Some? ==> FirstTaken(taken).value < |taken|
  {
    if taken == [] then None
    else if taken[0] then Some(0)
    else
      var k := FirstTaken(taken[1..]);
      if k.Some? then Some(k.value + 1) else None
  }

  /** The block that control really goes to. */
  function Destination(e: Event): nat
    requires WellFormed(e)
  {
    match e
    case Branch(_, t, f, _, outcome) => if outcome then t else f
    case Switch(_, _, defaultLoc, taken, locs) =>
      var k := FirstTaken(taken);
      if k.Some? then locs[k.value] else defaultLoc
  }

  /** The block that is printed: an id of 0 stands for "no case" in the search. */
  function PrintedDestination(e: Event): nat
    requires WellFormed(e)
  {
    if e.Switch? && Destination(e) == 0 then e.defaultLoc else Destination(e)
  }

  /** The search of __log_switch. */
  method SearchCase(defaultLoc: nat, taken: seq<bool>, locs: seq<nat>) returns (dest: nat)
    requires |taken| == |locs|
    ensures var k := FirstTaken(taken);
      dest == if k.Some? && locs[k.value] != 0 then locs[k.value] else defaultLoc
  {
    dest := 0;
    var idx := 0;
    while idx < |taken| && !taken[idx]
      invariant idx <= |taken|
      invariant FirstTaken(taken) ==
        var k := FirstTaken(taken[idx..]); if k.Some? then Some(idx + k.value) else None
    {
      idx := idx + 1;
    }
    if idx < |taken| { dest := locs[idx]; }
    if dest == 0 { dest := defaultLoc; }
  }

  /** __log_switch: what is read back from the line is a switch of this width and number of cases, and the edge from
      src to the printed destination. */
  method LogSwitch(width: nat, src: nat, defaultLoc: nat, taken: seq<bool>, locs: seq<nat>) returns (line: string)
    requires |taken| == |locs|
    ensures line == Line(Switch(width, src, defaultLoc, taken, locs))
    ensures var dest := PrintedDestination(Switch(width, src, defaultLoc, taken, locs));
      ParseLine(line) == Some(Parsed(SwitchText(width, |locs|), src, dest))
    ensures ParseCondition(SwitchText(width, |locs|)) == SwitchCond(|locs|, Some(width))
  {
    ReadSwitch(Switch(width, src, defaultLoc, taken, locs));
    var dest := SearchCase(defaultLoc, taken, locs);
    line := LineText(SwitchText(width, |locs|), src, dest);
  }

  /** The printed destination is the real one exactly when the taken case's block id is not 0, or the default's
      id is 0 as well. Ids are drawn from 0..65535, so that a case block can get the id 0. */
  lemma PrintedDestinationRightIff(e: Event)
    requires WellFormed(e)
    ensures PrintedDestination(e) == Destination(e) <==>
      (e.Branch? || FirstTaken(e.taken).None? || e.locs[FirstTaken(e.taken).value] != 0 || e.defaultLoc == 0)
  {
  }

  /** In terms of what the compiler pass fixed: whatever is taken, a switch prints the block that control goes to, iff
      no case block has the id 0, or the default has it too. */
  lemma {:induction false} SwitchAlwaysRightIff(width: nat, src: nat, defaultLoc: nat, locs: seq<nat>)
    ensures (forall taken: seq<bool> :: |taken| == |locs| ==>
              var e := Switch(width, src, defaultLoc, taken, locs); PrintedDestination(e) == Destination(e)) <==>
      defaultLoc == 0 || 0 !in locs
  {
    if i :| 0 <= i < |locs| && locs[i] == 0 {
      var taken := OnlyTaken(|locs|, i);
      OnlyTakenFirst(|locs|, i);
      var e := Switch(width, src, defaultLoc, taken, locs);
      assert Destination(e) == 0 && PrintedDestination(e) == defaultLoc;
    }
    forall taken: seq<bool> | |taken| == |locs| && (defaultLoc == 0 || 0 !in locs)
      ensures var e := Switch(width, src, defaultLoc, taken, locs); PrintedDestination(e) == Destination(e)
    {
      var k := FirstTaken(taken);
      if k.Some? { assert locs[k.value] in locs; }
    }
  }

  /** Of n cases, the i-th is taken. */
  function OnlyTaken(n: nat, i: nat): (taken: seq<bool>)
    ensures |taken| == n
  {
    seq(n, j => j == i)
  }

  lemma {:induction false} OnlyTakenFirst(n: nat, i: nat)
    requires i < n
    ensures FirstTaken(OnlyTaken(n, i)) == Some(i)
  {
    var taken := OnlyTaken(n, i);
    if i > 0 {
      assert taken[1..] == OnlyTaken(n - 1, i - 1);
      OnlyTakenFirst(n - 1, i - 1);
    }
  }

  /** It can be wrong: the only case, whose block has the id 0, is taken, and the default's id is printed. */
  lemma {:induction false} WrongDestination(width: nat, src: nat, defaultLoc: nat, e: Event)
    requires defaultLoc != 0 && e == Switch(width, src, defaultLoc, [true], [0])
    ensures Destination(e) == 0
    ensures ParseLine(Line(e)) == Some(Parsed(SwitchText(width, 1), src, defaultLoc))
  {
    assert FirstTaken(e.taken) == Some(0);
    ReadSwitch(e);
  }

  function ConditionText(e: Event): string
    requires WellFormed(e)
  {
    match e
    case Branch(_, _, _, condition, outcome) => BranchText(outcome, condition)
    case Switch(width, _, _, _, locs) => SwitchText(width, |locs|)
  }

  function Line(e: Event): string
    requires WellFormed(e)
  {
    LineText(ConditionText(e), e.src, PrintedDestination(e))
  }

  lemma {:induction false} ReadSwitch(e: Event)
    requires WellFormed(e) && e.Switch?
    ensures ParseLine(Line(e)) == Some(Parsed(SwitchText(e.width, |e.locs|), e.src, PrintedDestination(e)))
    ensures ParseCondition(SwitchText(e.width, |e.locs|)) == SwitchCond(|e.locs|, Some(e.width))
  {
    ParseSwitchText(e.width, |e.locs|);
    ParseLineOfText(SwitchText(e.width, |e.locs|), e.src, PrintedDestination(e));
  }

  // ----- reading a line

  datatype Parsed = Parsed(condition: string, src: nat, dest: nat)

  /** `(\d+),(\d+)` at the start of r. */
  function NumberPair(r: string): Option<(nat, nat)> {
    var k := DigitRun(r);
    if k == 0 || k == |r| || r[k] != ',' then None
    else
      var q := r[k + 1..];
      var m := DigitRun(q);
      if m == 0 then None else Some((Number(r[..k]), Number(q[..m])))
  }

  /** `\): (\d+),(\d+).*$` at the start of s. */
  function Tail(s: string): Option<(nat, nat)> {
    if "): " <= s then NumberPair(s[3..]) else None
  }

  /** The greedy `.*` in front of the tail: the last position where the tail matches. */
  function LastTail(s: string): (e: Option<nat>)
    ensures e.Some? ==> e.value <= |s| && Tail(s[e.value..]).Some?
  {
    if s == "" then None
    else
      var e := LastTail(s[1..]);
      if e.Some? then
        assert s[1..][e.value..] == s[e.value + 1..];
        Some(e.value + 1)
      else if Tail(s).Some? then Some(0)
      else None
  }

  /** `^\[\*]\s\(` */
  predicate HasHeader(line: string) {
    |line| >= 5 && line[0] == '[' && line[1] == '*' && line[2] == ']' && IsSpace(line[3]) && line[4] == '('
  }

  /** `(.*)\): (\d+),(\d+).*$` */
  function ParseRest(rest: string): Option<Parsed> {
    var e := LastTail(rest);
    if e.None? then None
    else
      var t := Tail(rest[e.value..]).value;
      Some(Parsed(rest[..e.value], t.0, t.1))
  }

  /** reg_trace.match, on a line without line breaks. */
  function ParseLine(line: string): Option<Parsed> {
    if HasHeader(line) then ParseRest(line[5..]) else None
  }

  lemma {:induction false} NoTailWithout(s: string)
    requires ')' !in s
    ensures LastTail(s) == None
  {
    if s != "" {
      var p := "): ";
      assert p[0] == ')';
      NoTailWithout(s[1..]);
    }
  }

  lemma {:induction false} NumberPairOf(src: nat, dest: nat)
    ensures NumberPair(Decimal(src) + ("," + Decimal(dest))) == Some((src, dest))
  {
    var a, b := Decimal(src), Decimal(dest);
    var r := a + ("," + b);
    DigitRunOf(a, "," + b);
    assert r[..|a|] == a && r[|a|] == ',' && r[|a| + 1..] == b;
    DigitRunOf(b, "");
    assert b + "" == b && b[..|b|] == b;
    NumberOfDecimal(src);
    NumberOfDecimal(dest);
  }

  lemma {:induction false} TailOf(src: nat, dest: nat)
    ensures Tail(TailText(src, dest)) == Some((src, dest))
    ensures LastTail(TailText(src, dest)) == Some(0)
  {
    var r := Decimal(src) + ("," + Decimal(dest));
    var t := TailText(src, dest);
    assert t[3..] == r && t[1..] == ": " + r;
    NumberPairOf(src, dest);
    DecimalHasOnlyDigits(src, ')');
    DecimalHasOnlyDigits(dest, ')');
    NoTailWithout(": " + r);
  }

  lemma {:induction false} LastTailBehind(c: string, t: string)
    requires LastTail(t) == Some(0) && t != ""
    ensures LastTail(c + t) == Some(|c|)
  {
    var s := c + t;
    if c == "" {
      assert s == t;
    } else {
      assert s[1..] == c[1..] + t;
      LastTailBehind(c[1..], t);
    }
  }

  lemma {:induction false} ParseRestOf(condition: string, src: nat, dest: nat)
    ensures ParseRest(condition + TailText(src, dest)) == Some(Parsed(condition, src, dest))
  {
    var t := TailText(src, dest);
    TailOf(src, dest);
    LastTailBehind(condition, t);
    assert (condition + t)[|condition|..] == t && (condition + t)[..|condition|] == condition;
  }

  lemma HeaderOf(rest: string)
    ensures var line := "[*] (" + rest; HasHeader(line) && line[5..] == rest
  {
    var header := "[*] (";
    var line := header + rest;
    assert header[0] == '[' && header[1] == '*' && header[2] == ']' && header[3] == ' ' && header[4] == '(';
    assert line[0] == header[0] && line[1] == header[1] && line[2] == header[2];
    assert line[3] == header[3] && line[4] == header[4];
    assert IsSpace(' ');
  }

  /** Reading undoes printing, for every condition text: the greedy match stops at the last "): ", which is the
      one that was printed behind the condition, whatever the condition contains. */
  lemma ParseLineOfText(condition: string, src: nat, dest: nat)
    ensures ParseLine(LineText(condition, src, dest)) == Some(Parsed(condition, src, dest))
  {
    HeaderOf(condition + TailText(src, dest));
    ParseRestOf(condition, src, dest);
  }

  /** No tail begins behind the position that the greedy match stops at, and none at all if it fails. */
  lemma {:induction false} LastTailIsLast(s: string, k: nat)
    requires k <= |s| && (LastTail(s).Some? ==> k > LastTail(s).value)
    ensures Tail(s[k..]) == None
  {
    if k == |s| {
      assert s[k..] == "";
    } else if k == 0 {
      assert s[0..] == s;
    } else {
      assert s[1..][k - 1..] == s[k..];
      LastTailIsLast(s[1..], k - 1);
    }
  }

  lemma {:induction false} NoTailBehind(line: string, k: nat)
    requires 5 <= k <= |line| && (LastTail(line[5..]).Some? ==> k - 5 > LastTail(line[5..]).value)
    ensures Tail(line[k..]) == None
  {
    assert line[k..] == line[5..][k - 5..];
    LastTailIsLast(line[5..], k - 5);
  }

  /** A line is read exactly if it has a header and, somewhere behind it, a tail. */
  lemma {:induction false} ParsedLineIff(line: string)
    ensures ParseLine(line).Some? <==> HasHeader(line) && exists k :: 5 <= k <= |line| && Tail(line[k..]).Some?
  {
    if HasHeader(line) {
      var e := LastTail(line[5..]);
      if e.Some? {
        assert line[5 + e.value..] == line[5..][e.value..];
      } else {
        forall k | 5 <= k <= |line| ensures Tail(line[k..]) == None { NoTailBehind(line, k); }
      }
    }
  }

  /** What is read is the text in front of the last tail, and the numbers of that tail; nothing is made up. */
  lemma {:induction false} ParsedLineShape(line: string)
    requires ParseLine(line).Some?
    ensures var p := ParseLine(line).value;
      && HasHeader(line)
      && p.condition <= line[5..]
      && Tail(line[5..][|p.condition|..]) == Some((p.src, p.dest))
      && forall k :: 5 + |p.condition| < k <= |line| ==> Tail(line[k..]) == None
  {
    var e := LastTail(line[5..]).value;
    forall k | 5 + e < k <= |line| ensures Tail(line[k..]) == None { NoTailBehind(line, k); }
  }

  lemma {:induction false} LineHasNoBreak(e: Event)
    requires WellFormed(e)
    ensures NoLineBreak(Line(e))
  {
    forall c | c == '\n' || c == '\r' ensures c !in Line(e) {
      DecimalHasOnlyDigits(e.src, c);
      DecimalHasOnlyDigits(PrintedDestination(e), c);
      if e.Switch? {
        DecimalHasOnlyDigits(e.width, c);
        DecimalHasOnlyDigits(|e.locs|, c);
        assert c !in SwitchText(e.width, |e.locs|);
      } else {
        assert c !in BranchText(e.outcome, e.condition);
      }
      assert c !in TailText(e.src, PrintedDestination(e));
    }
  }

  function Lines(es: seq<Event>): (lines: seq<string>)
    requires forall i :: 0 <= i < |es| ==> WellFormed(es[i])
    ensures |lines| == |es|
  {
    seq(|es|, i requires 0 <= i < |es| => Line(es[i]))
  }

  /** The whole trace of a run: splitting the printed text and reading each line recovers every event's
      condition, source and printed destination. */
  lemma {:induction false} TraceRoundTrip(es: seq<Event>, i: nat)
    requires forall j :: 0 <= j < |es| ==> WellFormed(es[j])
    requires i < |es|
    ensures var lines := SplitLines(Unlines(Lines(es)));
      |lines| == |es| && ParseLine(lines[i]) == Some(Parsed(ConditionText(es[i]), es[i].src, PrintedDestination(es[i])))
  {
    forall j | 0 <= j < |es| ensures NoLineBreak(Lines(es)[j]) { LineHasNoBreak(es[j]); }
    SplitLinesOfUnlines(Lines(es));
    ParseLineOfText(ConditionText(es[i]), es[i].src, PrintedDestination(es[i]));
  }

  /** The lines of a branch. */
  lemma LineTexts(src: nat, s: nat, t: nat, c: string)
    requires NoLineBreak(c)
    ensures Line(Branch(src, s, t, c, true)) == "[*] (" + ("Br_true_" + c) + "): " + Decimal(src) + "," + Decimal(s)
    ensures Line(Branch(src, s, t, c, false)) == "[*] (" + ("Br_false_" + c) + "): " + Decimal(src) + "," + Decimal(t)
  {
    LineIs("Br_true_" + c, src, s);
    LineIs("Br_false_" + c, src, t);
  }

  lemma LineIs(condition: string, src: nat, dest: nat)
    ensures LineText(condition, src, dest) == "[*] (" + condition + "): " + Decimal(src) + "," + Decimal(dest)
  {
    var a, b, c, d := "[*] (" + condition, "): ", Decimal(src), "," + Decimal(dest);
    assert "[*] (" + (condition + (b + (c + d))) == a + (b + (c + d));
    assert a + (b + (c + d)) == ((a + b) + c) + d;
    assert ((a + b) + c) + ("," + Decimal(dest)) == (((a + b) + c) + ",") + Decimal(dest);
  }

  /** A switch with two cases goes to the first one that is taken, or to the default. */
  lemma TwoCases(width: nat, src: nat, s: nat, t: nat, u: nat, first: bool, second: bool)
    ensures Destination(Switch(width, src, u, [first, second], [s, t])) == if first then s else if second then t else u
  {
    assert [first, second][1..] == [second] && [second][1..] == [];
    assert FirstTaken([]) == None;
    assert FirstTaken([second]) == if second then Some(0) else None;
  }

  // ----- the tail, in characters

  /** "): ", the source, a comma, the destination with all its digits, and anything. */
  predicate IsTail(s: string, src: string, dest: string, rest: string) {
    && src != "" && dest != "" && AllDigits(src) && AllDigits(dest) && (rest == "" || !IsDigit(rest[0]))
    && s == "): " + (src + ("," + (dest + rest)))
  }

  lemma {:induction false} PairIs(r: string) returns (src: string, dest: string, rest: string)
    ensures NumberPair(r).Some? ==>
      && src != "" && dest != "" && AllDigits(src) && AllDigits(dest) && (rest == "" || !IsDigit(rest[0]))
      && r == src + ("," + (dest + rest)) && NumberPair(r) == Some((Number(src), Number(dest)))
  {
    src, dest, rest := "", "", "";
    if NumberPair(r).Some? {
      var k := DigitRun(r);
      var q := r[k + 1..];
      var m := DigitRun(q);
      src, dest, rest := r[..k], q[..m], q[m..];
      assert q == dest + rest;
      assert r == src + ("," + q);
    }
  }

  lemma {:induction false} TailIs(s: string) returns (src: string, dest: string, rest: string)
    ensures Tail(s).Some? ==> IsTail(s, src, dest, rest) && Tail(s) == Some((Number(src), Number(dest)))
  {
    src, dest, rest := "", "", "";
    if Tail(s).Some? {
      src, dest, rest := PairIs(s[3..]);
      assert s == "): " + s[3..];
    }
  }

  lemma {:induction false} IsTailIsRead(s: string, src: string, dest: string, rest: string)
    requires IsTail(s, src, dest, rest)
    ensures Tail(s) == Some((Number(src), Number(dest)))
  {
    var q := dest + rest;
    var r := src + ("," + q);
    assert s[3..] == r;
    DigitRunOf(src, "," + q);
    assert r[..|src|] == src && r[|src|] == ',' && r[|src| + 1..] == q;
    DigitRunOf(dest, rest);
    assert q[..|dest|] == dest;
  }

  lemma HeaderIs(line: string)
    ensures HasHeader(line) <==> |line| >= 5 && line[..3] == "[*]" && IsSpace(line[3]) && line[4] == '('
  {
    if |line| >= 5 { assert line[..3] == [line[0], line[1], line[2]]; }
  }
}
