/** Branch conditions: the printer of the compiler pass (trace/trace-pass.so.cc:67-157) and the text searches
    by which src/fuzz/condition.py reads its output back. */
module Condition {
  import opened Options
  import opened Text

  /** The conditions that the printer tells apart. A compare has a width if its operands are integers. */
  datatype Cond =
    | ICmp(pred: nat, width: Option<nat>, left: Cond, right: Cond)
    | FCmp(pred: nat)
    | Phi(incoming: Incoming)
    | Call(callee: Option<string>)
    | Or(left: Cond, right: Cond)
    | And(left: Cond, right: Cond)
    | Xor(left: Cond, right: Cond)
    | OtherInstruction
    | Constant(zero: bool)
    | Unidentified

  /** The incoming blocks of a phi node; a block outside the id table is skipped by the printer. */
  datatype Incoming = NoMore | Block(id: Option<nat>, value: Cond, rest: Incoming)

  predicate IsStrcmp(c: Cond) {
    c.Call? && c.callee.Some? && c.callee.value in ["strcmp", "strncmp", "memcmp"]
  }

  predicate ComparesStrings(c: Cond)
    requires c.ICmp?
  {
    IsStrcmp(c.left) || IsStrcmp(c.right)
  }

  /** getBrCond */
  function Print(c: Cond): string
  {
    match c
    case ICmp(pred, width, l, r) =>
      if ComparesStrings(c) then "icmp" + ("_" + (Print(l) + ("_" + Print(r))))
      else "icmp" + ("_" + PrintCompare(pred, width))
    case FCmp(pred) => "fcmp" + ("_" + PrintCompare(pred, None))
    case Phi(incoming) => "phi@" + PrintIncoming(incoming)
    case Call(callee) => "call@" + (if callee.Some? then callee.value else "")
    case Or(l, r) => Print(l) + (" || " + Print(r))
    case And(l, r) => Print(l) + (" && " + Print(r))
    case Xor(l, r) => Print(l) + (" ^ " + Print(r))
    case OtherInstruction => "constInst"
    case Constant(zero) => if zero then "0" else "1"
    case Unidentified => "none"
  }

  function PrintCompare(pred: nat, width: Option<nat>): string {
    "pred@" + Decimal(pred) + (if width.Some? then "_i" + Decimal(width.value) + "" else "")
  }

  function PrintIncoming(incoming: Incoming): string
  {
    match incoming
    case NoMore => ""
    case Block(id, value, rest) =>
      if id.None? then PrintIncoming(rest)
      else ("(" + Decimal(id.value) + ",") + (Print(value) + (")" + PrintIncoming(rest)))
  }

  /** The texts, for conditions of every kind. */
  lemma PrintedCompare(pred: nat, w: nat, l: Cond, r: Cond)
    requires !IsStrcmp(l) && !IsStrcmp(r)
    ensures Print(ICmp(pred, Some(w), l, r)) == "icmp_pred@" + (Decimal(pred) + ("_i" + Decimal(w)))
    ensures Print(ICmp(pred, None, l, r)) == "icmp_pred@" + Decimal(pred)
    ensures Print(FCmp(pred)) == "fcmp_pred@" + Decimal(pred)
  {
    CompareText("icmp", "icmp_pred@", pred, Some(w));
    CompareText("icmp", "icmp_pred@", pred, None);
    CompareText("fcmp", "fcmp_pred@", pred, None);
  }

  lemma CompareText(name: string, front: string, pred: nat, width: Option<nat>)
    requires front == (name + "_") + "pred@"
    ensures name + ("_" + PrintCompare(pred, width)) ==
      front + (Decimal(pred) + if width.Some? then "_i" + Decimal(width.value) else "")
  {
    var w := if width.Some? then "_i" + Decimal(width.value) else "";
    assert PrintCompare(pred, width) == "pred@" + (Decimal(pred) + w);
    Glue(name, "_", PrintCompare(pred, width));
    Glue(name + "_", "pred@", Decimal(pred) + w);
  }

  lemma Glue(a: string, b: string, c: string)
    ensures a + (b + c) == (a + b) + c
  {
  }

  lemma PrintedStringCompare(pred: nat, width: Option<nat>, l: Cond, r: Cond)
    requires IsStrcmp(l) || IsStrcmp(r)
    ensures Print(ICmp(pred, width, l, r)) == "icmp_" + (Print(l) + ("_" + Print(r)))
  {
    Glue("icmp", "_", Print(l) + ("_" + Print(r)));
  }

  lemma PrintedInfix(l: Cond, r: Cond)
    ensures Print(Or(l, r)) == Print(l) + (" || " + Print(r))
    ensures Print(And(l, r)) == Print(l) + (" && " + Print(r))
    ensures Print(Xor(l, r)) == Print(l) + (" ^ " + Print(r))
  {
  }

  lemma PrintedOthers(name: string)
    ensures Print(Call(Some(name))) == "call@" + name && Print(Call(None)) == "call@"
    ensures Print(Constant(true)) == "0" && Print(Constant(false)) == "1"
    ensures Print(OtherInstruction) == "constInst" && Print(Unidentified) == "none"
  {
  }

  /** Incoming blocks in their order, without the unknown ones. */
  lemma PrintedPhi(id: nat, c: Cond, skipped: Cond, id': nat, d: Cond)
    ensures Print(Phi(Block(Some(id), c, Block(None, skipped, Block(Some(id'), d, NoMore))))) ==
      "phi@" + (("(" + Decimal(id) + "," + Print(c) + ")") + ("(" + Decimal(id') + "," + Print(d) + ")"))
  {
    var last := Block(Some(id'), d, NoMore);
    PrintedBlock(id', d, NoMore);
    PrintedBlock(id, c, Block(None, skipped, last));
    assert ("(" + Decimal(id') + "," + Print(d) + ")") + "" == "(" + Decimal(id') + "," + Print(d) + ")";
    assert PrintIncoming(Block(None, skipped, last)) == PrintIncoming(last);
  }

  lemma PrintedBlock(id: nat, c: Cond, rest: Incoming)
    ensures PrintIncoming(Block(Some(id), c, rest)) == ("(" + Decimal(id) + "," + Print(c) + ")") + PrintIncoming(rest)
  {
    Glue("(" + Decimal(id) + ",", Print(c), ")" + PrintIncoming(rest));
    Glue(("(" + Decimal(id) + ",") + Print(c), ")", PrintIncoming(rest));
  }

  /** A place in the printed text where one of the number searches can stop. */
  datatype Mark = Mark(pred: Option<nat>, width: Option<nat>)

  /** The marks of a printed condition, from left to right: its compares and, if `names`, whatever the names of
      its callees look like to the searches. The operands of a compare are printed only when one of them is a
      string comparison, and then the compare's own predicate is not. */
  function Marks(c: Cond, names: bool): seq<Mark>
  {
    match c
    case ICmp(pred, width, l, r) =>
      if ComparesStrings(c) then Marks(l, names) + Marks(r, names) else [Mark(Some(pred), width)]
    case FCmp(pred) => [Mark(Some(pred), None)]
    case Phi(incoming) => IncomingMarks(incoming, names)
    case Call(callee) =>
      if names && callee.Some? then [Mark(NumberAfter("pred@", callee.value), NumberAfter("_i", callee.value))] else []
    case Or(l, r) => Marks(l, names) + Marks(r, names)
    case And(l, r) => Marks(l, names) + Marks(r, names)
    case Xor(l, r) => Marks(l, names) + Marks(r, names)
    case _ => []
  }

  function IncomingMarks(incoming: Incoming, names: bool): seq<Mark>
  {
    match incoming
    case NoMore => []
    case Block(id, value, rest) => (if id.None? then [] else Marks(value, names)) + IncomingMarks(rest, names)
  }

  /** The leftmost compares of a condition. */
  function Compares(c: Cond): seq<Mark> { Marks(c, false) }

  function FirstPred(ms: seq<Mark>): Option<nat> {
    if ms == [] then None else if ms[0].pred.Some? then ms[0].pred else FirstPred(ms[1..])
  }

  function FirstWidth(ms: seq<Mark>): Option<nat> {
    if ms == [] then None else if ms[0].width.Some? then ms[0].width else FirstWidth(ms[1..])
  }

  /** The word `tag` is printed somewhere in c: as a node of that kind, or inside a callee's name. */
  predicate Mentions(c: Cond, tag: string)
  {
    match c
    case ICmp(_, _, l, r) => ComparesStrings(c) && (Mentions(l, tag) || Mentions(r, tag))
    case FCmp(_) => false
    case Phi(incoming) => tag == "phi" || IncomingMentions(incoming, tag)
    case Call(callee) => tag == "call@" || (callee.Some? && Contains(callee.value, tag))
    case Or(l, r) => Mentions(l, tag) || Mentions(r, tag)
    case And(l, r) => Mentions(l, tag) || Mentions(r, tag)
    case Xor(l, r) => Mentions(l, tag) || Mentions(r, tag)
    case OtherInstruction => tag == "constInst"
    case Constant(_) => false
    case Unidentified => false
  }

  predicate IncomingMentions(incoming: Incoming, tag: string)
  {
    match incoming
    case NoMore => false
    case Block(id, value, rest) => (id.Some? && Mentions(value, tag)) || IncomingMentions(rest, tag)
  }

  /** Nothing in the name looks like a predicate or a width to the number searches. */
  predicate CleanName(name: string) {
    NumberAfter("pred@", name).None? && NumberAfter("_i", name).None?
  }

  predicate Clean(c: Cond)
  {
    match c
    case ICmp(_, _, l, r) => Clean(l) && Clean(r)
    case Phi(incoming) => CleanIncoming(incoming)
    case Call(callee) => callee.Some? ==> CleanName(callee.value)
    case Or(l, r) => Clean(l) && Clean(r)
    case And(l, r) => Clean(l) && Clean(r)
    case Xor(l, r) => Clean(l) && Clean(r)
    case _ => true
  }

  predicate CleanIncoming(incoming: Incoming)
  {
    match incoming
    case NoMore => true
    case Block(_, value, rest) => Clean(value) && CleanIncoming(rest)
  }

  // ----- the parser

  /** The tags of BrCond.edge_enum, in order, with their codes. */
  const EDGE_ENUM: seq<(string, nat)> :=
    [("strcmp", 42), ("strncmp", 43), ("memcmp", 44), ("phi", 45), ("call@", 46), ("constInst", 47)]

  /** __parse_edge_type. For the text of a condition it is the predicate of the leftmost compare, else the code of the
      first tag that the condition mentions, else 0. */
  method ParseEdgeType(condition: string) returns (edgeType: nat)
    ensures edgeType == EdgeType(condition)
    ensures forall c: Cond :: condition == Print(c) ==>
      var pred := FirstPred(Marks(c, true));
      edgeType ==
        if pred.Some? then pred.value
        else if Mentions(c, "strcmp") then 42
        else if Mentions(c, "strncmp") then 43
        else if Mentions(c, "memcmp") then 44
        else if Mentions(c, "phi") then 45
        else if Mentions(c, "call@") then 46
        else if Mentions(c, "constInst") then 47
        else 0
  {
    forall c: Cond | condition == Print(c)
      ensures EdgeType(condition) ==
        var pred := FirstPred(Marks(c, true));
        if pred.Some? then pred.value else FirstTag(EDGE_ENUM, tag => Mentions(c, tag))
    {
      EdgeTypeOfMarks(c);
      EnumNumbers(tag => Mentions(c, tag));
    }
    var pred := NumberAfter("pred@", condition);
    if pred.Some? { return pred.value; }
    edgeType := TagSearch(condition);
  }

  /** The code of the first tag of the list that the condition contains, else 0. */
  method TagSearch(condition: string) returns (edgeType: nat)
    ensures edgeType == FirstTag(EDGE_ENUM, tag => Contains(condition, tag))
    ensures edgeType ==
      if Contains(condition, "strcmp") then 42
      else if Contains(condition, "strncmp") then 43
      else if Contains(condition, "memcmp") then 44
      else if Contains(condition, "phi") then 45
      else if Contains(condition, "call@") then 46
      else if Contains(condition, "constInst") then 47
      else 0
  {
    EnumNumbers(tag => Contains(condition, tag));
    ghost var found := tag => Contains(condition, tag);
    for i := 0 to |EDGE_ENUM|
      invariant FirstTag(EDGE_ENUM, found) == FirstTag(EDGE_ENUM[i..], found)
    {
      if Contains(condition, EDGE_ENUM[i].0) {
        return EDGE_ENUM[i].1;
      }
    }
    edgeType := 0;
  }

  function FirstTag(tags: seq<(string, nat)>, holds: string -> bool): nat {
    if tags == [] then 0 else if holds(tags[0].0) then tags[0].1 else FirstTag(tags[1..], holds)
  }

  /** The codes, and which tag comes before which. */
  lemma {:induction false} EnumNumbers(holds: string -> bool)
    ensures FirstTag(EDGE_ENUM, holds) ==
      if holds("strcmp") then 42
      else if holds("strncmp") then 43
      else if holds("memcmp") then 44
      else if holds("phi") then 45
      else if holds("call@") then 46
      else if holds("constInst") then 47
      else 0
  {
    assert EDGE_ENUM[1..][1..] == EDGE_ENUM[2..] && EDGE_ENUM[2..][1..] == EDGE_ENUM[3..];
    assert EDGE_ENUM[3..][1..] == EDGE_ENUM[4..] && EDGE_ENUM[4..][1..] == EDGE_ENUM[5..];
    assert EDGE_ENUM[5..][1..] == [];
  }

  /** BrCond.__parse_edge_type */
  function EdgeType(condition: string): nat {
    match NumberAfter("pred@", condition)
    case Some(n) => n
    case None => FirstTag(EDGE_ENUM, tag => Contains(condition, tag))
  }

  /** BrCond.__parse_cond_width, before the logarithm. */
  function CondWidth(condition: string): Option<nat> {
    NumberAfter("_i", condition)
  }

  // ----- the searches recover the tree

  lemma DecimalHasOnlyDigits(n: nat, c: char)
    requires !IsDigit(c)
    ensures c !in Decimal(n)
  {
  }

  lemma SearchCompare(pred: nat, width: Option<nat>)
    ensures NumberAfter("pred@", PrintCompare(pred, width)) == Some(pred)
    ensures NumberAfter("_i", PrintCompare(pred, width)) == width
  {
    var d := Decimal(pred);
    var w := if width.Some? then "_i" + Decimal(width.value) + "" else "";
    NumberAfterHere("pred@", pred, w);
    NumberAfterConcat("_i", "pred@" + d, w);
    NumberAfterMissing("_i", "pred@" + d, '_');
    if width.Some? {
      NumberAfterHere("_i", width.value, "");
    }
  }

  /** A text that does not continue an underscore to a width. */
  predicate StartsApart(t: string) {
    t != "" && (t[0] == 'i' ==> |t| > 1 && !IsDigit(t[1]))
  }

  /** An underscore in front of such a text changes neither search. */
  lemma AfterUnderscore(t: string)
    requires StartsApart(t)
    ensures NumberAfter("pred@", "_" + t) == NumberAfter("pred@", t)
    ensures NumberAfter("_i", "_" + t) == NumberAfter("_i", t)
  {
    var s := "_" + t;
    var w := "_i";
    assert s[1..] == t && s[1] == t[0] && w[1] == 'i';
    if |t| > 1 { assert s[2] == t[1]; }
    assert !MatchesHere(w, s);
    assert NumberAfter(w, s) == NumberAfter(w, s[1..]);
    var p := "pred@";
    assert p[0] == 'p';
    assert !MatchesHere(p, s);
    assert NumberAfter(p, s) == NumberAfter(p, s[1..]);
  }

  predicate Separated(t: string) {
    t == "" || t[0] in "_), |&^("
  }

  function OrElse(a: Option<nat>, b: Option<nat>): Option<nat> {
    if a.Some? then a else b
  }

  /** Both searches go on past a piece that a separator follows. */
  lemma SearchPast(s: string, t: string)
    requires Separated(t)
    ensures NumberAfter("pred@", s + t) == OrElse(NumberAfter("pred@", s), NumberAfter("pred@", t))
    ensures NumberAfter("_i", s + t) == OrElse(NumberAfter("_i", s), NumberAfter("_i", t))
  {
    NumberAfterConcat("pred@", s, t);
    NumberAfterConcat("_i", s, t);
  }

  /** Both searches skip punctuation and block ids. */
  lemma SkipPunctuation(s: string, t: string)
    requires s != "" && s[|s| - 1] in "), " && '@' !in s && 'i' !in s
    ensures NumberAfter("pred@", s + t) == NumberAfter("pred@", t)
    ensures NumberAfter("_i", s + t) == NumberAfter("_i", t)
  {
    NumberAfterConcat("pred@", s, t);
    NumberAfterConcat("_i", s, t);
    NumberAfterMissing("pred@", s, '@');
    NumberAfterMissing("_i", s, 'i');
  }

  lemma {:induction false} FirstOfConcat(a: seq<Mark>, b: seq<Mark>)
    ensures FirstPred(a + b) == OrElse(FirstPred(a), FirstPred(b))
    ensures FirstWidth(a + b) == OrElse(FirstWidth(a), FirstWidth(b))
  {
    if a == [] {
      assert a + b == b;
    } else {
      assert (a + b)[1..] == a[1..] + b;
      FirstOfConcat(a[1..], b);
    }
  }

  /** "icmp_" or "fcmp_" in front of a text. */
  lemma SearchNamed(name: string, t: string)
    requires name == "icmp" || name == "fcmp"
    requires StartsApart(t)
    ensures NumberAfter("pred@", name + ("_" + t)) == NumberAfter("pred@", t)
    ensures NumberAfter("_i", name + ("_" + t)) == NumberAfter("_i", t)
    ensures StartsApart(name + ("_" + t))
  {
    SearchPast(name, "_" + t);
    NumberAfterMissing("pred@", name, '@');
    NumberAfterMissing("_i", name, '_');
    AfterUnderscore(t);
  }

  /** Two printed conditions around an infix operator. */
  lemma SearchInfix(s: string, op: string, t: string, a: seq<Mark>, b: seq<Mark>)
    requires op in [" || ", " && ", " ^ "]
    requires NumberAfter("pred@", s) == FirstPred(a) && NumberAfter("_i", s) == FirstWidth(a)
    requires NumberAfter("pred@", t) == FirstPred(b) && NumberAfter("_i", t) == FirstWidth(b)
    requires StartsApart(s)
    ensures NumberAfter("pred@", s + (op + t)) == FirstPred(a + b)
    ensures NumberAfter("_i", s + (op + t)) == FirstWidth(a + b)
    ensures StartsApart(s + (op + t))
  {
    SearchPast(s, op + t);
    SkipPunctuation(op, t);
    FirstOfConcat(a, b);
  }

  /** Conditions without a condition inside. */
  predicate IsLeaf(c: Cond) {
    match c
    case ICmp(_, _, _, _) => !ComparesStrings(c)
    case Phi(_) => false
    case Or(_, _) => false
    case And(_, _) => false
    case Xor(_, _) => false
    case _ => true
  }

  lemma {:induction false} LeafSearches(c: Cond)
    requires IsLeaf(c)
    ensures NumberAfter("pred@", Print(c)) == FirstPred(Marks(c, true))
    ensures NumberAfter("_i", Print(c)) == FirstWidth(Marks(c, true))
    ensures StartsApart(Print(c))
  {
    match c
    case ICmp(pred, width, _, _) =>
      SearchCompare(pred, width);
      SearchNamed("icmp", PrintCompare(pred, width));
      assert FirstWidth([Mark(Some(pred), width)]) == width;
    case FCmp(pred) =>
      SearchCompare(pred, None);
      SearchNamed("fcmp", PrintCompare(pred, None));
    case Call(callee) =>
      var name := if callee.Some? then callee.value else "";
      NumberAfterSkip("pred@", "call@", name);
      NumberAfterSkip("_i", "call@", name);
      assert callee.Some? ==> Marks(c, true)[1..] == [];
    case OtherInstruction =>
      NumberAfterMissing("pred@", "constInst", '@');
      NumberAfterMissing("_i", "constInst", '_');
    case Constant(zero) =>
      NumberAfterMissing("pred@", Print(c), '@');
      NumberAfterMissing("_i", Print(c), '_');
    case Unidentified =>
      NumberAfterMissing("pred@", "none", '@');
      NumberAfterMissing("_i", "none", '_');
  }

  lemma {:induction false} SearchPair(l: string, r: string, a: seq<Mark>, b: seq<Mark>)
    requires NumberAfter("pred@", l) == FirstPred(a) && NumberAfter("pred@", r) == FirstPred(b)
    requires NumberAfter("_i", l) == FirstWidth(a) && NumberAfter("_i", r) == FirstWidth(b)
    requires StartsApart(l) && StartsApart(r)
    ensures var text := "icmp" + ("_" + (l + ("_" + r)));
      && NumberAfter("pred@", text) == FirstPred(a + b) && NumberAfter("_i", text) == FirstWidth(a + b)
      && StartsApart(text)
  {
    SearchPast(l, "_" + r);
    AfterUnderscore(r);
    FirstOfConcat(a, b);
    SearchNamed("icmp", l + ("_" + r));
  }

  /** For every condition, with any callee names, each search finds the leftmost mark of its kind. */
  lemma {:induction false} SearchesFindLeftmost(c: Cond)
    ensures NumberAfter("pred@", Print(c)) == FirstPred(Marks(c, true))
    ensures NumberAfter("_i", Print(c)) == FirstWidth(Marks(c, true))
    ensures StartsApart(Print(c))
    decreases c
  {
    if IsLeaf(c) {
      LeafSearches(c);
    } else {
      match c
      case ICmp(pred, width, l, r) =>
        SearchesFindLeftmost(l);
        SearchesFindLeftmost(r);
        SearchPair(Print(l), Print(r), Marks(l, true), Marks(r, true));
      case Phi(incoming) =>
        IncomingSearchesFindLeftmost(incoming);
        SearchPast("phi@", PrintIncoming(incoming));
        NumberAfterMissing("pred@", "phi@", 'r');
        NumberAfterMissing("_i", "phi@", '_');
      case Or(l, r) =>
        SearchesFindLeftmost(l);
        SearchesFindLeftmost(r);
        SearchInfix(Print(l), " || ", Print(r), Marks(l, true), Marks(r, true));
      case And(l, r) =>
        SearchesFindLeftmost(l);
        SearchesFindLeftmost(r);
        SearchInfix(Print(l), " && ", Print(r), Marks(l, true), Marks(r, true));
      case Xor(l, r) =>
        SearchesFindLeftmost(l);
        SearchesFindLeftmost(r);
        SearchInfix(Print(l), " ^ ", Print(r), Marks(l, true), Marks(r, true));
    }
  }

  lemma {:induction false} IncomingSearchesFindLeftmost(incoming: Incoming)
    ensures NumberAfter("pred@", PrintIncoming(incoming)) == FirstPred(IncomingMarks(incoming, true))
    ensures NumberAfter("_i", PrintIncoming(incoming)) == FirstWidth(IncomingMarks(incoming, true))
    ensures Separated(PrintIncoming(incoming))
    decreases incoming
  {
    match incoming
    case NoMore =>
    case Block(id, value, rest) =>
      IncomingSearchesFindLeftmost(rest);
      if id.None? {
        assert IncomingMarks(incoming, true) == IncomingMarks(rest, true);
      } else {
        SearchesFindLeftmost(value);
        var tail := ")" + PrintIncoming(rest);
        SkipPunctuation("(" + Decimal(id.value) + ",", Print(value) + tail);
        SearchPast(Print(value), tail);
        SkipPunctuation(")", PrintIncoming(rest));
        FirstOfConcat(Marks(value, true), IncomingMarks(rest, true));
      }
  }

  predicate IsTag(tag: string) {
    tag in ["strcmp", "strncmp", "memcmp", "phi", "call@", "constInst"]
  }

  /** A piece in front of a text that begins with a separator, or behind one that ends with one. */
  lemma TagAcross(s: string, t: string, tag: string)
    requires IsTag(tag)
    requires Separated(t) || (s != "" && s[|s| - 1] in "_, )")
    ensures Contains(s + t, tag) <==> Contains(s, tag) || Contains(t, tag)
  {
    ContainsConcat(s, t, tag);
  }

  /** A character of the tag that is neither punctuation nor a digit nor in a printed predicate. */
  function TellTale(tag: string): (c: char)
    requires IsTag(tag)
    ensures c in tag && !IsDigit(c) && c !in "pred@_i(),)|&^ "
  {
    if tag == "strcmp" then assert tag[0] == 's'; 's'
    else if tag == "strncmp" then assert tag[0] == 's'; 's'
    else if tag == "memcmp" then assert tag[0] == 'm'; 'm'
    else if tag == "phi" then assert tag[1] == 'h'; 'h'
    else assert tag[0] == 'c'; 'c'
  }

  /** Predicates, numbers and punctuation contain no tag. */
  lemma NoTag(s: string, tag: string)
    requires IsTag(tag) && forall c :: c in s ==> IsDigit(c) || c in "pred@_i(),)|&^ "
    ensures !Contains(s, tag)
  {
    ContainsMissing(s, tag, TellTale(tag));
  }

  lemma LiteralTag(s: string, tag: string)
    requires IsTag(tag) && s in ["icmp", "fcmp", "none", "phi@", "call@", "constInst"]
    ensures Contains(s, tag) <==>
      (s == "phi@" && tag == "phi") || (s == "call@" && tag == "call@") || (s == "constInst" && tag == "constInst")
  {
    if tag == "phi" {
      if s != "phi@" { ContainsMissing(s, tag, 'h'); }
    } else if tag == "call@" {
      if s != "call@" { ContainsMissing(s, tag, 'a'); }
    } else if s != "constInst" {
      ContainsShort(s, tag);
    } else if tag != "constInst" {
      ContainsMissing(s, tag, 'm');
    }
  }

  lemma {:induction false} TagInCompare(name: string, pred: nat, width: Option<nat>, tag: string)
    requires IsTag(tag) && name in ["icmp", "fcmp"]
    ensures !Contains(name + ("_" + PrintCompare(pred, width)), tag)
  {
    LiteralTag(name, tag);
    NoTag("_", tag);
    NoTag(PrintCompare(pred, width), tag);
    TagAcross("_", PrintCompare(pred, width), tag);
    TagAcross(name, "_" + PrintCompare(pred, width), tag);
  }

  lemma {:induction false} TagInPair(l: string, r: string, tag: string)
    requires IsTag(tag)
    ensures Contains("icmp" + ("_" + (l + ("_" + r))), tag) <==> Contains(l, tag) || Contains(r, tag)
  {
    LiteralTag("icmp", tag);
    NoTag("_", tag);
    TagAcross("_", r, tag);
    TagAcross(l, "_" + r, tag);
    TagAcross("_", l + ("_" + r), tag);
    TagAcross("icmp", "_" + (l + ("_" + r)), tag);
  }

  lemma {:induction false} ContainsIffMentions(c: Cond, tag: string)
    requires IsTag(tag)
    ensures Contains(Print(c), tag) <==> Mentions(c, tag)
    decreases c
  {
    match c
    case ICmp(pred, width, l, r) =>
      if ComparesStrings(c) {
        ContainsIffMentions(l, tag);
        ContainsIffMentions(r, tag);
        TagInPair(Print(l), Print(r), tag);
      } else {
        TagInCompare("icmp", pred, width, tag);
      }
    case FCmp(pred) => TagInCompare("fcmp", pred, None, tag);
    case Phi(incoming) =>
      LiteralTag("phi@", tag);
      IncomingSearchesFindLeftmost(incoming);
      IncomingContainsIffMentions(incoming, tag);
      TagAcross("phi@", PrintIncoming(incoming), tag);
    case Call(callee) =>
      var name := if callee.Some? then callee.value else "";
      LiteralTag("call@", tag);
      if tag == "call@" {
        assert tag <= "call@" + name;
      } else {
        ContainsConcat("call@", name, tag);
        if callee.None? { ContainsShort(name, tag); }
      }
    case Or(l, r) =>
      ContainsIffMentions(l, tag);
      ContainsIffMentions(r, tag);
      TagAroundInfix(Print(l), " || ", Print(r), tag);
    case And(l, r) =>
      ContainsIffMentions(l, tag);
      ContainsIffMentions(r, tag);
      TagAroundInfix(Print(l), " && ", Print(r), tag);
    case Xor(l, r) =>
      ContainsIffMentions(l, tag);
      ContainsIffMentions(r, tag);
      TagAroundInfix(Print(l), " ^ ", Print(r), tag);
    case OtherInstruction => LiteralTag("constInst", tag);
    case Constant(zero) => ContainsShort(Print(c), tag);
    case Unidentified => LiteralTag("none", tag);
  }

  lemma TagAroundInfix(s: string, op: string, t: string, tag: string)
    requires op in [" || ", " && ", " ^ "] && IsTag(tag)
    ensures Contains(s + (op + t), tag) <==> Contains(s, tag) || Contains(t, tag)
  {
    NoTag(op, tag);
    TagAcross(op, t, tag);
    TagAcross(s, op + t, tag);
  }

  lemma {:induction false} IncomingContainsIffMentions(incoming: Incoming, tag: string)
    requires IsTag(tag)
    ensures Contains(PrintIncoming(incoming), tag) <==> IncomingMentions(incoming, tag)
    decreases incoming
  {
    match incoming
    case NoMore => ContainsShort("", tag);
    case Block(id, value, rest) =>
      IncomingContainsIffMentions(rest, tag);
      if id.Some? {
        ContainsIffMentions(value, tag);
        var tail := ")" + PrintIncoming(rest);
        var head := "(" + Decimal(id.value) + ",";
        NoTag(head, tag);
        NoTag(")", tag);
        TagAcross(")", PrintIncoming(rest), tag);
        TagAcross(Print(value), tail, tag);
        TagAcross(head, Print(value) + tail, tag);
      }
  }

  lemma {:induction false} FirstTagSame(tags: seq<(string, nat)>, f: string -> bool, g: string -> bool)
    requires forall i :: 0 <= i < |tags| ==> f(tags[i].0) == g(tags[i].0)
    ensures FirstTag(tags, f) == FirstTag(tags, g)
  {
    if tags != [] {
      assert f(tags[0].0) == g(tags[0].0);
      forall i | 0 <= i < |tags[1..]| ensures f(tags[1..][i].0) == g(tags[1..][i].0) {
        assert tags[1..][i] == tags[i + 1];
      }
      FirstTagSame(tags[1..], f, g);
    }
  }

  /** For every condition: the edge type of the printed text is the leftmost mark's predicate, else the code of
      the first tag in priority order that the condition mentions, else 0; its width is the leftmost width. */
  lemma EdgeTypeOfMarks(c: Cond)
    ensures EdgeType(Print(c)) ==
      var pred := FirstPred(Marks(c, true));
      if pred.Some? then pred.value else FirstTag(EDGE_ENUM, tag => Mentions(c, tag))
    ensures CondWidth(Print(c)) == FirstWidth(Marks(c, true))
  {
    SearchesFindLeftmost(c);
    var f, g := (tag: string) => Contains(Print(c), tag), (tag: string) => Mentions(c, tag);
    forall i | 0 <= i < |EDGE_ENUM| ensures f(EDGE_ENUM[i].0) == g(EDGE_ENUM[i].0) {
      ContainsIffMentions(c, EDGE_ENUM[i].0);
    }
    FirstTagSame(EDGE_ENUM, f, g);
    FirstTagSame(EDGE_ENUM, f, tag => Contains(Print(c), tag));
    FirstTagSame(EDGE_ENUM, g, tag => Mentions(c, tag));
  }

  /** The same with the codes: without a predicate, what the condition mentions decides. */
  lemma {:induction false} EdgeTypeNumbers(c: Cond)
    requires FirstPred(Marks(c, true)).None?
    ensures EdgeType(Print(c)) ==
      if Mentions(c, "strcmp") then 42
      else if Mentions(c, "strncmp") then 43
      else if Mentions(c, "memcmp") then 44
      else if Mentions(c, "phi") then 45
      else if Mentions(c, "call@") then 46
      else if Mentions(c, "constInst") then 47
      else 0
  {
    EdgeTypeOfMarks(c);
    EnumNumbers(tag => Mentions(c, tag));
  }

  /** A compare of a call with something that is no condition itself. */
  predicate ComparesCall(c: Cond, name: string, other: Cond) {
    && c.ICmp? && ((c.left == Call(Some(name)) && c.right == other) || (c.left == other && c.right == Call(Some(name))))
    && (other.Constant? || other.OtherInstruction?)
  }

  /** A compare with the result of strcmp, strncmp or memcmp has the function's code. */
  lemma {:induction false} StringCompareNumber(c: Cond, name: string, other: Cond)
    requires ComparesCall(c, name, other) && name in ["strcmp", "strncmp", "memcmp"]
    ensures EdgeType(Print(c)) == if name == "strcmp" then 42 else if name == "strncmp" then 43 else 44
  {
    StringCompareMarks(c, name, other);
    EdgeTypeNumbers(c);
    StringCompareMentions(c, name, other, "strcmp");
    StringCompareMentions(c, name, other, "strncmp");
    StringCompareMentions(c, name, other, "memcmp");
    NameContains(name);
  }

  lemma {:induction false} StringCompareMentions(c: Cond, name: string, other: Cond, tag: string)
    requires ComparesCall(c, name, other) && name in ["strcmp", "strncmp", "memcmp"]
    requires tag in ["strcmp", "strncmp", "memcmp"]
    ensures Mentions(c, tag) <==> Contains(name, tag)
  {
    assert tag != "call@" && tag != "constInst";
  }

  lemma {:induction false} NameContains(name: string)
    requires name in ["strcmp", "strncmp", "memcmp"]
    ensures Contains(name, "strcmp") <==> name == "strcmp"
    ensures name == "strncmp" ==> Contains(name, "strncmp")
    ensures name == "memcmp" ==> !Contains(name, "strncmp") && Contains(name, "memcmp")
  {
    if name == "strcmp" {
      assert "strcmp" <= name;
    } else if name == "strncmp" {
      StrcmpNotInStrncmp();
      assert "strncmp" <= name;
    } else {
      ContainsMissing("memcmp", "strcmp", TellTale("strcmp"));
      ContainsMissing("memcmp", "strncmp", TellTale("strncmp"));
      assert "memcmp" <= name;
    }
  }

  lemma {:induction false} StringCompareMarks(c: Cond, name: string, other: Cond)
    requires ComparesCall(c, name, other) && name in ["strcmp", "strncmp", "memcmp"]
    ensures FirstPred(Marks(c, true)).None?
  {
    if name == "strcmp" {
      NumberAfterMissing("pred@", "strcmp", '@');
    } else if name == "strncmp" {
      NumberAfterMissing("pred@", "strncmp", '@');
    } else {
      NumberAfterMissing("pred@", "memcmp", '@');
    }
    var m := Mark(NumberAfter("pred@", name), NumberAfter("_i", name));
    assert Marks(Call(Some(name)), true) == [m] && Marks(other, true) == [];
    assert Marks(c, true) == [m];
    FirstOfOne(m);
  }

  lemma StrcmpNotInStrncmp()
    ensures !Contains("strncmp", "strcmp")
  {
    var s, t := "strncmp", "strcmp";
    assert s[3] == 'n' && t[3] == 'c';
    assert !(t <= s);
    assert s[1..] == "trncmp" && s[1..][0] == 't';
    ContainsShort(s[1..][1..], t);
  }

  lemma {:induction false} CleanMarks(c: Cond)
    requires Clean(c)
    ensures FirstPred(Marks(c, true)) == FirstPred(Compares(c))
    ensures FirstWidth(Marks(c, true)) == FirstWidth(Compares(c))
    decreases c, 1
  {
    match c
    case Phi(incoming) => CleanIncomingMarks(incoming);
    case Call(callee) => assert callee.Some? ==> Marks(c, true)[1..] == [];
    case ICmp(_, _, l, r) =>
      if ComparesStrings(c) { CleanPair(c, l, r); }
    case Or(l, r) => CleanPair(c, l, r);
    case And(l, r) => CleanPair(c, l, r);
    case Xor(l, r) => CleanPair(c, l, r);
    case _ =>
  }

  lemma {:induction false} CleanPair(c: Cond, l: Cond, r: Cond)
    requires l < c && r < c && Clean(l) && Clean(r)
    ensures FirstPred(Marks(l, true) + Marks(r, true)) == FirstPred(Compares(l) + Compares(r))
    ensures FirstWidth(Marks(l, true) + Marks(r, true)) == FirstWidth(Compares(l) + Compares(r))
    decreases c, 0
  {
    CleanMarks(l);
    CleanMarks(r);
    FirstOfConcat(Marks(l, true), Marks(r, true));
    FirstOfConcat(Compares(l), Compares(r));
  }

  lemma {:induction false} CleanIncomingMarks(incoming: Incoming)
    requires CleanIncoming(incoming)
    ensures FirstPred(IncomingMarks(incoming, true)) == FirstPred(IncomingMarks(incoming, false))
    ensures FirstWidth(IncomingMarks(incoming, true)) == FirstWidth(IncomingMarks(incoming, false))
    decreases incoming
  {
    match incoming
    case NoMore =>
    case Block(id, value, rest) =>
      CleanIncomingMarks(rest);
      if id.Some? {
        CleanMarks(value);
        FirstOfConcat(Marks(value, true), IncomingMarks(rest, true));
        FirstOfConcat(Compares(value), IncomingMarks(rest, false));
      } else {
        assert IncomingMarks(incoming, true) == IncomingMarks(rest, true);
        assert IncomingMarks(incoming, false) == IncomingMarks(rest, false);
      }
  }

  /** The searches refine the tree, for callee names without markers: the edge type is the predicate of the
      leftmost compare, and the width that of the leftmost integer compare. */
  lemma EdgeTypeOfTree(c: Cond)
    requires Clean(c)
    ensures EdgeType(Print(c)) ==
      var pred := FirstPred(Compares(c));
      if pred.Some? then pred.value else FirstTag(EDGE_ENUM, tag => Mentions(c, tag))
    ensures CondWidth(Print(c)) == FirstWidth(Compares(c))
  {
    EdgeTypeOfMarks(c);
    CleanMarks(c);
    FirstTagSame(EDGE_ENUM, tag => Mentions(c, tag), tag => Mentions(c, tag));
  }

  // ----- when the searches are misled

  /** What a search meets first: a number of a compare, or one in a callee's name. */
  datatype Leading = Nothing | OfCompare(n: nat) | OfName(n: nat)

  function Before(f: Leading, g: Leading): Leading { if f.Nothing? then g else f }

  function LeadingName(callee: Option<string>, width: bool): Leading {
    if callee.None? then Nothing
    else
      var n := if width then NumberAfter("_i", callee.value) else NumberAfter("pred@", callee.value);
      if n.Some? then OfName(n.value) else Nothing
  }

  /** From left to right, the first width of the condition; or else its first predicate. */
  function LeadingOf(c: Cond, width: bool): Leading
  {
    match c
    case ICmp(pred, w, l, r) =>
      if ComparesStrings(c) then Before(LeadingOf(l, width), LeadingOf(r, width))
      else if !width then OfCompare(pred)
      else if w.Some? then OfCompare(w.value)
      else Nothing
    case FCmp(pred) => if width then Nothing else OfCompare(pred)
    case Phi(incoming) => LeadingIncoming(incoming, width)
    case Call(callee) => LeadingName(callee, width)
    case Or(l, r) => Before(LeadingOf(l, width), LeadingOf(r, width))
    case And(l, r) => Before(LeadingOf(l, width), LeadingOf(r, width))
    case Xor(l, r) => Before(LeadingOf(l, width), LeadingOf(r, width))
    case _ => Nothing
  }

  function LeadingIncoming(incoming: Incoming, width: bool): Leading
  {
    match incoming
    case NoMore => Nothing
    case Block(id, value, rest) =>
      Before(if id.None? then Nothing else LeadingOf(value, width), LeadingIncoming(rest, width))
  }

  function FirstOf(ms: seq<Mark>, width: bool): Option<nat> {
    if width then FirstWidth(ms) else FirstPred(ms)
  }

  /** What is found with the callees' names, and what the compares alone have. */
  predicate Accounts(f: Leading, found: seq<Mark>, compares: seq<Mark>, width: bool) {
    match f
    case Nothing => FirstOf(found, width).None? && FirstOf(compares, width).None?
    case OfCompare(n) => FirstOf(found, width) == FirstOf(compares, width) == Some(n)
    case OfName(n) => FirstOf(found, width) == Some(n)
  }

  lemma {:induction false} AccountsForBoth(
      f: Leading, found: seq<Mark>, compares: seq<Mark>, g: Leading, found': seq<Mark>, compares': seq<Mark>, width: bool)
    requires Accounts(f, found, compares, width) && Accounts(g, found', compares', width)
    ensures Accounts(Before(f, g), found + found', compares + compares', width)
  {
    FirstOfConcat(found, found');
    FirstOfConcat(compares, compares');
  }

  lemma {:induction false} LeadingLeaf(c: Cond, width: bool)
    requires IsLeaf(c)
    ensures Accounts(LeadingOf(c, width), Marks(c, true), Compares(c), width)
  {
    match c
    case ICmp(pred, w, _, _) => FirstOfOne(Mark(Some(pred), w));
    case FCmp(pred) => FirstOfOne(Mark(Some(pred), None));
    case Call(Some(name)) => FirstOfOne(Mark(NumberAfter("pred@", name), NumberAfter("_i", name)));
    case _ =>
  }

  lemma FirstOfOne(m: Mark)
    ensures FirstPred([m]) == m.pred && FirstWidth([m]) == m.width
  {
    assert [m][1..] == [];
  }

  lemma {:induction false} LeadingAccounts(c: Cond, width: bool)
    ensures Accounts(LeadingOf(c, width), Marks(c, true), Compares(c), width)
    decreases c, 1
  {
    if IsLeaf(c) {
      LeadingLeaf(c, width);
    } else {
      match c
      case ICmp(_, _, l, r) => LeadingPair(c, l, r, width);
      case Phi(incoming) => LeadingIncomingAccounts(incoming, width);
      case Or(l, r) => LeadingPair(c, l, r, width);
      case And(l, r) => LeadingPair(c, l, r, width);
      case Xor(l, r) => LeadingPair(c, l, r, width);
    }
  }

  lemma {:induction false} LeadingPair(c: Cond, l: Cond, r: Cond, width: bool)
    requires l < c && r < c
    ensures Accounts(Before(LeadingOf(l, width), LeadingOf(r, width)),
      Marks(l, true) + Marks(r, true), Compares(l) + Compares(r), width)
    decreases c, 0
  {
    LeadingAccounts(l, width);
    LeadingAccounts(r, width);
    AccountsForBoth(LeadingOf(l, width), Marks(l, true), Compares(l),
                    LeadingOf(r, width), Marks(r, true), Compares(r), width);
  }

  lemma {:induction false} LeadingIncomingAccounts(incoming: Incoming, width: bool)
    ensures Accounts(LeadingIncoming(incoming, width), IncomingMarks(incoming, true), IncomingMarks(incoming, false), width)
    decreases incoming
  {
    if incoming.Block? {
      var value, rest := incoming.value, incoming.rest;
      LeadingIncomingAccounts(rest, width);
      if incoming.id.None? {
        assert IncomingMarks(incoming, true) == IncomingMarks(rest, true);
        assert IncomingMarks(incoming, false) == IncomingMarks(rest, false);
      } else {
        LeadingAccounts(value, width);
        AccountsForBoth(LeadingOf(value, width), Marks(value, true), Compares(value),
                        LeadingIncoming(rest, width), IncomingMarks(rest, true), IncomingMarks(rest, false), width);
      }
    }
  }

  /** For every condition: the width read is that of the leftmost integer compare iff no callee's name gives one
      before the first of them, or it happens to be the same. */
  lemma {:induction false} WidthRightIff(c: Cond)
    ensures CondWidth(Print(c)) == FirstWidth(Compares(c)) <==>
      var first := LeadingOf(c, true);
      !first.OfName? || FirstWidth(Compares(c)) == Some(first.n)
  {
    SearchesFindLeftmost(c);
    LeadingAccounts(c, true);
  }

  /** What the edge type should be: the predicate of the leftmost compare, else the first tag mentioned. */
  function IntendedType(c: Cond): nat {
    var pred := FirstPred(Compares(c));
    if pred.Some? then pred.value else FirstTag(EDGE_ENUM, tag => Mentions(c, tag))
  }

  /** And it is so for the edge type. */
  lemma {:induction false} TypeRightIff(c: Cond)
    ensures EdgeType(Print(c)) == IntendedType(c) <==>
      var first := LeadingOf(c, false);
      !first.OfName? || IntendedType(c) == first.n
  {
    EdgeTypeOfMarks(c);
    LeadingAccounts(c, false);
    FirstTagSame(EDGE_ENUM, tag => Mentions(c, tag), tag => Mentions(c, tag));
  }

  /** A call without a comparison is given a width exactly when its callee's name continues "_i" with a digit. */
  lemma CallWidthIff(name: string)
    ensures Compares(Call(Some(name))) == []
    ensures CondWidth(Print(Call(Some(name)))).Some? <==> NumberAfter("_i", name).Some?
    ensures CondWidth(Print(Call(Some("get" + ("_i" + Decimal(32) + ""))))) == Some(32)
  {
    SearchesFindLeftmost(Call(Some(name)));
    assert Marks(Call(Some(name)), true)[1..] == [];
    var bad := "get" + ("_i" + Decimal(32) + "");
    SearchesFindLeftmost(Call(Some(bad)));
    assert Marks(Call(Some(bad)), true)[1..] == [];
    NumberAfterSkip("_i", "get", "_i" + Decimal(32) + "");
    NumberAfterHere("_i", 32, "");
  }

  // ----- condition strings and nodes

  /** What CondStmt.__parse_condition returns. */
  datatype Parsed =
    | BrCond(value: bool, edgeType: nat, width: Option<nat>)
    | SwitchCond(caseNum: nat, width: Option<nat>)
    | CondBase

  /** succ_max */
  function SuccMax(p: Parsed): nat {
    match p
    case BrCond(_, _, _) => 2
    case SwitchCond(n, _) => n
    case CondBase => 0
  }

  function ParseSwitch(s: string): Parsed {
    if !("Switch_i" <= s) then CondBase
    else
      var rest := s[8..];
      var k := DigitRun(rest);
      if k == 0 || k == |rest| || rest[k] != '_' || rest[k + 1..] == "" || !AllDigits(rest[k + 1..]) then CondBase
      else SwitchCond(Number(rest[k + 1..]), Some(Number(rest[..k])))
  }

  /** CondStmt.__parse_condition, on a text without line breaks. */
  function ParseCondition(s: string): Parsed {
    if "Br_true_" <= s then BrCond(true, EdgeType(s[8..]), CondWidth(s[8..]))
    else if "Br_false_" <= s then BrCond(false, EdgeType(s[9..]), CondWidth(s[9..]))
    else ParseSwitch(s)
  }

  function BranchText(taken: bool, condition: string): string {
    (if taken then "Br_true_" else "Br_false_") + condition
  }

  function SwitchText(width: nat, caseNum: nat): string {
    "Switch_i" + Decimal(width) + ("_" + Decimal(caseNum))
  }

  lemma ParseBranchText(taken: bool, c: string)
    ensures ParseCondition(BranchText(taken, c)) == BrCond(taken, EdgeType(c), CondWidth(c))
  {
    var s := BranchText(taken, c);
    if taken {
      assert s[8..] == c;
    } else {
      assert s[9..] == c;
      assert s[3] == 'f';
    }
  }

  lemma ParseSwitchText(width: nat, caseNum: nat)
    ensures ParseCondition(SwitchText(width, caseNum)) == SwitchCond(caseNum, Some(width))
  {
    var w, n := Decimal(width), Decimal(caseNum);
    var s := SwitchText(width, caseNum);
    assert s[0] == 'S';
    assert s[8..] == w + ("_" + n);
    DigitRunOf(w, "_" + n);
    SwitchParts(w, n, s[8..]);
    NumberOfDecimal(width);
    NumberOfDecimal(caseNum);
  }

  lemma SwitchParts(w: string, n: string, rest: string)
    requires rest == w + ("_" + n)
    ensures rest[..|w|] == w && rest[|w|] == '_' && rest[|w| + 1..] == n
  {
  }

  /** The text of a switch: the width and the number of cases. */
  predicate IsSwitch(s: string, w: string, n: string) {
    w != "" && n != "" && AllDigits(w) && AllDigits(n) && s == "Switch_i" + (w + ("_" + n))
  }

  /** Which texts are read as a branch, as a switch, and as neither. */
  lemma {:induction false} ParseConditionIs(s: string) returns (w: string, n: string)
    ensures ParseCondition(s).BrCond? <==> "Br_true_" <= s || "Br_false_" <= s
    ensures ParseCondition(s).SwitchCond? ==>
      IsSwitch(s, w, n) && ParseCondition(s) == SwitchCond(Number(n), Some(Number(w)))
  {
    w, n := "", "";
    if ParseCondition(s).SwitchCond? {
      var rest := s[8..];
      var k := DigitRun(rest);
      w, n := rest[..k], rest[k + 1..];
      assert rest == w + ("_" + n);
      assert s == "Switch_i" + rest;
    }
  }

  lemma {:induction false} IsSwitchIsRead(s: string, w: string, n: string)
    requires IsSwitch(s, w, n)
    ensures ParseCondition(s) == SwitchCond(Number(n), Some(Number(w)))
  {
    assert s[0] == 'S';
    assert s[8..] == w + ("_" + n);
    DigitRunOf(w, "_" + n);
    SwitchParts(w, n, s[8..]);
  }

  /** The texts, and how many successors are counted. */
  lemma StatementTexts(c: string, width: nat, n: nat)
    ensures BranchText(true, c) == "Br_true_" + c && BranchText(false, c) == "Br_false_" + c
    ensures SwitchText(width, n) == "Switch_i" + Decimal(width) + "_" + Decimal(n)
    ensures SuccMax(BrCond(true, n, None)) == 2 && SuccMax(SwitchCond(n, None)) == n && SuccMax(CondBase) == 0
  {
  }

  /** What a node of the execution tree knows. */
  datatype Node = Node(condition: Parsed, minDist: nat, children: set<nat>, belongs: set<string>)

  predicate Covered(n: Node) {
    |n.children| >= SuccMax(n.condition)
  }

  /** Given the ids of the successors that a node can have, "covered" means that all of them were seen if and only
      if there are succ_max of them. A switch has succ_max cases, and the default besides. */
  lemma {:induction false} CoveredMeansAllSeenIff(p: Parsed, successors: set<nat>)
    ensures (forall n: Node :: n.condition == p && n.children <= successors ==>
               (Covered(n) <==> n.children == successors))
       <==> |successors| == SuccMax(p)
  {
    var all := Node(p, 0, successors, {});
    if |successors| < SuccMax(p) {
      assert !Covered(all);
    } else if |successors| > SuccMax(p) {
      var x :| x in successors;
      CoveredWithOneUnseen(p, successors, x);
      assert Node(p, 0, successors - {x}, {}).children != successors;
    } else {
      forall n: Node | n.condition == p && n.children <= successors
        ensures Covered(n) <==> n.children == successors
      {
        assert successors == n.children + (successors - n.children);
      }
    }
  }

  lemma CoveredWithOneUnseen(p: Parsed, successors: set<nat>, x: nat)
    requires |successors| > SuccMax(p) && x in successors
    ensures Covered(Node(p, 0, successors - {x}, {}))
  {
  }

  /** A node of the execution tree. */
  class CondStmt {
    const addr: nat
    const condition: Parsed
    var minDist: nat
    var children: set<nat>
    var belongs: set<string>

    function View(): Node
      reads this
    {
      Node(condition, minDist, children, belongs)
    }

    constructor (addr: nat, text: string, dist: nat)
      ensures this.addr == addr && View() == Node(ParseCondition(text), dist, {}, {})
    {
      this.addr, condition, minDist := addr, ParseCondition(text), dist;
      children, belongs := {}, {};
    }

    method UpdateDist(dist: nat)
      modifies this`minDist
      ensures minDist <= dist && minDist <= old(minDist) && minDist in {dist, old(minDist)}
    {
      if dist < minDist { minDist := dist; }
    }

    predicate IsBranchCovered()
      reads this
    {
      |children| >= SuccMax(condition)
    }
  }
}
