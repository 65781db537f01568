/**
 * The template engine of template.py: `compile` turns a tokenised template into a
 * tree of nodes with an explicit stack of open blocks, and `format` renders that
 * tree against an environment of names.
 *
 * The input is taken after tokenisation: the raw text before each tag together
 * with the tag, then the text after the last tag. Python's `eval` becomes an
 * `Evaluator` of opaque functions of the environment.
 */
module Templates {
  import opened Base

  /** One `{% ... %}` or `{{ ... }}` tag, as the tag expressions recognise it. */
  datatype Tag =
    | IfTag(condition: string)
    | ElifTag(condition: string)
    | ElseTag
    | EndIfTag
    | ForTag(variables: seq<string>, loopExpr: string)
    | EndForTag
    | ExprTag(code: string)

  /** The raw text that precedes a tag, and the tag. */
  datatype Segment = Segment(before: string, tag: Tag)

  /** A tokenised template: its tagged segments in order, then the trailing text. */
  datatype Source = Source(segments: seq<Segment>, tail: string)

  /**
   * The node classes. `Block` is a plain `Node` (and the `Template` root); an
   * `IfNode` holds its cases in order; `else` is stored as the case `"True"`.
   */
  datatype Node =
    | Raw(data: string)
    | Expression(code: string)
    | Block(children: seq<Node>)
    | IfNode(cases: seq<Case>)
    | ForNode(variables: seq<string>, loopExpr: string, children: seq<Node>)

  datatype Case = Case(condition: string, body: seq<Node>)

  /** The assertion each malformed template trips. */
  datatype CompileError =
    | ElifWithoutIf
    | ElseWithoutIf
    | EndifWithoutIf
    | EndforWithoutFor
    | Unclosed

  // ---------------------------------------------------------------------------
  // Nesting: which block kinds are open after a prefix of the tags
  // ---------------------------------------------------------------------------

  datatype Kind = IfKind | ForKind

  /** The effect of one tag on the open block kinds, innermost last. */
  function Step(open: seq<Kind>, t: Tag): Result<seq<Kind>, CompileError> {
    var innermostIf := |open| > 0 && open[|open| - 1] == IfKind;
    var innermostFor := |open| > 0 && open[|open| - 1] == ForKind;
    match t
    case IfTag(_) => Ok(open + [IfKind])
    case ElifTag(_) => if innermostIf then Ok(open) else Err(ElifWithoutIf)
    case ElseTag => if innermostIf then Ok(open) else Err(ElseWithoutIf)
    case EndIfTag => if innermostIf then Ok(open[..|open| - 1]) else Err(EndifWithoutIf)
    case ForTag(_, _) => Ok(open + [ForKind])
    case EndForTag => if innermostFor then Ok(open[..|open| - 1]) else Err(EndforWithoutFor)
    case ExprTag(_) => Ok(open)
  }

  /** The open block kinds after the given segments, or the first nesting error. */
  function Nesting(segs: seq<Segment>): Result<seq<Kind>, CompileError> {
    if |segs| == 0 then Ok([])
    else
      match Nesting(segs[..|segs| - 1])
      case Err(e) => Err(e)
      case Ok(open) => Step(open, segs[|segs| - 1].tag)
  }

  /** Once a prefix fails to nest, the whole sequence fails with the same error. */
  lemma {:induction false} NestingErrPersists(segs: seq<Segment>, i: nat)
    requires i <= |segs| && Nesting(segs[..i]).Err?
    ensures Nesting(segs) == Nesting(segs[..i])
    decreases |segs| - i
  {
    if i < |segs| {
      assert segs[..i + 1][..i] == segs[..i];
      NestingErrPersists(segs, i + 1);
    } else {
      assert segs[..i] == segs;
    }
  }

  // ---------------------------------------------------------------------------
  // Unparsing: the token stream a tree stands for
  // ---------------------------------------------------------------------------

  datatype Token = TextToken(text: string) | TagToken(tag: Tag)

  /** `else` is recorded as the case `"True"`, i.e. as `elif True`. */
  function Normal(t: Tag): Tag {
    if t.ElseTag? then ElifTag("True") else t
  }

  /** The tokens of the given segments, with `else` normalised. */
  function SegmentTokens(segs: seq<Segment>): seq<Token> {
    if |segs| == 0 then []
    else
      var s := segs[|segs| - 1];
      SegmentTokens(segs[..|segs| - 1]) + [TextToken(s.before), TagToken(Normal(s.tag))]
  }

  /** All tokens of a template: its segments, then its trailing text. */
  function SourceTokens(src: Source): seq<Token> {
    SegmentTokens(src.segments) + [TextToken(src.tail)]
  }

  function Unparse(n: Node): seq<Token>
    decreases n, 1
  {
    match n
    case Raw(d) => [TextToken(d)]
    case Expression(c) => [TagToken(ExprTag(c))]
    case Block(ch) => UnparseSeq(ch)
    case IfNode(cases) => UnparseCases(cases) + [TagToken(EndIfTag)]
    case ForNode(vs, e, ch) => [TagToken(ForTag(vs, e))] + UnparseSeq(ch) + [TagToken(EndForTag)]
  }

  function UnparseSeq(ch: seq<Node>): seq<Token>
    decreases ch, 0
  {
    if |ch| == 0 then [] else UnparseSeq(ch[..|ch| - 1]) + Unparse(ch[|ch| - 1])
  }

  /** The first case opens with `if`, every later one with `elif`. */
  function UnparseCases(cases: seq<Case>): seq<Token>
    decreases cases, 0
  {
    if |cases| == 0 then []
    else
      var n := |cases| - 1;
      var c := cases[n];
      UnparseCases(cases[..n])
        + [TagToken(CaseTag(n, c.condition))]
        + UnparseSeq(c.body)
  }

  /** The tag that opens case `i` of an `if`. */
  function CaseTag(i: nat, condition: string): Tag {
    if i == 0 then IfTag(condition) else ElifTag(condition)
  }

  lemma UnparseSeqSnoc(ch: seq<Node>, x: Node)
    ensures UnparseSeq(ch + [x]) == UnparseSeq(ch) + Unparse(x)
  {
    assert (ch + [x])[..|ch|] == ch;
  }

  lemma UnparseCasesSnoc(cases: seq<Case>, c: Case)
    ensures UnparseCases(cases + [c]) == UnparseCases(cases) + [TagToken(CaseTag(|cases|, c.condition))] + UnparseSeq(c.body)
  {
    assert (cases + [c])[..|cases|] == cases;
  }

  /** The tokens of a block that is still open: everything but its closing tag. */
  function OpenUnparse(n: Node): seq<Token> {
    match n
    case Block(ch) => UnparseSeq(ch)
    case IfNode(cases) => UnparseCases(cases)
    case ForNode(vs, e, ch) => [TagToken(ForTag(vs, e))] + UnparseSeq(ch)
    case _ => Unparse(n)
  }

  /** A node that may sit on the compile stack. */
  predicate Open(n: Node) {
    n.Block? || (n.IfNode? && |n.cases| > 0) || n.ForNode?
  }

  /**
   * `append` on a node: a `Node` or `ForNode` appends to its children, an
   * `IfNode` to the body of its most recently added case only.
   */
  function Append(frame: Node, child: Node): (r: Node)
    requires Open(frame)
    ensures Open(r)
    ensures r.Block? == frame.Block? && r.IfNode? == frame.IfNode? && r.ForNode? == frame.ForNode?
  {
    match frame
    case Block(ch) => Block(ch + [child])
    case ForNode(vs, e, ch) => ForNode(vs, e, ch + [child])
    case IfNode(cases) => IfNode(AppendToLastCase(cases, child))
  }

  /** An appended child's tokens follow the block's own. */
  lemma AppendTokens(frame: Node, child: Node)
    requires Open(frame)
    ensures OpenUnparse(Append(frame, child)) == OpenUnparse(frame) + Unparse(child)
  {
    match frame
    case Block(ch) =>
      UnparseSeqSnoc(ch, child);
    case ForNode(vs, e, ch) =>
      UnparseSeqSnoc(ch, child);
      Assoc([TagToken(ForTag(vs, e))], UnparseSeq(ch), Unparse(child));
    case IfNode(cases) =>
      AppendToLastCaseTokens(cases, child);
  }

  /** The cases with `child` appended to the body of the last one. */
  function AppendToLastCase(cases: seq<Case>, child: Node): (r: seq<Case>)
    requires |cases| > 0
    ensures |r| == |cases|
    ensures forall i :: 0 <= i < |cases| - 1 ==> r[i] == cases[i]
    ensures r[|r| - 1].condition == cases[|cases| - 1].condition
    ensures r[|r| - 1].body == cases[|cases| - 1].body + [child]
  {
    var n := |cases| - 1;
    cases[..n] + [Case(cases[n].condition, cases[n].body + [child])]
  }

  lemma AppendToLastCaseTokens(cases: seq<Case>, child: Node)
    requires |cases| > 0
    ensures UnparseCases(AppendToLastCase(cases, child)) == UnparseCases(cases) + Unparse(child)
  {
    var n := |cases| - 1;
    var c := cases[n];
    var last := Case(c.condition, c.body + [child]);
    var before := UnparseCases(cases[..n]) + [TagToken(CaseTag(n, c.condition))];
    UnparseSeqSnoc(c.body, child);
    UnparseCasesSnoc(cases[..n], last);
    UnparseCasesLast(cases);
    Assoc(before, UnparseSeq(c.body), Unparse(child));
  }

  /** The tokens of non-empty cases: those before the last case, then the last case. */
  lemma UnparseCasesLast(cases: seq<Case>)
    requires |cases| > 0
    ensures var n := |cases| - 1;
      UnparseCases(cases) == UnparseCases(cases[..n]) + [TagToken(CaseTag(n, cases[n].condition))] + UnparseSeq(cases[n].body)
  {
  }

  /** `add_case`: a new, empty case after the existing ones. */
  function AddCase(frame: Node, condition: string): (r: Node)
    requires frame.IfNode?
    ensures r.IfNode? && r.cases == frame.cases + [Case(condition, [])]
    ensures |frame.cases| > 0 ==>
      OpenUnparse(r) == OpenUnparse(frame) + [TagToken(ElifTag(condition))]
  {
    UnparseCasesSnoc(frame.cases, Case(condition, []));
    IfNode(frame.cases + [Case(condition, [])])
  }

  // ---------------------------------------------------------------------------
  // The compile stack
  // ---------------------------------------------------------------------------

  function KindOf(n: Node): Kind {
    if n.IfNode? then IfKind else ForKind
  }

  /** The kinds of the blocks open above the root, innermost last. */
  function OpenKinds(stack: seq<Node>): (ks: seq<Kind>)
    ensures |ks| == if |stack| == 0 then 0 else |stack| - 1
  {
    if |stack| <= 1 then [] else OpenKinds(stack[..|stack| - 1]) + [KindOf(stack[|stack| - 1])]
  }

  /** The tokens the whole stack stands for, outermost block first. */
  function StackTokens(stack: seq<Node>): seq<Token> {
    if |stack| == 0 then [] else StackTokens(stack[..|stack| - 1]) + OpenUnparse(stack[|stack| - 1])
  }

  /** The tokens of a non-empty stack: those below the innermost block, then its open tokens. */
  lemma StackTokensLast(stack: seq<Node>)
    requires |stack| >= 1
    ensures StackTokens(stack) == StackTokens(stack[..|stack| - 1]) + OpenUnparse(stack[|stack| - 1])
  {
  }

  lemma StackTokensSnoc(stack: seq<Node>, x: Node)
    ensures StackTokens(stack + [x]) == StackTokens(stack) + OpenUnparse(x)
  {
    assert (stack + [x])[..|stack|] == stack;
  }

  lemma Assoc<T>(a: seq<T>, b: seq<T>, c: seq<T>)
    ensures a + (b + c) == (a + b) + c
  {
  }

  /** The root is a plain block; every block above it is an `if` with a case or a `for`. */
  predicate StackShape(stack: seq<Node>) {
    && |stack| >= 1
    && stack[0].Block?
    && forall k :: 1 <= k < |stack| ==> (stack[k].IfNode? && |stack[k].cases| > 0) || stack[k].ForNode?
  }

  /** One tag moved the stack as `Step` moves the open kinds, and added that tag's token. */
  ghost predicate Advances(stack: seq<Node>, next: seq<Node>, t: Tag) {
    && StackShape(next)
    && Step(OpenKinds(stack), t) == Ok(OpenKinds(next))
    && StackTokens(next) == StackTokens(stack) + [TagToken(Normal(t))]
  }

  /** The stack with `child` appended to its innermost block. */
  function AppendToTop(stack: seq<Node>, child: Node): seq<Node>
    requires |stack| >= 1 && Open(stack[|stack| - 1])
  {
    stack[..|stack| - 1] + [Append(stack[|stack| - 1], child)]
  }

  /** The stack with its innermost block closed and appended to its parent. */
  function PopInto(stack: seq<Node>): seq<Node>
    requires |stack| >= 2 && Open(stack[|stack| - 2])
  {
    AppendToTop(stack[..|stack| - 1], stack[|stack| - 1])
  }

  /** Replacing the innermost block by an open block of the same kind keeps the shape and the kinds. */
  lemma ReplaceTop(stack: seq<Node>, node: Node)
    requires StackShape(stack) && Open(node)
    requires node.Block? == stack[|stack| - 1].Block? && node.IfNode? == stack[|stack| - 1].IfNode?
    ensures StackShape(stack[..|stack| - 1] + [node])
    ensures OpenKinds(stack[..|stack| - 1] + [node]) == OpenKinds(stack)
  {
    var n := |stack| - 1;
    var next := stack[..n] + [node];
    forall k | 1 <= k < |next| ensures (next[k].IfNode? && |next[k].cases| > 0) || next[k].ForNode? {
      if k < n {
        assert next[k] == stack[k];
      }
    }
    ReplaceTopKinds(stack, node);
  }

  lemma ReplaceTopKinds(stack: seq<Node>, node: Node)
    requires |stack| >= 1 && KindOf(node) == KindOf(stack[|stack| - 1])
    ensures OpenKinds(stack[..|stack| - 1] + [node]) == OpenKinds(stack)
  {
    var n := |stack| - 1;
    assert (stack[..n] + [node])[..n] == stack[..n];
  }

  /** Appending a child to the innermost block keeps the open kinds and adds the child's tokens. */
  lemma AppendTop(stack: seq<Node>, child: Node)
    requires StackShape(stack)
    ensures StackShape(AppendToTop(stack, child))
    ensures OpenKinds(AppendToTop(stack, child)) == OpenKinds(stack)
    ensures StackTokens(AppendToTop(stack, child)) == StackTokens(stack) + Unparse(child)
  {
    var n := |stack| - 1;
    ReplaceTop(stack, Append(stack[n], child));
    AppendTopTokens(stack, child);
  }

  lemma AppendTopTokens(stack: seq<Node>, child: Node)
    requires |stack| >= 1 && Open(stack[|stack| - 1])
    ensures StackTokens(AppendToTop(stack, child)) == StackTokens(stack) + Unparse(child)
  {
    var n := |stack| - 1;
    StackTokensLast(stack);
    StackTokensSnoc(stack[..n], Append(stack[n], child));
    AppendTokens(stack[n], child);
    Assoc(StackTokens(stack[..n]), OpenUnparse(stack[n]), Unparse(child));
  }

  /** `if` and `for` push a fresh block. */
  lemma OpenBlock(stack: seq<Node>, node: Node, t: Tag)
    requires StackShape(stack)
    requires (t.IfTag? && node == IfNode([Case(t.condition, [])]))
          || (t.ForTag? && node == ForNode(t.variables, t.loopExpr, []))
    ensures Advances(stack, stack + [node], t)
  {
    StackTokensSnoc(stack, node);
    OpenTokens(node, t);
    PushKinds(stack, node);
  }

  /** A fresh `if` or `for` stands for its opening tag. */
  lemma OpenTokens(node: Node, t: Tag)
    requires (t.IfTag? && node == IfNode([Case(t.condition, [])]))
          || (t.ForTag? && node == ForNode(t.variables, t.loopExpr, []))
    ensures OpenUnparse(node) == [TagToken(Normal(t))]
  {
    if t.IfTag? {
      UnparseCasesSnoc([], Case(t.condition, []));
      assert [] + [Case(t.condition, [])] == [Case(t.condition, [])];
    }
  }

  /** Pushing an `if` or a `for` adds its kind as the innermost. */
  lemma PushKinds(stack: seq<Node>, node: Node)
    requires StackShape(stack) && ((node.IfNode? && |node.cases| > 0) || node.ForNode?)
    ensures StackShape(stack + [node])
    ensures OpenKinds(stack + [node]) == OpenKinds(stack) + [KindOf(node)]
  {
    assert (stack + [node])[..|stack|] == stack;
    forall k | 1 <= k < |stack| ensures (stack + [node])[k] == stack[k] { }
  }

  /** The innermost open kind is the kind of the top of the stack. */
  lemma OpenKindsLast(stack: seq<Node>)
    requires |stack| >= 2
    ensures OpenKinds(stack) == OpenKinds(stack[..|stack| - 1]) + [KindOf(stack[|stack| - 1])]
    ensures OpenKinds(stack)[|stack| - 2] == KindOf(stack[|stack| - 1])
  {
  }

  /** The innermost open kind is `if` (or `for`) exactly when the top of the stack is an `if` (or a `for`). */
  lemma InnermostKind(stack: seq<Node>)
    requires StackShape(stack)
    ensures var open := OpenKinds(stack);
      (|open| > 0 && open[|open| - 1] == IfKind) <==> stack[|stack| - 1].IfNode?
    ensures var open := OpenKinds(stack);
      (|open| > 0 && open[|open| - 1] == ForKind) <==> stack[|stack| - 1].ForNode?
  {
    if |stack| >= 2 {
      OpenKindsLast(stack);
    }
  }

  /** `elif` and `else` add a case to an innermost `if`. */
  lemma AddCaseTop(stack: seq<Node>, t: Tag, c: string)
    requires StackShape(stack) && stack[|stack| - 1].IfNode?
    requires t == ElifTag(c) || (t == ElseTag && c == "True")
    ensures Advances(stack, stack[..|stack| - 1] + [AddCase(stack[|stack| - 1], c)], t)
  {
    var n := |stack| - 1;
    StackTokensLast(stack);
    StackTokensSnoc(stack[..n], AddCase(stack[n], c));
    Assoc(StackTokens(stack[..n]), OpenUnparse(stack[n]), [TagToken(ElifTag(c))]);
    ReplaceTop(stack, AddCase(stack[n], c));
    OpenKindsLast(stack);
  }

  /** `endif` and `endfor` pop the innermost block of their kind into its parent. */
  lemma CloseBlock(stack: seq<Node>, t: Tag)
    requires StackShape(stack)
    requires (t == EndIfTag && stack[|stack| - 1].IfNode?) || (t == EndForTag && stack[|stack| - 1].ForNode?)
    ensures Advances(stack, PopInto(stack), t)
  {
    var n := |stack| - 1;
    var inner := stack[..n];
    assert n >= 1 && StackShape(inner);
    AppendTop(inner, stack[n]);
    ClosedTokens(stack[n], t);
    StackTokensLast(stack);
    Assoc(StackTokens(inner), OpenUnparse(stack[n]), [TagToken(t)]);
    OpenKindsLast(stack);
    StepClose(OpenKinds(stack), t);
  }

  /** `endif` closes an innermost `if`, `endfor` an innermost `for`. */
  lemma StepClose(open: seq<Kind>, t: Tag)
    requires |open| > 0
    requires (t == EndIfTag && open[|open| - 1] == IfKind) || (t == EndForTag && open[|open| - 1] == ForKind)
    ensures Step(open, t) == Ok(open[..|open| - 1])
  {
  }

  /** A closed `if` or `for` stands for its open tokens and its closing tag. */
  lemma ClosedTokens(top: Node, t: Tag)
    requires (t == EndIfTag && top.IfNode?) || (t == EndForTag && top.ForNode?)
    ensures Unparse(top) == OpenUnparse(top) + [TagToken(t)]
  {
  }

  /** One segment handled: the loop invariant of `Compile` carries over to the next segment. */
  lemma Advance(segs: seq<Segment>, i: nat, stack: seq<Node>, mid: seq<Node>, next: seq<Node>)
    requires i < |segs|
    requires Nesting(segs[..i]) == Ok(OpenKinds(stack))
    requires StackTokens(stack) == SegmentTokens(segs[..i])
    requires OpenKinds(mid) == OpenKinds(stack)
    requires StackTokens(mid) == StackTokens(stack) + Unparse(Raw(segs[i].before))
    requires Advances(mid, next, segs[i].tag)
    ensures Nesting(segs[..i + 1]) == Ok(OpenKinds(next))
    ensures StackTokens(next) == SegmentTokens(segs[..i + 1])
  {
    var p := segs[..i + 1];
    assert p[..i] == segs[..i] && p[i] == segs[i];
    assert Nesting(p) == Step(OpenKinds(stack), segs[i].tag);
    var text := [TextToken(segs[i].before)];
    var tag := [TagToken(Normal(segs[i].tag))];
    assert SegmentTokens(p) == SegmentTokens(segs[..i]) + (text + tag);
    assert StackTokens(next) == (StackTokens(stack) + text) + tag;
    Assoc(StackTokens(stack), text, tag);
  }

  /** A tag the open blocks do not allow makes the whole template fail with its error. */
  lemma Reject(segs: seq<Segment>, i: nat, open: seq<Kind>)
    requires i < |segs| && Nesting(segs[..i]) == Ok(open) && Step(open, segs[i].tag).Err?
    ensures Nesting(segs) == Step(open, segs[i].tag)
  {
    assert segs[..i + 1][..i] == segs[..i];
    NestingErrPersists(segs, i + 1);
  }

  /** With only the root left, the stack's tokens are the root's. */
  lemma Finish(stack: seq<Node>)
    requires |stack| == 1 && stack[0].Block?
    ensures StackTokens(stack) == Unparse(stack[0])
  {
    StackTokensLast(stack);
  }

  /**
   * The body of `compile`'s loop for one tag, after the preceding text has been
   * appended: `if` and `for` push a block, `elif`/`else` add a case to an
   * innermost `if`, `endif` and `endfor` pop the innermost block of their kind
   * into its parent, an expression is appended to the innermost block. It fails
   * exactly when `Step` does, with the same error.
   */
  method HandleTag(stack: seq<Node>, t: Tag) returns (r: Result<seq<Node>, CompileError>)
    requires StackShape(stack)
    ensures r.Ok? <==> Step(OpenKinds(stack), t).Ok?
    ensures r.Err? ==> r.error == Step(OpenKinds(stack), t).error
    ensures r.Ok? ==> Advances(stack, r.value, t)
  {
    match t {
      case IfTag(c) =>
        OpenBlock(stack, IfNode([Case(c, [])]), t);
        return Ok(stack + [IfNode([Case(c, [])])]);
      case ForTag(vs, e) =>
        OpenBlock(stack, ForNode(vs, e, []), t);
        return Ok(stack + [ForNode(vs, e, [])]);
      case ElifTag(c) =>
        r := HandleCase(stack, t, c);
      case ElseTag =>
        r := HandleCase(stack, t, "True");
      case EndIfTag =>
        r := HandleEnd(stack, t);
      case EndForTag =>
        r := HandleEnd(stack, t);
      case ExprTag(c) =>
        AppendTop(stack, Expression(c));
        return Ok(AppendToTop(stack, Expression(c)));
    }
  }

  /** `elif` and `else`: a new case for an innermost `if`, an error otherwise. */
  method HandleCase(stack: seq<Node>, t: Tag, c: string) returns (r: Result<seq<Node>, CompileError>)
    requires StackShape(stack)
    requires t == ElifTag(c) || (t == ElseTag && c == "True")
    ensures r.Ok? <==> Step(OpenKinds(stack), t).Ok?
    ensures r.Err? ==> r.error == Step(OpenKinds(stack), t).error
    ensures r.Ok? ==> Advances(stack, r.value, t)
  {
    var n := |stack| - 1;
    InnermostKind(stack);
    if !stack[n].IfNode? {
      return Err(if t.ElifTag? then ElifWithoutIf else ElseWithoutIf);
    }
    AddCaseTop(stack, t, c);
    return Ok(stack[..n] + [AddCase(stack[n], c)]);
  }

  /** `endif` and `endfor`: pop an innermost block of their kind, an error otherwise. */
  method HandleEnd(stack: seq<Node>, t: Tag) returns (r: Result<seq<Node>, CompileError>)
    requires StackShape(stack)
    requires t == EndIfTag || t == EndForTag
    ensures r.Ok? <==> Step(OpenKinds(stack), t).Ok?
    ensures r.Err? ==> r.error == Step(OpenKinds(stack), t).error
    ensures r.Ok? ==> Advances(stack, r.value, t)
  {
    var n := |stack| - 1;
    InnermostKind(stack);
    if t == EndIfTag && !stack[n].IfNode? {
      return Err(EndifWithoutIf);
    }
    if t == EndForTag && !stack[n].ForNode? {
      return Err(EndforWithoutFor);
    }
    CloseBlock(stack, t);
    return Ok(PopInto(stack));
  }

  /**
   * `compile`: a loop over the tagged segments with a stack of open blocks. The
   * text before each tag becomes a `Raw` child of the innermost block, then the
   * tag is handled; the trailing text becomes a final `Raw`, and only the root
   * may remain.
   *
   * It succeeds exactly when the tags nest, fails with the first nesting error
   * otherwise, and on success the tree unparses to the template's own tokens.
   */
  method Compile(src: Source) returns (r: Result<Node, CompileError>)
    ensures r.Ok? <==> Nesting(src.segments) == Ok([])
    ensures r.Err? && Nesting(src.segments).Err? ==> r.error == Nesting(src.segments).error
    ensures r.Err? && Nesting(src.segments).Ok? ==> r.error == Unclosed
    ensures r.Ok? ==> r.value.Block? && Unparse(r.value) == SourceTokens(src)
    ensures |src.segments| == 0 ==> r == Ok(Block([Raw(src.tail)]))
  {
    var segs := src.segments;
    var stack: seq<Node> := [Block([])];
    Start(segs, stack);
    var i := 0;
    while i < |segs|
      invariant 0 <= i <= |segs|
      invariant StackShape(stack)
      invariant Nesting(segs[..i]) == Ok(OpenKinds(stack))
      invariant StackTokens(stack) == SegmentTokens(segs[..i])
      invariant |segs| == 0 ==> stack == [Block([])]
    {
      var seg := segs[i];
      ghost var before := stack;
      // the raw text before the tag
      AppendTop(stack, Raw(seg.before));
      stack := AppendToTop(stack, Raw(seg.before));
      var handled := HandleTag(stack, seg.tag);
      if handled.Err? {
        Reject(segs, i, OpenKinds(stack));
        return Err(handled.error);
      }
      Advance(segs, i, before, stack, handled.value);
      stack := handled.value;
      i := i + 1;
    }
    assert segs[..i] == segs;
    if |segs| == 0 {
      EmptyRoot(src.tail);
    }
    AppendTop(stack, Raw(src.tail));
    stack := AppendToTop(stack, Raw(src.tail));
    if |stack| != 1 {
      return Err(Unclosed);
    }
    Finish(stack);
    return Ok(stack[0]);
  }

  /** A template without tags: the trailing text is the root's only child. */
  lemma EmptyRoot(tail: string)
    ensures AppendToTop([Block([])], Raw(tail)) == [Block([Raw(tail)])]
  {
    assert [Block([])][..0] == [];
    assert Append(Block([]), Raw(tail)) == Block([] + [Raw(tail)]);
    assert [] + [Raw(tail)] == [Raw(tail)];
  }

  /** Before the loop: only the empty root, which stands for no tokens. */
  lemma Start(segs: seq<Segment>, stack: seq<Node>)
    requires stack == [Block([])]
    ensures StackShape(stack) && Nesting(segs[..0]) == Ok(OpenKinds(stack))
    ensures StackTokens(stack) == SegmentTokens(segs[..0])
  {
    assert segs[..0] == [];
    StackTokensLast(stack);
  }

  // ---------------------------------------------------------------------------
  // Rendering
  // ---------------------------------------------------------------------------

  /**
   * Python's `eval` in an environment: the text an expression renders to, the
   * truth of a condition, and the values a `for` loop binds on each iteration
   * (one value per loop variable once unpacked). `None` stands for the
   * exception `eval` raises there (`NameError`, `IndexError`, `TypeError`, ...).
   */
  datatype Evaluator<!V> = Evaluator(
    show: (string, map<string, V>) -> Option<string>,
    truthy: (string, map<string, V>) -> Option<bool>,
    iterate: (string, map<string, V>) -> Option<seq<seq<V>>>)

  /**
   * Why rendering stops: evaluating the named expression raised, or an
   * iteration unpacked into the wrong number of loop variables.
   */
  datatype RenderError = EvalError(expr: string) | UnpackMismatch(expected: nat, got: nat)

  /** The names a `for` tag binds: its comma-separated variables, stripped. */
  function LoopNames(vars: seq<string>): (names: seq<string>)
    ensures |names| == |vars|
  {
    seq(|vars|, k requires 0 <= k < |vars| => Strip(vars[k]))
  }

  lemma LoopNamesSnoc(vars: seq<string>)
    requires |vars| > 0
    ensures LoopNames(vars) == LoopNames(vars[..|vars| - 1]) + [Strip(vars[|vars| - 1])]
  {
    var n := |vars| - 1;
    assert forall k :: 0 <= k < n ==> LoopNames(vars[..n])[k] == Strip(vars[k]);
  }

  /** The loop-local names: each stripped variable bound to its value, later ones winning. */
  function Bind<V>(vars: seq<string>, vals: seq<V>): (m: map<string, V>)
    requires |vars| == |vals|
    ensures forall k :: 0 <= k < |vars| ==> Strip(vars[k]) in m
    ensures |m| <= |vars|
  {
    if |vars| == 0 then map[]
    else
      var n := |vars| - 1;
      var m := Bind(vars[..n], vals[..n]);
      assert forall k :: 0 <= k < n ==> vars[..n][k] == vars[k];
      m[Strip(vars[n]) := vals[n]]
  }

  /** The bound names are exactly the stripped loop variables: nothing else is bound. */
  lemma {:induction false} BindKeys<V>(vars: seq<string>, vals: seq<V>)
    requires |vars| == |vals|
    ensures forall x :: x in Bind(vars, vals) <==> x in LoopNames(vars)
  {
    if |vars| > 0 {
      var n := |vars| - 1;
      BindKeys(vars[..n], vals[..n]);
      BindStep(vars, vals);
      LoopNamesSnoc(vars);
    }
  }

  /** A loop variable not repeated later is bound to its own value. */
  lemma {:induction false} BindLastWins<V>(vars: seq<string>, vals: seq<V>, k: nat)
    requires |vars| == |vals| && k < |vars|
    requires forall j :: k < j < |vars| ==> Strip(vars[j]) != Strip(vars[k])
    ensures Bind(vars, vals)[Strip(vars[k])] == vals[k]
  {
    var n := |vars| - 1;
    BindStep(vars, vals);
    if k < n {
      assert Bind(vars[..n], vals[..n])[Strip(vars[k])] == vals[k] by {
        assert vars[..n][k] == vars[k] && vals[..n][k] == vals[k];
        assert forall j :: k < j < n ==> vars[..n][j] == vars[j];
        BindLastWins(vars[..n], vals[..n], k);
      }
      assert Strip(vars[n]) != Strip(vars[k]);
    }
  }

  /** Binding one more variable updates the binding of the others. */
  lemma BindStep<V>(vars: seq<string>, vals: seq<V>)
    requires |vars| == |vals| > 0
    ensures Bind(vars, vals) == Bind(vars[..|vars| - 1], vals[..|vars| - 1])[Strip(vars[|vars| - 1]) := vals[|vars| - 1]]
  {
  }

  /** Concatenation of two renderings, failing with the first failure. */
  function Concat(a: Result<string, RenderError>, b: Result<string, RenderError>): Result<string, RenderError> {
    if a.Err? then a else if b.Err? then b else Ok(a.value + b.value)
  }

  /** A tree without `for` nodes, whose rendering unpacks nothing. */
  predicate Loopless(n: Node) {
    match n
    case ForNode(_, _, _) => false
    case Block(ch) => forall i :: 0 <= i < |ch| ==> Loopless(ch[i])
    case IfNode(cases) => forall i, j :: 0 <= i < |cases| && 0 <= j < |cases[i].body| ==> Loopless(cases[i].body[j])
    case _ => true
  }

  /**
   * `format` of a node in the environment `env`. Besides `eval` raising, only
   * unpacking a loop's items can fail, so a tree without loops fails only
   * where an expression raises.
   */
  function Format<V>(n: Node, env: map<string, V>, ev: Evaluator<V>): (r: Result<string, RenderError>)
    ensures Loopless(n) && r.Err? ==> r.error.EvalError?
    decreases n, 2
  {
    match n
    case Raw(d) => Ok(d)
    case Expression(c) => (match ev.show(c, env) case None => Err(EvalError(c)) case Some(t) => Ok(t))
    case Block(ch) => FormatSeq(ch, env, ev)
    case IfNode(cases) => FormatCases(cases, env, ev)
    case ForNode(vs, e, ch) =>
      (match ev.iterate(e, env) case None => Err(EvalError(e)) case Some(items) => FormatLoop(vs, ch, items, env, ev))
  }

  /** A node's children rendered in order and concatenated. */
  function FormatSeq<V>(ch: seq<Node>, env: map<string, V>, ev: Evaluator<V>): (r: Result<string, RenderError>)
    ensures (forall i :: 0 <= i < |ch| ==> Loopless(ch[i])) && r.Err? ==> r.error.EvalError?
    decreases ch, 0
  {
    if |ch| == 0 then Ok("")
    else Concat(FormatSeq(ch[..|ch| - 1], env, ev), Format(ch[|ch| - 1], env, ev))
  }

  /** The cases tried in order: the first that holds is rendered, and a condition that raises stops the render. */
  function FormatCases<V>(cases: seq<Case>, env: map<string, V>, ev: Evaluator<V>): (r: Result<string, RenderError>)
    ensures ((forall i, j :: 0 <= i < |cases| && 0 <= j < |cases[i].body| ==> Loopless(cases[i].body[j]))
             && r.Err?) ==> r.error.EvalError?
    decreases cases, 1
  {
    if |cases| == 0 then Ok("")
    else
      match ev.truthy(cases[0].condition, env)
      case None => Err(EvalError(cases[0].condition))
      case Some(b) => if b then FormatSeq(cases[0].body, env, ev) else FormatCases(cases[1..], env, ev)
  }

  /** One rendering of the body per iteration, the loop's names overriding `env`. */
  function FormatLoop<V>(vars: seq<string>, ch: seq<Node>, items: seq<seq<V>>, env: map<string, V>, ev: Evaluator<V>)
    : (r: Result<string, RenderError>)
    ensures ((forall i :: 0 <= i < |ch| ==> Loopless(ch[i]))
             && (forall k :: 0 <= k < |items| ==> |items[k]| == |vars|)
             && r.Err?) ==> r.error.EvalError?
    ensures (forall i :: 0 <= i < |ch| ==> Loopless(ch[i])) && r.Err? && !r.error.EvalError? ==>
              exists k :: 0 <= k < |items| && r.error == UnpackMismatch(|vars|, |items[k]|)
    decreases ch, 1, |items|
  {
    if |items| == 0 then Ok("")
    else if |items[0]| != |vars| then Err(UnpackMismatch(|vars|, |items[0]|))
    else Concat(FormatSeq(ch, env + Bind(vars, items[0]), ev), FormatLoop(vars, ch, items[1..], env, ev))
  }

  /**
   * `Template.format`: the tree rendered in the environment that holds every
   * name given at construction or at call time, a call-time argument
   * overriding a constructor argument of the same name.
   */
  function TemplateFormat<V(!new)>(root: Node, args: map<string, V>, kwargs: map<string, V>, ev: Evaluator<V>)
    : (r: Result<string, RenderError>)
    ensures forall env: map<string, V> ::
      && env.Keys == args.Keys + kwargs.Keys
      && (forall k :: k in kwargs ==> env[k] == kwargs[k])
      && (forall k :: k in args && k !in kwargs ==> env[k] == args[k])
      ==> r == Format(root, env, ev)
  {
    assert forall env: map<string, V> ::
      && env.Keys == args.Keys + kwargs.Keys
      && (forall k :: k in kwargs ==> env[k] == kwargs[k])
      && (forall k :: k in args && k !in kwargs ==> env[k] == args[k])
      ==> env == args + kwargs;
    Format(root, args + kwargs, ev)
  }

  // ---------------------------------------------------------------------------
  // Properties of rendering
  // ---------------------------------------------------------------------------

  /** Concatenation of renderings is associative. */
  lemma ConcatAssoc(a: Result<string, RenderError>, b: Result<string, RenderError>, c: Result<string, RenderError>)
    ensures Concat(Concat(a, b), c) == Concat(a, Concat(b, c))
  {
    if a.Ok? && b.Ok? && c.Ok? {
      assert (a.value + b.value) + c.value == a.value + (b.value + c.value);
    }
  }

  /** Rendering a sequence of children distributes over concatenation. */
  lemma {:induction false} FormatSeqAppend<V>(a: seq<Node>, b: seq<Node>, env: map<string, V>, ev: Evaluator<V>)
    ensures FormatSeq(a + b, env, ev) == Concat(FormatSeq(a, env, ev), FormatSeq(b, env, ev))
    decreases |b|
  {
    if |b| == 0 {
      assert a + b == a;
      var x := FormatSeq(a, env, ev);
      assert x.Ok? ==> x.value + "" == x.value;
    } else {
      var n := |b| - 1;
      assert (a + b)[..|a + b| - 1] == a + b[..n];
      assert (a + b)[|a + b| - 1] == b[n];
      FormatSeqAppend(a, b[..n], env, ev);
      ConcatAssoc(FormatSeq(a, env, ev), FormatSeq(b[..n], env, ev), Format(b[n], env, ev));
    }
  }

  /** A case whose condition evaluates to true in `env`. */
  predicate Holds<V>(c: Case, env: map<string, V>, ev: Evaluator<V>) {
    ev.truthy(c.condition, env) == Some(true)
  }

  /** A case whose condition evaluates to false in `env`. */
  predicate Refuted<V>(c: Case, env: map<string, V>, ev: Evaluator<V>) {
    ev.truthy(c.condition, env) == Some(false)
  }

  /**
   * An `IfNode` renders the body of the first case that holds, and renders the
   * empty string when every condition is false. A condition that raises before
   * any case holds stops the render with that condition's error.
   */
  lemma {:induction false} FirstCaseRendered<V>(cases: seq<Case>, env: map<string, V>, ev: Evaluator<V>)
    ensures forall i :: 0 <= i < |cases| && Holds(cases[i], env, ev)
              && (forall j :: 0 <= j < i ==> Refuted(cases[j], env, ev))
              ==> FormatCases(cases, env, ev) == FormatSeq(cases[i].body, env, ev)
    ensures forall i :: 0 <= i < |cases| && ev.truthy(cases[i].condition, env).None?
              && (forall j :: 0 <= j < i ==> Refuted(cases[j], env, ev))
              ==> FormatCases(cases, env, ev) == Err(EvalError(cases[i].condition))
    ensures (forall j :: 0 <= j < |cases| ==> Refuted(cases[j], env, ev)) ==> FormatCases(cases, env, ev) == Ok("")
  {
    if |cases| > 0 {
      FirstCaseRendered(cases[1..], env, ev);
      forall i | 0 < i < |cases| && Holds(cases[i], env, ev) && (forall j :: 0 <= j < i ==> Refuted(cases[j], env, ev))
        ensures FormatCases(cases, env, ev) == FormatSeq(cases[i].body, env, ev)
      {
        assert Refuted(cases[0], env, ev);
        assert cases[1..][i - 1] == cases[i];
        assert forall j :: 0 <= j < i - 1 ==> cases[1..][j] == cases[j + 1];
      }
      forall i | 0 < i < |cases| && ev.truthy(cases[i].condition, env).None?
                 && (forall j :: 0 <= j < i ==> Refuted(cases[j], env, ev))
        ensures FormatCases(cases, env, ev) == Err(EvalError(cases[i].condition))
      {
        assert Refuted(cases[0], env, ev);
        assert cases[1..][i - 1] == cases[i];
        assert forall j :: 0 <= j < i - 1 ==> cases[1..][j] == cases[j + 1];
      }
      if forall j :: 0 <= j < |cases| ==> Refuted(cases[j], env, ev) {
        assert Refuted(cases[0], env, ev);
        assert forall j :: 0 <= j < |cases| - 1 ==> cases[1..][j] == cases[j + 1];
      }
    }
  }

  /**
   * A `ForNode` renders its body once per iteration, in order, each time with
   * the loop variables bound on top of the outer names.
   */
  lemma {:induction false} LoopRendersEachIteration<V>(vars: seq<string>, ch: seq<Node>, items: seq<seq<V>>,
                                                       env: map<string, V>, ev: Evaluator<V>, k: nat)
    requires k < |items| && forall j :: 0 <= j <= k ==> |items[j]| == |vars|
    ensures FormatLoop(vars, ch, items, env, ev)
      == Concat(FormatLoop(vars, ch, items[..k], env, ev),
                Concat(FormatSeq(ch, env + Bind(vars, items[k]), ev), FormatLoop(vars, ch, items[k + 1..], env, ev)))
  {
    if k == 0 {
      assert items[..0] == [];
      assert items[1..] == items[k + 1..];
      var x := Concat(FormatSeq(ch, env + Bind(vars, items[0]), ev), FormatLoop(vars, ch, items[1..], env, ev));
      assert x.Ok? ==> "" + x.value == x.value;
    } else {
      var t := items[1..];
      LoopRendersEachIteration(vars, ch, t, env, ev, k - 1);
      assert t[..k - 1] == items[1..k];
      assert t[k..] == items[k + 1..];
      assert items[..k][1..] == items[1..k];
      assert items[..k][0] == items[0];
      ConcatAssoc(FormatSeq(ch, env + Bind(vars, items[0]), ev), FormatLoop(vars, ch, items[1..k], env, ev),
                  Concat(FormatSeq(ch, env + Bind(vars, items[k]), ev), FormatLoop(vars, ch, items[k + 1..], env, ev)));
    }
  }

  /**
   * A template without tags, which `Compile` turns into a single `Raw` of its
   * text, renders to that text verbatim.
   */
  lemma PlainTextRendersVerbatim<V>(text: string, env: map<string, V>, ev: Evaluator<V>)
    ensures Nesting([]) == Ok([])
    ensures Format(Block([Raw(text)]), env, ev) == Ok(text)
    ensures Unparse(Block([Raw(text)])) == SourceTokens(Source([], text))
  {
    UnparseSeqSnoc([], Raw(text));
    assert [] + [Raw(text)] == [Raw(text)];
    assert [Raw(text)][..0] == [];
    assert FormatSeq([Raw(text)][..0], env, ev) == Ok("");
    assert Format(Raw(text), env, ev) == Ok(text);
    assert FormatSeq([Raw(text)], env, ev) == Concat(Ok(""), Ok(text));
    assert Format(Block([Raw(text)]), env, ev) == FormatSeq([Raw(text)], env, ev);
    assert "" + text == text;
  }
}
