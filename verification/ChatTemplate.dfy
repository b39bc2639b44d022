/**
 * Chat templates at tag level: nested if/elif/else and for statements, and a printer the parser
 * inverts.
 */
module ChatTemplate {
  import opened Prelude
  import opened ChatExpression

  // ---------------------------------------------------------------------------------------------
  // Tags and trees
  // ---------------------------------------------------------------------------------------------

  /** An expression's source text, after lexing. */
  datatype Source = Blank | Unlexable | Lexed(tokens: seq<Token>)

  /** A header `name in source` or `name = source`; `Malformed` when it does not split so. */
  datatype Header = Malformed | Header(variable: string, source: Source)

  datatype Statement =
    | If(condition: Source)
    | Elif(condition: Source)
    | Else
    | Endif
    | For(header: Header)
    | Endfor
    | Set(header: Header)
    | NoKeyword
    | OtherKeyword

  datatype Tag =
    | TextTag(text: string)
    | OutputTag(source: Source)
    | StatementTag(statement: Statement)

  datatype Branch = Branch(condition: Expression, body: seq<Node>)

  datatype Otherwise = NoElse | ElseBody(body: seq<Node>)

  datatype Node =
    | Text(text: string)
    | Output(value: Expression)
    | IfNode(branches: seq<Branch>, otherwise: Otherwise)
    | ForNode(variable: string, iterable: Expression, body: seq<Node>)
    | SetNode(variable: string, value: Expression)

  /** Nodes up to a terminator, which is not consumed, or to the end of the template. */
  datatype ParsedNodes =
    | Nodes(nodes: seq<Node>, terminator: Option<Statement>, rest: seq<Tag>)
    | BadNodes(error: TemplateError)

  datatype ParsedNode = OneNode(node: Node, rest: seq<Tag>) | BadNode(error: TemplateError)

  function ParseSource(source: Source): Result<Expression, TemplateError> {
    match source
    case Blank => ParseExpression([])
    case Unlexable => Err(Parse)
    case Lexed(tokens) => ParseExpression(tokens)
  }

  predicate IsTerminator(statement: Statement) {
    statement.Elif? || statement.Else? || statement.Endif? || statement.Endfor?
  }

  function PrependNode(node: Node, parsed: ParsedNodes): ParsedNodes {
    match parsed
    case Nodes(nodes, terminator, rest) => Nodes([node] + nodes, terminator, rest)
    case BadNodes(e) => BadNodes(e)
  }

  // ---------------------------------------------------------------------------------------------
  // The grammar as functions on the remaining tags
  // ---------------------------------------------------------------------------------------------

  /**
   * Every terminator keyword ends the nodes, whichever terminators the caller expects: the caller
   * then accepts or rejects the one found.
   */
  function ParseNodes(ts: seq<Tag>): (r: ParsedNodes)
    ensures r.Nodes? ==> |r.rest| <= |ts|
    ensures r.Nodes? && r.terminator.Some? ==> r.rest != [] && r.rest[0] == StatementTag(r.terminator.value)
    decreases |ts|, 1
  {
    if ts == [] then Nodes([], None, [])
    else
      match ts[0]
      case TextTag(text) => PrependNode(Text(text), ParseNodes(ts[1..]))
      case OutputTag(source) =>
        (match ParseSource(source)
         case Err(e) => BadNodes(e)
         case Ok(value) => PrependNode(Output(value), ParseNodes(ts[1..])))
      case StatementTag(statement) =>
        if IsTerminator(statement) then Nodes([], Some(statement), ts)
        else
          match ParseStatement(statement, ts[1..])
          case BadNode(e) => BadNodes(e)
          case OneNode(node, rest) => PrependNode(node, ParseNodes(rest))
  }

  /** A statement that starts a node; `ts` are the tags after it. */
  function ParseStatement(statement: Statement, ts: seq<Tag>): (r: ParsedNode)
    requires !IsTerminator(statement)
    ensures r.OneNode? ==> |r.rest| <= |ts|
    decreases |ts|, 3
  {
    match statement
    case If(condition) => if condition.Blank? then BadNode(Parse) else ParseIf(condition, ts)
    case For(header) => ParseFor(header, ts)
    case Set(header) => ParseSet(header, ts)
    case NoKeyword => BadNode(Parse)
    case _ => BadNode(Unsupported)
  }

  function ParseIf(condition: Source, ts: seq<Tag>): (r: ParsedNode)
    ensures r.OneNode? ==> |r.rest| <= |ts|
    decreases |ts|, 2
  {
    match ParseSource(condition)
    case Err(e) => BadNode(e)
    case Ok(value) =>
      match ParseNodes(ts)
      case BadNodes(e) => BadNode(e)
      case Nodes(body, terminator, rest) => IfTail([Branch(value, body)], NoElse, terminator, rest)
  }

  /** After a branch: another one, an else, or the end. An else does not have to be the last. */
  function IfTail(branches: seq<Branch>, otherwise: Otherwise, terminator: Option<Statement>,
                  ts: seq<Tag>): (r: ParsedNode)
    requires terminator.Some? ==> ts != []
    ensures r.OneNode? ==> |r.rest| <= |ts|
    decreases |ts|, 0
  {
    match terminator
    case Some(Elif(condition)) =>
      if condition.Blank? then BadNode(Parse)
      else
        (match ParseNodes(ts[1..])
         case BadNodes(e) => BadNode(e)
         case Nodes(body, next, rest) =>
           match ParseSource(condition)
           case Err(e) => BadNode(e)
           case Ok(value) => IfTail(branches + [Branch(value, body)], otherwise, next, rest))
    case Some(Else) =>
      (match ParseNodes(ts[1..])
       case BadNodes(e) => BadNode(e)
       case Nodes(body, next, rest) => IfTail(branches, ElseBody(body), next, rest))
    case Some(Endif) => OneNode(IfNode(branches, otherwise), ts[1..])
    case _ => BadNode(Parse)
  }

  function ParseFor(header: Header, ts: seq<Tag>): (r: ParsedNode)
    ensures r.OneNode? ==> |r.rest| <= |ts|
    decreases |ts|, 2
  {
    match header
    case Malformed => BadNode(Parse)
    case Header(variable, source) =>
      match ParseNodes(ts)
      case BadNodes(e) => BadNode(e)
      case Nodes(body, terminator, rest) =>
        if terminator != Some(Endfor) then BadNode(Parse)
        else
          match ParseSource(source)
          case Err(e) => BadNode(e)
          case Ok(iterable) => OneNode(ForNode(variable, iterable, body), rest[1..])
  }

  function ParseSet(header: Header, ts: seq<Tag>): (r: ParsedNode) {
    match header
    case Malformed => BadNode(Parse)
    case Header(variable, source) =>
      match ParseSource(source)
      case Err(e) => BadNode(e)
      case Ok(value) => OneNode(SetNode(variable, value), ts)
  }

  /** A whole template: no terminator may be left over. */
  function ParseTemplate(ts: seq<Tag>): Result<seq<Node>, TemplateError> {
    match ParseNodes(ts)
    case BadNodes(e) => Err(e)
    case Nodes(nodes, terminator, _) => if terminator.Some? then Err(Parse) else Ok(nodes)
  }

  // ---------------------------------------------------------------------------------------------
  // The printer
  // ---------------------------------------------------------------------------------------------

  function PrintSource(e: Expression): Source {
    Lexed(Print(e, OR_LEVEL))
  }

  function PrintNodes(nodes: seq<Node>): seq<Tag>
    decreases nodes
  {
    if nodes == [] then [] else PrintNode(nodes[0]) + PrintNodes(nodes[1..])
  }

  function PrintNode(node: Node): seq<Tag>
    decreases node
  {
    match node
    case Text(text) => [TextTag(text)]
    case Output(value) => [OutputTag(PrintSource(value))]
    case SetNode(variable, value) => [StatementTag(Set(Header(variable, PrintSource(value))))]
    case ForNode(variable, iterable, body) =>
      [StatementTag(For(Header(variable, PrintSource(iterable))))] + (PrintNodes(body) + [StatementTag(Endfor)])
    case IfNode(branches, otherwise) =>
      if branches == [] then []
      else
        [StatementTag(If(PrintSource(branches[0].condition)))]
        + (PrintNodes(branches[0].body) + (PrintBranches(branches[1..]) + PrintElse(otherwise)))
  }

  function PrintBranches(branches: seq<Branch>): seq<Tag>
    decreases branches
  {
    if branches == [] then []
    else
      [StatementTag(Elif(PrintSource(branches[0].condition)))]
      + (PrintNodes(branches[0].body) + PrintBranches(branches[1..]))
  }

  /** The else, if any, and the end of an if. */
  function PrintElse(otherwise: Otherwise): seq<Tag>
    decreases otherwise
  {
    match otherwise
    case NoElse => [StatementTag(Endif)]
    case ElseBody(body) => [StatementTag(Else)] + (PrintNodes(body) + [StatementTag(Endif)])
  }

  predicate WritableNodes(nodes: seq<Node>)
    decreases nodes
  {
    forall i :: 0 <= i < |nodes| ==> WritableNode(nodes[i])
  }

  /** Every expression can be written, and every if has its first branch. */
  predicate WritableNode(node: Node)
    decreases node
  {
    match node
    case Text(_) => true
    case Output(value) => Writable(value)
    case SetNode(_, value) => Writable(value)
    case ForNode(_, iterable, body) => Writable(iterable) && WritableNodes(body)
    case IfNode(branches, otherwise) =>
      && branches != [] && WritableBranches(branches)
      && WritableElse(otherwise)
  }

  predicate WritableBranches(branches: seq<Branch>)
    decreases branches
  {
    forall i :: 0 <= i < |branches| ==> Writable(branches[i].condition) && WritableNodes(branches[i].body)
  }

  predicate WritableElse(otherwise: Otherwise)
    decreases otherwise
  {
    match otherwise
    case NoElse => true
    case ElseBody(body) => WritableNodes(body)
  }

  // ---------------------------------------------------------------------------------------------
  // The parser inverts the printer
  // ---------------------------------------------------------------------------------------------

  function PrependAll(nodes: seq<Node>, parsed: ParsedNodes): ParsedNodes {
    match parsed
    case Nodes(more, terminator, rest) => Nodes(nodes + more, terminator, rest)
    case BadNodes(e) => BadNodes(e)
  }

  lemma {:induction false} Cons(t: Tag, ts: seq<Tag>)
    ensures ([t] + ts)[0] == t && ([t] + ts)[1..] == ts
  {}

  lemma {:induction false} Regroup(t: Tag, a: seq<Tag>, b: seq<Tag>, c: seq<Tag>)
    ensures ([t] + (a + b)) + c == [t] + (a + (b + c))
  {}

  lemma {:induction false} Associative(a: seq<Tag>, b: seq<Tag>, c: seq<Tag>)
    ensures (a + b) + c == a + (b + c)
  {}

  /** `ts` starts with a terminator. */
  predicate EndsNodes(ts: seq<Tag>) {
    ts != [] && ts[0].StatementTag? && IsTerminator(ts[0].statement)
  }

  lemma {:induction false} SourceInverts(e: Expression)
    requires Writable(e)
    ensures ParseSource(PrintSource(e)) == Ok(e)
  {
    ParserInvertsPrinter(e);
  }

  lemma {:induction false} NodesInvert(nodes: seq<Node>, rest: seq<Tag>)
    requires WritableNodes(nodes)
    ensures ParseNodes(PrintNodes(nodes) + rest) == PrependAll(nodes, ParseNodes(rest))
    decreases nodes, 0
  {
    if nodes == [] {
      assert PrintNodes(nodes) + rest == rest;
    } else {
      var head, tail := nodes[0], nodes[1..];
      Associative(PrintNode(head), PrintNodes(tail), rest);
      NodeInverts(head, PrintNodes(tail) + rest);
      NodesInvert(tail, rest);
      PrependBoth(head, tail, ParseNodes(rest));
      assert [head] + tail == nodes;
    }
  }

  lemma {:induction false} PrependBoth(head: Node, tail: seq<Node>, parsed: ParsedNodes)
    ensures PrependNode(head, PrependAll(tail, parsed)) == PrependAll([head] + tail, parsed)
  {
    if parsed.Nodes? {
      assert [head] + (tail + parsed.nodes) == ([head] + tail) + parsed.nodes;
    }
  }

  /** A body before a terminator is read to exactly that terminator. */
  lemma {:induction false} BodyInverts(body: seq<Node>, rest: seq<Tag>)
    requires WritableNodes(body) && EndsNodes(rest)
    ensures ParseNodes(PrintNodes(body) + rest) == Nodes(body, Some(rest[0].statement), rest)
    decreases body, 1
  {
    NodesInvert(body, rest);
    assert body + [] == body;
  }

  lemma {:induction false} NodeInverts(node: Node, rest: seq<Tag>)
    requires WritableNode(node)
    ensures ParseNodes(PrintNode(node) + rest) == PrependNode(node, ParseNodes(rest))
    decreases node
  {
    match node
    case Text(text) =>
      Cons(TextTag(text), rest);
    case Output(value) =>
      SourceInverts(value);
      Cons(OutputTag(PrintSource(value)), rest);
    case SetNode(variable, value) =>
      SourceInverts(value);
      Cons(StatementTag(Set(Header(variable, PrintSource(value)))), rest);
    case ForNode(variable, iterable, body) =>
      ForInverts(variable, iterable, body, rest);
    case IfNode(branches, otherwise) =>
      var first := StatementTag(If(PrintSource(branches[0].condition)));
      var later := PrintBranches(branches[1..]) + (PrintElse(otherwise) + rest);
      Regroup(first, PrintNodes(branches[0].body), PrintBranches(branches[1..]) + PrintElse(otherwise), rest);
      Associative(PrintBranches(branches[1..]), PrintElse(otherwise), rest);
      Cons(first, PrintNodes(branches[0].body) + later);
      ElseInverts(branches, otherwise, rest);
      BranchesInvert([branches[0]], branches[1..], PrintElse(otherwise) + rest);
      BodyInverts(branches[0].body, later);
      assert [branches[0]] + branches[1..] == branches;
      IfInverts(branches[0], later, node, rest);
  }

  /** The head of an if, given how its body and its tail are read. */
  lemma {:induction false} IfInverts(first: Branch, later: seq<Tag>, node: Node, rest: seq<Tag>)
    requires Writable(first.condition) && EndsNodes(later)
    requires ParseNodes(PrintNodes(first.body) + later) == Nodes(first.body, Some(later[0].statement), later)
    requires IfTail([first], NoElse, Some(later[0].statement), later) == OneNode(node, rest)
    ensures
      ParseNodes([StatementTag(If(PrintSource(first.condition)))] + (PrintNodes(first.body) + later))
      == PrependNode(node, ParseNodes(rest))
  {
    var ts := PrintNodes(first.body) + later;
    SourceInverts(first.condition);
    Cons(StatementTag(If(PrintSource(first.condition))), ts);
    assert ParseIf(PrintSource(first.condition), ts) == OneNode(node, rest);
  }

  lemma {:induction false} ForInverts(variable: string, iterable: Expression, body: seq<Node>, rest: seq<Tag>)
    requires Writable(iterable) && WritableNodes(body)
    ensures
      var node := ForNode(variable, iterable, body);
      ParseNodes(PrintNode(node) + rest) == PrependNode(node, ParseNodes(rest))
    decreases body, 2
  {
    var first := StatementTag(For(Header(variable, PrintSource(iterable))));
    var last := StatementTag(Endfor);
    Regroup(first, PrintNodes(body), [last], rest);
    Cons(first, PrintNodes(body) + ([last] + rest));
    Cons(last, rest);
    SourceInverts(iterable);
    BodyInverts(body, [last] + rest);
    assert ParseFor(Header(variable, PrintSource(iterable)), PrintNodes(body) + ([last] + rest))
        == OneNode(ForNode(variable, iterable, body), rest);
  }

  /** Every printed elif is taken as one more branch. */
  lemma {:induction false} BranchesInvert(done: seq<Branch>, more: seq<Branch>, rest: seq<Tag>)
    requires WritableBranches(more) && EndsNodes(rest)
    ensures EndsNodes(PrintBranches(more) + rest)
    ensures
      var ts := PrintBranches(more) + rest;
      IfTail(done, NoElse, Some(ts[0].statement), ts) == IfTail(done + more, NoElse, Some(rest[0].statement), rest)
    decreases more
  {
    if more == [] {
      assert PrintBranches(more) + rest == rest && done + more == done;
    } else {
      var first := StatementTag(Elif(PrintSource(more[0].condition)));
      var later := PrintBranches(more[1..]) + rest;
      Regroup(first, PrintNodes(more[0].body), PrintBranches(more[1..]), rest);
      Cons(first, PrintNodes(more[0].body) + later);
      SourceInverts(more[0].condition);
      BranchesInvert(done + [more[0]], more[1..], rest);
      BodyInverts(more[0].body, later);
      ElifInverts(done, more[0], later);
      TakeFirst(done, more);
    }
  }

  lemma {:induction false} TakeFirst<T>(done: seq<T>, more: seq<T>)
    requires more != []
    ensures done + [more[0]] + more[1..] == done + more
  {}

  lemma {:induction false} ElifInverts(done: seq<Branch>, next: Branch, later: seq<Tag>)
    requires Writable(next.condition) && EndsNodes(later)
    requires ParseNodes(PrintNodes(next.body) + later) == Nodes(next.body, Some(later[0].statement), later)
    ensures
      var elif := Elif(PrintSource(next.condition));
      IfTail(done, NoElse, Some(elif), [StatementTag(elif)] + (PrintNodes(next.body) + later))
      == IfTail(done + [next], NoElse, Some(later[0].statement), later)
  {
    SourceInverts(next.condition);
    Cons(StatementTag(Elif(PrintSource(next.condition))), PrintNodes(next.body) + later);
  }

  lemma {:induction false} ElseInverts(branches: seq<Branch>, otherwise: Otherwise, rest: seq<Tag>)
    requires WritableElse(otherwise)
    ensures EndsNodes(PrintElse(otherwise) + rest)
    ensures
      var ts := PrintElse(otherwise) + rest;
      IfTail(branches, NoElse, Some(ts[0].statement), ts) == OneNode(IfNode(branches, otherwise), rest)
    decreases otherwise
  {
    var last := StatementTag(Endif);
    Cons(last, rest);
    if otherwise.ElseBody? {
      var first := StatementTag(Else);
      Regroup(first, PrintNodes(otherwise.body), [last], rest);
      Cons(first, PrintNodes(otherwise.body) + ([last] + rest));
      BodyInverts(otherwise.body, [last] + rest);
    }
  }

  /** Every writable template is read back exactly. */
  lemma {:induction false} TemplateInverts(nodes: seq<Node>)
    requires WritableNodes(nodes)
    ensures ParseTemplate(PrintNodes(nodes)) == Ok(nodes)
  {
    NodesInvert(nodes, []);
    assert PrintNodes(nodes) + [] == PrintNodes(nodes) && nodes + [] == nodes;
  }

  // ---------------------------------------------------------------------------------------------
  // What is accepted beyond the printed templates
  // ---------------------------------------------------------------------------------------------

  lemma {:induction false} SourceWritable(source: Source)
    requires ParseSource(source).Ok?
    ensures Writable(ParseSource(source).value)
  {
    match source
    case Blank => AcceptedIsReprintable([]);
    case Lexed(tokens) => AcceptedIsReprintable(tokens);
  }

  /** Whatever is parsed can be written. */
  lemma {:induction false} NodesWritable(ts: seq<Tag>)
    requires ParseNodes(ts).Nodes?
    ensures WritableNodes(ParseNodes(ts).nodes)
    decreases |ts|, 1
  {
    hide ParseSource, Writable;
    if ts != [] {
      match ts[0]
      case TextTag(_) => NodesWritable(ts[1..]);
      case OutputTag(source) =>
        SourceWritable(source);
        NodesWritable(ts[1..]);
      case StatementTag(statement) =>
        if !IsTerminator(statement) {
          StatementWritable(statement, ts[1..]);
          NodesWritable(ParseStatement(statement, ts[1..]).rest);
        }
    }
  }

  lemma {:induction false} StatementWritable(statement: Statement, ts: seq<Tag>)
    requires !IsTerminator(statement) && ParseStatement(statement, ts).OneNode?
    ensures WritableNode(ParseStatement(statement, ts).node)
    decreases |ts|, 3
  {
    hide ParseSource, Writable;
    match statement
    case If(condition) =>
      SourceWritable(condition);
      NodesWritable(ts);
      var first := ParseNodes(ts);
      TailWritable([Branch(ParseSource(condition).value, first.nodes)], NoElse, first.terminator, first.rest);
    case For(header) =>
      NodesWritable(ts);
      SourceWritable(header.source);
    case Set(header) => SourceWritable(header.source);
  }

  lemma {:induction false} TailWritable(branches: seq<Branch>, otherwise: Otherwise, terminator: Option<Statement>, ts: seq<Tag>)
    requires terminator.Some? ==> ts != []
    requires branches != [] && WritableBranches(branches) && WritableElse(otherwise)
    requires IfTail(branches, otherwise, terminator, ts).OneNode?
    ensures WritableNode(IfTail(branches, otherwise, terminator, ts).node)
    decreases |ts|, 0
  {
    hide ParseSource, Writable;
    if !terminator.value.Endif? {
      NodesWritable(ts[1..]);
      var next := ParseNodes(ts[1..]);
      if terminator.value.Elif? {
        SourceWritable(terminator.value.condition);
        TailWritable(branches + [Branch(ParseSource(terminator.value.condition).value, next.nodes)], otherwise,
                     next.terminator, next.rest);
      } else {
        TailWritable(branches, ElseBody(next.nodes), next.terminator, next.rest);
      }
    }
  }

  /** Every accepted template has a printed form that is read the same way. */
  lemma {:induction false} AcceptedTemplateReprints(ts: seq<Tag>)
    requires ParseTemplate(ts).Ok?
    ensures WritableNodes(ParseTemplate(ts).value)
    ensures ParseTemplate(PrintNodes(ParseTemplate(ts).value)) == ParseTemplate(ts)
  {
    NodesWritable(ts);
    TemplateInverts(ParseTemplate(ts).value);
  }

  /**
   * No else of an if is followed at its own level by an elif or another else. `seen` says of every
   * open statement, the innermost first, whether its else has been passed.
   */
  predicate ElseIsLast(ts: seq<Tag>, seen: seq<bool>) {
    if ts == [] then true
    else if !ts[0].StatementTag? then ElseIsLast(ts[1..], seen)
    else
      match ts[0].statement
      case If(_) => ElseIsLast(ts[1..], [false] + seen)
      case For(_) => ElseIsLast(ts[1..], [false] + seen)
      case Elif(_) => (seen == [] || !seen[0]) && ElseIsLast(ts[1..], seen)
      case Else => (seen == [] || !seen[0]) && ElseIsLast(ts[1..], if seen == [] then [] else [true] + seen[1..])
      case Endif => ElseIsLast(ts[1..], if seen == [] then [] else seen[1..])
      case Endfor => ElseIsLast(ts[1..], if seen == [] then [] else seen[1..])
      case _ => ElseIsLast(ts[1..], seen)
  }

  /** One tag of the scan. */
  lemma {:induction false} ScanCons(t: Tag, ts: seq<Tag>, seen: seq<bool>)
    ensures
      if !t.StatementTag? then ElseIsLast([t] + ts, seen) == ElseIsLast(ts, seen)
      else
        match t.statement
        case If(_) => ElseIsLast([t] + ts, seen) == ElseIsLast(ts, [false] + seen)
        case For(_) => ElseIsLast([t] + ts, seen) == ElseIsLast(ts, [false] + seen)
        case Elif(_) => ElseIsLast([t] + ts, [false] + seen) == ElseIsLast(ts, [false] + seen)
        case Else => ElseIsLast([t] + ts, [false] + seen) == ElseIsLast(ts, [true] + seen)
        case Endif => forall flag :: ElseIsLast([t] + ts, [flag] + seen) == ElseIsLast(ts, seen)
        case Endfor => forall flag :: ElseIsLast([t] + ts, [flag] + seen) == ElseIsLast(ts, seen)
        case _ => ElseIsLast([t] + ts, seen) == ElseIsLast(ts, seen)
  {
    Cons(t, ts);
    assert forall flag: bool :: ([flag] + seen)[1..] == seen;
  }

  /** Printed nodes are scanned through without a fault. */
  lemma {:induction false} PrintedScan(nodes: seq<Node>, rest: seq<Tag>, seen: seq<bool>)
    requires WritableNodes(nodes)
    ensures ElseIsLast(PrintNodes(nodes) + rest, seen) == ElseIsLast(rest, seen)
    decreases nodes, 0
  {
    hide ElseIsLast, Writable;
    if nodes == [] {
      assert PrintNodes(nodes) + rest == rest;
    } else {
      Associative(PrintNode(nodes[0]), PrintNodes(nodes[1..]), rest);
      PrintedNodeScan(nodes[0], PrintNodes(nodes[1..]) + rest, seen);
      PrintedScan(nodes[1..], rest, seen);
    }
  }

  lemma {:induction false} PrintedNodeScan(node: Node, rest: seq<Tag>, seen: seq<bool>)
    requires WritableNode(node)
    ensures ElseIsLast(PrintNode(node) + rest, seen) == ElseIsLast(rest, seen)
    decreases node
  {
    hide ElseIsLast, Writable, PrintSource;
    match node
    case Text(text) => ScanCons(TextTag(text), rest, seen);
    case Output(value) => ScanCons(OutputTag(PrintSource(value)), rest, seen);
    case SetNode(variable, value) => ScanCons(StatementTag(Set(Header(variable, PrintSource(value)))), rest, seen);
    case ForNode(variable, iterable, body) =>
      var first, last := StatementTag(For(Header(variable, PrintSource(iterable)))), StatementTag(Endfor);
      Regroup(first, PrintNodes(body), [last], rest);
      ScanCons(first, PrintNodes(body) + ([last] + rest), seen);
      PrintedScan(body, [last] + rest, [false] + seen);
      ScanCons(last, rest, seen);
    case IfNode(branches, otherwise) =>
      var first := StatementTag(If(PrintSource(branches[0].condition)));
      var later := PrintBranches(branches[1..]) + (PrintElse(otherwise) + rest);
      Regroup(first, PrintNodes(branches[0].body), PrintBranches(branches[1..]) + PrintElse(otherwise), rest);
      Associative(PrintBranches(branches[1..]), PrintElse(otherwise), rest);
      ScanCons(first, PrintNodes(branches[0].body) + later, seen);
      PrintedScan(branches[0].body, later, [false] + seen);
      PrintedBranchesScan(branches[1..], PrintElse(otherwise) + rest, seen);
      PrintedElseScan(otherwise, rest, seen);
  }

  lemma {:induction false} PrintedBranchesScan(more: seq<Branch>, rest: seq<Tag>, seen: seq<bool>)
    requires WritableBranches(more)
    ensures ElseIsLast(PrintBranches(more) + rest, [false] + seen) == ElseIsLast(rest, [false] + seen)
    decreases more
  {
    hide ElseIsLast, Writable, PrintSource;
    if more == [] {
      assert PrintBranches(more) + rest == rest;
    } else {
      var first := StatementTag(Elif(PrintSource(more[0].condition)));
      var later := PrintBranches(more[1..]) + rest;
      Regroup(first, PrintNodes(more[0].body), PrintBranches(more[1..]), rest);
      ScanCons(first, PrintNodes(more[0].body) + later, seen);
      PrintedScan(more[0].body, later, [false] + seen);
      PrintedBranchesScan(more[1..], rest, seen);
    }
  }

  lemma {:induction false} PrintedElseScan(otherwise: Otherwise, rest: seq<Tag>, seen: seq<bool>)
    requires WritableElse(otherwise)
    ensures ElseIsLast(PrintElse(otherwise) + rest, [false] + seen) == ElseIsLast(rest, seen)
    decreases otherwise
  {
    hide ElseIsLast, Writable;
    var first, last := StatementTag(Else), StatementTag(Endif);
    ScanCons(last, rest, seen);
    if otherwise.ElseBody? {
      Regroup(first, PrintNodes(otherwise.body), [last], rest);
      ScanCons(first, PrintNodes(otherwise.body) + ([last] + rest), seen);
      PrintedScan(otherwise.body, [last] + rest, [true] + seen);
    }
  }

  ghost predicate PrintedForm(source: Source) {
    exists e :: Writable(e) && source == PrintSource(e)
  }

  /** Every expression in the tags is in its printed form. */
  ghost predicate PrintedForms(ts: seq<Tag>) {
    forall i :: 0 <= i < |ts| ==> PrintedTag(ts[i])
  }

  ghost predicate PrintedTag(t: Tag) {
    match t
    case TextTag(_) => true
    case OutputTag(source) => PrintedForm(source)
    case StatementTag(If(source)) => PrintedForm(source)
    case StatementTag(Elif(source)) => PrintedForm(source)
    case StatementTag(For(header)) => header.Header? ==> PrintedForm(header.source)
    case StatementTag(Set(header)) => header.Header? ==> PrintedForm(header.source)
    case _ => true
  }

  lemma {:induction false} PrintedFormIs(source: Source)
    requires PrintedForm(source)
    ensures ParseSource(source).Ok? && PrintSource(ParseSource(source).value) == source
  {
    var e :| Writable(e) && source == PrintSource(e);
    SourceInverts(e);
  }

  lemma {:induction false} LaterForms(a: seq<Tag>, b: seq<Tag>)
    requires PrintedForms(a + b)
    ensures PrintedForms(b)
  {
    forall i | 0 <= i < |b| ensures PrintedTag(b[i]) {
      assert b[i] == (a + b)[|a| + i];
    }
  }

  lemma {:induction false} FirstForm(ts: seq<Tag>)
    requires ts != [] && PrintedForms(ts)
    ensures PrintedTag(ts[0]) && PrintedForms(ts[1..]) && ts == [ts[0]] + ts[1..]
  {
    assert ts == [ts[0]] + ts[1..];
    LaterForms([ts[0]], ts[1..]);
  }

  lemma {:induction false} PrintCons(node: Node, nodes: seq<Node>)
    ensures PrintNodes([node] + nodes) == PrintNode(node) + PrintNodes(nodes)
  {
    assert ([node] + nodes)[1..] == nodes;
  }

  /** Tags that are scanned without a fault are the print of the nodes they parse to. */
  lemma {:induction false} NodesReprint(ts: seq<Tag>, seen: seq<bool>)
    requires PrintedForms(ts) && ParseNodes(ts).Nodes? && ElseIsLast(ts, seen)
    ensures ts == PrintNodes(ParseNodes(ts).nodes) + ParseNodes(ts).rest
    ensures ElseIsLast(ParseNodes(ts).rest, seen) && PrintedForms(ParseNodes(ts).rest)
    decreases |ts|, 1
  {
    hide ParseSource, PrintSource, PrintedForm, PrintNode, ElseIsLast;
    if ts != [] && !(ts[0].StatementTag? && IsTerminator(ts[0].statement)) {
      FirstForm(ts);
      NodeReprint(ts, seen);
      var (node, after) := FirstNode(ts);
      NodesReprint(after, seen);
      var more := ParseNodes(after);
      PrintCons(node, more.nodes);
      Associative(PrintNode(node), PrintNodes(more.nodes), more.rest);
    }
  }

  /** The node at the front, and the tags after it. */
  function FirstNode(ts: seq<Tag>): (Node, seq<Tag>)
    requires ts != [] && ParseNodes(ts).Nodes? && !(ts[0].StatementTag? && IsTerminator(ts[0].statement))
  {
    match ts[0]
    case TextTag(text) => (Text(text), ts[1..])
    case OutputTag(source) => (Output(ParseSource(source).value), ts[1..])
    case StatementTag(statement) =>
      (ParseStatement(statement, ts[1..]).node, ParseStatement(statement, ts[1..]).rest)
  }

  lemma {:induction false} NodeReprint(ts: seq<Tag>, seen: seq<bool>)
    requires PrintedForms(ts) && ts != [] && ParseNodes(ts).Nodes? && ElseIsLast(ts, seen)
    requires !(ts[0].StatementTag? && IsTerminator(ts[0].statement))
    ensures
      var (node, rest) := FirstNode(ts);
      && |rest| < |ts| && ts == PrintNode(node) + rest && ElseIsLast(rest, seen) && PrintedForms(rest)
    decreases |ts|, 0
  {
    hide ParseSource, PrintSource, PrintedForm, ElseIsLast;
    var tail := ts[1..];
    FirstForm(ts);
    ScanCons(ts[0], tail, seen);
    match ts[0]
    case TextTag(_) =>
    case OutputTag(source) => PrintedFormIs(source);
    case StatementTag(statement) =>
      match statement
      case Set(header) => PrintedFormIs(header.source);
      case For(header) =>
        assert ParseStatement(statement, tail) == ParseFor(header, tail);
        ForReprints(ts[0], header, tail, seen);
      case If(condition) =>
        PrintedFormIs(condition);
        assert ParseStatement(statement, tail).OneNode? ==> ParseStatement(statement, tail) == ParseIf(condition, tail);
        IfReprints(ts[0], condition, tail, seen);
  }

  lemma {:induction false} ForReprints(first: Tag, header: Header, ts: seq<Tag>, seen: seq<bool>)
    requires first == StatementTag(For(header)) && PrintedTag(first) && PrintedForms(ts) && ElseIsLast(ts, [false] + seen)
    requires ParseFor(header, ts).OneNode?
    ensures
      var parsed := ParseFor(header, ts);
      && [first] + ts == PrintNode(parsed.node) + parsed.rest && ElseIsLast(parsed.rest, seen) && PrintedForms(parsed.rest)
    decreases |ts|, 3
  {
    hide ParseSource, PrintSource, PrintedForm, ElseIsLast;
    NodesReprint(ts, [false] + seen);
    PrintedFormIs(header.source);
    var body := ParseNodes(ts);
    FirstForm(body.rest);
    ScanCons(body.rest[0], body.rest[1..], seen);
    Regroup(first, PrintNodes(body.nodes), [body.rest[0]], body.rest[1..]);
  }

  lemma {:induction false} IfReprints(first: Tag, condition: Source, ts: seq<Tag>, seen: seq<bool>)
    requires first == StatementTag(If(condition)) && PrintedTag(first) && PrintedForms(ts) && ElseIsLast(ts, [false] + seen)
    requires ParseIf(condition, ts).OneNode?
    ensures
      var parsed := ParseIf(condition, ts);
      && [first] + ts == PrintNode(parsed.node) + parsed.rest && ElseIsLast(parsed.rest, seen) && PrintedForms(parsed.rest)
    decreases |ts|, 3
  {
    hide ParseSource, PrintSource, PrintedForm, ElseIsLast;
    NodesReprint(ts, [false] + seen);
    PrintedFormIs(condition);
    var body := ParseNodes(ts);
    var branches := [Branch(ParseSource(condition).value, body.nodes)];
    TailReprint(branches, NoElse, body.terminator, body.rest, seen);
    var parsed := IfTail(branches, NoElse, body.terminator, body.rest);
    IfReprint(first, branches[0], parsed.node, parsed.rest);
  }

  lemma {:induction false} IfReprint(first: Tag, branch: Branch, node: Node, rest: seq<Tag>)
    requires node.IfNode? && node.branches != [] && node.branches[0] == branch
    requires first == StatementTag(If(PrintSource(branch.condition)))
    ensures
      PrintNode(node) + rest
      == [first] + (PrintNodes(branch.body) + (PrintBranches(node.branches[1..]) + (PrintElse(node.otherwise) + rest)))
  {
    var branches, ending := PrintBranches(node.branches[1..]), PrintElse(node.otherwise);
    Regroup(first, PrintNodes(branch.body), branches + ending, rest);
    Associative(branches, ending, rest);
  }

  /** The tags after a branch: more branches, then the else and the end. After an else, only the end. */
  lemma {:induction false} TailReprint(branches: seq<Branch>, otherwise: Otherwise, terminator: Option<Statement>,
                                       ts: seq<Tag>, seen: seq<bool>)
    requires terminator.Some? ==> ts != [] && ts[0] == StatementTag(terminator.value)
    requires PrintedForms(ts) && ElseIsLast(ts, [otherwise.ElseBody?] + seen)
    requires IfTail(branches, otherwise, terminator, ts).OneNode?
    ensures
      var node, rest := IfTail(branches, otherwise, terminator, ts).node, IfTail(branches, otherwise, terminator, ts).rest;
      && node.IfNode? && branches <= node.branches && ElseIsLast(rest, seen) && PrintedForms(rest)
      && (if otherwise.NoElse?
          then ts == PrintBranches(node.branches[|branches|..]) + (PrintElse(node.otherwise) + rest)
          else node == IfNode(branches, otherwise) && ts == [StatementTag(Endif)] + rest)
    decreases |ts|, 0
  {
    hide ParseSource, PrintSource, PrintedForm, ElseIsLast, PrintNodes;
    var tail := ts[1..];
    FirstForm(ts);
    if otherwise.ElseBody? {
      NothingAfterElse(ts, seen);
    }
    ScanCons(ts[0], tail, seen);
    match terminator.value
    case Endif =>
      assert branches[|branches|..] == [] && PrintBranches([]) + (PrintElse(NoElse) + tail) == PrintElse(NoElse) + tail;
    case Else =>
      NodesReprint(tail, [true] + seen);
      var body := ParseNodes(tail);
      TailReprint(branches, ElseBody(body.nodes), body.terminator, body.rest, seen);
      var rest := IfTail(branches, ElseBody(body.nodes), body.terminator, body.rest).rest;
      Regroup(StatementTag(Else), PrintNodes(body.nodes), [StatementTag(Endif)], rest);
      assert branches[|branches|..] == [] && PrintBranches([]) + (PrintElse(ElseBody(body.nodes)) + rest) == ts;
    case Elif(condition) =>
      NodesReprint(tail, [false] + seen);
      PrintedFormIs(condition);
      var body := ParseNodes(tail);
      var next := Branch(ParseSource(condition).value, body.nodes);
      TailReprint(branches + [next], NoElse, body.terminator, body.rest, seen);
      var node := IfTail(branches + [next], NoElse, body.terminator, body.rest).node;
      var rest := IfTail(branches + [next], NoElse, body.terminator, body.rest).rest;
      var more := node.branches[|branches|..];
      assert more[0] == next && more[1..] == node.branches[|branches| + 1..];
      Regroup(ts[0], PrintNodes(body.nodes), PrintBranches(more[1..]), PrintElse(node.otherwise) + rest);
  }

  lemma {:induction false} NothingAfterElse(ts: seq<Tag>, seen: seq<bool>)
    requires ts != [] && ElseIsLast(ts, [true] + seen)
    ensures ts[0].StatementTag? ==> !ts[0].statement.Else? && !ts[0].statement.Elif?
  {}

  /**
   * An accepted template with its expressions in printed form is the print of its nodes exactly
   * when every else is the last part of its if.
   */
  lemma {:induction false} ReprintsExactly(ts: seq<Tag>)
    requires ParseTemplate(ts).Ok? && PrintedForms(ts)
    ensures PrintNodes(ParseTemplate(ts).value) == ts <==> ElseIsLast(ts, [])
  {
    hide ElseIsLast, PrintNodes, PrintedForms;
    var nodes := ParseTemplate(ts).value;
    NodesEnd(ts);
    if ElseIsLast(ts, []) {
      NodesReprint(ts, []);
      assert PrintNodes(nodes) + [] == PrintNodes(nodes);
    }
    if PrintNodes(nodes) == ts {
      NodesWritable(ts);
      PrintedScan(nodes, [], []);
      NothingScanned();
      assert PrintNodes(nodes) + [] == PrintNodes(nodes);
    }
  }

  lemma {:induction false} NothingScanned()
    ensures ElseIsLast([], [])
  {}

  /** Without a terminator everything has been read. */
  lemma {:induction false} NodesEnd(ts: seq<Tag>)
    requires ParseNodes(ts).Nodes? && ParseNodes(ts).terminator.None?
    ensures ParseNodes(ts).rest == []
    decreases |ts|
  {
    if ts != [] {
      NodesEnd(FirstNode(ts).1);
    }
  }

  /** A branch after the else is accepted too, and joins the branches before the else. */
  lemma {:induction false} ElifAfterElse(a: Expression, b: Expression)
    requires Writable(a) && Writable(b)
    ensures
      ParseTemplate([StatementTag(If(PrintSource(a))), StatementTag(Else),
                     StatementTag(Elif(PrintSource(b))), StatementTag(Endif)])
      == Ok([IfNode([Branch(a, []), Branch(b, [])], ElseBody([]))])
  {
    hide ParseSource, PrintSource;
    SourceInverts(a);
    SourceInverts(b);
    var branches := [Branch(a, []), Branch(b, [])];
    var t0, t1 := StatementTag(If(PrintSource(a))), StatementTag(Else);
    var t2, t3 := StatementTag(Elif(PrintSource(b))), StatementTag(Endif);
    assert [t0, t1, t2, t3][1..] == [t1, t2, t3] && [t1, t2, t3][1..] == [t2, t3];
    assert [t2, t3][1..] == [t3] && [t3][1..] == [];
    assert [Branch(a, [])] + [Branch(b, [])] == branches;
    var node := IfNode(branches, ElseBody([]));
    assert PrintSource(b) != Blank && PrintSource(a) != Blank by { NotBlank(a); NotBlank(b); }
    assert IfTail(branches, ElseBody([]), Some(Endif), [t3]) == OneNode(node, []);
    assert ParseNodes([t3]) == Nodes([], Some(Endif), [t3]);
    assert IfTail([Branch(a, [])], ElseBody([]), Some(t2.statement), [t2, t3]) == OneNode(node, []);
    assert ParseNodes([t2, t3]) == Nodes([], Some(t2.statement), [t2, t3]);
    assert IfTail([Branch(a, [])], NoElse, Some(Else), [t1, t2, t3]) == OneNode(node, []);
    OneIf(t0, a, [t1, t2, t3], node);
  }

  lemma {:induction false} NotBlank(e: Expression)
    ensures PrintSource(e) != Blank
  {}

  /** An if that starts with its else and takes up the whole template. */
  lemma {:induction false} OneIf(first: Tag, a: Expression, ts: seq<Tag>, node: Node)
    requires first == StatementTag(If(PrintSource(a))) && Writable(a) && ts != [] && ts[0] == StatementTag(Else)
    requires IfTail([Branch(a, [])], NoElse, Some(Else), ts) == OneNode(node, [])
    ensures ParseTemplate([first] + ts) == Ok([node])
  {
    hide ParseSource, IfTail;
    SourceInverts(a);
    NotBlank(a);
    Cons(first, ts);
    assert ParseNodes(ts) == Nodes([], Some(Else), ts);
    assert ParseIf(first.statement.condition, ts) == OneNode(node, []);
    assert ParseStatement(first.statement, ts) == OneNode(node, []);
    assert ParseNodes([]) == Nodes([], None, []);
    assert [node] + [] == [node];
  }

  /** A second else is accepted, and the text of the first is lost. */
  lemma {:induction false} ElseAfterElse(a: Expression, text: string)
    requires Writable(a)
    ensures
      ParseTemplate([StatementTag(If(PrintSource(a))), StatementTag(Else), TextTag(text),
                     StatementTag(Else), StatementTag(Endif)])
      == Ok([IfNode([Branch(a, [])], ElseBody([]))])
  {
    var t0, t1, t2, t3 := StatementTag(If(PrintSource(a))), StatementTag(Else), TextTag(text), StatementTag(Endif);
    var branches, node := [Branch(a, [])], IfNode([Branch(a, [])], ElseBody([]));
    hide ParseSource, PrintSource;
    assert [t1, t2, t1, t3][1..] == [t2, t1, t3] && [t2, t1, t3][1..] == [t1, t3];
    assert [t1, t3][1..] == [t3] && [t3][1..] == [];
    assert ParseNodes([t3]) == Nodes([], Some(Endif), [t3]);
    assert IfTail(branches, ElseBody([]), Some(Endif), [t3]) == OneNode(node, []);
    assert IfTail(branches, ElseBody([Text(text)]), Some(Else), [t1, t3]) == OneNode(node, []);
    assert ParseNodes([t1, t3]) == Nodes([], Some(Else), [t1, t3]);
    assert [Text(text)] + [] == [Text(text)];
    assert ParseNodes([t2, t1, t3]) == Nodes([Text(text)], Some(Else), [t1, t3]);
    assert IfTail(branches, NoElse, Some(Else), [t1, t2, t1, t3]) == OneNode(node, []);
    OneIf(t0, a, [t1, t2, t1, t3], node);
    assert [t0] + [t1, t2, t1, t3] == [t0, t1, t2, t1, t3];
  }

  // ---------------------------------------------------------------------------------------------
  // The parser
  // ---------------------------------------------------------------------------------------------

  method ParseSourceText(source: Source) returns (r: Result<Expression, TemplateError>)
    ensures r == ParseSource(source)
  {
    match source
    case Blank => r := ParseExpressionTokens([]);
    case Unlexable => r := Err(Parse);
    case Lexed(tokens) => r := ParseExpressionTokens(tokens);
  }

  datatype Body = Body(nodes: seq<Node>, terminator: Option<Statement>)

  class TemplateParser {
    const tokens: seq<Tag>
    var position: nat

    ghost predicate Valid()
      reads this
    {
      position <= |tokens|
    }

    /** The tags not yet read. */
    ghost function Left(): seq<Tag>
      requires Valid()
      reads this
    {
      tokens[position..]
    }

    /** The nodes read agree with the grammar, and the position is at the terminator. */
    ghost predicate NodesAgree(r: Result<Body, TemplateError>, parsed: ParsedNodes)
      reads this
    {
      && Valid()
      && match parsed
         case BadNodes(e) => r == Err(e)
         case Nodes(nodes, terminator, rest) => r == Ok(Body(nodes, terminator)) && Left() == rest
    }

    ghost predicate NodeAgrees(r: Result<Node, TemplateError>, parsed: ParsedNode)
      reads this
    {
      && Valid()
      && match parsed
         case BadNode(e) => r == Err(e)
         case OneNode(node, rest) => r == Ok(node) && Left() == rest
    }

    constructor (tokens: seq<Tag>)
      ensures this.tokens == tokens && position == 0 && Valid()
    {
      this.tokens := tokens;
      position := 0;
    }

    method ReadNodes() returns (r: Result<Body, TemplateError>)
      requires Valid()
      modifies this
      ensures NodesAgree(r, ParseNodes(old(Left())))
      decreases |tokens| - position, 1
    {
      ghost var start := Left();
      var nodes := [];
      while position < |tokens|
        invariant Valid() && |Left()| <= |start|
        invariant ParseNodes(start) == PrependAll(nodes, ParseNodes(Left()))
        decreases |Left()|
      {
        ghost var here := Left();
        var node: Node;
        match tokens[position] {
          case TextTag(text) =>
            position := position + 1;
            node := Text(text);
          case OutputTag(source) =>
            position := position + 1;
            var value := ParseSourceText(source);
            if value.Err? {
              return Err(value.error);
            }
            node := Output(value.value);
          case StatementTag(statement) =>
            if IsTerminator(statement) {
              assert nodes + [] == nodes;
              return Ok(Body(nodes, Some(statement)));
            }
            position := position + 1;
            var parsed := ReadStatement(statement);
            if parsed.Err? {
              return Err(parsed.error);
            }
            node := parsed.value;
        }
        assert ParseNodes(here) == PrependNode(node, ParseNodes(Left()));
        PushNode(nodes, node, ParseNodes(Left()));
        nodes := nodes + [node];
      }
      assert nodes + [] == nodes;
      return Ok(Body(nodes, None));
    }

    method ReadStatement(statement: Statement) returns (r: Result<Node, TemplateError>)
      requires Valid() && !IsTerminator(statement)
      modifies this
      ensures NodeAgrees(r, ParseStatement(statement, old(Left())))
      decreases |tokens| - position, 3
    {
      match statement {
        case If(condition) =>
          if condition.Blank? {
            return Err(Parse);
          }
          r := ReadIf(condition);
        case For(header) =>
          r := ReadFor(header);
        case Set(header) =>
          match header {
            case Malformed => return Err(Parse);
            case Header(variable, source) =>
              var value := ParseSourceText(source);
              if value.Err? {
                return Err(value.error);
              }
              return Ok(SetNode(variable, value.value));
          }
        case NoKeyword => return Err(Parse);
        case OtherKeyword => return Err(Unsupported);
      }
    }

    method ReadIf(condition: Source) returns (r: Result<Node, TemplateError>)
      requires Valid()
      modifies this
      ensures NodeAgrees(r, ParseIf(condition, old(Left())))
      decreases |tokens| - position, 2
    {
      hide ParseSource, ParseNodes;
      ghost var start := Left();
      var first := ParseSourceText(condition);
      if first.Err? {
        return Err(first.error);
      }
      var body := ReadNodes();
      if body.Err? {
        return Err(body.error);
      }
      var branches := [Branch(first.value, body.value.nodes)];
      var otherwise := NoElse;
      var terminator := body.value.terminator;
      while true
        invariant Valid() && |Left()| <= |start|
        invariant terminator.Some? ==> Left() != []
        invariant ParseIf(condition, start) == IfTail(branches, otherwise, terminator, Left())
        decreases |Left()|
      {
        match terminator {
          case Some(Elif(source)) =>
            if source.Blank? {
              return Err(Parse);
            }
            position := position + 1;
            var next := ReadNodes();
            if next.Err? {
              return Err(next.error);
            }
            var value := ParseSourceText(source);
            if value.Err? {
              return Err(value.error);
            }
            branches := branches + [Branch(value.value, next.value.nodes)];
            terminator := next.value.terminator;
          case Some(Else) =>
            position := position + 1;
            var next := ReadNodes();
            if next.Err? {
              return Err(next.error);
            }
            otherwise := ElseBody(next.value.nodes);
            terminator := next.value.terminator;
          case Some(Endif) =>
            position := position + 1;
            return Ok(IfNode(branches, otherwise));
          case _ =>
            return Err(Parse);
        }
      }
    }

    method ReadFor(header: Header) returns (r: Result<Node, TemplateError>)
      requires Valid()
      modifies this
      ensures NodeAgrees(r, ParseFor(header, old(Left())))
      decreases |tokens| - position, 2
    {
      if header.Malformed? {
        return Err(Parse);
      }
      var body := ReadNodes();
      if body.Err? {
        return Err(body.error);
      }
      if body.value.terminator != Some(Endfor) {
        return Err(Parse);
      }
      position := position + 1;
      var iterable := ParseSourceText(header.source);
      if iterable.Err? {
        return Err(iterable.error);
      }
      return Ok(ForNode(header.variable, iterable.value, body.value.nodes));
    }
  }

  lemma {:induction false} PushNode(nodes: seq<Node>, node: Node, parsed: ParsedNodes)
    ensures PrependAll(nodes, PrependNode(node, parsed)) == PrependAll(nodes + [node], parsed)
  {
    if parsed.Nodes? {
      assert nodes + ([node] + parsed.nodes) == (nodes + [node]) + parsed.nodes;
    }
  }

  method ParseTemplateTags(tokens: seq<Tag>) returns (r: Result<seq<Node>, TemplateError>)
    ensures r == ParseTemplate(tokens)
  {
    var parser := new TemplateParser(tokens);
    assert parser.Left() == tokens;
    var body := parser.ReadNodes();
    match body
    case Err(e) => r := Err(e);
    case Ok(all) => r := if all.terminator.Some? then Err(Parse) else Ok(all.nodes);
  }
}
