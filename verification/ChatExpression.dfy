/**
 * Chat-template expressions: the recursive-descent parser with its six precedence levels, and a
 * printer it inverts.
 */
module ChatExpression {
  import opened Prelude

  // ---------------------------------------------------------------------------------------------
  // Tokens and trees
  // ---------------------------------------------------------------------------------------------

  /** An `f64`, by its bits, with the text `to_string` gives for it. */
  datatype Float = Float(bits: nat, shown: string)

  datatype Token =
    | Identifier(name: string)
    | Number(number: Float)
    | Quoted(text: string)
    | Operator(symbol: string)
    | LeftParen
    | RightParen
    | LeftBracket
    | RightBracket
    | Dot
    | Pipe

  datatype Literal = Null | Bool(flag: bool) | Num(number: Float) | Str(text: string) | EmptyList

  datatype BinaryOperator =
    Add | Subtract | Equal | NotEqual | Less | LessOrEqual | Greater | GreaterOrEqual | And | Or

  datatype Expression =
    | Constant(value: Literal)
    | Variable(name: string)
    | Member(base: Expression, member: string)
    | Index(base: Expression, index: Expression)
    | UnaryNot(operand: Expression)
    | Binary(operator: BinaryOperator, left: Expression, right: Expression)
    | IsDefined(operand: Expression)
    | Filter(base: Expression, filter: string)

  /** The two errors parsing can raise; their messages are not modelled. */
  datatype TemplateError = Parse | Unsupported

  /** A tree and the tokens after it. */
  datatype Parsed = Done(tree: Expression, rest: seq<Token>) | Failed(error: TemplateError)

  predicate Keyword(ts: seq<Token>, word: string) {
    ts != [] && ts[0] == Identifier(word)
  }

  /** What the name of a literal stands for. */
  function NamedLiteral(name: string): Option<Literal> {
    if name == "true" || name == "True" then Some(Bool(true))
    else if name == "false" || name == "False" then Some(Bool(false))
    else if name == "none" || name == "None" || name == "null" then Some(Null)
    else None
  }

  function ComparisonOf(symbol: string): Option<BinaryOperator> {
    if symbol == "==" then Some(Equal)
    else if symbol == "!=" then Some(NotEqual)
    else if symbol == "<" then Some(Less)
    else if symbol == "<=" then Some(LessOrEqual)
    else if symbol == ">" then Some(Greater)
    else if symbol == ">=" then Some(GreaterOrEqual)
    else None
  }

  function ComparisonAt(ts: seq<Token>): Option<BinaryOperator> {
    if ts != [] && ts[0].Operator? then ComparisonOf(ts[0].symbol) else None
  }

  function AdditiveAt(ts: seq<Token>): Option<BinaryOperator> {
    if ts != [] && ts[0] == Operator("+") then Some(Add)
    else if ts != [] && ts[0] == Operator("-") then Some(Subtract)
    else None
  }

  // ---------------------------------------------------------------------------------------------
  // Levels, and which trees can be written
  // ---------------------------------------------------------------------------------------------

  const OR_LEVEL: nat := 0
  const AND_LEVEL: nat := 1
  const NOT_LEVEL: nat := 2
  const COMPARISON_LEVEL: nat := 3
  const CONCAT_LEVEL: nat := 4
  const POSTFIX_LEVEL: nat := 5

  function Level(e: Expression): (level: nat)
    ensures level <= POSTFIX_LEVEL
  {
    match e
    case Binary(Or, _, _) => OR_LEVEL
    case Binary(And, _, _) => AND_LEVEL
    case UnaryNot(_) => NOT_LEVEL
    case Binary(Add, _, _) => CONCAT_LEVEL
    case Binary(Subtract, _, _) => CONCAT_LEVEL
    case Binary(_, _, _) => COMPARISON_LEVEL
    case IsDefined(_) => COMPARISON_LEVEL
    case _ => POSTFIX_LEVEL
  }

  /** The levels at which an operator's operands may stand without parentheses. */
  function LeftLevel(operator: BinaryOperator): nat {
    match operator
    case Or => OR_LEVEL
    case And => AND_LEVEL
    case _ => CONCAT_LEVEL
  }

  function RightLevel(operator: BinaryOperator): nat {
    match operator
    case Or => AND_LEVEL
    case And => NOT_LEVEL
    case Add => POSTFIX_LEVEL
    case Subtract => POSTFIX_LEVEL
    case _ => CONCAT_LEVEL
  }

  /** Written without parentheses around it, the tree starts with a variable called `not`. */
  predicate LeadsNot(e: Expression)
    decreases e, 0
  {
    match e
    case Constant(_) => false
    case Variable(name) => name == "not"
    case Member(base, _) => LeadsNotAt(base, POSTFIX_LEVEL)
    case Index(base, _) => LeadsNotAt(base, POSTFIX_LEVEL)
    case Filter(base, _) => LeadsNotAt(base, POSTFIX_LEVEL)
    case UnaryNot(_) => false
    case IsDefined(operand) => LeadsNotAt(operand, CONCAT_LEVEL)
    case Binary(operator, left, _) => LeadsNotAt(left, LeftLevel(operator))
  }

  predicate LeadsNotAt(e: Expression, level: nat)
    decreases e, 1
  {
    Level(e) >= level && LeadsNot(e)
  }

  /**
   * No variable is spelled like a literal, and none called `not` stands where `not` is the
   * operator: in front of a whole expression, a parenthesis, an index, or an operand of `or`,
   * `and` or `not`.
   */
  predicate Good(e: Expression)
    decreases e, 0
  {
    match e
    case Constant(_) => true
    case Variable(name) => NamedLiteral(name).None?
    case Member(base, _) => GoodAt(base, POSTFIX_LEVEL)
    case Index(base, index) => GoodAt(base, POSTFIX_LEVEL) && GoodAt(index, OR_LEVEL)
    case Filter(base, _) => GoodAt(base, POSTFIX_LEVEL)
    case UnaryNot(operand) => GoodAt(operand, NOT_LEVEL)
    case IsDefined(operand) => GoodAt(operand, CONCAT_LEVEL)
    case Binary(operator, left, right) => GoodAt(left, LeftLevel(operator)) && GoodAt(right, RightLevel(operator))
  }

  predicate GoodAt(e: Expression, level: nat)
    decreases e, 1
  {
    Good(e) && (Level(e) < level || level <= NOT_LEVEL ==> !LeadsNot(e))
  }

  predicate Writable(e: Expression) {
    GoodAt(e, OR_LEVEL)
  }

  // ---------------------------------------------------------------------------------------------
  // The grammar as functions on the remaining tokens
  // ---------------------------------------------------------------------------------------------

  /** A tree read at a level, which starts with a variable `not` only if the tokens do. */
  predicate GoodOrKeyword(e: Expression, level: nat, ts: seq<Token>) {
    GoodAt(e, level) && (LeadsNot(e) ==> Keyword(ts, "not"))
  }

  /** What is read after a good tree makes a good tree that starts like it. */
  predicate Keeps(left: Expression, leftLevel: nat, e: Expression, level: nat) {
    GoodAt(left, leftLevel) ==> GoodAt(e, level) && (LeadsNot(e) ==> LeadsNot(left))
  }

  lemma {:induction false} BinaryKeeps(operator: BinaryOperator, left: Expression, right: Expression)
    requires GoodAt(right, RightLevel(operator))
    ensures var e := Binary(operator, left, right); Keeps(left, LeftLevel(operator), e, Level(e))
  {
    assert LeadsNot(Binary(operator, left, right)) == LeadsNotAt(left, LeftLevel(operator));
    assert LeadsNotAt(left, LeftLevel(operator)) ==> LeadsNot(left);
  }

  lemma {:induction false} DefinedKeeps(left: Expression)
    ensures Keeps(left, CONCAT_LEVEL, IsDefined(left), COMPARISON_LEVEL)
  {
    assert LeadsNot(IsDefined(left)) == LeadsNotAt(left, CONCAT_LEVEL);
    assert LeadsNotAt(left, CONCAT_LEVEL) ==> LeadsNot(left);
  }

  lemma {:induction false} MemberKeeps(base: Expression, member: string)
    ensures Keeps(base, POSTFIX_LEVEL, Member(base, member), POSTFIX_LEVEL)
  {
    assert LeadsNot(Member(base, member)) == LeadsNotAt(base, POSTFIX_LEVEL);
    assert LeadsNotAt(base, POSTFIX_LEVEL) ==> LeadsNot(base);
  }

  lemma {:induction false} IndexKeeps(base: Expression, index: Expression)
    requires GoodAt(index, OR_LEVEL)
    ensures Keeps(base, POSTFIX_LEVEL, Index(base, index), POSTFIX_LEVEL)
  {
    assert LeadsNot(Index(base, index)) == LeadsNotAt(base, POSTFIX_LEVEL);
    assert LeadsNotAt(base, POSTFIX_LEVEL) ==> LeadsNot(base);
  }

  lemma {:induction false} FilterKeeps(base: Expression, filter: string)
    ensures Keeps(base, POSTFIX_LEVEL, Filter(base, filter), POSTFIX_LEVEL)
  {
    assert LeadsNot(Filter(base, filter)) == LeadsNotAt(base, POSTFIX_LEVEL);
    assert LeadsNotAt(base, POSTFIX_LEVEL) ==> LeadsNot(base);
  }

  function ParseOr(ts: seq<Token>): (r: Parsed)
    ensures r.Done? ==> |r.rest| < |ts| && GoodAt(r.tree, OR_LEVEL)
    decreases |ts|, 6
  {
    match ParseAnd(ts)
    case Failed(e) => Failed(e)
    case Done(tree, rest) => OrTail(tree, rest)
  }

  function OrTail(left: Expression, ts: seq<Token>): (r: Parsed)
    ensures r.Done? ==> |r.rest| <= |ts| && Keeps(left, OR_LEVEL, r.tree, OR_LEVEL)
    decreases |ts|, 7
  {
    if !Keyword(ts, "or") then Done(left, ts)
    else
      match ParseAnd(ts[1..])
      case Failed(e) => Failed(e)
      case Done(right, rest) =>
        BinaryKeeps(Or, left, right);
        OrTail(Binary(Or, left, right), rest)
  }

  function ParseAnd(ts: seq<Token>): (r: Parsed)
    ensures r.Done? ==> |r.rest| < |ts| && GoodAt(r.tree, AND_LEVEL)
    decreases |ts|, 5
  {
    match ParseNot(ts)
    case Failed(e) => Failed(e)
    case Done(tree, rest) => AndTail(tree, rest)
  }

  function AndTail(left: Expression, ts: seq<Token>): (r: Parsed)
    ensures r.Done? ==> |r.rest| <= |ts| && Keeps(left, AND_LEVEL, r.tree, AND_LEVEL)
    decreases |ts|, 7
  {
    if !Keyword(ts, "and") then Done(left, ts)
    else
      match ParseNot(ts[1..])
      case Failed(e) => Failed(e)
      case Done(right, rest) =>
        BinaryKeeps(And, left, right);
        AndTail(Binary(And, left, right), rest)
  }

  function ParseNot(ts: seq<Token>): (r: Parsed)
    ensures r.Done? ==> |r.rest| < |ts| && GoodAt(r.tree, NOT_LEVEL)
    decreases |ts|, 4
  {
    if Keyword(ts, "not") then
      match ParseNot(ts[1..])
      case Failed(e) => Failed(e)
      case Done(tree, rest) => Done(UnaryNot(tree), rest)
    else
      ParseComparison(ts)
  }

  /** At most one comparison, and nothing after `is defined`. */
  function ParseComparison(ts: seq<Token>): (r: Parsed)
    ensures r.Done? ==> |r.rest| < |ts| && GoodOrKeyword(r.tree, COMPARISON_LEVEL, ts)
    decreases |ts|, 3
  {
    match ParseConcat(ts)
    case Failed(e) => Failed(e)
    case Done(tree, rest) => ComparisonTail(tree, rest)
  }

  function ComparisonTail(left: Expression, ts: seq<Token>): (r: Parsed)
    ensures r.Done? ==> |r.rest| <= |ts| && Keeps(left, CONCAT_LEVEL, r.tree, COMPARISON_LEVEL)
    decreases |ts|, 7
  {
    if Keyword(ts, "is") then
      DefinedKeeps(left);
      if Keyword(ts[1..], "defined") then Done(IsDefined(left), ts[2..]) else Failed(Unsupported)
    else if ComparisonAt(ts).Some? then
      match ParseConcat(ts[1..])
      case Failed(e) => Failed(e)
      case Done(right, rest) =>
        BinaryKeeps(ComparisonAt(ts).value, left, right);
        Done(Binary(ComparisonAt(ts).value, left, right), rest)
    else
      Done(left, ts)
  }

  function ParseConcat(ts: seq<Token>): (r: Parsed)
    ensures r.Done? ==> |r.rest| < |ts| && GoodOrKeyword(r.tree, CONCAT_LEVEL, ts)
    decreases |ts|, 2
  {
    match ParsePostfix(ts)
    case Failed(e) => Failed(e)
    case Done(tree, rest) => ConcatTail(tree, rest)
  }

  function ConcatTail(left: Expression, ts: seq<Token>): (r: Parsed)
    ensures r.Done? ==> |r.rest| <= |ts| && Keeps(left, CONCAT_LEVEL, r.tree, CONCAT_LEVEL)
    decreases |ts|, 7
  {
    if AdditiveAt(ts).None? then Done(left, ts)
    else
      match ParsePostfix(ts[1..])
      case Failed(e) => Failed(e)
      case Done(right, rest) =>
        BinaryKeeps(AdditiveAt(ts).value, left, right);
        ConcatTail(Binary(AdditiveAt(ts).value, left, right), rest)
  }

  function ParsePostfix(ts: seq<Token>): (r: Parsed)
    ensures r.Done? ==> |r.rest| < |ts| && GoodOrKeyword(r.tree, POSTFIX_LEVEL, ts)
    decreases |ts|, 1
  {
    match ParsePrimary(ts)
    case Failed(e) => Failed(e)
    case Done(tree, rest) => PostfixTail(tree, rest)
  }

  function PostfixTail(base: Expression, ts: seq<Token>): (r: Parsed)
    ensures r.Done? ==> |r.rest| <= |ts| && Keeps(base, POSTFIX_LEVEL, r.tree, POSTFIX_LEVEL)
    decreases |ts|, 7
  {
    if ts != [] && ts[0] == Dot then
      if |ts| > 1 && ts[1].Identifier? then
        MemberKeeps(base, ts[1].name);
        PostfixTail(Member(base, ts[1].name), ts[2..])
      else if |ts| > 1 && ts[1].Number? then
        MemberKeeps(base, ts[1].number.shown);
        PostfixTail(Member(base, ts[1].number.shown), ts[2..])
      else Failed(Parse)
    else if ts != [] && ts[0] == LeftBracket then
      match ParseOr(ts[1..])
      case Failed(e) => Failed(e)
      case Done(index, rest) =>
        IndexKeeps(base, index);
        if rest != [] && rest[0] == RightBracket then PostfixTail(Index(base, index), rest[1..]) else Failed(Parse)
    else if ts != [] && ts[0] == Pipe then
      if |ts| > 1 && ts[1].Identifier? then
        FilterKeeps(base, ts[1].name);
        PostfixTail(Filter(base, ts[1].name), ts[2..])
      else Failed(Parse)
    else
      Done(base, ts)
  }

  function ParsePrimary(ts: seq<Token>): (r: Parsed)
    ensures r.Done? ==> |r.rest| < |ts| && GoodOrKeyword(r.tree, POSTFIX_LEVEL, ts)
    decreases |ts|, 0
  {
    if ts == [] then Failed(Parse)
    else
      match ts[0]
      case Quoted(text) => Done(Constant(Str(text)), ts[1..])
      case Number(number) => Done(Constant(Num(number)), ts[1..])
      case Identifier(name) =>
        if NamedLiteral(name).Some? then Done(Constant(NamedLiteral(name).value), ts[1..])
        else Done(Variable(name), ts[1..])
      case LeftParen =>
        (match ParseOr(ts[1..])
         case Failed(e) => Failed(e)
         case Done(tree, rest) =>
           if rest != [] && rest[0] == RightParen then Done(tree, rest[1..]) else Failed(Parse))
      case LeftBracket =>
        if |ts| > 1 && ts[1] == RightBracket then Done(Constant(EmptyList), ts[2..]) else Failed(Unsupported)
      case _ => Failed(Parse)
  }

  /** A whole expression: nothing may be left over. */
  function ParseExpression(ts: seq<Token>): Result<Expression, TemplateError> {
    match ParseOr(ts)
    case Failed(e) => Err(e)
    case Done(tree, rest) => if rest == [] then Ok(tree) else Err(Parse)
  }

  // ---------------------------------------------------------------------------------------------
  // The printer: parentheses exactly where the level would otherwise be wrong
  // ---------------------------------------------------------------------------------------------

  function OperatorToken(operator: BinaryOperator): Token {
    match operator
    case Add => Operator("+")
    case Subtract => Operator("-")
    case Equal => Operator("==")
    case NotEqual => Operator("!=")
    case Less => Operator("<")
    case LessOrEqual => Operator("<=")
    case Greater => Operator(">")
    case GreaterOrEqual => Operator(">=")
    case And => Identifier("and")
    case Or => Identifier("or")
  }

  function PrintLiteral(value: Literal): seq<Token> {
    match value
    case Null => [Identifier("none")]
    case Bool(flag) => [Identifier(if flag then "true" else "false")]
    case Num(number) => [Number(number)]
    case Str(text) => [Quoted(text)]
    case EmptyList => [LeftBracket, RightBracket]
  }

  function Print(e: Expression, level: nat): seq<Token>
    decreases e, 1
  {
    if Level(e) < level then [LeftParen] + (Body(e) + [RightParen]) else Body(e)
  }

  function Body(e: Expression): seq<Token>
    decreases e, 0
  {
    match e
    case Constant(value) => PrintLiteral(value)
    case Variable(name) => [Identifier(name)]
    case Member(base, member) => Print(base, POSTFIX_LEVEL) + [Dot, Identifier(member)]
    case Index(base, index) =>
      Print(base, POSTFIX_LEVEL) + ([LeftBracket] + (Print(index, OR_LEVEL) + [RightBracket]))
    case Filter(base, filter) => Print(base, POSTFIX_LEVEL) + [Pipe, Identifier(filter)]
    case UnaryNot(operand) => [Identifier("not")] + Print(operand, NOT_LEVEL)
    case IsDefined(operand) => Print(operand, CONCAT_LEVEL) + [Identifier("is"), Identifier("defined")]
    case Binary(operator, left, right) =>
      Print(left, LeftLevel(operator)) + ([OperatorToken(operator)] + Print(right, RightLevel(operator)))
  }

  // ---------------------------------------------------------------------------------------------
  // What may follow a printed expression
  // ---------------------------------------------------------------------------------------------

  predicate StopsPostfix(ts: seq<Token>) {
    ts == [] || (ts[0] != Dot && ts[0] != LeftBracket && ts[0] != Pipe)
  }

  predicate StopsConcat(ts: seq<Token>) {
    StopsPostfix(ts) && AdditiveAt(ts).None?
  }

  predicate StopsComparison(ts: seq<Token>) {
    StopsConcat(ts) && ComparisonAt(ts).None? && !Keyword(ts, "is")
  }

  predicate StopsAnd(ts: seq<Token>) {
    StopsComparison(ts) && !Keyword(ts, "and")
  }

  // ---------------------------------------------------------------------------------------------
  // The parser inverts the printer, level by level
  // ---------------------------------------------------------------------------------------------

  /** How much work is left at a level: an expression below the level is parenthesised first. */
  function Work(e: Expression, level: nat): nat
    requires level <= 6
  {
    if level <= Level(e) then 6 - level else 20 - level
  }

  lemma {:induction false} Cons(t: Token, ts: seq<Token>)
    ensures ([t] + ts)[0] == t && ([t] + ts)[1..] == ts
  {}

  lemma {:induction false} Infix(a: seq<Token>, t: Token, b: seq<Token>, c: seq<Token>)
    ensures (a + ([t] + b)) + c == a + ([t] + (b + c))
  {}

  lemma {:induction false} Suffix(a: seq<Token>, t: Token, u: Token, c: seq<Token>)
    ensures (a + [t, u]) + c == a + ([t] + ([u] + c))
  {}

  lemma {:induction false} Enclosed(t: Token, a: seq<Token>, u: Token, c: seq<Token>)
    ensures ([t] + (a + [u])) + c == [t] + (a + ([u] + c))
  {}

  lemma {:induction false} SameAbove(e: Expression, level: nat)
    requires Level(e) != level
    ensures Print(e, level) == Print(e, level + 1)
  {}

  lemma {:induction false} OrInverts(e: Expression, rest: seq<Token>)
    requires GoodAt(e, OR_LEVEL) && StopsAnd(rest)
    ensures ParseOr(Print(e, OR_LEVEL) + rest) == OrTail(e, rest)
    decreases e, Work(e, 0)
  {
    if Level(e) == OR_LEVEL {
      var after := Print(e.right, AND_LEVEL) + rest;
      Infix(Print(e.left, OR_LEVEL), Identifier("or"), Print(e.right, AND_LEVEL), rest);
      Cons(Identifier("or"), after);
      OrInverts(e.left, [Identifier("or")] + after);
      AndInverts(e.right, rest);
    } else {
      SameAbove(e, OR_LEVEL);
      AndInverts(e, rest);
    }
  }

  lemma {:induction false} AndInverts(e: Expression, rest: seq<Token>)
    requires GoodAt(e, AND_LEVEL) && StopsComparison(rest)
    ensures ParseAnd(Print(e, AND_LEVEL) + rest) == AndTail(e, rest)
    decreases e, Work(e, 1)
  {
    if Level(e) == AND_LEVEL {
      var after := Print(e.right, NOT_LEVEL) + rest;
      Infix(Print(e.left, AND_LEVEL), Identifier("and"), Print(e.right, NOT_LEVEL), rest);
      Cons(Identifier("and"), after);
      AndInverts(e.left, [Identifier("and")] + after);
      NotInverts(e.right, rest);
    } else {
      SameAbove(e, AND_LEVEL);
      NotInverts(e, rest);
    }
  }

  lemma {:induction false} NotInverts(e: Expression, rest: seq<Token>)
    requires GoodAt(e, NOT_LEVEL) && StopsComparison(rest)
    ensures ParseNot(Print(e, NOT_LEVEL) + rest) == Done(e, rest)
    decreases e, Work(e, 2)
  {
    if Level(e) == NOT_LEVEL {
      var after := Print(e.operand, NOT_LEVEL) + rest;
      assert Print(e, NOT_LEVEL) + rest == [Identifier("not")] + after;
      Cons(Identifier("not"), after);
      NotInverts(e.operand, rest);
    } else {
      SameAbove(e, NOT_LEVEL);
      StartsWithoutNot(e, COMPARISON_LEVEL);
      ComparisonInverts(e, rest);
    }
  }

  /** Above the level of `not`, what is printed starts with it only when the tree leads with such a variable. */
  lemma {:induction false} StartsWithoutNot(e: Expression, level: nat)
    requires level > NOT_LEVEL && (Level(e) < level || !LeadsNot(e))
    ensures Print(e, level) != [] && Print(e, level)[0] != Identifier("not")
    decreases e
  {
    if Level(e) >= level {
      match e
      case Constant(_) =>
      case Variable(_) =>
      case Member(base, _) => StartsWithoutNot(base, POSTFIX_LEVEL);
      case Index(base, _) => StartsWithoutNot(base, POSTFIX_LEVEL);
      case Filter(base, _) => StartsWithoutNot(base, POSTFIX_LEVEL);
      case IsDefined(operand) => StartsWithoutNot(operand, CONCAT_LEVEL);
      case Binary(_, left, _) => StartsWithoutNot(left, CONCAT_LEVEL);
    }
  }

  lemma {:induction false} ComparisonInverts(e: Expression, rest: seq<Token>)
    requires GoodAt(e, COMPARISON_LEVEL) && StopsComparison(rest)
    ensures ParseComparison(Print(e, COMPARISON_LEVEL) + rest) == Done(e, rest)
    decreases e, Work(e, 3)
  {
    if e.IsDefined? {
      var is_, defined := Identifier("is"), Identifier("defined");
      Suffix(Print(e.operand, CONCAT_LEVEL), is_, defined, rest);
      Cons(is_, [defined] + rest);
      Cons(defined, rest);
      ConcatInverts(e.operand, [is_] + ([defined] + rest));
    } else if Level(e) == COMPARISON_LEVEL {
      var operator := OperatorToken(e.operator);
      var after := Print(e.right, CONCAT_LEVEL) + rest;
      Infix(Print(e.left, CONCAT_LEVEL), operator, Print(e.right, CONCAT_LEVEL), rest);
      Cons(operator, after);
      ConcatInverts(e.left, [operator] + after);
      ConcatInverts(e.right, rest);
      assert ComparisonAt([operator] + after) == Some(e.operator);
    } else {
      SameAbove(e, COMPARISON_LEVEL);
      ConcatInverts(e, rest);
    }
  }

  lemma {:induction false} ConcatInverts(e: Expression, rest: seq<Token>)
    requires GoodAt(e, CONCAT_LEVEL) && StopsPostfix(rest)
    ensures ParseConcat(Print(e, CONCAT_LEVEL) + rest) == ConcatTail(e, rest)
    decreases e, Work(e, 4)
  {
    if Level(e) == CONCAT_LEVEL {
      var operator := OperatorToken(e.operator);
      var after := Print(e.right, POSTFIX_LEVEL) + rest;
      Infix(Print(e.left, CONCAT_LEVEL), operator, Print(e.right, POSTFIX_LEVEL), rest);
      Cons(operator, after);
      ConcatInverts(e.left, [operator] + after);
      PostfixInverts(e.right, rest);
    } else {
      SameAbove(e, CONCAT_LEVEL);
      PostfixInverts(e, rest);
    }
  }

  lemma {:induction false} PostfixInverts(e: Expression, rest: seq<Token>)
    requires GoodAt(e, POSTFIX_LEVEL)
    ensures ParsePostfix(Print(e, POSTFIX_LEVEL) + rest) == PostfixTail(e, rest)
    decreases e, Work(e, 5)
  {
    if Level(e) < POSTFIX_LEVEL {
      var closed := [RightParen] + rest;
      Enclosed(LeftParen, Body(e), RightParen, rest);
      Cons(LeftParen, Body(e) + closed);
      Cons(RightParen, rest);
      OrInverts(e, closed);
      assert Print(e, OR_LEVEL) == Body(e);
    } else {
      match e
      case Constant(value) => ConstantInverts(value, rest);
      case Variable(name) => Cons(Identifier(name), rest);
      case Member(base, member) =>
        Suffix(Print(base, POSTFIX_LEVEL), Dot, Identifier(member), rest);
        PostfixInverts(base, [Dot] + ([Identifier(member)] + rest));
        MemberTail(base, member, rest);
      case Filter(base, filter) =>
        Suffix(Print(base, POSTFIX_LEVEL), Pipe, Identifier(filter), rest);
        PostfixInverts(base, [Pipe] + ([Identifier(filter)] + rest));
        FilterTail(base, filter, rest);
      case Index(base, index) =>
        var closed := [RightBracket] + rest;
        var inner := Print(index, OR_LEVEL) + [RightBracket];
        Infix(Print(base, POSTFIX_LEVEL), LeftBracket, inner, rest);
        assert inner + rest == Print(index, OR_LEVEL) + closed;
        PostfixInverts(base, [LeftBracket] + (Print(index, OR_LEVEL) + closed));
        Cons(LeftBracket, Print(index, OR_LEVEL) + closed);
        Cons(RightBracket, rest);
        OrInverts(index, closed);
    }
  }

  lemma {:induction false} ConstantInverts(value: Literal, rest: seq<Token>)
    ensures ParsePostfix(PrintLiteral(value) + rest) == PostfixTail(Constant(value), rest)
  {
    var ts := PrintLiteral(value);
    if value.EmptyList? {
      assert (ts + rest)[2..] == rest;
    } else {
      Cons(ts[0], rest);
    }
    assert ParsePrimary(ts + rest) == Done(Constant(value), rest);
  }

  lemma {:induction false} MemberTail(base: Expression, member: string, rest: seq<Token>)
    ensures PostfixTail(base, [Dot] + ([Identifier(member)] + rest)) == PostfixTail(Member(base, member), rest)
  {
    var ts := [Dot] + ([Identifier(member)] + rest);
    assert ts[1] == Identifier(member) && ts[2..] == rest;
  }

  lemma {:induction false} FilterTail(base: Expression, filter: string, rest: seq<Token>)
    ensures PostfixTail(base, [Pipe] + ([Identifier(filter)] + rest)) == PostfixTail(Filter(base, filter), rest)
  {
    var ts := [Pipe] + ([Identifier(filter)] + rest);
    assert ts[1] == Identifier(filter) && ts[2..] == rest;
  }

  /** Every writable expression is read back exactly. */
  lemma {:induction false} ParserInvertsPrinter(e: Expression)
    requires Writable(e)
    ensures ParseExpression(Print(e, OR_LEVEL)) == Ok(e)
  {
    OrInverts(e, []);
    assert Print(e, OR_LEVEL) + [] == Print(e, OR_LEVEL);
  }

  /** No other tree is: the parser never returns one. */
  lemma {:induction false} ReadBackExactly(e: Expression)
    ensures ParseExpression(Print(e, OR_LEVEL)) == Ok(e) <==> Writable(e)
  {
    if Writable(e) {
      ParserInvertsPrinter(e);
    }
  }

  /** So the printer never confuses two expressions. */
  lemma {:induction false} PrinterIsInjective(a: Expression, b: Expression)
    requires Writable(a) && Writable(b) && Print(a, OR_LEVEL) == Print(b, OR_LEVEL)
    ensures a == b
  {
    ParserInvertsPrinter(a);
    ParserInvertsPrinter(b);
  }

  /** Whatever the parser accepts has a printed form that it reads the same way. */
  lemma {:induction false} AcceptedIsReprintable(ts: seq<Token>)
    requires ParseExpression(ts).Ok?
    ensures Writable(ParseExpression(ts).value)
    ensures ParseExpression(Print(ParseExpression(ts).value, OR_LEVEL)) == ParseExpression(ts)
  {
    ParserInvertsPrinter(ParseExpression(ts).value);
  }

  /** After an operator `not` is taken for a variable; no expression is that variable alone. */
  lemma {:induction false} NotAfterOperatorIsAVariable()
    ensures ParseExpression([Identifier("a"), Operator("=="), Identifier("not")])
         == Ok(Binary(Equal, Variable("a"), Variable("not")))
    ensures forall ts :: ParseExpression(ts) != Ok(Variable("not"))
  {
    var e := Binary(Equal, Variable("a"), Variable("not"));
    ParserInvertsPrinter(e);
    assert Print(e, OR_LEVEL) == [Identifier("a"), Operator("=="), Identifier("not")];
  }

  // ---------------------------------------------------------------------------------------------
  // Where `not` is a variable
  // ---------------------------------------------------------------------------------------------

  /** A variable is called `not`. */
  predicate UsesNot(e: Expression) {
    match e
    case Constant(_) => false
    case Variable(name) => name == "not"
    case Member(base, _) => UsesNot(base)
    case Index(base, index) => UsesNot(base) || UsesNot(index)
    case Filter(base, _) => UsesNot(base)
    case UnaryNot(operand) => UsesNot(operand)
    case IsDefined(operand) => UsesNot(operand)
    case Binary(_, left, right) => UsesNot(left) || UsesNot(right)
  }

  predicate NotFollowsOperator(ts: seq<Token>, i: nat)
    requires i + 1 < |ts|
  {
    ts[i].Operator? && ts[i + 1] == Identifier("not")
  }

  /** Some operator token is directly followed by `not`. */
  predicate OperatorNot(ts: seq<Token>) {
    exists i :: 0 <= i < |ts| - 1 && NotFollowsOperator(ts, i)
  }

  lemma {:induction false} OperatorNotStep(ts: seq<Token>)
    requires ts != []
    ensures OperatorNot(ts) <==> (ts[0].Operator? && Keyword(ts[1..], "not")) || OperatorNot(ts[1..])
  {
    if OperatorNot(ts) {
      var i :| 0 <= i < |ts| - 1 && NotFollowsOperator(ts, i);
      if i > 0 {
        assert NotFollowsOperator(ts[1..], i - 1);
      }
    }
    if OperatorNot(ts[1..]) {
      var i :| 0 <= i < |ts[1..]| - 1 && NotFollowsOperator(ts[1..], i);
      assert NotFollowsOperator(ts, i + 1);
    }
    if ts[0].Operator? && Keyword(ts[1..], "not") {
      assert NotFollowsOperator(ts, 0);
    }
  }

  /** Reading `ts` to `rest` accounts for every `not` after an operator, and for a leading one where `leading` says. */
  predicate Accounts(ts: seq<Token>, leading: bool, e: Expression, rest: seq<Token>) {
    (leading && Keyword(ts, "not")) || OperatorNot(ts) <==> UsesNot(e) || OperatorNot(rest)
  }

  /** The same for what is read after `left`. */
  predicate AccountsAfter(left: Expression, ts: seq<Token>, e: Expression, rest: seq<Token>) {
    UsesNot(left) || OperatorNot(ts) <==> UsesNot(e) || OperatorNot(rest)
  }

  lemma {:induction false} OrAccounts(ts: seq<Token>)
    ensures ParseOr(ts).Done? ==> Accounts(ts, false, ParseOr(ts).tree, ParseOr(ts).rest)
    decreases |ts|, 6
  {
    hide OperatorNot, Good, GoodAt, LeadsNot;
    AndAccounts(ts);
    match ParseAnd(ts)
    case Failed(_) =>
    case Done(tree, rest) => OrTailAccounts(tree, rest);
  }

  lemma {:induction false} OrTailAccounts(left: Expression, ts: seq<Token>)
    ensures OrTail(left, ts).Done? ==> AccountsAfter(left, ts, OrTail(left, ts).tree, OrTail(left, ts).rest)
    decreases |ts|, 7
  {
    hide OperatorNot, Good, GoodAt, LeadsNot;
    if Keyword(ts, "or") {
      OperatorNotStep(ts);
      AndAccounts(ts[1..]);
      match ParseAnd(ts[1..])
      case Failed(_) =>
      case Done(right, rest) => OrTailAccounts(Binary(Or, left, right), rest);
    }
  }

  lemma {:induction false} AndAccounts(ts: seq<Token>)
    ensures ParseAnd(ts).Done? ==> Accounts(ts, false, ParseAnd(ts).tree, ParseAnd(ts).rest)
    decreases |ts|, 5
  {
    hide OperatorNot, Good, GoodAt, LeadsNot;
    NotAccounts(ts);
    match ParseNot(ts)
    case Failed(_) =>
    case Done(tree, rest) => AndTailAccounts(tree, rest);
  }

  lemma {:induction false} AndTailAccounts(left: Expression, ts: seq<Token>)
    ensures AndTail(left, ts).Done? ==> AccountsAfter(left, ts, AndTail(left, ts).tree, AndTail(left, ts).rest)
    decreases |ts|, 7
  {
    hide OperatorNot, Good, GoodAt, LeadsNot;
    if Keyword(ts, "and") {
      OperatorNotStep(ts);
      NotAccounts(ts[1..]);
      match ParseNot(ts[1..])
      case Failed(_) =>
      case Done(right, rest) => AndTailAccounts(Binary(And, left, right), rest);
    }
  }

  lemma {:induction false} NotAccounts(ts: seq<Token>)
    ensures ParseNot(ts).Done? ==> Accounts(ts, false, ParseNot(ts).tree, ParseNot(ts).rest)
    decreases |ts|, 4
  {
    hide OperatorNot, Good, GoodAt, LeadsNot;
    if Keyword(ts, "not") {
      OperatorNotStep(ts);
      NotAccounts(ts[1..]);
    } else {
      ComparisonAccounts(ts);
    }
  }

  lemma {:induction false} ComparisonAccounts(ts: seq<Token>)
    ensures ParseComparison(ts).Done? ==> Accounts(ts, true, ParseComparison(ts).tree, ParseComparison(ts).rest)
    decreases |ts|, 3
  {
    hide OperatorNot, Good, GoodAt, LeadsNot;
    ConcatAccounts(ts);
    match ParseConcat(ts)
    case Failed(_) =>
    case Done(tree, rest) => ComparisonTailAccounts(tree, rest);
  }

  lemma {:induction false} ComparisonTailAccounts(left: Expression, ts: seq<Token>)
    ensures ComparisonTail(left, ts).Done? ==> AccountsAfter(left, ts, ComparisonTail(left, ts).tree, ComparisonTail(left, ts).rest)
    decreases |ts|, 7
  {
    hide OperatorNot, Good, GoodAt, LeadsNot;
    if Keyword(ts, "is") {
      OperatorNotStep(ts);
      if Keyword(ts[1..], "defined") {
        OperatorNotStep(ts[1..]);
        assert ts[1..][1..] == ts[2..];
      }
    } else if ComparisonAt(ts).Some? {
      OperatorNotStep(ts);
      ConcatAccounts(ts[1..]);
    }
  }

  lemma {:induction false} ConcatAccounts(ts: seq<Token>)
    ensures ParseConcat(ts).Done? ==> Accounts(ts, true, ParseConcat(ts).tree, ParseConcat(ts).rest)
    decreases |ts|, 2
  {
    hide OperatorNot, Good, GoodAt, LeadsNot;
    PostfixAccounts(ts);
    match ParsePostfix(ts)
    case Failed(_) =>
    case Done(tree, rest) => ConcatTailAccounts(tree, rest);
  }

  lemma {:induction false} ConcatTailAccounts(left: Expression, ts: seq<Token>)
    ensures ConcatTail(left, ts).Done? ==> AccountsAfter(left, ts, ConcatTail(left, ts).tree, ConcatTail(left, ts).rest)
    decreases |ts|, 7
  {
    hide OperatorNot, Good, GoodAt, LeadsNot;
    if AdditiveAt(ts).Some? {
      OperatorNotStep(ts);
      PostfixAccounts(ts[1..]);
      match ParsePostfix(ts[1..])
      case Failed(_) =>
      case Done(right, rest) => ConcatTailAccounts(Binary(AdditiveAt(ts).value, left, right), rest);
    }
  }

  lemma {:induction false} PostfixAccounts(ts: seq<Token>)
    ensures ParsePostfix(ts).Done? ==> Accounts(ts, true, ParsePostfix(ts).tree, ParsePostfix(ts).rest)
    decreases |ts|, 1
  {
    hide OperatorNot, Good, GoodAt, LeadsNot;
    PrimaryAccounts(ts);
    match ParsePrimary(ts)
    case Failed(_) =>
    case Done(tree, rest) => PostfixTailAccounts(tree, rest);
  }

  lemma {:induction false} PostfixTailAccounts(base: Expression, ts: seq<Token>)
    ensures PostfixTail(base, ts).Done? ==> AccountsAfter(base, ts, PostfixTail(base, ts).tree, PostfixTail(base, ts).rest)
    decreases |ts|, 7
  {
    hide OperatorNot, Good, GoodAt, LeadsNot;
    if ts != [] && ts[0] in {Dot, Pipe} && |ts| > 1 {
      OperatorNotStep(ts);
      OperatorNotStep(ts[1..]);
      assert ts[1..][1..] == ts[2..] && ts[1..][0] == ts[1];
      if ts[0] == Dot && ts[1].Identifier? {
        PostfixTailAccounts(Member(base, ts[1].name), ts[2..]);
      } else if ts[0] == Dot && ts[1].Number? {
        PostfixTailAccounts(Member(base, ts[1].number.shown), ts[2..]);
      } else if ts[0] == Pipe && ts[1].Identifier? {
        PostfixTailAccounts(Filter(base, ts[1].name), ts[2..]);
      }
    } else if ts != [] && ts[0] == LeftBracket {
      OperatorNotStep(ts);
      OrAccounts(ts[1..]);
      match ParseOr(ts[1..])
      case Failed(_) =>
      case Done(index, rest) =>
        if rest != [] && rest[0] == RightBracket {
          OperatorNotStep(rest);
          PostfixTailAccounts(Index(base, index), rest[1..]);
        }
    }
  }

  lemma {:induction false} PrimaryAccounts(ts: seq<Token>)
    ensures ParsePrimary(ts).Done? ==> Accounts(ts, true, ParsePrimary(ts).tree, ParsePrimary(ts).rest)
    decreases |ts|, 0
  {
    hide OperatorNot, Good, GoodAt, LeadsNot;
    if ts != [] {
      OperatorNotStep(ts);
      if ts[0] == LeftParen {
        OrAccounts(ts[1..]);
        match ParseOr(ts[1..])
        case Failed(_) =>
        case Done(_, rest) =>
          if rest != [] {
            OperatorNotStep(rest);
          }
      } else if ts[0] == LeftBracket && |ts| > 1 {
        OperatorNotStep(ts[1..]);
        assert ts[1..][1..] == ts[2..] && ts[1..][0] == ts[1];
      }
    }
  }

  /** An accepted expression has a variable called `not` exactly when an operator token is directly followed by `not`. */
  lemma {:induction false} NotIsAVariableExactly(ts: seq<Token>)
    requires ParseExpression(ts).Ok?
    ensures UsesNot(ParseExpression(ts).value) <==> OperatorNot(ts)
  {
    OrAccounts(ts);
  }

  // ---------------------------------------------------------------------------------------------
  // The parser
  // ---------------------------------------------------------------------------------------------

  class ExpressionParser {
    const tokens: seq<Token>
    var position: nat

    ghost predicate Valid()
      reads this
    {
      position <= |tokens|
    }

    /** The tokens not yet read. */
    ghost function Left(): seq<Token>
      requires Valid()
      reads this
    {
      tokens[position..]
    }

    /** The outcome agrees with the grammar; on success the position is after what was read. */
    ghost predicate Agrees(r: Result<Expression, TemplateError>, parsed: Parsed)
      reads this
    {
      && Valid()
      && match parsed
         case Failed(e) => r == Err(e)
         case Done(tree, rest) => r == Ok(tree) && Left() == rest
    }

    constructor (tokens: seq<Token>)
      ensures this.tokens == tokens && position == 0 && Valid()
    {
      this.tokens := tokens;
      position := 0;
    }

    predicate AtKeyword(word: string)
      requires Valid()
      reads this
      ensures AtKeyword(word) == Keyword(Left(), word)
    {
      position < |tokens| && tokens[position] == Identifier(word)
    }

    method ConsumeKeyword(word: string) returns (consumed: bool)
      requires Valid()
      modifies this
      ensures Valid() && consumed == Keyword(old(Left()), word)
      ensures Left() == if consumed then old(Left())[1..] else old(Left())
    {
      consumed := AtKeyword(word);
      if consumed {
        position := position + 1;
      }
    }

    method Advance() returns (token: Option<Token>)
      requires Valid()
      modifies this
      ensures Valid()
      ensures old(Left()) == [] ==> token == None && Left() == []
      ensures old(Left()) != [] ==> token == Some(old(Left())[0]) && Left() == old(Left())[1..]
    {
      token := None;
      if position < |tokens| {
        token := Some(tokens[position]);
        position := position + 1;
      }
    }

    method ParseOrLevel() returns (r: Result<Expression, TemplateError>)
      requires Valid()
      modifies this
      ensures Agrees(r, ParseOr(old(Left())))
      decreases |tokens| - position, 7
    {
      ghost var start := Left();
      r := ParseAndLevel();
      if r.Err? {
        return;
      }
      var tree := r.value;
      while true
        invariant Valid() && |Left()| < |start|
        invariant ParseOr(start) == OrTail(tree, Left())
        decreases |Left()|
      {
        var more := ConsumeKeyword("or");
        if !more {
          break;
        }
        var right := ParseAndLevel();
        if right.Err? {
          return right;
        }
        tree := Binary(Or, tree, right.value);
      }
      return Ok(tree);
    }

    method ParseAndLevel() returns (r: Result<Expression, TemplateError>)
      requires Valid()
      modifies this
      ensures Agrees(r, ParseAnd(old(Left())))
      decreases |tokens| - position, 6
    {
      ghost var start := Left();
      r := ParseNotLevel();
      if r.Err? {
        return;
      }
      var tree := r.value;
      while true
        invariant Valid() && |Left()| < |start|
        invariant ParseAnd(start) == AndTail(tree, Left())
        decreases |Left()|
      {
        var more := ConsumeKeyword("and");
        if !more {
          break;
        }
        var right := ParseNotLevel();
        if right.Err? {
          return right;
        }
        tree := Binary(And, tree, right.value);
      }
      return Ok(tree);
    }

    method ParseNotLevel() returns (r: Result<Expression, TemplateError>)
      requires Valid()
      modifies this
      ensures Agrees(r, ParseNot(old(Left())))
      decreases |tokens| - position, 5
    {
      var negated := ConsumeKeyword("not");
      if negated {
        var operand := ParseNotLevel();
        if operand.Err? {
          return operand;
        }
        return Ok(UnaryNot(operand.value));
      }
      r := ParseComparisonLevel();
    }

    method ParseComparisonLevel() returns (r: Result<Expression, TemplateError>)
      requires Valid()
      modifies this
      ensures Agrees(r, ParseComparison(old(Left())))
      decreases |tokens| - position, 4
    {
      r := ParseConcatLevel();
      if r.Err? {
        return;
      }
      ghost var after := Left();
      var is_ := ConsumeKeyword("is");
      if is_ {
        var defined := ConsumeKeyword("defined");
        return if defined then Ok(IsDefined(r.value)) else Err(Unsupported);
      }
      if position < |tokens| && tokens[position].Operator? && ComparisonOf(tokens[position].symbol).Some? {
        var operator := ComparisonOf(tokens[position].symbol).value;
        position := position + 1;
        var right := ParseConcatLevel();
        if right.Err? {
          return right;
        }
        return Ok(Binary(operator, r.value, right.value));
      }
    }

    method ParseConcatLevel() returns (r: Result<Expression, TemplateError>)
      requires Valid()
      modifies this
      ensures Agrees(r, ParseConcat(old(Left())))
      decreases |tokens| - position, 3
    {
      ghost var start := Left();
      r := ParsePostfixLevel();
      if r.Err? {
        return;
      }
      var tree := r.value;
      while true
        invariant Valid() && |Left()| < |start|
        invariant ParseConcat(start) == ConcatTail(tree, Left())
        decreases |Left()|
      {
        var operator;
        if position < |tokens| && tokens[position] == Operator("+") {
          operator := Add;
        } else if position < |tokens| && tokens[position] == Operator("-") {
          operator := Subtract;
        } else {
          break;
        }
        position := position + 1;
        var right := ParsePostfixLevel();
        if right.Err? {
          return right;
        }
        tree := Binary(operator, tree, right.value);
      }
      return Ok(tree);
    }

    method ParsePostfixLevel() returns (r: Result<Expression, TemplateError>)
      requires Valid()
      modifies this
      ensures Agrees(r, ParsePostfix(old(Left())))
      decreases |tokens| - position, 2
    {
      ghost var start := Left();
      r := ParsePrimaryLevel();
      if r.Err? {
        return;
      }
      var tree := r.value;
      while true
        invariant Valid() && |Left()| < |start|
        invariant ParsePostfix(start) == PostfixTail(tree, Left())
        decreases |Left()|
      {
        var more;
        more, r := PostfixOnce(tree);
        if !more || r.Err? {
          break;
        }
        tree := r.value;
      }
    }

    /** One turn of the postfix loop has been taken. */
    ghost predicate Turned(r: Result<Expression, TemplateError>, tree: Expression, before: seq<Token>)
      reads this
    {
      && Valid()
      && match r
         case Err(e) => PostfixTail(tree, before) == Failed(e)
         case Ok(next) => |Left()| < |before| && PostfixTail(tree, before) == PostfixTail(next, Left())
    }

    /** A member, an index, a filter, or the end of the loop. */
    method PostfixOnce(tree: Expression) returns (more: bool, r: Result<Expression, TemplateError>)
      requires Valid()
      modifies this
      ensures Valid()
      ensures !more ==> Left() == old(Left()) && r == Ok(tree) && PostfixTail(tree, old(Left())) == Done(tree, Left())
      ensures more ==> Turned(r, tree, old(Left()))
      decreases |tokens| - position, 1
    {
      more, r := true, Ok(tree);
      if position < |tokens| && tokens[position] == Dot {
        r := MemberOnce(tree);
      } else if position < |tokens| && tokens[position] == LeftBracket {
        r := IndexOnce(tree);
      } else if position < |tokens| && tokens[position] == Pipe {
        r := FilterOnce(tree);
      } else {
        more := false;
      }
    }

    method MemberOnce(tree: Expression) returns (r: Result<Expression, TemplateError>)
      requires Valid() && Left() != [] && Left()[0] == Dot
      modifies this
      ensures Turned(r, tree, old(Left()))
    {
      hide Good, LeadsNot, GoodAt, Keeps;
      position := position + 1;
      var member := Advance();
      match member {
        case Some(Identifier(name)) => return Ok(Member(tree, name));
        case Some(Number(number)) => return Ok(Member(tree, number.shown));
        case _ => return Err(Parse);
      }
    }

    method IndexOnce(tree: Expression) returns (r: Result<Expression, TemplateError>)
      requires Valid() && Left() != [] && Left()[0] == LeftBracket
      modifies this
      ensures Turned(r, tree, old(Left()))
      decreases |tokens| - position, 0
    {
      hide ParseOr, Good, LeadsNot, GoodAt, Keeps;
      position := position + 1;
      var index := ParseOrLevel();
      if index.Err? {
        return index;
      }
      var closing := Advance();
      if closing != Some(RightBracket) {
        return Err(Parse);
      }
      return Ok(Index(tree, index.value));
    }

    method FilterOnce(tree: Expression) returns (r: Result<Expression, TemplateError>)
      requires Valid() && Left() != [] && Left()[0] == Pipe
      modifies this
      ensures Turned(r, tree, old(Left()))
    {
      hide Good, LeadsNot, GoodAt, Keeps;
      position := position + 1;
      var filter := Advance();
      match filter {
        case Some(Identifier(name)) => return Ok(Filter(tree, name));
        case _ => return Err(Parse);
      }
    }

    method ParsePrimaryLevel() returns (r: Result<Expression, TemplateError>)
      requires Valid()
      modifies this
      ensures Agrees(r, ParsePrimary(old(Left())))
      decreases |tokens| - position, 0
    {
      var token := Advance();
      match token {
        case Some(Quoted(text)) => return Ok(Constant(Str(text)));
        case Some(Number(number)) => return Ok(Constant(Num(number)));
        case Some(Identifier(name)) =>
          match NamedLiteral(name) {
            case Some(value) => return Ok(Constant(value));
            case None => return Ok(Variable(name));
          }
        case Some(LeftParen) =>
          r := ParseOrLevel();
          if r.Err? {
            return;
          }
          var closing := Advance();
          if closing != Some(RightParen) {
            return Err(Parse);
          }
        case Some(LeftBracket) =>
          if position < |tokens| && tokens[position] == RightBracket {
            position := position + 1;
            return Ok(Constant(EmptyList));
          }
          return Err(Unsupported);
        case _ => return Err(Parse);
      }
    }
  }

  method ParseExpressionTokens(tokens: seq<Token>) returns (r: Result<Expression, TemplateError>)
    ensures r == ParseExpression(tokens)
  {
    var parser := new ExpressionParser(tokens);
    assert parser.Left() == tokens;
    r := parser.ParseOrLevel();
    if r.Ok? && parser.position != |tokens| {
      r := Err(Parse);
    }
  }

  /** Every spelling of a literal that is a name. */
  function SpellingsOf(value: Literal): set<string> {
    match value
    case Null => {"none", "None", "null"}
    case Bool(true) => {"true", "True"}
    case Bool(false) => {"false", "False"}
    case _ => {}
  }

  /** A name alone is the literal it spells, and otherwise a variable, unless it is the operator `not`. */
  lemma {:induction false} NameAlone(name: string, value: Literal)
    ensures ParseExpression([Identifier(name)]) == Ok(Constant(value)) <==> name in SpellingsOf(value)
    ensures ParseExpression([Identifier(name)]) == Ok(Variable(name)) <==>
      name != "not" && name !in {"none", "None", "null", "true", "True", "false", "False"}
  {
    var ts := [Identifier(name)];
    assert ts[1..] == [];
    if name == "not" {
      assert ParseNot([]) == Failed(Parse) by {
        assert ParseComparison([]) == Failed(Parse) by {
          assert ParsePostfix([]) == Failed(Parse);
        }
      }
      assert ParseAnd(ts) == Failed(Parse);
    } else {
      var tree := if NamedLiteral(name).Some? then Constant(NamedLiteral(name).value) else Variable(name);
      assert ParsePrimary(ts) == Done(tree, []);
      assert ParsePostfix(ts) == Done(tree, []);
      assert ParseConcat(ts) == Done(tree, []);
      assert ParseComparison(ts) == Done(tree, []);
      assert ParseNot(ts) == Done(tree, []);
      assert ParseAnd(ts) == Done(tree, []);
      assert ParseOr(ts) == Done(tree, []);
      assert ParseExpression(ts) == Ok(tree);
      if value.Bool? {
        assert value == Bool(true) || value == Bool(false);
      }
    }
  }
}
