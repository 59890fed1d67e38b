/**
 The filter compiler of the storage node: a hand-written lexer and operator stack turn an
 infix filter into postfix, and a second pass turns postfix into an expression tree.
 */
module FilterParser {

  /** OutOfRange is the exception of string::at; EmptyStackRead is top() of an empty stack, which is undefined. */
  datatype Result<T> = Ok(value: T) | OutOfRange | EmptyStackRead

  datatype TreeNode = Leaf(root: string) | Node(root: string, left: TreeNode, right: TreeNode)

  // ----- Tokens and the operator stack -----

  datatype Token = Operand(text: string) | Operator(sym: string) | LeftParen | RightParen

  const COMPARISONS := {"=", "<", ">", "<=", ">=", "<>"}

  /** The table of StorageNode.h: precedence[a][b] is true when a binds tighter than b. */
  function Precedence(a: string, b: string): (r: bool) {
    (a in COMPARISONS && b in {"&", "|"}) || (a == "&" && b == "|")
  }

  /** The operators pending, top first, and the postfix written so far. */
  datatype State = State(ops: seq<string>, out: seq<string>)

  /** Before op is pushed, every operator above the nearest "(" that does not bind looser is written out. */
  function PopForOperator(op: string, st: State): (r: State)
    decreases |st.ops|
  {
    if st.ops == [] || st.ops[0] == "(" || Precedence(op, st.ops[0]) then st
    else PopForOperator(op, State(st.ops[1..], st.out + [st.ops[0]]))
  }

  function PopForParen(st: State): (r: Result<State>)
    decreases |st.ops|
  {
    if st.ops == [] then EmptyStackRead
    else if st.ops[0] == "(" then Ok(State(st.ops[1..], st.out))
    else PopForParen(State(st.ops[1..], st.out + [st.ops[0]]))
  }

  function Feed(t: Token, st: State): (r: Result<State>) {
    match t
    case Operand(text) => Ok(State(st.ops, st.out + [text]))
    case LeftParen => Ok(State(["("] + st.ops, st.out))
    case RightParen => PopForParen(st)
    case Operator(sym) => var p := PopForOperator(sym, st); Ok(State([sym] + p.ops, p.out))
  }

  function Shunt(toks: seq<Token>, st: State): (r: Result<State>) {
    if toks == [] then Ok(st)
    else match Feed(toks[0], st)
      case Ok(next) => Shunt(toks[1..], next)
      case OutOfRange => OutOfRange
      case EmptyStackRead => EmptyStackRead
  }

  // ----- The lexer -----

  predicate IsSpace(c: char) { c in {' ', '\t', '\n', '\r', 11 as char, 12 as char} }

  predicate IsDigit(c: char) { '0' <= c <= '9' }

  /** Length of the longest prefix of s without a quotation mark. */
  function Unquoted(s: string): (n: nat)
    ensures n <= |s| && '"' !in s[..n] && (n < |s| ==> s[n] == '"')
  {
    if s == [] || s[0] == '"' then 0
    else
      var n := Unquoted(s[1..]);
      assert s[..1 + n] == [s[0]] + s[1..][..n];
      1 + n
  }

  function Digits(s: string): (n: nat)
    ensures n <= |s| && (forall i :: 0 <= i < n ==> IsDigit(s[i])) && (n < |s| ==> !IsDigit(s[n]))
  {
    if s == [] || !IsDigit(s[0]) then 0 else 1 + Digits(s[1..])
  }

  /** What the lexer finds at the head of s: a token of some length, a character to skip, or the end too soon. */
  datatype Lexeme = Found(token: Token, len: nat) | Skip | Truncated

  function Lex(s: string): (x: Lexeme)
    requires s != []
    ensures x.Found? ==> 1 <= x.len <= |s|
  {
    var c := s[0];
    if IsSpace(c) then Skip
    else if c == '"' then
      var n := Unquoted(s[1..]);
      if 1 + n < |s| then Found(Operand(s[..n + 2]), n + 2) else Truncated
    else if IsDigit(c) then var n := 1 + Digits(s[1..]); Found(Operand(s[..n]), n)
    else if c == '(' then Found(LeftParen, 1)
    else if c == ')' then Found(RightParen, 1)
    else if c == '<' then
      if |s| == 1 then Truncated
      else if s[1] == '=' || s[1] == '>' then Found(Operator(s[..2]), 2) else Found(Operator("<"), 1)
    else if c == '>' then
      if |s| == 1 then Truncated
      else if s[1] == '=' then Found(Operator(">="), 2) else Found(Operator(">"), 1)
    else if c in {'=', '&', '|'} then Found(Operator([c]), 1)
    else Skip
  }

  function Compile(s: string, st: State): (r: Result<State>)
    decreases |s|
  {
    if s == [] then Ok(st)
    else match Lex(s)
      case Truncated => OutOfRange
      case Skip => Compile(s[1..], st)
      case Found(t, n) =>
        match Feed(t, st)
        case Ok(next) => Compile(s[n..], next)
        case OutOfRange => OutOfRange
        case EmptyStackRead => EmptyStackRead
  }

  function Postfix(expr: string): (r: Result<seq<string>>) {
    match Compile(expr, State([], []))
    case Ok(st) => Ok(st.out + st.ops)
    case OutOfRange => OutOfRange
    case EmptyStackRead => EmptyStackRead
  }

  /** Consumes a quoted string that begins at index i; past the end of expr, at() throws. */
  method ReadQuoted(expr: string, i: nat) returns (operand: string, next: nat, thrown: bool)
    requires i < |expr| && expr[i] == '"'
    ensures thrown <==> Lex(expr[i..]).Truncated?
    ensures !thrown ==> i < next <= |expr| && Lex(expr[i..]) == Found(Operand(operand), next - i)
  {
    next := i + 1;
    operand := [expr[i]];
    while next < |expr| && expr[next] != '"'
      invariant i + 1 <= next <= |expr| && operand == expr[i..next]
      invariant Unquoted(expr[i..][1..]) == next - i - 1 + Unquoted(expr[next..])
    {
      assert expr[next..][1..] == expr[next + 1..];
      operand := operand + [expr[next]];
      next := next + 1;
    }
    thrown := next == |expr|;
    if !thrown {
      operand := operand + [expr[next]];
      next := next + 1;
      assert expr[i..][..next - i] == operand;
    }
  }

  /** Consumes the digits of a number that begins at index i. */
  method ReadNumber(expr: string, i: nat) returns (operand: string, next: nat)
    requires i < |expr| && IsDigit(expr[i])
    ensures i < next <= |expr| && Lex(expr[i..]) == Found(Operand(operand), next - i)
  {
    next := i + 1;
    operand := [expr[i]];
    while next < |expr| && IsDigit(expr[next])
      invariant i + 1 <= next <= |expr| && operand == expr[i..next]
      invariant Digits(expr[i..][1..]) == next - i - 1 + Digits(expr[next..])
    {
      assert expr[next..][1..] == expr[next + 1..];
      operand := operand + [expr[next]];
      next := next + 1;
    }
    assert expr[i..][..next - i] == operand;
  }

  /** The loop that writes out operators until a left parenthesis is on top. */
  method PopToParen(ops: seq<string>, postfix: seq<string>)
      returns (ops': seq<string>, postfix': seq<string>, failed: bool)
    ensures PopForParen(State(ops, postfix)) == if failed then EmptyStackRead else Ok(State(ops', postfix'))
  {
    ops', postfix', failed := ops, postfix, false;
    while ops' != [] && ops'[0] != "("
      invariant PopForParen(State(ops', postfix')) == PopForParen(State(ops, postfix))
    {
      postfix' := postfix' + [ops'[0]];
      ops' := ops'[1..];
    }
    if ops' == [] {
      failed := true;
    } else {
      ops' := ops'[1..];
    }
  }

  /** The loop that writes out operators which do not bind looser than op. */
  method PopTighter(op: string, ops: seq<string>, postfix: seq<string>)
      returns (ops': seq<string>, postfix': seq<string>)
    ensures PopForOperator(op, State(ops, postfix)) == State(ops', postfix')
  {
    ops', postfix' := ops, postfix;
    while ops' != [] && !Precedence(op, ops'[0])
      invariant PopForOperator(op, State(ops', postfix')) == PopForOperator(op, State(ops, postfix))
    {
      if ops'[0] == "(" {
        break;
      }
      postfix' := postfix' + [ops'[0]];
      ops' := ops'[1..];
    }
  }

  method GetPostfixedExpressionOf(expr: string) returns (r: Result<seq<string>>)
    ensures r == Postfix(expr)
  {
    var ops: seq<string>, postfix: seq<string> := [], [];
    var i := 0;
    while i < |expr|
      invariant i <= |expr|
      invariant Compile(expr[i..], State(ops, postfix)) == Compile(expr, State([], []))
      decreases |expr| - i
    {
      var c := expr[i];
      var op := "";
      var next := i + 1;
      ghost var rest := expr[i..];
      assert rest[0] == c && rest[1..] == expr[i + 1..] && (i + 1 < |expr| ==>
        rest[1] == expr[i + 1] && rest[2..] == expr[i + 2..]);
      if IsSpace(c) {
      } else if c == '"' {
        var operand, thrown;
        operand, next, thrown := ReadQuoted(expr, i);
        if thrown {
          return OutOfRange;
        }
        postfix := postfix + [operand];
        assert rest[next - i..] == expr[next..];
      } else if IsDigit(c) {
        var operand;
        operand, next := ReadNumber(expr, i);
        postfix := postfix + [operand];
        assert rest[next - i..] == expr[next..];
      } else if c == '(' {
        ops := ["("] + ops;
      } else if c == ')' {
        var failed;
        ops, postfix, failed := PopToParen(ops, postfix);
        if failed {
          return EmptyStackRead;
        }
      } else if c == '<' || c == '>' {
        op := [c];
        if i + 1 == |expr| {
          return OutOfRange;
        }
        if expr[i + 1] == '=' || (c == '<' && expr[i + 1] == '>') {
          op := op + [expr[i + 1]];
          next := i + 2;
        }
        assert rest[..2] == [c, expr[i + 1]];
      } else if c == '=' || c == '&' || c == '|' {
        op := [c];
      }
      if op != "" {
        assert Lex(rest) == Found(Operator(op), next - i);
        ops, postfix := PopTighter(op, ops, postfix);
        ops := [op] + ops;
      }
      i := next;
    }
    assert expr[i..] == "";
    r := Ok(postfix + ops);
  }

  // ----- From postfix to a tree -----

  /** substr(1, n - 2): n - 2 wraps around for n == 1, which asks for everything from index 1 on. */
  function Trimmed(element: string): (r: string)
    requires element != ""
  {
    if |element| == 1 then "" else element[1..|element| - 1]
  }

  predicate IsOperand(element: string)
    requires element != ""
  {
    element[0] == '"' || IsDigit(element[0])
  }

  function BuildTree(postfix: seq<string>, trees: seq<TreeNode>): (r: Result<TreeNode>) {
    if postfix == [] then
      if trees == [] then EmptyStackRead else Ok(trees[0])
    else if postfix[0] == "" then OutOfRange
    else if IsOperand(postfix[0]) then BuildTree(postfix[1..], [Leaf(Trimmed(postfix[0]))] + trees)
    else if |trees| < 2 then EmptyStackRead
    else BuildTree(postfix[1..], [Node(postfix[0], trees[1], trees[0])] + trees[2..])
  }

  method GetExpressionTreeFrom(postfix: seq<string>) returns (r: Result<TreeNode>)
    ensures r == BuildTree(postfix, [])
  {
    var trees: seq<TreeNode> := [];
    for i := 0 to |postfix|
      invariant BuildTree(postfix[i..], trees) == BuildTree(postfix, [])
    {
      var element := postfix[i];
      assert postfix[i..][1..] == postfix[i + 1..];
      if element == "" {
        return OutOfRange;
      }
      if IsOperand(element) {
        trees := [Leaf(Trimmed(element))] + trees;
      } else {
        if |trees| < 2 {
          return EmptyStackRead;
        }
        trees := [Node(element, trees[1], trees[0])] + trees[2..];
      }
    }
    if trees == [] {
      return EmptyStackRead;
    }
    r := Ok(trees[0]);
  }

  // ----- Printing -----

  /** A filter as it is written, with its grouping parentheses. */
  datatype Syntax =
    | Str(text: string)
    | Num(digits: string)
    | Binary(op: string, left: Syntax, right: Syntax)
    | Group(inner: Syntax)

  const OPERATORS := COMPARISONS + {"&", "|"}

  /** Comparisons bind tightest, then "&", then "|"; all associate to the left. */
  function Level(op: string): nat {
    if op in COMPARISONS then 3 else if op == "&" then 2 else if op == "|" then 1 else 0
  }

  function Tightness(x: Syntax): nat {
    if x.Binary? then Level(x.op) else 4
  }

  /** x has at least the parentheses that precedence and left association need. */
  predicate Printable(x: Syntax) {
    match x
    case Str(text) => '"' !in text
    case Num(digits) => IsNumber(digits)
    case Binary(op, l, r) =>
      && op in OPERATORS && Printable(l) && Printable(r)
      && Tightness(l) >= Level(op) && Tightness(r) > Level(op)
    case Group(inner) => Printable(inner)
  }

  function Quoted(text: string): string { "\"" + text + "\"" }

  function Tokens(x: Syntax): seq<Token> {
    match x
    case Str(text) => [Operand(Quoted(text))]
    case Num(digits) => [Operand(digits)]
    case Binary(op, l, r) => Tokens(l) + [Operator(op)] + Tokens(r)
    case Group(inner) => [LeftParen] + Tokens(inner) + [RightParen]
  }

  function PostOrder(x: Syntax): seq<string> {
    match x
    case Str(text) => [Quoted(text)]
    case Num(digits) => [digits]
    case Binary(op, l, r) => PostOrder(l) + PostOrder(r) + [op]
    case Group(inner) => PostOrder(inner)
  }

  /** The tree x stands for. */
  function Tree(x: Syntax): TreeNode {
    match x
    case Str(text) => Leaf(text)
    case Num(digits) => Leaf(digits)
    case Binary(op, l, r) => Node(op, Tree(l), Tree(r))
    case Group(inner) => Tree(inner)
  }

  predicate OnlyQuoted(x: Syntax) {
    match x
    case Str(_) => true
    case Num(_) => false
    case Binary(_, l, r) => OnlyQuoted(l) && OnlyQuoted(r)
    case Group(inner) => OnlyQuoted(inner)
  }

  /** The table orders operators by level; "(" is not an operator. */
  lemma PrecedenceIsLevel(a: string, b: string)
    requires a in OPERATORS && b in OPERATORS
    ensures Precedence(a, b) <==> Level(a) > Level(b)
    ensures b != "("
  {
  }

  /** The operators x leaves on the stack, top first, and the postfix it has written by then. */
  function Pending(x: Syntax): seq<string> {
    if x.Binary? then Pending(x.right) + [x.op] else []
  }

  function Written(x: Syntax): seq<string> {
    if x.Binary? then PostOrder(x.left) + Written(x.right) else PostOrder(x)
  }

  lemma {:induction false} WrittenThenPending(x: Syntax)
    ensures Written(x) + Pending(x) == PostOrder(x)
  {
    if x.Binary? {
      WrittenThenPending(x.right);
      calc {
        Written(x) + Pending(x);
        PostOrder(x.left) + (Written(x.right) + Pending(x.right)) + [x.op];
        PostOrder(x);
      }
    }
  }

  /** No operator above the nearest "(" of ops binds as tight as level. */
  predicate Below(ops: seq<string>, level: nat) {
    ops == [] || ops[0] == "(" || (ops[0] in OPERATORS && Level(ops[0]) < level)
  }

  /** The pending operators of x bind at least as tight as x and are popped for anything looser. */
  lemma {:induction false} PendingIsPopped(x: Syntax, op: string, ops: seq<string>, out: seq<string>)
    requires Printable(x) && op in OPERATORS && Level(op) <= Tightness(x)
    ensures PopForOperator(op, State(Pending(x) + ops, out)) == PopForOperator(op, State(ops, out + Pending(x)))
  {
    hide Precedence, Level;
    if x.Binary? {
      PrecedenceIsLevel(op, x.op);
      assert Pending(x) + ops == Pending(x.right) + ([x.op] + ops);
      PendingIsPopped(x.right, op, [x.op] + ops, out);
      assert ([x.op] + ops)[1..] == ops;
      assert out + Pending(x.right) + [x.op] == out + Pending(x);
    } else {
      assert Pending(x) + ops == ops && out + Pending(x) == out;
    }
  }

  lemma {:induction false} PendingIsClosed(x: Syntax, ops: seq<string>, out: seq<string>)
    requires Printable(x)
    ensures PopForParen(State(Pending(x) + ops, out)) == PopForParen(State(ops, out + Pending(x)))
  {
    if x.Binary? {
      assert Pending(x) + ops == Pending(x.right) + ([x.op] + ops);
      PendingIsClosed(x.right, [x.op] + ops, out);
      assert ([x.op] + ops)[1..] == ops;
      assert out + Pending(x.right) + [x.op] == out + Pending(x);
    } else {
      assert Pending(x) + ops == ops && out + Pending(x) == out;
    }
  }

  lemma StaysPushed(op: string, ops: seq<string>, out: seq<string>)
    requires op in OPERATORS && Below(ops, Level(op))
    ensures PopForOperator(op, State(ops, out)) == State(ops, out)
  {
  }

  lemma ParenOnTop(ops: seq<string>, out: seq<string>)
    ensures PopForParen(State(["("] + ops, out)) == Ok(State(ops, out))
  {
  }

  lemma ShuntMore(t: Token, toks: seq<Token>, st: State, next: State)
    requires Feed(t, st) == Ok(next)
    ensures Shunt([t] + toks, st) == Shunt(toks, next)
  {
  }

  /** Feeding the tokens of x writes Written(x) and leaves Pending(x) on top of what was there. */
  lemma {:induction false} ShuntTokens(x: Syntax, toks: seq<Token>, ops: seq<string>, out: seq<string>)
    requires Printable(x) && Below(ops, Tightness(x))
    ensures Shunt(Tokens(x) + toks, State(ops, out)) == Shunt(toks, State(Pending(x) + ops, out + Written(x)))
    decreases x, 1
  {
    if x.Binary? {
      ShuntBinary(x, toks, ops, out);
    } else if x.Group? {
      ShuntGroup(x, toks, ops, out);
    } else {
      ShuntMore(Tokens(x)[0], toks, State(ops, out), State(ops, out + Written(x)));
      assert Pending(x) + ops == ops;
    }
  }

  lemma {:induction false} ShuntGroup(x: Syntax, toks: seq<Token>, ops: seq<string>, out: seq<string>)
    requires x.Group? && Printable(x)
    ensures Shunt(Tokens(x) + toks, State(ops, out)) == Shunt(toks, State(Pending(x) + ops, out + Written(x)))
    decreases x, 0
  {
    hide Shunt, PopForParen;
    var inner, rest := x.inner, [RightParen] + toks;
    assert Tokens(x) + toks == [LeftParen] + (Tokens(inner) + rest);
    ShuntMore(LeftParen, Tokens(inner) + rest, State(ops, out), State(["("] + ops, out));
    ShuntTokens(inner, rest, ["("] + ops, out);
    PendingIsClosed(inner, ["("] + ops, out + Written(inner));
    WrittenThenPending(inner);
    assert out + Written(inner) + Pending(inner) == out + PostOrder(x);
    ParenOnTop(ops, out + PostOrder(x));
    assert Pending(x) + ops == ops;
    ShuntMore(RightParen, toks, State(Pending(inner) + (["("] + ops), out + Written(inner)),
              State(ops, out + PostOrder(x)));
  }

  lemma BinaryParts(x: Syntax, ops: seq<string>)
    requires x.Binary? && Printable(x) && Below(ops, Tightness(x))
    ensures Written(x) == PostOrder(x.left) + Written(x.right) && Pending(x) == Pending(x.right) + [x.op]
    ensures Tokens(x) == Tokens(x.left) + [Operator(x.op)] + Tokens(x.right)
    ensures x.op in OPERATORS && Printable(x.left) && Printable(x.right) && Level(x.op) <= Tightness(x.left)
    ensures Below(ops, Tightness(x.left)) && Below(ops, Level(x.op)) && Below([x.op] + ops, Tightness(x.right))
  {
  }

  lemma {:induction false} ShuntBinary(x: Syntax, toks: seq<Token>, ops: seq<string>, out: seq<string>)
    requires x.Binary? && Printable(x) && Below(ops, Tightness(x))
    ensures Shunt(Tokens(x) + toks, State(ops, out)) == Shunt(toks, State(Pending(x) + ops, out + Written(x)))
    decreases x, 0
  {
    hide Precedence, Shunt, PopForOperator, Tokens, Written, Pending, PostOrder, Printable, Tightness, Level, Below;
    var op, l, r, rest := x.op, x.left, x.right, Tokens(x.right) + toks;
    BinaryParts(x, ops);
    assert Tokens(x) + toks == Tokens(l) + ([Operator(op)] + rest);
    ShuntTokens(l, [Operator(op)] + rest, ops, out);
    PendingIsPopped(l, op, ops, out + Written(l));
    WrittenThenPending(l);
    assert out + Written(l) + Pending(l) == out + PostOrder(l);
    StaysPushed(op, ops, out + PostOrder(l));
    ShuntMore(Operator(op), rest, State(Pending(l) + ops, out + Written(l)), State([op] + ops, out + PostOrder(l)));
    ShuntTokens(r, toks, [op] + ops, out + PostOrder(l));
    assert Pending(r) + ([op] + ops) == Pending(x) + ops;
    assert out + PostOrder(l) + Written(r) == out + Written(x);
  }

  // ----- Lexing a printed filter -----

  function Spelling(t: Token): string {
    match t
    case Operand(text) => text
    case Operator(sym) => sym
    case LeftParen => "("
    case RightParen => ")"
  }

  /** The tokens with gaps[0] before the first, gaps[1] before the second, ..., and the last gap at the end. */
  function Spell(toks: seq<Token>, gaps: seq<string>): string
    requires |gaps| == |toks| + 1
  {
    if toks == [] then gaps[0] else gaps[0] + Spelling(toks[0]) + Spell(toks[1..], gaps[1..])
  }

  const DIGITS := "0123456789"

  /** White space, and whatever else begins no token: the lexer passes over it. */
  predicate Blank(gap: string) { forall i :: 0 <= i < |gap| ==> gap[i] !in "\"()<>=&|" && gap[i] !in DIGITS }

  lemma DigitsAre(c: char)
    ensures IsDigit(c) <==> c in DIGITS
  {
    assert DIGITS == ['0', '1', '2', '3', '4', '5', '6', '7', '8', '9'];
    assert IsDigit(c) ==> c == '0' + (c - '0');
  }

  ghost predicate IsQuotation(text: string) {
    |text| >= 2 && text[0] == text[|text| - 1] == '"' && '"' !in text[1..|text| - 1]
  }

  predicate IsNumber(text: string) {
    text != "" && forall i :: 0 <= i < |text| ==> text[i] in DIGITS
  }

  ghost predicate Lexable(t: Token) {
    match t
    case Operand(text) => IsQuotation(text) || IsNumber(text)
    case Operator(sym) => sym in OPERATORS
    case _ => true
  }

  /** Neighbours that the lexer cannot run together: an operator is followed by an operand or "(". */
  ghost predicate Separate(toks: seq<Token>) {
    && (forall i :: 0 <= i < |toks| ==> Lexable(toks[i]))
    && (forall i :: 0 <= i < |toks| && toks[i].Operator? ==> i + 1 < |toks| && !toks[i + 1].Operator?)
    && (forall i :: 0 <= i < |toks| - 1 && toks[i].Operand? ==> !toks[i + 1].Operand?)
  }

  lemma {:induction false} TokensAreSeparate(x: Syntax)
    requires Printable(x)
    ensures Separate(Tokens(x))
    ensures var toks := Tokens(x); |toks| > 0 && !toks[0].Operator? && !toks[0].RightParen?
    ensures var last := Tokens(x)[|Tokens(x)| - 1]; last.Operand? || last.RightParen?
  {
    match x
    case Str(text) => assert Quoted(text)[1..|Quoted(text)| - 1] == text;
    case Num(digits) =>
    case Group(inner) =>
      TokensAreSeparate(inner);
      hide Lexable, Printable;
      SeparateGroup(Tokens(inner));
    case Binary(op, l, r) =>
      TokensAreSeparate(l);
      TokensAreSeparate(r);
      assert Lexable(Operator(op));
      hide Lexable, Printable;
      SeparateBinary(Tokens(l), op, Tokens(r));
  }

  /** Neither begins with an operator or ")", nor ends with an operator or "(". */
  predicate IsOperandLike(toks: seq<Token>) {
    && toks != [] && !toks[0].Operator? && !toks[0].RightParen?
    && (toks[|toks| - 1].Operand? || toks[|toks| - 1].RightParen?)
  }

  lemma SeparateGroup(toks: seq<Token>)
    requires Separate(toks) && IsOperandLike(toks)
    ensures Separate([LeftParen] + toks + [RightParen])
  {
    var all := [LeftParen] + toks + [RightParen];
    assert forall i :: 0 < i <= |toks| ==> all[i] == toks[i - 1];
  }

  lemma SeparateBinary(a: seq<Token>, op: string, b: seq<Token>)
    requires Separate(a) && Separate(b) && IsOperandLike(a) && IsOperandLike(b) && Lexable(Operator(op))
    ensures Separate(a + [Operator(op)] + b)
  {
    var all := a + [Operator(op)] + b;
    assert forall i :: 0 <= i < |a| ==> all[i] == a[i];
    assert forall i :: |a| < i < |all| ==> all[i] == b[i - |a| - 1];
  }

  /** The lexer reads a token back from the front of its spelling, whatever may follow it. */
  lemma LexSpelling(t: Token, rest: string)
    requires Lexable(t)
    requires t.Operator? ==> rest != "" && rest[0] !in {'=', '>'}
    requires t.Operand? && rest != "" ==> !IsDigit(rest[0])
    ensures |Spelling(t)| > 0 && Lex(Spelling(t) + rest) == Found(t, |Spelling(t)|)
  {
    match t {
      case Operand(text) => if IsQuotation(text) { LexQuotation(text, rest); } else { LexNumber(text, rest); }
      case Operator(sym) => LexOperator(sym, rest);
      case _ =>
    }
  }

  lemma LexQuotation(text: string, rest: string)
    requires IsQuotation(text)
    ensures Lex(text + rest) == Found(Operand(text), |text|)
  {
    var s, n := text + rest, |text|;
    assert s[..n] == text && s[0] == '"';
    UnquotedIs(s[1..], n - 2);
  }

  lemma LexNumber(text: string, rest: string)
    requires IsNumber(text) && (rest != "" ==> !IsDigit(rest[0]))
    ensures Lex(text + rest) == Found(Operand(text), |text|)
  {
    var s, n := text + rest, |text|;
    forall i | 0 <= i < n ensures IsDigit(text[i]) { DigitsAre(text[i]); }
    assert s[..n] == text && s[0] == text[0];
    DigitsIs(s[1..], n - 1);
  }

  lemma LexOperator(sym: string, rest: string)
    requires sym in OPERATORS && rest != "" && rest[0] !in {'=', '>'}
    ensures |sym| > 0 && Lex(sym + rest) == Found(Operator(sym), |sym|)
  {
  }

  lemma {:induction false} UnquotedIs(s: string, n: nat)
    requires n < |s| && s[n] == '"' && forall i :: 0 <= i < n ==> s[i] != '"'
    ensures Unquoted(s) == n
  {
  }

  lemma {:induction false} DigitsIs(s: string, n: nat)
    requires n <= |s| && (n < |s| ==> !IsDigit(s[n])) && forall i :: 0 <= i < n ==> IsDigit(s[i])
    ensures Digits(s) == n
  {
  }

  lemma {:induction false} SkipBlank(gap: string, rest: string, st: State)
    requires Blank(gap)
    ensures Compile(gap + rest, st) == Compile(rest, st)
  {
    if gap == "" {
      assert gap + rest == rest;
    } else {
      assert (gap + rest)[0] == gap[0] && (gap + rest)[1..] == gap[1..] + rest;
      DigitsAre(gap[0]);
      SkipBlank(gap[1..], rest, st);
    }
  }

  lemma GapStart(gap: string)
    requires Blank(gap) && gap != ""
    ensures gap[0] !in {'=', '>'} && !IsDigit(gap[0])
  {
    DigitsAre(gap[0]);
  }

  lemma TokenStart(t: Token)
    requires Lexable(t)
    ensures Spelling(t) != ""
    ensures Spelling(t)[0] in {'=', '>'} ==> t.Operator?
    ensures IsDigit(Spelling(t)[0]) ==> t.Operand?
  {
    if t.Operand? && IsNumber(t.text) { DigitsAre(t.text[0]); }
  }

  /** What can follow an operator or an operand in a printed filter does not extend it. */
  lemma SpellStart(t: Token, toks: seq<Token>, gaps: seq<string>)
    requires |gaps| == |toks| + 1 && Separate([t] + toks) && forall g :: g in gaps ==> Blank(g)
    ensures var s := Spell(toks, gaps);
      && (t.Operator? ==> s != "" && s[0] !in {'=', '>'})
      && (t.Operand? && s != "" ==> !IsDigit(s[0]))
  {
    assert ([t] + toks)[0] == t && gaps[0] in gaps;
    hide Lexable, Blank, Spelling;
    if gaps[0] != "" {
      GapStart(gaps[0]);
    } else if toks != [] {
      assert ([t] + toks)[1] == toks[0] && Lexable(toks[0]);
      TokenStart(toks[0]);
    }
    if toks != [] { assert ([t] + toks)[1] == toks[0]; }
    SpellFirst(toks, gaps);
  }

  lemma SpellFirst(toks: seq<Token>, gaps: seq<string>)
    requires |gaps| == |toks| + 1
    ensures toks == [] ==> Spell(toks, gaps) == gaps[0]
    ensures toks != [] && gaps[0] != "" ==> Spell(toks, gaps) != "" && Spell(toks, gaps)[0] == gaps[0][0]
    ensures toks != [] && gaps[0] == "" && Spelling(toks[0]) != "" ==>
      Spell(toks, gaps) != "" && Spell(toks, gaps)[0] == Spelling(toks[0])[0]
  {
  }

  lemma {:induction false} CompileSpelling(toks: seq<Token>, gaps: seq<string>, st: State)
    requires |gaps| == |toks| + 1 && Separate(toks) && forall g :: g in gaps ==> Blank(g)
    ensures Compile(Spell(toks, gaps), st) == Shunt(toks, st)
  {
    hide Separate, Lex, Blank, Feed;
    assert gaps[0] in gaps;
    if toks == [] {
      assert gaps[0] == gaps[0] + "";
      SkipBlank(gaps[0], "", st);
    } else {
      var t, rest := toks[0], Spell(toks[1..], gaps[1..]);
      assert Spell(toks, gaps) == gaps[0] + (Spelling(t) + rest);
      SkipBlank(gaps[0], Spelling(t) + rest, st);
      assert toks == [t] + toks[1..];
      SpellStart(t, toks[1..], gaps[1..]);
      SeparateRest(toks);
      LexSpelling(t, rest);
      assert (Spelling(t) + rest)[|Spelling(t)|..] == rest;
      match Feed(t, st)
      case Ok(next) => CompileSpelling(toks[1..], gaps[1..], next);
      case _ =>
    }
  }

  lemma SeparateRest(toks: seq<Token>)
    requires toks != [] && Separate(toks)
    ensures Lexable(toks[0]) && Separate(toks[1..])
  {}

  // ----- The round trip -----

  /** The tree the code builds: like Tree, but a number loses its first and last character too. */
  function BuiltTree(x: Syntax): TreeNode {
    match x
    case Str(text) => Leaf(text)
    case Num(digits) => Leaf(if digits == "" then "" else Trimmed(digits))
    case Binary(op, l, r) => Node(op, BuiltTree(l), BuiltTree(r))
    case Group(inner) => BuiltTree(inner)
  }

  lemma OperatorIsNoOperand(op: string)
    requires op in OPERATORS
    ensures op != "" && !IsOperand(op)
  {
  }

  lemma {:induction false} BuildPostOrder(x: Syntax, postfix: seq<string>, trees: seq<TreeNode>)
    requires Printable(x)
    ensures BuildTree(PostOrder(x) + postfix, trees) == BuildTree(postfix, [BuiltTree(x)] + trees)
  {
    match x
    case Str(text) =>
      assert (PostOrder(x) + postfix)[1..] == postfix && Trimmed(Quoted(text)) == text;
    case Num(digits) =>
      DigitsAre(digits[0]);
      assert (PostOrder(x) + postfix)[1..] == postfix;
    case Group(inner) => BuildPostOrder(inner, postfix, trees);
    case Binary(op, l, r) =>
      OperatorIsNoOperand(op);
      hide Trimmed, IsOperand, IsDigit, IsNumber;
      assert PostOrder(x) + postfix == PostOrder(l) + (PostOrder(r) + ([op] + postfix));
      BuildPostOrder(l, PostOrder(r) + ([op] + postfix), trees);
      BuildPostOrder(r, [op] + postfix, [BuiltTree(l)] + trees);
      var stack := [BuiltTree(r)] + ([BuiltTree(l)] + trees);
      assert ([op] + postfix)[1..] == postfix && stack[2..] == trees;
  }

  /**
   Every printing of a filter, with any characters that begin no token, such as white space, between its tokens and
   any redundant parentheses, compiles without reading an empty stack and yields BuiltTree.
   */
  lemma FilterCompiles(x: Syntax, gaps: seq<string>)
    requires Printable(x) && |gaps| == |Tokens(x)| + 1 && forall g :: g in gaps ==> Blank(g)
    ensures Postfix(Spell(Tokens(x), gaps)) == Ok(PostOrder(x))
    ensures BuildTree(PostOrder(x), []) == Ok(BuiltTree(x))
  {
    TokensAreSeparate(x);
    CompileSpelling(Tokens(x), gaps, State([], []));
    ShuntTokens(x, [], [], []);
    WrittenThenPending(x);
    assert Tokens(x) + [] == Tokens(x) && Pending(x) + [] == Pending(x) && [] + Written(x) == Written(x);
    BuildPostOrder(x, [], []);
    assert PostOrder(x) + [] == PostOrder(x);
  }

  /** The tree that comes back is the one written exactly when no operand is a number. */
  lemma {:induction false} BuiltTreeIsTree(x: Syntax)
    requires Printable(x)
    ensures BuiltTree(x) == Tree(x) <==> OnlyQuoted(x)
  {
    match x
    case Str(_) =>
    case Num(_) =>
    case Group(inner) => BuiltTreeIsTree(inner);
    case Binary(_, l, r) => BuiltTreeIsTree(l); BuiltTreeIsTree(r);
  }

  function ParseFilter(expr: string): (r: Result<TreeNode>) {
    match Postfix(expr)
    case Ok(postfix) => BuildTree(postfix, [])
    case OutOfRange => OutOfRange
    case EmptyStackRead => EmptyStackRead
  }

  predicate IsFilter(t: TreeNode) {
    match t
    case Leaf(root) => '"' !in root
    case Node(op, l, r) => op in OPERATORS && IsFilter(l) && IsFilter(r)
  }

  /** t written with only the parentheses it needs. */
  function Print(t: TreeNode): (x: Syntax) {
    match t
    case Leaf(root) => Str(root)
    case Node(op, l, r) =>
      var pl, pr := Print(l), Print(r);
      Binary(op, if Tightness(pl) < Level(op) then Group(pl) else pl,
        if Tightness(pr) <= Level(op) then Group(pr) else pr)
  }

  /** Every filter tree over quoted operands has a printing. */
  lemma {:induction false} PrintIsPrintable(t: TreeNode)
    requires IsFilter(t)
    ensures Printable(Print(t)) && OnlyQuoted(Print(t)) && Tree(Print(t)) == t
  {
    if t.Node? {
      PrintIsPrintable(t.left);
      PrintIsPrintable(t.right);
    }
  }

  /** The parser inverts every printer that writes the needed parentheses. */
  lemma FilterRoundTrip(t: TreeNode, x: Syntax, gaps: seq<string>)
    requires Printable(x) && Tree(x) == t && OnlyQuoted(x)
    requires |gaps| == |Tokens(x)| + 1 && forall g :: g in gaps ==> Blank(g)
    ensures ParseFilter(Spell(Tokens(x), gaps)) == Ok(t)
  {
    FilterCompiles(x, gaps);
    BuiltTreeIsTree(x);
  }

  /** Without the restriction to quoted operands: the round trip fails as soon as one operand is a number. */
  lemma RoundTripFailsOnNumbers(x: Syntax, gaps: seq<string>)
    requires Printable(x) && |gaps| == |Tokens(x)| + 1 && forall g :: g in gaps ==> Blank(g)
    ensures ParseFilter(Spell(Tokens(x), gaps)) == Ok(Tree(x)) <==> OnlyQuoted(x)
  {
    FilterCompiles(x, gaps);
    BuiltTreeIsTree(x);
  }

  // ----- Which token lists read an empty operator stack -----

  function Depth(ops: seq<string>): nat {
    if ops == [] then 0 else Depth(ops[1..]) + if ops[0] == "(" then 1 else 0
  }

  /** With d parentheses open, no ")" comes without its "(". */
  predicate Closes(toks: seq<Token>, d: nat) {
    toks == [] ||
    match toks[0]
    case LeftParen => Closes(toks[1..], d + 1)
    case RightParen => d > 0 && Closes(toks[1..], d - 1)
    case _ => Closes(toks[1..], d)
  }

  lemma {:induction false} PopKeepsDepth(op: string, st: State)
    ensures Depth(PopForOperator(op, st).ops) == Depth(st.ops)
    decreases |st.ops|
  {
    if st.ops != [] && st.ops[0] != "(" && !Precedence(op, st.ops[0]) {
      PopKeepsDepth(op, State(st.ops[1..], st.out + [st.ops[0]]));
    }
  }

  lemma {:induction false} PopForParenDepth(st: State)
    ensures PopForParen(st).Ok? <==> Depth(st.ops) > 0
    ensures PopForParen(st).Ok? ==> Depth(PopForParen(st).value.ops) == Depth(st.ops) - 1
    ensures !PopForParen(st).OutOfRange?
    decreases |st.ops|
  {
    if st.ops != [] && st.ops[0] != "(" {
      PopForParenDepth(State(st.ops[1..], st.out + [st.ops[0]]));
    }
  }

  /** The compiler reads an empty operator stack exactly when some ")" has no matching "(". */
  lemma {:induction false} EmptyStackIffUnmatched(toks: seq<Token>, st: State)
    requires forall i :: 0 <= i < |toks| && toks[i].Operator? ==> toks[i].sym != "("
    ensures Shunt(toks, st).EmptyStackRead? <==> !Closes(toks, Depth(st.ops))
    ensures !Shunt(toks, st).OutOfRange?
  {
    if toks != [] {
      match toks[0] {
        case RightParen => PopForParenDepth(st);
        case Operator(sym) =>
          PopKeepsDepth(sym, st);
          assert ([sym] + PopForOperator(sym, st).ops)[1..] == PopForOperator(sym, st).ops;
        case LeftParen => assert (["("] + st.ops)[1..] == st.ops;
        case Operand(_) =>
      }
      if Feed(toks[0], st).Ok? {
        EmptyStackIffUnmatched(toks[1..], Feed(toks[0], st).value);
      }
    }
  }

  // ----- Which postfix lists build a tree -----

  /** With n trees on the stack, every operator as far as the first empty element finds two. */
  predicate FindsTwo(postfix: seq<string>, n: nat) {
    postfix == [] || postfix[0] == "" ||
    if IsOperand(postfix[0]) then FindsTwo(postfix[1..], n + 1) else n >= 2 && FindsTwo(postfix[1..], n - 1)
  }

  /** What building does with any list: it fails at an empty element, or at an operator that lacks an operand. */
  lemma {:induction false} BuildOutcome(postfix: seq<string>, trees: seq<TreeNode>)
    ensures var r, finds := BuildTree(postfix, trees), FindsTwo(postfix, |trees|);
      && (r.OutOfRange? <==> finds && "" in postfix)
      && (r.Ok? <==> finds && "" !in postfix && (postfix != [] || trees != []))
  {
    if postfix != [] && postfix[0] != "" {
      assert postfix == [postfix[0]] + postfix[1..];
      if IsOperand(postfix[0]) {
        BuildOutcome(postfix[1..], [Leaf(Trimmed(postfix[0]))] + trees);
      } else if |trees| >= 2 {
        BuildOutcome(postfix[1..], [Node(postfix[0], trees[1], trees[0])] + trees[2..]);
      }
    }
  }

  // ----- Which texts are refused -----

  /** The tokens of a text, up to one that the text breaks off in, if there is one. */
  datatype Scan = Scan(tokens: seq<Token>, truncated: bool)

  function ScanOf(s: string): (r: Scan)
    ensures forall i :: 0 <= i < |r.tokens| && r.tokens[i].Operator? ==> r.tokens[i].sym != "("
  {
    if s == "" then Scan([], false)
    else match Lex(s)
      case Skip => ScanOf(s[1..])
      case Truncated => Scan([], true)
      case Found(token, len) => var rest := ScanOf(s[len..]); Scan([token] + rest.tokens, rest.truncated)
  }

  /** Reading character by character is reading the tokens of the text, and throwing where it breaks off. */
  lemma {:induction false} CompileIsShunt(s: string, st: State)
    ensures var x := ScanOf(s);
      Compile(s, st) == if Shunt(x.tokens, st).Ok? && x.truncated then OutOfRange else Shunt(x.tokens, st)
  {
    if s != "" {
      match Lex(s)
      case Skip => CompileIsShunt(s[1..], st);
      case Truncated =>
      case Found(token, len) =>
        var rest := ScanOf(s[len..]).tokens;
        assert ([token] + rest)[1..] == rest;
        if Feed(token, st).Ok? {
          CompileIsShunt(s[len..], Feed(token, st).value);
        }
    }
  }

  /**
   A text reads an empty operator stack exactly if some ")" before the point where it breaks off has no matching "(",
   and throws exactly if it has none and does break off: in a quoted string, or in a final "<" or ">".
   */
  lemma PostfixFailsIff(expr: string)
    ensures var x := ScanOf(expr);
      && (Postfix(expr).EmptyStackRead? <==> !Closes(x.tokens, 0))
      && (Postfix(expr).OutOfRange? <==> Closes(x.tokens, 0) && x.truncated)
  {
    CompileIsShunt(expr, State([], []));
    EmptyStackIffUnmatched(ScanOf(expr).tokens, State([], []));
  }
}
