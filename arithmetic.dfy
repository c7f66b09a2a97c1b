/**
 * The shell's arithmetic evaluator (`EvaluateExpression`, `HasPrecedence`,
 * `ApplyOperator` in Shell/Program.cs), specified as pure functions:
 *
 *   - a lexer turning the expression text into tokens (digit runs, parentheses,
 *     `+ - * /`, `$name` references resolved against the variables; every other
 *     character is skipped);
 *   - the two-stack machine the source runs over those tokens (a stack of
 *     numbers, a stack of operator characters);
 *   - a reference semantics: expression trees, their evaluation, and the text
 *     they print as, with the theorem that the machine evaluates the printed
 *     text of every tree to the tree's value.
 *
 * The imperative loop itself is `ShellClass.Shell.EvaluateExpression`, proved
 * against `Evaluate` below.
 */
module Arithmetic {
  import opened Wrappers
  import opened Text

  /** The exceptions `EvaluateExpression` can throw, as values. */
  datatype EvalError =
    | UndefinedVariable(name: string)  // the explicit "Variable name ... does not exist." exception
    | BadVariableValue(name: string)   // int.Parse on a stored value that is not a number
    | StackUnderflow                   // Pop or Peek on an empty stack
    | InvalidOperator(op: char)        // ApplyOperator's "Invalid operator"
    | DivideByZero

  datatype Result<+T> = Ok(value: T) | Err(error: EvalError)

  datatype Token = Num(n: int) | Open | Close | Op(symbol: char)

  predicate IsOperator(c: char) { c == '+' || c == '-' || c == '*' || c == '/' }

  // ---------------------------------------------------------------------------
  // Lexing
  // ---------------------------------------------------------------------------

  /** The end of the maximal run of characters satisfying `inRun` that starts at `i`. */
  function RunEnd(s: string, i: nat, inRun: char -> bool): (j: nat)
    requires i <= |s|
    ensures i <= j <= |s|
    ensures forall k | i <= k < j :: inRun(s[k])
    ensures j == |s| || !inRun(s[j])
    decreases |s| - i
  {
    if i < |s| && inRun(s[i]) then RunEnd(s, i + 1, inRun) else i
  }

  /** A run is exactly as long as the characters in it. */
  lemma RunEndAt(s: string, i: nat, j: nat, inRun: char -> bool)
    requires i <= j <= |s|
    requires forall k | i <= k < j :: inRun(s[k])
    requires j == |s| || !inRun(s[j])
    ensures RunEnd(s, i, inRun) == j
    decreases j - i
  {
    if i < j {
      RunEndAt(s, i + 1, j, inRun);
    }
  }

  function Prepend(prefix: seq<Token>, r: Result<seq<Token>>): Result<seq<Token>> {
    if r.Ok? then Ok(prefix + r.value) else r
  }

  /** The tokens of `s[i..]`, or the first reference to a variable that is missing or not a number. */
  function LexFrom(s: string, vars: map<string, string>, i: nat): Result<seq<Token>>
    requires i <= |s|
    decreases |s| - i
  {
    if i == |s| then Ok([])
    else
      var c := s[i];
      if IsDigit(c) then
        var j := RunEnd(s, i + 1, IsDigit);
        Prepend([Num(DigitsValue(s[i..j]))], LexFrom(s, vars, j))
      else if c == '(' then Prepend([Open], LexFrom(s, vars, i + 1))
      else if c == ')' then Prepend([Close], LexFrom(s, vars, i + 1))
      else if IsOperator(c) then Prepend([Op(c)], LexFrom(s, vars, i + 1))
      else if c == '$' then
        var j := RunEnd(s, i + 1, IsNameChar);
        var name := s[i + 1..j];
        if name !in vars then Err(UndefinedVariable(name))
        else
          match TryParseInt(vars[name])
          case None => Err(BadVariableValue(name))
          case Some(v) => Prepend([Num(v)], LexFrom(s, vars, j))
      else LexFrom(s, vars, i + 1)
  }

  function Lex(s: string, vars: map<string, string>): Result<seq<Token>> {
    LexFrom(s, vars, 0)
  }

  // ---------------------------------------------------------------------------
  // The two-stack machine
  // ---------------------------------------------------------------------------

  /** The evaluator's two stacks; the top of each is its last element. */
  datatype Machine = Machine(numbers: seq<int>, operators: seq<char>)

  const Init := Machine([], [])

  /** Precedence level: `(` lowest, then `+ -`, then `* /`; anything else above all. */
  function Level(c: char): nat {
    if c == '(' then 0
    else if c == '+' || c == '-' then 1
    else if c == '*' || c == '/' then 2
    else 3
  }

  /**
   * Whether the operator `op2` on top of the stack is applied before `op1` is
   * pushed: exactly when it is an operator binding at least as tightly, which
   * makes `* /` bind tighter than `+ -` and every operator left-associative.
   */
  function HasPrecedence(op1: char, op2: char): (r: bool)
    ensures op2 == '(' || op2 == ')' ==> !r
    ensures IsOperator(op1) && IsOperator(op2) ==> (r <==> Level(op2) >= Level(op1))
  {
    if op2 == '(' || op2 == ')' then false
    else if (op1 == '*' || op1 == '/') && (op2 == '+' || op2 == '-') then false
    else true
  }

  function Abs(a: int): nat { if a < 0 then -a else a }

  /**
   * C#'s integer division, which truncates toward zero: the quotient's
   * magnitude is `|a| / |b|`, and the remainder is smaller than the divisor
   * and zero or of the dividend's sign, so `10/3` is 3 and `-7/2` is -3.
   */
  function TruncDiv(a: int, b: int): (q: int)
    requires b != 0
    ensures Abs(q) == Abs(a) / Abs(b)
    ensures Abs(a - q * b) < Abs(b)
    ensures a - q * b == 0 || ((a - q * b < 0) <==> (a < 0))
  {
    var m := Abs(a) / Abs(b);
    var q := if (a < 0) == (b < 0) then m else -m;
    RemainderValue(a, b, q);
    q
  }

  /** The truncated quotient `q`: its magnitude, and the remainder `a - q * b` it leaves. */
  lemma RemainderValue(a: int, b: int, q: int)
    requires b != 0
    requires q == (if (a < 0) == (b < 0) then Abs(a) / Abs(b) else -(Abs(a) / Abs(b)))
    ensures Abs(q) == Abs(a) / Abs(b)
    ensures Abs(a - q * b) < Abs(b)
    ensures a - q * b == 0 || ((a - q * b < 0) <==> (a < 0))
  {
    var e := a - q * b;
    assert e == (if a < 0 then -(Abs(a) % Abs(b)) else Abs(a) % Abs(b)) by { RemainderExact(a, b, q); }
    RemainderBounds(a, b, e);
    QuotientNonNegative(Abs(a), Abs(b));
  }

  lemma QuotientNonNegative(x: nat, y: nat)
    requires y > 0
    ensures x / y >= 0
  {
  }

  lemma RemainderExact(a: int, b: int, q: int)
    requires b != 0
    requires q == (if (a < 0) == (b < 0) then Abs(a) / Abs(b) else -(Abs(a) / Abs(b)))
    ensures a - q * b == (if a < 0 then -(Abs(a) % Abs(b)) else Abs(a) % Abs(b))
  {
    var m, r := Abs(a) / Abs(b), Abs(a) % Abs(b);
    var p := m * Abs(b);
    assert Abs(a) == p + r;
    var t := q * b;
    if (a < 0) == (b < 0) {
      if b > 0 { assert t == p; } else { NegateFactor(m, Abs(b)); assert t == -p; }
    } else {
      if b > 0 { NegateFactor(m, Abs(b)); assert t == -p; } else { NegateBoth(m, Abs(b)); assert t == p; }
    }
  }

  /** That remainder is smaller than the divisor and zero or of the dividend's sign. */
  lemma RemainderBounds(a: int, b: int, e: int)
    requires b != 0
    requires e == (if a < 0 then -(Abs(a) % Abs(b)) else Abs(a) % Abs(b))
    ensures Abs(e) < Abs(b)
    ensures e == 0 || ((e < 0) <==> (a < 0))
  {
  }

  lemma NegateFactor(x: int, y: int)
    ensures x * -y == -(x * y) && -x * y == -(x * y)
  {
  }

  lemma NegateBoth(x: int, y: int)
    ensures -x * -y == x * y
  {
  }

  /**
   * `ApplyOperator(a, b, op)`: `a op b` for the four operators; `/` truncates
   * toward zero and fails on a zero divisor; any other character fails.
   */
  function ApplyOperator(a: int, b: int, op: char): (r: Result<int>)
    ensures r.Ok? <==> IsOperator(op) && (op != '/' || b != 0)
    ensures !IsOperator(op) ==> r == Err(InvalidOperator(op))
    ensures op == '/' && b == 0 ==> r == Err(DivideByZero)
    ensures op == '-' && r.Ok? ==> r.value + b == a
    ensures op == '/' && r.Ok? ==> Abs(r.value) == Abs(a) / Abs(b) && Abs(a - r.value * b) < Abs(b)
  {
    if op == '+' then Ok(a + b)
    else if op == '-' then Ok(a - b)
    else if op == '*' then Ok(a * b)
    else if op == '/' then (if b == 0 then Err(DivideByZero) else Ok(TruncDiv(a, b)))
    else Err(InvalidOperator(op))
  }

  function Push(m: Machine, v: int): Machine {
    Machine(m.numbers + [v], m.operators)
  }

  /** Pop the second operand, the first operand and the operator; push `first op second`. */
  function Reduce(m: Machine): (r: Result<Machine>)
    requires |m.operators| > 0
    ensures r.Ok? ==> |r.value.operators| == |m.operators| - 1
  {
    var n := |m.numbers|;
    if n < 2 then Err(StackUnderflow)
    else
      match ApplyOperator(m.numbers[n - 2], m.numbers[n - 1], m.operators[|m.operators| - 1])
      case Err(e) => Err(e)
      case Ok(v) => Ok(Machine(m.numbers[..n - 2] + [v], m.operators[..|m.operators| - 1]))
  }

  /** An operator token: apply stacked operators while `HasPrecedence`, then push it. */
  function PushOperator(m: Machine, op: char): Result<Machine>
    decreases |m.operators|
  {
    if |m.operators| > 0 && HasPrecedence(op, m.operators[|m.operators| - 1]) then
      match Reduce(m)
      case Err(e) => Err(e)
      case Ok(m') => PushOperator(m', op)
    else Ok(Machine(m.numbers, m.operators + [op]))
  }

  /** A `)` token: apply stacked operators down to the matching `(` and drop it. */
  function CloseParen(m: Machine): Result<Machine>
    decreases |m.operators|
  {
    if |m.operators| == 0 then Err(StackUnderflow)
    else if m.operators[|m.operators| - 1] == '(' then Ok(Machine(m.numbers, m.operators[..|m.operators| - 1]))
    else
      match Reduce(m)
      case Err(e) => Err(e)
      case Ok(m') => CloseParen(m')
  }

  /** End of input: apply every stacked operator, then pop the top number. */
  function Finish(m: Machine): Result<int>
    decreases |m.operators|
  {
    if |m.operators| == 0 then
      (if |m.numbers| == 0 then Err(StackUnderflow) else Ok(m.numbers[|m.numbers| - 1]))
    else
      match Reduce(m)
      case Err(e) => Err(e)
      case Ok(m') => Finish(m')
  }

  function Step(m: Machine, t: Token): Result<Machine> {
    match t
    case Num(n) => Ok(Push(m, n))
    case Open => Ok(Machine(m.numbers, m.operators + ['(']))
    case Close => CloseParen(m)
    case Op(c) => PushOperator(m, c)
  }

  function StepResult(r: Result<Machine>, t: Token): Result<Machine> {
    match r
    case Err(e) => Err(e)
    case Ok(m) => Step(m, t)
  }

  /** The machine after the tokens, from left to right; a failure stops it. */
  function Exec(r: Result<Machine>, tokens: seq<Token>): Result<Machine>
    decreases |tokens|
  {
    if tokens == [] then r else Exec(StepResult(r, tokens[0]), tokens[1..])
  }

  function RunFrom(r: Result<Machine>, tokens: seq<Token>): Result<int> {
    match Exec(r, tokens)
    case Err(e) => Err(e)
    case Ok(m) => Finish(m)
  }

  function Run(tokens: seq<Token>): Result<int> {
    RunFrom(Ok(Init), tokens)
  }

  /** What `EvaluateExpression(s)` returns or throws, given the variables. */
  function Evaluate(s: string, vars: map<string, string>): Result<int> {
    match Lex(s, vars)
    case Err(e) => Err(e)
    case Ok(tokens) => Run(tokens)
  }

  lemma {:induction false} ExecFailed(e: EvalError, tokens: seq<Token>)
    ensures Exec(Err(e), tokens) == Err(e)
    decreases |tokens|
  {
    if tokens != [] {
      ExecFailed(e, tokens[1..]);
    }
  }

  lemma {:induction false} ExecConcat(r: Result<Machine>, a: seq<Token>, b: seq<Token>)
    ensures Exec(r, a + b) == Exec(Exec(r, a), b)
    decreases |a|
  {
    if a == [] {
      assert a + b == b;
    } else {
      assert (a + b)[0] == a[0];
      assert (a + b)[1..] == a[1..] + b;
      ExecConcat(StepResult(r, a[0]), a[1..], b);
    }
  }

  /** Feeding one more token is one more step: the form the evaluator's loop runs in. */
  lemma ExecSnoc(r: Result<Machine>, a: seq<Token>, t: Token)
    ensures Exec(r, a + [t]) == StepResult(Exec(r, a), t)
  {
    ExecConcat(r, a, [t]);
    assert [t][1..] == [];
  }

  // ---------------------------------------------------------------------------
  // The evaluator part-way through the text
  // ---------------------------------------------------------------------------

  /**
   * What is left to compute once the machine `m` has consumed the text before
   * position `i`: the loop invariant of the imperative evaluator.
   */
  function Resume(s: string, vars: map<string, string>, m: Machine, i: nat): Result<int>
    requires i <= |s|
  {
    match LexFrom(s, vars, i)
    case Err(e) => Err(e)
    case Ok(tokens) => RunFrom(Ok(m), tokens)
  }

  /** Before the first character the evaluator has everything still to do. */
  lemma ResumeStart(s: string, vars: map<string, string>)
    ensures Resume(s, vars, Init, 0) == Evaluate(s, vars)
  {
  }

  /** After the last character only the final reductions are left. */
  lemma ResumeEnd(s: string, vars: map<string, string>, m: Machine)
    ensures Resume(s, vars, m, |s|) == Finish(m)
  {
    assert LexFrom(s, vars, |s|) == Ok([]);
  }

  /**
   * Consuming the token that the text from `i` to `j` lexes to: a step that
   * succeeds leaves the same work from `j`, a step that fails dooms the rest.
   */
  lemma ResumeToken(s: string, vars: map<string, string>, m: Machine, i: nat, j: nat, t: Token)
    requires i < j <= |s|
    requires LexFrom(s, vars, i) == Prepend([t], LexFrom(s, vars, j))
    ensures Step(m, t).Ok? ==> Resume(s, vars, m, i) == Resume(s, vars, Step(m, t).value, j)
    ensures Step(m, t).Err? ==> Resume(s, vars, m, i).Err?
  {
    match LexFrom(s, vars, j)
    case Err(e) =>
    case Ok(tokens) =>
      assert ([t] + tokens)[0] == t && ([t] + tokens)[1..] == tokens;
      assert Exec(Ok(m), [t] + tokens) == Exec(Step(m, t), tokens);
      if Step(m, t).Err? {
        ExecFailed(Step(m, t).error, tokens);
      }
  }

  /** A maximal run of digits is one number token. */
  lemma LexNumber(s: string, vars: map<string, string>, i: nat, j: nat)
    requires i < j <= |s|
    requires forall k | i <= k < j :: IsDigit(s[k])
    requires j == |s| || !IsDigit(s[j])
    ensures AllDigits(s[i..j])
    ensures LexFrom(s, vars, i) == Prepend([Num(DigitsValue(s[i..j]))], LexFrom(s, vars, j))
  {
    RunEndAt(s, i + 1, j, IsDigit);
  }

  /** `$` and a maximal run of name characters is a reference to the variable so named. */
  lemma LexReference(s: string, vars: map<string, string>, i: nat, j: nat)
    requires i < j <= |s| && s[i] == '$'
    requires forall k | i < k < j :: IsNameChar(s[k])
    requires j == |s| || !IsNameChar(s[j])
    ensures var name := s[i + 1..j];
            LexFrom(s, vars, i) ==
              if name !in vars then Err(UndefinedVariable(name))
              else if TryParseInt(vars[name]).None? then Err(BadVariableValue(name))
              else Prepend([Num(TryParseInt(vars[name]).value)], LexFrom(s, vars, j))
  {
    RunEndAt(s, i + 1, j, IsNameChar);
  }

  /** Any other character is skipped. */
  lemma LexSkip(s: string, vars: map<string, string>, m: Machine, i: nat)
    requires i < |s|
    requires var c := s[i]; !IsDigit(c) && c != '(' && c != ')' && !IsOperator(c) && c != '$'
    ensures Resume(s, vars, m, i) == Resume(s, vars, m, i + 1)
  {
  }

  /** A one-character number evaluates to itself, which makes the evaluator's shortcut for it harmless. */
  lemma EvaluateOneCharacter(s: string, vars: map<string, string>)
    requires |s| == 1 && TryParseInt(s).Some?
    ensures Evaluate(s, vars) == Ok(TryParseInt(s).value)
  {
    assert IsDigit(s[0]);
    assert s[0..1] == s;
    LexNumber(s, vars, 0, 1);
    assert LexFrom(s, vars, 1) == Ok([]);
    var v := DigitsValue(s);
    assert DigitsValue(s[0..1]) == v;
    assert LexFrom(s, vars, 0) == Ok([Num(v)] + []);
    assert [Num(v)] + [] == [Num(v)];
    assert Lex(s, vars) == Ok([Num(v)]);
    assert Exec(Ok(Init), [Num(v)]) == Ok(Push(Init, v));
  }

  // ---------------------------------------------------------------------------
  // Reference semantics: expression trees
  // ---------------------------------------------------------------------------

  datatype BinOp = Plus | Minus | Times | Over

  /** An arithmetic expression over non-negative literals. */
  datatype Expr = Lit(n: nat) | Bin(op: BinOp, left: Expr, right: Expr)

  function Symbol(op: BinOp): char {
    match op
    case Plus => '+'
    case Minus => '-'
    case Times => '*'
    case Over => '/'
  }

  /** The value of a tree, operands left before right; division truncates and fails on zero. */
  function Eval(e: Expr): Result<int> {
    match e
    case Lit(n) => Ok(n)
    case Bin(op, l, r) =>
      match Eval(l)
      case Err(x) => Err(x)
      case Ok(a) =>
        match Eval(r)
        case Err(x) => Err(x)
        case Ok(b) => Arith(op, a, b)
  }

  function Arith(op: BinOp, a: int, b: int): Result<int> {
    match op
    case Plus => Ok(a + b)
    case Minus => Ok(a - b)
    case Times => Ok(a * b)
    case Over => if b == 0 then Err(DivideByZero) else Ok(TruncDiv(a, b))
  }

  /** How tightly a tree binds when printed: literals tightest. */
  function Prec(e: Expr): nat {
    match e
    case Lit(_) => 3
    case Bin(op, _, _) => Level(Symbol(op))
  }

  /**
   * The tokens a tree prints as, with the fewest parentheses: a left operand
   * is parenthesised when it binds more loosely than the operator, a right
   * operand also when it binds equally (operators associate to the left).
   */
  function Tokens(e: Expr): seq<Token>
    decreases e, 1
  {
    match e
    case Lit(n) => [Num(n)]
    case Bin(op, l, r) =>
      Operand(l, Prec(l) < Level(Symbol(op))) + [Op(Symbol(op))] + Operand(r, Prec(r) <= Level(Symbol(op)))
  }

  function Operand(e: Expr, parenthesize: bool): seq<Token>
    decreases e, 2
  {
    if parenthesize then [Open] + Tokens(e) + [Close] else Tokens(e)
  }

  // ---------------------------------------------------------------------------
  // The machine computes the reference semantics
  // ---------------------------------------------------------------------------

  /** The operator stack's top does not bind as tightly as a tree of precedence `p`. */
  predicate Admits(operators: seq<char>, p: nat) {
    |operators| == 0 || Level(operators[|operators| - 1]) < p
  }

  /** What may follow a tree of precedence `p` without belonging to it. */
  predicate Follows(rest: seq<Token>, p: nat) {
    |rest| == 0 || rest[0] == Close || (rest[0].Op? && IsOperator(rest[0].symbol) && Level(rest[0].symbol) <= p)
  }

  function Then(r: Result<int>, m: Machine, rest: seq<Token>): Result<int> {
    match r
    case Err(x) => Err(x)
    case Ok(v) => RunFrom(Ok(Push(m, v)), rest)
  }

  /** An operator on top of two operands is applied as soon as a token that follows it arrives. */
  lemma ReduceOnFollow(numbers: seq<int>, operators: seq<char>, a: int, b: int, op: char, rest: seq<Token>)
    requires IsOperator(op) && Follows(rest, Level(op))
    ensures RunFrom(Ok(Machine(numbers + [a, b], operators + [op])), rest) ==
            Then(ApplyOperator(a, b, op), Machine(numbers, operators), rest)
  {
    var m := Machine(numbers + [a, b], operators + [op]);
    var n := |m.numbers|;
    assert m.numbers[n - 2] == a && m.numbers[n - 1] == b && m.numbers[..n - 2] == numbers;
    assert m.operators[|m.operators| - 1] == op && m.operators[..|m.operators| - 1] == operators;
    if rest != [] {
      var t := rest[0];
      assert rest == [t] + rest[1..];
      assert Exec(Ok(m), rest) == Exec(Step(m, t), rest[1..]);
      match ApplyOperator(a, b, op)
      case Err(x) =>
        ExecFailed(x, rest[1..]);
      case Ok(v) =>
        var m' := Push(Machine(numbers, operators), v);
        assert Exec(Ok(m'), rest) == Exec(Step(m', t), rest[1..]);
    }
  }

  lemma RunFromCons(r: Result<Machine>, t: Token, rest: seq<Token>)
    ensures RunFrom(r, [t] + rest) == RunFrom(StepResult(r, t), rest)
  {
    assert ([t] + rest)[1..] == rest;
  }

  /** Pushing an operator over one that binds more loosely applies nothing. */
  lemma PushOverLooser(m: Machine, op: char)
    requires IsOperator(op) && Admits(m.operators, Level(op))
    ensures PushOperator(m, op) == Ok(Machine(m.numbers, m.operators + [op]))
  {
  }

  lemma {:induction false} TokensCorrect(e: Expr, m: Machine, rest: seq<Token>)
    requires Admits(m.operators, Prec(e)) && Follows(rest, Prec(e))
    ensures RunFrom(Ok(m), Tokens(e) + rest) == Then(Eval(e), m, rest)
    decreases e, 1
  {
    match e
    case Lit(n) =>
      RunFromCons(Ok(m), Num(n), rest);
    case Bin(op, l, r) =>
      BinCorrect(op, l, r, m, rest);
  }

  lemma {:induction false} BinCorrect(op: BinOp, l: Expr, r: Expr, m: Machine, rest: seq<Token>)
    requires Admits(m.operators, Level(Symbol(op))) && Follows(rest, Level(Symbol(op)))
    ensures RunFrom(Ok(m), Tokens(Bin(op, l, r)) + rest) == Then(Eval(Bin(op, l, r)), m, rest)
    decreases Bin(op, l, r), 0
  {
    var o := Symbol(op);
    var pl, pr := Prec(l) < Level(o), Prec(r) <= Level(o);
    var right := Operand(r, pr) + rest;
    assert Tokens(Bin(op, l, r)) + rest == Operand(l, pl) + ([Op(o)] + right);
    OperandCorrect(l, pl, m, [Op(o)] + right);
    if Eval(l).Ok? {
      AfterLeft(op, Eval(l).value, r, m, rest);
    }
  }

  /** Once the left operand's value is stacked, the operator and the right operand finish the tree. */
  lemma {:induction false} AfterLeft(op: BinOp, a: int, r: Expr, m: Machine, rest: seq<Token>)
    requires Admits(m.operators, Level(Symbol(op))) && Follows(rest, Level(Symbol(op)))
    ensures RunFrom(Ok(Push(m, a)), [Op(Symbol(op))] + (Operand(r, Prec(r) <= Level(Symbol(op))) + rest)) ==
            match Eval(r)
            case Err(x) => Err(x)
            case Ok(b) => Then(Arith(op, a, b), m, rest)
    decreases r, 3
  {
    var o := Symbol(op);
    var pr := Prec(r) <= Level(o);
    var m1 := Push(m, a);
    var m2 := Machine(m1.numbers, m1.operators + [o]);
    PushOverLooser(m1, o);
    RunFromCons(Ok(m1), Op(o), Operand(r, pr) + rest);
    OperandCorrect(r, pr, m2, rest);
    if Eval(r).Ok? {
      var b := Eval(r).value;
      assert Push(m2, b) == Machine(m.numbers + [a, b], m.operators + [o]);
      ReduceOnFollow(m.numbers, m.operators, a, b, o, rest);
      assert ApplyOperator(a, b, o) == Arith(op, a, b);
    }
  }

  lemma {:induction false} OperandCorrect(e: Expr, parenthesize: bool, m: Machine, rest: seq<Token>)
    requires parenthesize || (Admits(m.operators, Prec(e)) && Follows(rest, Prec(e)))
    ensures RunFrom(Ok(m), Operand(e, parenthesize) + rest) == Then(Eval(e), m, rest)
    decreases e, 2
  {
    if !parenthesize {
      TokensCorrect(e, m, rest);
    } else {
      var inner := Machine(m.numbers, m.operators + ['(']);
      var tail := [Close] + rest;
      assert Operand(e, true) + rest == [Open] + (Tokens(e) + tail);
      assert ([Open] + (Tokens(e) + tail))[1..] == Tokens(e) + tail;
      assert Prec(e) > 0 by { match e case Lit(_) => case Bin(op, _, _) => }
      TokensCorrect(e, inner, tail);
      match Eval(e)
      case Err(x) =>
      case Ok(v) =>
        assert CloseParen(Push(inner, v)) == Ok(Push(m, v));
        assert tail[1..] == rest;
    }
  }

  /** The machine evaluates the printed tokens of every tree to the tree's value. */
  lemma MachineComputesEval(e: Expr)
    ensures Run(Tokens(e)) == Eval(e)
  {
    assert Tokens(e) + [] == Tokens(e);
    TokensCorrect(e, Init, []);
  }
}

/**
 * The same theorem at the level of text: an expression tree printed with the
 * fewest parentheses is evaluated, characters and all, to the tree's value.
 */
module ArithmeticText {
  import opened Wrappers
  import opened Text
  import opened Arithmetic

  function TokenText(t: Token): string {
    match t
    case Num(n) => IntToString(n)
    case Open => "("
    case Close => ")"
    case Op(c) => [c]
  }

  function Render(tokens: seq<Token>): string
    decreases |tokens|
  {
    if tokens == [] then "" else TokenText(tokens[0]) + Render(tokens[1..])
  }

  /** The text of a tree, as a user would type it after `eval`. */
  function Print(e: Expr): string {
    Render(Tokens(e))
  }

  /** Tokens that print back unambiguously: no negative literal, real operators, no two numbers adjacent. */
  predicate Printable(tokens: seq<Token>) {
    && (forall i | 0 <= i < |tokens| :: (tokens[i].Num? ==> tokens[i].n >= 0) && (tokens[i].Op? ==> IsOperator(tokens[i].symbol)))
    && (forall i | 0 <= i < |tokens| - 1 :: !(tokens[i].Num? && tokens[i + 1].Num?))
  }

  lemma {:induction false} RunEndShift(p: string, q: string, i: nat, inRun: char -> bool)
    requires i <= |q|
    ensures RunEnd(p + q, |p| + i, inRun) == |p| + RunEnd(q, i, inRun)
    decreases |q| - i
  {
    if i < |q| {
      assert (p + q)[|p| + i] == q[i];
      if inRun(q[i]) {
        RunEndShift(p, q, i + 1, inRun);
      }
    }
  }

  /** Lexing does not look behind: text in front of position `i` does not change what follows. */
  lemma {:induction false} LexShift(p: string, q: string, vars: map<string, string>, i: nat)
    requires i <= |q|
    ensures LexFrom(p + q, vars, |p| + i) == LexFrom(q, vars, i)
    decreases |q| - i, 1
  {
    if i < |q| {
      var c := q[i];
      assert (p + q)[|p| + i] == c;
      if IsDigit(c) {
        LexShiftDigits(p, q, vars, i);
      } else if c == '$' {
        LexShiftName(p, q, vars, i);
      } else {
        LexShift(p, q, vars, i + 1);
      }
    }
  }

  lemma {:induction false} LexShiftDigits(p: string, q: string, vars: map<string, string>, i: nat)
    requires i < |q| && IsDigit(q[i])
    ensures LexFrom(p + q, vars, |p| + i) == LexFrom(q, vars, i)
    decreases |q| - i, 0
  {
    var s := p + q;
    assert s[|p| + i] == q[i];
    var j := RunEnd(q, i + 1, IsDigit);
    RunEndShift(p, q, i + 1, IsDigit);
    assert s[|p| + i..|p| + j] == q[i..j];
    LexShift(p, q, vars, j);
  }

  lemma {:induction false} LexShiftName(p: string, q: string, vars: map<string, string>, i: nat)
    requires i < |q| && q[i] == '$'
    ensures LexFrom(p + q, vars, |p| + i) == LexFrom(q, vars, i)
    decreases |q| - i, 0
  {
    var s := p + q;
    assert s[|p| + i] == q[i];
    var j := RunEnd(q, i + 1, IsNameChar);
    RunEndShift(p, q, i + 1, IsNameChar);
    assert s[|p| + i + 1..|p| + j] == q[i + 1..j];
    LexShift(p, q, vars, j);
  }

  lemma RenderStart(tokens: seq<Token>)
    requires Printable(tokens) && tokens != [] && !tokens[0].Num?
    ensures |Render(tokens)| > 0 && !IsDigit(Render(tokens)[0])
  {
  }

  lemma {:induction false} LexRender(tokens: seq<Token>, vars: map<string, string>)
    requires Printable(tokens)
    ensures Lex(Render(tokens), vars) == Ok(tokens)
    decreases |tokens|
  {
    if tokens != [] {
      var t, rest := tokens[0], tokens[1..];
      assert Printable(rest);
      var p, q := TokenText(t), Render(rest);
      var s := p + q;
      LexRender(rest, vars);
      LexShift(p, q, vars, 0);
      assert LexFrom(s, vars, |p|) == Ok(rest);
      if t.Num? {
        assert p == NatToDigits(t.n);
        var j := RunEnd(s, 1, IsDigit);
        if rest != [] {
          RenderStart(rest);
          assert !IsDigit(s[|p|]);
        }
        assert forall k | 0 <= k < |p| :: IsDigit(s[k]);
        assert j == |p|;
        assert s[0..j] == p;
        DigitsRoundTrip(t.n);
      }
      assert [t] + rest == tokens;
    }
  }

  lemma PrintableConcat(a: seq<Token>, o: char, b: seq<Token>)
    requires Printable(a) && Printable(b) && IsOperator(o)
    ensures Printable(a + [Op(o)] + b)
  {
    var s := a + [Op(o)] + b;
    forall i | 0 <= i < |s| - 1 ensures !(s[i].Num? && s[i + 1].Num?) {
      if i < |a| - 1 {
        assert s[i] == a[i] && s[i + 1] == a[i + 1];
      } else if i > |a| {
        assert s[i] == b[i - |a| - 1] && s[i + 1] == b[i - |a|];
      }
    }
  }

  lemma {:induction false} TokensPrintable(e: Expr)
    ensures Printable(Tokens(e))
  {
    match e
    case Lit(n) =>
    case Bin(op, l, r) =>
      TokensPrintable(l);
      TokensPrintable(r);
      var a := Operand(l, Prec(l) < Level(Symbol(op)));
      var b := Operand(r, Prec(r) <= Level(Symbol(op)));
      OperandPrintable(l, Prec(l) < Level(Symbol(op)));
      OperandPrintable(r, Prec(r) <= Level(Symbol(op)));
      PrintableConcat(a, Symbol(op), b);
  }

  lemma OperandPrintable(e: Expr, parenthesize: bool)
    requires Printable(Tokens(e))
    ensures Printable(Operand(e, parenthesize))
  {
    if parenthesize {
      var s := [Open] + Tokens(e) + [Close];
      forall i | 0 <= i < |s| - 1 ensures !(s[i].Num? && s[i + 1].Num?) {
        if 0 < i < |s| - 2 {
          assert s[i] == Tokens(e)[i - 1] && s[i + 1] == Tokens(e)[i];
        }
      }
    }
  }

  function Then(first: Result<seq<Token>>, second: Result<seq<Token>>): Result<seq<Token>> {
    match first
    case Err(e) => Err(e)
    case Ok(tokens) => Prepend(tokens, second)
  }

  /** Where text `a` may end and text `b` begin without a digit run or a variable name running across. */
  predicate Boundary(a: string, b: string) {
    a == [] || b == [] || !IsNameChar(b[0]) || (!IsNameChar(a[|a| - 1]) && a[|a| - 1] != '$')
  }

  lemma {:induction false} RunEndSplit(a: string, b: string, i: nat, inRun: char -> bool)
    requires i <= |a|
    requires forall c :: inRun(c) ==> IsNameChar(c)
    requires b == [] || !inRun(b[0]) || (i < |a| && !inRun(a[|a| - 1]))
    ensures RunEnd(a + b, i, inRun) == RunEnd(a, i, inRun)
    decreases |a| - i
  {
    if i < |a| {
      assert (a + b)[i] == a[i];
      if inRun(a[i]) {
        RunEndSplit(a, b, i + 1, inRun);
      }
    } else if b != [] {
      assert (a + b)[i] == b[0];
    }
  }

  lemma ThenPrepend(p: seq<Token>, first: Result<seq<Token>>, second: Result<seq<Token>>)
    ensures Then(Prepend(p, first), second) == Prepend(p, Then(first, second))
  {
    if first.Ok? && second.Ok? {
      assert p + first.value + second.value == p + (first.value + second.value);
    }
  }

  /** Lexing text made of two parts that meet at a boundary lexes the parts one after the other. */
  lemma {:induction false} LexSplit(a: string, b: string, vars: map<string, string>, i: nat)
    requires i <= |a| && Boundary(a, b)
    ensures LexFrom(a + b, vars, i) == Then(LexFrom(a, vars, i), LexFrom(b, vars, 0))
    decreases |a| - i, 1
  {
    if i == |a| {
      LexShift(a, b, vars, 0);
      var r := LexFrom(b, vars, 0);
      if r.Ok? { assert [] + r.value == r.value; }
    } else {
      var c := a[i];
      assert (a + b)[i] == c;
      if IsDigit(c) {
        LexSplitDigits(a, b, vars, i);
      } else if c == '$' {
        LexSplitName(a, b, vars, i);
      } else {
        LexSplit(a, b, vars, i + 1);
        if c == '(' || c == ')' || IsOperator(c) {
          ThenPrepend([if c == '(' then Open else if c == ')' then Close else Op(c)], LexFrom(a, vars, i + 1), LexFrom(b, vars, 0));
        }
      }
    }
  }

  lemma {:induction false} LexSplitDigits(a: string, b: string, vars: map<string, string>, i: nat)
    requires i < |a| && Boundary(a, b) && IsDigit(a[i])
    ensures LexFrom(a + b, vars, i) == Then(LexFrom(a, vars, i), LexFrom(b, vars, 0))
    decreases |a| - i, 0
  {
    assert (a + b)[i] == a[i];
    RunEndSplit(a, b, i + 1, IsDigit);
    var j := RunEnd(a, i + 1, IsDigit);
    assert (a + b)[i..j] == a[i..j];
    LexSplit(a, b, vars, j);
    ThenPrepend([Num(DigitsValue(a[i..j]))], LexFrom(a, vars, j), LexFrom(b, vars, 0));
  }

  lemma {:induction false} LexSplitName(a: string, b: string, vars: map<string, string>, i: nat)
    requires i < |a| && Boundary(a, b) && a[i] == '$'
    ensures LexFrom(a + b, vars, i) == Then(LexFrom(a, vars, i), LexFrom(b, vars, 0))
    decreases |a| - i, 0
  {
    assert (a + b)[i] == a[i];
    RunEndSplit(a, b, i + 1, IsNameChar);
    var j := RunEnd(a, i + 1, IsNameChar);
    assert (a + b)[i + 1..j] == a[i + 1..j];
    LexSplit(a, b, vars, j);
    var name := a[i + 1..j];
    if name in vars && TryParseInt(vars[name]).Some? {
      ThenPrepend([Num(TryParseInt(vars[name]).value)], LexFrom(a, vars, j), LexFrom(b, vars, 0));
    }
  }

  /**
   * A character that is not a digit, a letter, `_`, `$`, a parenthesis or an
   * operator (a space, say) is skipped: removing it does not change the value,
   * provided it does not separate two digits or a name from its continuation.
   */
  lemma SkippedCharacter(a: string, c: char, b: string, vars: map<string, string>)
    requires !IsNameChar(c) && c != '$' && c != '(' && c != ')' && !IsOperator(c)
    requires Boundary(a, b)
    ensures Evaluate(a + [c] + b, vars) == Evaluate(a + b, vars)
  {
    assert a + [c] + b == a + ([c] + b);
    LexSplit(a, [c] + b, vars, 0);
    LexSplit(a, b, vars, 0);
    LexShift([c], b, vars, 0);
    assert LexFrom([c] + b, vars, 0) == LexFrom([c] + b, vars, 1);
  }

  /**
   * A reference `$name` stands for the variable's value when it is defined and
   * holds a number; otherwise the whole evaluation fails, whatever the rest of
   * the text is: an undefined variable never yields a value.
   */
  lemma VariableReference(a: string, name: string, b: string, vars: map<string, string>)
    requires forall k | 0 <= k < |name| :: IsNameChar(name[k])
    requires b == [] || !IsNameChar(b[0])
    ensures Lex(a + "$" + name + b, vars) ==
            Then(Lex(a, vars),
                 if name !in vars then Err(UndefinedVariable(name))
                 else match TryParseInt(vars[name])
                      case None => Err(BadVariableValue(name))
                      case Some(v) => Prepend([Num(v)], Lex(b, vars)))
    ensures name !in vars ==> Evaluate(a + "$" + name + b, vars).Err?
  {
    var q := "$" + name + b;
    assert a + "$" + name + b == a + q;
    LexSplit(a, q, vars, 0);
    assert forall k | 1 <= k < 1 + |name| :: q[k] == name[k - 1];
    assert 1 + |name| < |q| ==> q[1 + |name|] == b[0];
    RunEndAt(q, 1, 1 + |name|, IsNameChar);
    assert q[1..1 + |name|] == name;
    LexShift("$" + name, b, vars, 0);
    assert q == ("$" + name) + b;
  }

  /** `eval` of a printed tree gives the tree's value: `2+3*4` is 14, `(2+3)*4` is 20, `10-3-2` is 5. */
  lemma EvaluatePrinted(e: Expr, vars: map<string, string>)
    ensures Evaluate(Print(e), vars) == Eval(e)
  {
    TokensPrintable(e);
    LexRender(Tokens(e), vars);
    MachineComputesEval(e);
  }

  /** A skipped character in front of the text changes nothing. */
  lemma SkippedInFront(c: char, b: string, vars: map<string, string>)
    requires !IsNameChar(c) && c != '$' && c != '(' && c != ')' && !IsOperator(c)
    ensures Evaluate([c] + b, vars) == Evaluate(b, vars)
  {
    SkippedCharacter("", c, b, vars);
    assert "" + [c] + b == [c] + b && "" + b == b;
  }

  /** A natural number written in decimal evaluates to itself. */
  lemma EvaluateLiteral(n: nat, vars: map<string, string>)
    ensures Evaluate(NatToDigits(n), vars) == Ok(n)
  {
    EvaluatePrinted(Lit(n), vars);
    assert Tokens(Lit(n)) == [Num(n)];
    assert Render([Num(n)]) == TokenText(Num(n)) + Render([]);
    assert Render([Num(n)]) == NatToDigits(n);
  }

  /** `$name` on its own evaluates to the variable's value. */
  lemma EvaluateReference(name: string, vars: map<string, string>, v: int)
    requires forall k | 0 <= k < |name| :: IsNameChar(name[k])
    requires name in vars && TryParseInt(vars[name]) == Some(v)
    ensures Evaluate("$" + name, vars) == Ok(v)
  {
    VariableReference("", name, "", vars);
    assert "" + "$" + name + "" == "$" + name;
    assert [Num(v)] + [] == [Num(v)];
    assert Exec(Ok(Init), [Num(v)]) == Ok(Push(Init, v));
  }
}
