/**
 * The command interpreter: `ProcessCommand` dispatches on the first token;
 * `for`, `if` and `sh` run further commands through it. Every level of nesting
 * takes stack space, so the functions carry the number of nested calls still
 * available (`depth`); running out is the C# `StackOverflowException`.
 */
module Interpreter {
  import opened Wrappers
  import opened Text
  import opened Arithmetic
  import opened ArithmeticText
  import opened ShellState
  import opened Messages
  import opened FileSystem
  import opened Variables

  /** The interactive editor behind `edit`: the saved text, given the file name and its old text. */
  type Editor = (string, string) -> string

  /** `string.Join(" ", tokens, k, tokens.Length - k)`. */
  function JoinFrom(tokens: seq<string>, k: nat): string
    requires k <= |tokens|
  {
    Join(tokens[k..], " ")
  }

  function Min(a: int, b: int): int { if a < b then a else b }

  /** The labels of `ProcessCommand`'s switch. */
  datatype Command =
    | Mkdir | Ls | Cd | Touch | Rm | Pwd | EchoText | Write | Cat | Sh | Set | For | If | Eval | Edit
    | Clear | Test | Exit | Unsupported

  function Recognize(word: string): Command {
    if word == "mkdir" then Mkdir
    else if word == "ls" then Ls
    else if word == "cd" then Cd
    else if word == "touch" then Touch
    else if word == "rm" then Rm
    else if word == "pwd" then Pwd
    else if word == "echo" then EchoText
    else if word == "write" then Write
    else if word == "cat" then Cat
    else if word == "sh" then Sh
    else if word == "set" then Set
    else if word == "for" then For
    else if word == "if" then If
    else if word == "eval" then Eval
    else if word == "edit" then Edit
    else if word == "clear" then Clear
    else if word == "test" then Test
    else if word == "exit" then Exit
    else Unsupported
  }

  /**
   * One command, already split into tokens. Every command keeps a valid
   * session valid and only ever adds to the output.
   */
  function ProcessCommand(s: Session, tokens: seq<string>, depth: nat, editor: Editor): (r: Outcome)
    ensures Valid(s) ==> Valid(r.state)
    ensures s.output <= r.state.output
    decreases depth, 3, 0
  {
    if |tokens| == 0 then Aborted(s, IndexOutOfRange)
    else Dispatch(s, Recognize(tokens[0]), tokens, depth, editor)
  }

  /** The switch on the first token, already recognized as `command`. */
  function Dispatch(s: Session, command: Command, tokens: seq<string>, depth: nat, editor: Editor): (r: Outcome)
    requires |tokens| > 0
    ensures Valid(s) ==> Valid(r.state)
    ensures s.output <= r.state.output
    decreases depth, 2, 0
  {
    var n := |tokens|;
    match command
    case Sh =>
      if n > 1 && EndsWith(tokens[1], ".sh") then RunScript(s, tokens[1], depth, editor)
      else Completed(Say(s, UnsupportedFileType))
    case For =>
      if n > 4 then ForCommand(s, tokens[1], tokens[3], JoinFrom(tokens, 4), depth, editor)
      else Completed(Say(s, ForUsage))
    case If =>
      if n > 4 then IfCommand(s, tokens, depth, editor)
      else Completed(Say(s, IfUsage))
    case Mkdir | Ls | Cd | Pwd | Touch | Rm | Write | Cat | Edit | EchoText | Set | Eval | Clear | Test | Exit | Unsupported =>
      SimpleCommand(s, command, tokens, editor)
  }

  /** Every command that does not run other commands. */
  function SimpleCommand(s: Session, command: Command, tokens: seq<string>, editor: Editor): (r: Outcome)
    requires |tokens| > 0 && command !in {Sh, For, If}
    ensures Valid(s) ==> Valid(r.state)
    ensures s.output <= r.state.output
  {
    match command
    case Mkdir | Ls | Cd | Pwd => DirectoryCommand(s, command, tokens)
    case Touch | Rm | Write | Cat | Edit => FileCommand(s, command, tokens, editor)
    case EchoText | Set | Eval => VariableCommand(s, command, tokens)
    case Clear | Test | Exit => Completed(s)
    case Unsupported => Completed(Say(s, NotSupported(tokens[0])))
  }

  /** Which group of commands `SimpleCommand` hands `command` to. */
  lemma SimpleCommandGroup(s: Session, command: Command, tokens: seq<string>, editor: Editor)
    requires |tokens| > 0 && command !in {Sh, For, If}
    ensures command in {Mkdir, Ls, Cd, Pwd} ==> SimpleCommand(s, command, tokens, editor) == DirectoryCommand(s, command, tokens)
    ensures command in {Touch, Rm, Write, Cat, Edit} ==> SimpleCommand(s, command, tokens, editor) == FileCommand(s, command, tokens, editor)
    ensures command in {EchoText, Set, Eval} ==> SimpleCommand(s, command, tokens, editor) == VariableCommand(s, command, tokens)
  {
  }

  /** `mkdir`, `ls`, `cd` and `pwd`. */
  function DirectoryCommand(s: Session, command: Command, tokens: seq<string>): (r: Outcome)
    requires |tokens| > 0 && command in {Mkdir, Ls, Cd, Pwd}
    ensures Valid(s) ==> Valid(r.state)
    ensures s.output <= r.state.output
  {
    var n := |tokens|;
    if command == Mkdir then CreateDirectory(s, JoinFrom(tokens, 1))
    else if command == Ls then
      var listed := ListDirectory(s, if n > 1 then JoinFrom(tokens, 1) else s.currentPath);
      Completed(Say(listed.state, ""))
    else if command == Cd then
      if n > 1 then ChangeDirectory(s, JoinFrom(tokens, 1))
      else Completed(Say(s, CdUsage))
    else Completed(Say(s, s.currentPath))
  }

  /** `touch`, `rm`, `write`, `cat` and `edit`. */
  function FileCommand(s: Session, command: Command, tokens: seq<string>, editor: Editor): (r: Outcome)
    requires |tokens| > 0 && command in {Touch, Rm, Write, Cat, Edit}
    ensures Valid(s) ==> Valid(r.state)
    ensures s.output <= r.state.output
  {
    var n := |tokens|;
    if command == Touch then
      if n > 1 then CreateFile(s, tokens[1])
      else Completed(Say(s, TouchUsage))
    else if command == Rm then
      if n > 1 then RemoveFile(s, tokens[1])
      else Completed(Say(s, RmUsage))
    else if command == Write then
      if n > 2 then WriteToFile(s, tokens[1], JoinFrom(tokens, 2))
      else Completed(Say(s, WriteUsage))
    else if command == Cat then
      if n > 1 && (EndsWith(tokens[1], ".txt") || EndsWith(tokens[1], ".sh")) then ReadFile(s, tokens[1])
      else Completed(Say(s, UnsupportedFileType))
    else
      if n > 1 then EditFile(s, tokens[1], editor)
      else Completed(Say(s, EditUsage))
  }

  /** `echo`, `set` and `eval`; an expression that fails to evaluate throws. */
  function VariableCommand(s: Session, command: Command, tokens: seq<string>): (r: Outcome)
    requires |tokens| > 0 && command in {EchoText, Set, Eval}
    ensures Valid(s) ==> Valid(r.state)
    ensures s.output <= r.state.output
  {
    var n := |tokens|;
    if command == EchoText then
      if n > 1 then Completed(Echo(s, JoinFrom(tokens, 1)))
      else Completed(Say(s, EchoUsage))
    else if command == Set then
      if n > 2 then
        match Evaluate(JoinFrom(tokens, 2), s.variables)
        case Err(_) => Aborted(s, EvaluationFailed)
        case Ok(v) =>
          ParseFormatRoundTrip(v);
          Completed(SetVariable(s, tokens[1], IntToString(v)))
      else Completed(Say(s, SetUsage))
    else
      if n > 1 then
        match Evaluate(JoinFrom(tokens, 1), s.variables)
        case Err(_) => Aborted(s, EvaluationFailed)
        case Ok(v) => Completed(Say(s, IntToString(v)))
      else Completed(Say(s, EvalUsage))
  }

  // ---------------------------------------------------------------------------
  // for
  // ---------------------------------------------------------------------------

  /**
   * `for name start-end command`: the range is split at `-`; when the first
   * piece is a number the second is read too, and is missing when the range
   * has no `-`. The command runs once for each value, assigned first.
   */
  function ForCommand(s: Session, variable: string, range: string, command: string, depth: nat, editor: Editor): (r: Outcome)
    ensures Valid(s) ==> Valid(r.state)
    ensures s.output <= r.state.output
    decreases depth, 1, 0
  {
    if !IsValidVariableName(variable) then Completed(Say(s, InvalidName))
    else
      var bounds := Split(range, '-');
      match TryParseInt(bounds[0])
      case None => Completed(Say(s, InvalidRange))
      case Some(start) =>
        if |bounds| < 2 then Aborted(s, IndexOutOfRange)
        else
          match TryParseInt(bounds[1])
          case None => Completed(Say(s, InvalidRange))
          case Some(end) => ForLoop(s, variable, Split(command, ' '), start, end, depth, editor)
  }

  /** The iterations from `i` to `end`: assign `i` to the variable, run the body. */
  function ForLoop(s: Session, variable: string, body: seq<string>, i: int, end: int, depth: nat, editor: Editor): (r: Outcome)
    ensures Valid(s) ==> Valid(r.state)
    ensures s.output <= r.state.output
    ensures i > end ==> r == Completed(s)
    decreases depth, 0, if i <= end then end - i + 1 else 0
  {
    if i > end then Completed(s)
    else
      ParseFormatRoundTrip(i);
      var s1 := Assign(s, variable, IntToString(i));
      if depth == 0 then Aborted(s1, StackOverflow)
      else
        match ProcessCommand(s1, body, depth - 1, editor)
        case Aborted(t, f) => Aborted(t, f)
        case Completed(t) => ForLoop(t, variable, body, i + 1, end, depth, editor)
  }

  /** One iteration of `for`: assign, run the body, and go on unless it threw. */
  lemma ForLoopStep(s: Session, variable: string, body: seq<string>, i: int, end: int, depth: nat, editor: Editor, r: Outcome)
    requires i <= end && depth > 0
    requires ProcessCommand(Assign(s, variable, IntToString(i)), body, depth - 1, editor) == r
    ensures ForLoop(s, variable, body, i, end, depth, editor) ==
            if r.Aborted? then r else ForLoop(r.state, variable, body, i + 1, end, depth, editor)
  {
  }

  /** Without depth left, `for` stops at its first round, after the assignment. */
  lemma ForLoopTooDeep(s: Session, variable: string, body: seq<string>, i: int, end: int, editor: Editor)
    requires i <= end
    ensures ForLoop(s, variable, body, i, end, 0, editor) == Aborted(Assign(s, variable, IntToString(i)), StackOverflow)
  {
  }

  // ---------------------------------------------------------------------------
  // if
  // ---------------------------------------------------------------------------

  /** Every occurrence of `p + q` is an occurrence of `p`. */
  lemma ContainsPrefix(s: string, p: string, q: string)
    ensures Contains(s, p + q) ==> Contains(s, p)
  {
    if Contains(s, p + q) {
      var k := IndexOf(s, p + q).value;
      assert s[k..k + |p|] == (p + q)[..|p|];
      assert OccursAt(s, p, k);
    }
  }

  /**
   * The operator `if` looks for, in the order `==`, `!=`, `>`, `<`, `>=`, `<=`.
   * A condition containing `>=` also contains `>`, so `>=` and `<=` are never chosen.
   */
  function SelectOperator(condition: string): (r: Option<string>)
    ensures r.Some? ==> Contains(condition, r.value) && r.value in ["==", "!=", ">", "<"]
    ensures r.None? <==> forall op | op in ["==", "!=", ">", "<", ">=", "<="] :: !Contains(condition, op)
    ensures Contains(condition, "==") ==> r == Some("==")
    ensures r == Some("!=") ==> !Contains(condition, "==")
    ensures r == Some(">") ==> !Contains(condition, "==") && !Contains(condition, "!=")
    ensures r == Some("<") ==> !Contains(condition, "==") && !Contains(condition, "!=") && !Contains(condition, ">")
  {
    ContainsPrefix(condition, ">", "=");
    ContainsPrefix(condition, "<", "=");
    assert ">" + "=" == ">=" && "<" + "=" == "<=";
    if Contains(condition, "==") then Some("==")
    else if Contains(condition, "!=") then Some("!=")
    else if Contains(condition, ">") then Some(">")
    else if Contains(condition, "<") then Some("<")
    else if Contains(condition, ">=") then Some(">=")
    else if Contains(condition, "<=") then Some("<=")
    else None
  }

  /**
   * `condition.Split(op)[0]` and `[1]`: the text before the first occurrence of
   * `op`, and the text after it up to the next occurrence.
   */
  function Sides(condition: string, op: string): (r: (string, string))
    requires |op| > 0 && Contains(condition, op)
    ensures !Contains(r.0, op) && !Contains(r.1, op)
    ensures exists rest :: condition == r.0 + op + rest && r.1 <= rest
    ensures condition[..|r.0|] == r.0 && OccursAt(condition, op, |r.0|)
    ensures forall k: nat | k < |r.0| :: !OccursAt(condition, op, k)
    ensures var rest := condition[|r.0| + |op|..];
            && r.1 <= rest
            && (r.1 == rest || OccursAt(rest, op, |r.1|))
            && forall k: nat | k < |r.1| :: !OccursAt(rest, op, k)
  {
    var k := IndexOf(condition, op).value;
    var rest := condition[k + |op|..];
    var second := match IndexOf(rest, op) case None => rest case Some(j) => rest[..j];
    NotBefore(condition, op, k);
    NotBefore(rest, op, |second|);
    assert condition == condition[..k] + op + rest;
    (condition[..k], second)
  }

  /** A prefix that ends before the first occurrence of a pattern does not contain it. */
  lemma NotBefore(s: string, pattern: string, k: nat)
    requires |pattern| > 0 && k <= |s|
    requires forall i: nat | i < k :: !OccursAt(s, pattern, i)
    ensures !Contains(s[..k], pattern)
  {
    var t := s[..k];
    forall i: nat ensures !OccursAt(t, pattern, i) {
      if i + |pattern| <= |t| {
        assert t[i..i + |pattern|] == s[i..i + |pattern|];
        assert i < k && !OccursAt(s, pattern, i);
      }
    }
  }

  /**
   * The index the token scan of `if` ends with: the last token from index 3 on
   * that contains a digit, or `fallback` (the character index the variable
   * held before) when there is none.
   */
  function LastDigitToken(tokens: seq<string>, fallback: int): (k: int)
    ensures (3 <= k < |tokens| && HasDigit(tokens[k]) && forall i | k < i < |tokens| :: !HasDigit(tokens[i]))
         || (k == fallback && forall i | 3 <= i < |tokens| :: !HasDigit(tokens[i]))
    decreases |tokens|
  {
    if |tokens| <= 3 then fallback
    else if HasDigit(tokens[|tokens| - 1]) then |tokens| - 1
    else LastDigitToken(tokens[..|tokens| - 1], fallback)
  }

  /** `string.Join(" ", tokens, 1, ...)` cut after its last digit: the text `if` reads its condition from. */
  function ConditionText(tokens: seq<string>): (r: (string, int))
    requires |tokens| >= 1
    ensures -1 <= r.1 && |r.0| == r.1 + 1
  {
    var joined := JoinFrom(tokens, 1);
    var cut := LastIndexWhere(joined, IsDigit);
    (joined[..cut + 1], cut)
  }

  /** How the condition of `if` is settled, before any command runs. */
  datatype Verdict = NoOperatorFound | Failed(reason: Fault) | Judged(holds: bool, notice: seq<string>)

  /**
   * The condition of `if`: choose the operator, cut the condition around it
   * and settle the two sides.
   */
  function Judge(vars: map<string, string>, tokens: seq<string>): Verdict
    requires |tokens| >= 1
  {
    var condition := ConditionText(tokens).0;
    match SelectOperator(condition)
    case None => NoOperatorFound
    case Some(op) =>
      var (left, right) := Sides(condition, op);
      Settle(vars, op, left, right)
  }

  /** Evaluate both sides with the arithmetic evaluator and compare the results through `EvaluateCondition`. */
  function Settle(vars: map<string, string>, op: string, left: string, right: string): Verdict {
    match Evaluate(left, vars)
    case Err(_) => Failed(EvaluationFailed)
    case Ok(a) =>
      match Evaluate(right, vars)
      case Err(_) => Failed(EvaluationFailed)
      case Ok(b) =>
        match EvaluateCondition(vars, IntToString(a) + " " + op + " " + IntToString(b))
        case Threw(f) => Failed(f)
        case Decided(holds, notice) => Judged(holds, notice)
  }

  /** `if a op b command`: settle the condition, then follow the verdict. */
  function IfCommand(s: Session, tokens: seq<string>, depth: nat, editor: Editor): (r: Outcome)
    requires |tokens| >= 1
    ensures Valid(s) ==> Valid(r.state)
    ensures s.output <= r.state.output
    decreases depth, 1, 1
  {
    IfFollow(s, Judge(s.variables, tokens), tokens, ConditionText(tokens).1, depth, editor)
  }

  /**
   * What `if` does once its condition is settled: print the notices and, when
   * the condition holds, run the tokens after the last token that has a digit
   * (after index `fallback` when none has) one level deeper.
   */
  function IfFollow(s: Session, verdict: Verdict, tokens: seq<string>, fallback: int, depth: nat, editor: Editor): (r: Outcome)
    requires fallback >= -1
    ensures Valid(s) ==> Valid(r.state)
    ensures s.output <= r.state.output
    decreases depth, 1, 0
  {
    match verdict
    case NoOperatorFound => Completed(Say(s, NoOperator))
    case Failed(f) => Aborted(s, f)
    case Judged(holds, notice) =>
      var s1 := s.(output := s.output + notice);
      if !holds then Completed(s1)
      else
        var k := LastDigitToken(tokens, fallback);
        if depth == 0 then Aborted(s1, StackOverflow)
        else ProcessCommand(s1, tokens[Min(k + 1, |tokens|)..], depth - 1, editor)
  }

  // ---------------------------------------------------------------------------
  // sh
  // ---------------------------------------------------------------------------

  /**
   * `sh name`: the script must be listed in the current directory; its text is
   * split at line breaks and every piece but the last runs as a command,
   * split at white space.
   */
  function RunScript(s: Session, name: string, depth: nat, editor: Editor): (r: Outcome)
    ensures Valid(s) ==> Valid(r.state)
    ensures s.output <= r.state.output
    decreases depth, 1, 0
  {
    if s.currentPath !in s.fileSystem then Aborted(s, MissingKey)
    else if name !in s.fileSystem[s.currentPath] then Completed(Say(s, NoSuchScript))
    else if name !in s.files then Aborted(s, MissingKey)
    else ScriptLoop(s, Split(s.files[name], '\n'), 0, depth, editor)
  }

  /** The script's lines from `i` on, all but the last piece. */
  function ScriptLoop(s: Session, commands: seq<string>, i: nat, depth: nat, editor: Editor): (r: Outcome)
    ensures Valid(s) ==> Valid(r.state)
    ensures s.output <= r.state.output
    decreases depth, 0, |commands| - i
  {
    if i + 1 >= |commands| then Completed(s)
    else if depth == 0 then Aborted(s, StackOverflow)
    else
      match ProcessCommand(s, SplitWhiteSpace(commands[i]), depth - 1, editor)
      case Aborted(t, f) => Aborted(t, f)
      case Completed(t) => ScriptLoop(t, commands, i + 1, depth, editor)
  }

  // ---------------------------------------------------------------------------
  // Properties of `for`
  // ---------------------------------------------------------------------------

  lemma DigitsExclude(s: string, c: char)
    requires AllDigits(s) && !IsDigit(c)
    ensures c !in s
  {
    assert forall i | 0 <= i < |s| :: s[i] != c;
  }

  /** A range `a-b` of two natural numbers runs the body for `a`, ..., `b`. */
  lemma ForRange(s: Session, variable: string, a: nat, b: nat, command: string, depth: nat, editor: Editor)
    requires IsValidVariableName(variable)
    ensures ForCommand(s, variable, NatToDigits(a) + "-" + NatToDigits(b), command, depth, editor)
            == ForLoop(s, variable, Split(command, ' '), a, b, depth, editor)
  {
    var parts := [NatToDigits(a), NatToDigits(b)];
    DigitsExclude(parts[0], '-');
    DigitsExclude(parts[1], '-');
    assert Join(parts, "-") == NatToDigits(a) + "-" + NatToDigits(b);
    SplitJoin(parts, '-');
    ParseFormatRoundTrip(a);
    ParseFormatRoundTrip(b);
  }

  /** A range that is a single number has no second bound: reading it throws. */
  lemma ForWithoutDash(s: Session, variable: string, a: nat, command: string, depth: nat, editor: Editor)
    requires IsValidVariableName(variable)
    ensures ForCommand(s, variable, NatToDigits(a), command, depth, editor) == Aborted(s, IndexOutOfRange)
  {
    DigitsExclude(NatToDigits(a), '-');
    SplitJoin([NatToDigits(a)], '-');
    ParseFormatRoundTrip(a);
  }

  /** A negative start is refused: the range splits into an empty piece first. */
  lemma ForNegativeStart(s: Session, variable: string, a: nat, b: nat, command: string, depth: nat, editor: Editor)
    requires IsValidVariableName(variable)
    ensures ForCommand(s, variable, "-" + NatToDigits(a) + "-" + NatToDigits(b), command, depth, editor)
            == Completed(Say(s, InvalidRange))
  {
    var parts := ["", NatToDigits(a), NatToDigits(b)];
    DigitsExclude(parts[1], '-');
    DigitsExclude(parts[2], '-');
    assert Join(parts[1..], "-") == NatToDigits(a) + "-" + NatToDigits(b);
    assert Join(parts, "-") == "-" + NatToDigits(a) + "-" + NatToDigits(b);
    SplitJoin(parts, '-');
  }

  /**
   * `for x a-b set y $x` copies each value of the loop variable into `y`: at
   * the end both hold `b`.
   */
  lemma {:induction false} ForCopies(s: Session, x: string, y: string, i: int, end: int, depth: nat, editor: Editor)
    requires IsValidVariableName(y)
    requires forall k | 0 <= k < |x| :: IsNameChar(x[k])
    requires i <= end && depth >= 1
    ensures var r := ForLoop(s, x, ["set", y, "$" + x], i, end, depth, editor);
            && r.Completed?
            && x in r.state.variables && r.state.variables[x] == IntToString(end)
            && y in r.state.variables && r.state.variables[y] == IntToString(end)
    decreases end - i
  {
    var body := ["set", y, "$" + x];
    var t := Assign(Assign(s, x, IntToString(i)), y, IntToString(i));
    ForCopiesStep(s, x, y, i, end, depth, editor);
    if i < end {
      ForCopies(t, x, y, i + 1, end, depth, editor);
    } else {
      assert ForLoop(t, x, body, i + 1, end, depth, editor) == Completed(t);
    }
  }

  /** One round of `for x a-b set y $x`: both variables take the round's value. */
  lemma ForCopiesStep(s: Session, x: string, y: string, i: int, end: int, depth: nat, editor: Editor)
    requires IsValidVariableName(y)
    requires forall k | 0 <= k < |x| :: IsNameChar(x[k])
    requires i <= end && depth >= 1
    ensures var body := ["set", y, "$" + x];
            ForLoop(s, x, body, i, end, depth, editor) ==
              ForLoop(Assign(Assign(s, x, IntToString(i)), y, IntToString(i)), x, body, i + 1, end, depth, editor)
  {
    ParseFormatRoundTrip(i);
    var s1 := Assign(s, x, IntToString(i));
    assert s1.variables[x] == IntToString(i);
    SetFromReference(s1, x, y, i, depth - 1, editor);
    assert SetVariable(s1, y, IntToString(i)) == Assign(s1, y, IntToString(i));
    ForLoopStep(s, x, ["set", y, "$" + x], i, end, depth, editor, Completed(Assign(s1, y, IntToString(i))));
  }

  /** `set y $x` stores the value of `x` in `y`. */
  lemma SetFromReference(s: Session, x: string, y: string, v: int, depth: nat, editor: Editor)
    requires forall k | 0 <= k < |x| :: IsNameChar(x[k])
    requires x in s.variables && s.variables[x] == IntToString(v)
    ensures ProcessCommand(s, ["set", y, "$" + x], depth, editor) == Completed(SetVariable(s, y, IntToString(v)))
  {
    var body := ["set", y, "$" + x];
    ParseFormatRoundTrip(v);
    EvaluateReference(x, s.variables, v);
    assert JoinFrom(body, 2) == "$" + x;
    assert Recognize("set") == Set;
    assert ProcessCommand(s, body, depth, editor) == Dispatch(s, Set, body, depth, editor);
  }

  // ---------------------------------------------------------------------------
  // Properties of `if`
  // ---------------------------------------------------------------------------

  /**
   * The comparison `if` performs for each of its operators. `>=` and `<=`
   * always contain `>` or `<`, which are looked for first, so they compare
   * strictly.
   */
  function Effective(op: string): string {
    if op == ">=" then ">" else if op == "<=" then "<" else op
  }

  lemma FirstOccurrence(s: string, p: string, k: nat)
    requires OccursAt(s, p, k) && forall j: nat | j < k :: !OccursAt(s, p, j)
    ensures IndexOf(s, p) == Some(k)
  {
  }

  /** A pattern whose first or last character is never in place does not occur. */
  lemma Absent(s: string, p: string)
    requires |p| > 0 && forall j | 0 <= j <= |s| - |p| :: s[j] != p[0] || s[j + |p| - 1] != p[|p| - 1]
    ensures IndexOf(s, p) == None
  {
    forall j: nat ensures !OccursAt(s, p, j) {
      if j + |p| <= |s| {
        assert s[j..j + |p|][0] == s[j] && s[j..j + |p|][|p| - 1] == s[j + |p| - 1];
      }
    }
  }

  /** A pattern whose characters occur neither in `pre` nor in `post` is found in `pre + m + post` where it is found in `m`. */
  lemma {:induction false} FoundInMiddle(pre: string, m: string, post: string, p: string)
    requires |p| > 0 && forall i | 0 <= i < |p| :: p[i] !in pre && p[i] !in post
    ensures IndexOf(pre + m + post, p) == match IndexOf(m, p) case None => None case Some(k) => Some(|pre| + k)
  {
    var s := pre + m + post;
    forall j: nat
      ensures OccursAt(s, p, j) ==> |pre| <= j && OccursAt(m, p, j - |pre|)
    {
      OccursOnlyInMiddle(pre, m, post, p, j);
    }
    match IndexOf(m, p)
    case None =>
    case Some(k) =>
      OccursShifted(pre, m, post, p, k);
      FirstOccurrence(s, p, |pre| + k);
  }

  /** Such a pattern cannot overlap `pre` or `post`. */
  lemma OccursOnlyInMiddle(pre: string, m: string, post: string, p: string, j: nat)
    requires |p| > 0 && forall i | 0 <= i < |p| :: p[i] !in pre && p[i] !in post
    ensures OccursAt(pre + m + post, p, j) ==> |pre| <= j && OccursAt(m, p, j - |pre|)
  {
    var s := pre + m + post;
    var last := |p| - 1;
    assert forall i | 0 <= i < |pre| :: s[i] == pre[i] && s[i] != p[0];
    assert forall i | |pre| + |m| <= i < |s| :: s[i] == post[i - |pre| - |m|] && s[i] != p[last];
    if OccursAt(s, p, j) {
      assert s[j] == s[j..j + |p|][0] == p[0];
      assert s[j + last] == s[j..j + |p|][last] == p[last];
      assert s[j..j + |p|] == m[j - |pre|..j - |pre| + |p|];
    }
  }

  /** An occurrence in `m` is an occurrence in `pre + m + post`, `|pre|` further on. */
  lemma OccursShifted(pre: string, m: string, post: string, p: string, k: nat)
    requires OccursAt(m, p, k)
    ensures OccursAt(pre + m + post, p, |pre| + k)
  {
    assert (pre + m + post)[|pre| + k..|pre| + k + |p|] == m[k..k + |p|];
  }

  /** Text around the operator that has no `=`, `!`, `<` or `>` does not change the operator chosen. */
  lemma {:induction false} SelectInMiddle(pre: string, m: string, post: string)
    requires forall c | c in "=!<>" :: c !in pre && c !in post
    ensures SelectOperator(pre + m + post) == SelectOperator(m)
  {
    FoundInMiddle(pre, m, post, "==");
    FoundInMiddle(pre, m, post, "!=");
    FoundInMiddle(pre, m, post, ">");
    FoundInMiddle(pre, m, post, "<");
    FoundInMiddle(pre, m, post, ">=");
    FoundInMiddle(pre, m, post, "<=");
  }

  /** On an operator alone, the choice is the operator itself, with `>=` and `<=` read as `>` and `<`. */
  lemma {:induction false} SelectOnOperator(op: string)
    requires op in ["==", "!=", ">", "<", ">=", "<="]
    ensures SelectOperator(op) == Some(Effective(op))
  {
    if op == "==" {
      FirstOccurrence(op, "==", 0);
    } else if op == "!=" {
      Absent(op, "==");
      FirstOccurrence(op, "!=", 0);
    } else if op == ">" || op == ">=" {
      Absent(op, "==");
      Absent(op, "!=");
      FirstOccurrence(op, ">", 0);
    } else {
      Absent(op, "==");
      Absent(op, "!=");
      Absent(op, ">");
      FirstOccurrence(op, "<", 0);
    }
  }

  lemma {:induction false} NoDigitInJoin(parts: seq<string>)
    requires forall i | 0 <= i < |parts| :: !HasDigit(parts[i])
    ensures !HasDigit(Join(parts, " "))
    decreases |parts|
  {
    if |parts| > 1 {
      NoDigitInJoin(parts[1..]);
      var first, rest := parts[0], Join(parts[1..], " ");
      var joined := first + " " + rest;
      assert forall k | 0 <= k < |first| :: joined[k] == first[k];
      assert forall k | |first| + 1 <= k < |joined| :: joined[k] == rest[k - |first| - 1];
      assert forall k | 0 <= k < |joined| :: !IsDigit(joined[k]);
    }
  }

  /**
   * The condition `if` reads from `if A op B command...`, with `A` and `B`
   * digits and no digit in the command, is `A op B`.
   */
  lemma {:induction false} ConditionCut(a: string, op: string, b: string, command: seq<string>)
    requires |b| > 0 && AllDigits(b) && |command| > 0
    requires forall i | 0 <= i < |command| :: !HasDigit(command[i])
    ensures ConditionText(["if", a, op, b] + command) == (a + " " + op + " " + b, |a + " " + op + " " + b| - 1)
  {
    var tokens := ["if", a, op, b] + command;
    var condition := a + " " + op + " " + b;
    var tail := Join(command, " ");
    var p3 := [b] + command;
    var p2 := [op] + p3;
    var p1 := [a] + p2;
    assert tokens[1..] == p1;
    assert p3[1..] == command && p2[1..] == p3 && p1[1..] == p2;
    assert Join(p3, " ") == b + " " + tail;
    assert Join(p2, " ") == op + " " + Join(p3, " ");
    assert Join(p1, " ") == a + " " + Join(p2, " ");
    var joined := JoinFrom(tokens, 1);
    assert joined == condition + " " + tail;
    NoDigitInJoin(command);
    assert joined[|condition| - 1] == b[|b| - 1];
    assert forall k | |condition| < k < |joined| :: joined[k] == tail[k - |condition| - 1];
    LastIndexAt(joined, IsDigit, |condition| - 1);
    assert joined[..|condition|] == condition;
  }

  /** `if` picks `Effective(op)` out of `A op B`. */
  lemma {:induction false} OperatorOfCondition(a: string, op: string, b: string)
    requires AllDigits(a) && AllDigits(b) && op in ["==", "!=", ">", "<", ">=", "<="]
    ensures SelectOperator(a + " " + op + " " + b) == Some(Effective(op))
  {
    var pre, post := a + " ", " " + b;
    assert a + " " + op + " " + b == pre + op + post;
    forall c | c in "=!<>" ensures c !in pre && c !in post {
      DigitsExclude(a, c);
      DigitsExclude(b, c);
    }
    SelectInMiddle(pre, op, post);
    SelectOnOperator(op);
  }

  /** `Sides` cuts at the first occurrence of the operator, and keeps all of the rest when there is no second one. */
  lemma SidesAt(condition: string, op: string, k: nat)
    requires |op| > 0 && IndexOf(condition, op) == Some(k)
    requires IndexOf(condition[k + |op|..], op) == None
    ensures Sides(condition, op) == (condition[..k], condition[k + |op|..])
  {
  }

  /**
   * An operator `e` whose characters are neither before it, nor after it, nor
   * in the `tail` that follows it splits `pre + e + tail + post` into `pre`
   * and `tail + post`.
   */
  lemma {:induction false} SidesAround(pre: string, e: string, tail: string, post: string)
    requires |e| > 0 && forall i | 0 <= i < |e| :: e[i] !in pre && e[i] !in tail && e[i] !in post
    ensures Contains(pre + e + tail + post, e)
    ensures Sides(pre + e + tail + post, e) == (pre, tail + post)
  {
    var condition := pre + e + tail + post;
    assert condition == pre + (e + tail) + post;
    FirstOccurrence(e + tail, e, 0);
    FoundInMiddle(pre, e + tail, post, e);
    assert e[0] !in tail + post;
    Absent(tail + post, e);
    assert condition[|pre| + |e|..] == tail + post;
    assert condition[..|pre|] == pre;
    SidesAt(condition, e, |pre|);
  }

  /** Each operator is its effective part followed by `=` or nothing, and the effective part has no `=` after it. */
  lemma {:induction false} OperatorParts(op: string)
    requires op in ["==", "!=", ">", "<", ">=", "<="]
    ensures var e := Effective(op);
            && |e| > 0 && op == e + op[|e|..] && (op[|e|..] == "" || op[|e|..] == "=")
            && forall i | 0 <= i < |e| :: !IsDigit(e[i]) && e[i] != ' ' && e[i] !in op[|e|..]
  {
    if op == ">=" || op == "<=" {
      assert op[1..] == "=";
    } else {
      assert op[|op|..] == "";
    }
  }

  /** ... and splits it into `A ` and the rest of the operator followed by ` B`. */
  lemma {:induction false} SidesOfCondition(a: string, op: string, b: string)
    requires AllDigits(a) && AllDigits(b) && op in ["==", "!=", ">", "<", ">=", "<="]
    ensures Contains(a + " " + op + " " + b, Effective(op))
    ensures Sides(a + " " + op + " " + b, Effective(op)) == (a + " ", op[|Effective(op)|..] + " " + b)
  {
    var e := Effective(op);
    var tail := op[|e|..];
    OperatorParts(op);
    var pre, post := a + " ", " " + b;
    forall i | 0 <= i < |e| ensures e[i] !in pre && e[i] !in post {
      DigitsExclude(a, e[i]);
      DigitsExclude(b, e[i]);
    }
    assert a + " " + op + " " + b == pre + e + tail + post;
    assert tail + post == op[|e|..] + " " + b;
    SidesAround(pre, e, tail, post);
  }

  /** The left side `A ` evaluates to the number written. */
  lemma {:induction false} LeftSide(a: nat, vars: map<string, string>)
    ensures Evaluate(NatToDigits(a) + " ", vars) == Ok(a)
  {
    var digits := NatToDigits(a);
    SkippedCharacter(digits, ' ', "", vars);
    assert digits + " " == digits + [' '] + "" && digits + "" == digits;
    EvaluateLiteral(a, vars);
  }

  /** The right side ` B`, or `= B` after `>=` and `<=`, evaluates to the number written. */
  lemma {:induction false} RightSide(tail: string, b: nat, vars: map<string, string>)
    requires tail == "" || tail == "="
    ensures Evaluate(tail + " " + NatToDigits(b), vars) == Ok(b)
  {
    var digits := NatToDigits(b);
    SkippedInFront(' ', digits, vars);
    EvaluateLiteral(b, vars);
    if tail == "=" {
      SkippedInFront('=', " " + digits, vars);
      assert tail + " " + digits == ['='] + (" " + digits);
    } else {
      assert tail + " " + digits == [' '] + digits;
    }
  }

  /** The condition `A op B` of two natural numbers holds exactly when they compare as `Effective(op)` says. */
  lemma {:induction false} JudgeNumbers(vars: map<string, string>, a: nat, op: string, b: nat, command: seq<string>)
    requires op in ["==", "!=", ">", "<", ">=", "<="]
    requires |command| > 0 && forall i | 0 <= i < |command| :: !HasDigit(command[i])
    ensures Judge(vars, ["if", NatToDigits(a), op, NatToDigits(b)] + command) == Judged(Compare(Effective(op), a, b), [])
  {
    var left, right := NatToDigits(a), NatToDigits(b);
    var e := Effective(op);
    ConditionCut(left, op, right, command);
    OperatorOfCondition(left, op, right);
    SidesOfCondition(left, op, right);
    SettleNumbers(vars, a, op, b);
  }

  /** Settling `A ` against ` B` (or `= B`) compares the two numbers. */
  lemma {:induction false} SettleNumbers(vars: map<string, string>, a: nat, op: string, b: nat)
    requires op in ["==", "!=", ">", "<", ">=", "<="]
    ensures var e := Effective(op);
            Settle(vars, e, NatToDigits(a) + " ", op[|e|..] + " " + NatToDigits(b)) == Judged(Compare(e, a, b), [])
  {
    var e := Effective(op);
    OperatorParts(op);
    LeftSide(a, vars);
    RightSide(op[|e|..], b, vars);
    assert IntToString(a) == NatToDigits(a) && IntToString(b) == NatToDigits(b);
    ConditionOnNumbers(vars, a, e, b);
  }

  /**
   * `if a op b command` on two natural numbers runs `command` exactly when
   * `a` and `b` compare as `Effective(op)` says, and otherwise changes nothing.
   */
  lemma {:induction false} IfOnNumbers(s: Session, a: nat, op: string, b: nat, command: seq<string>, depth: nat, editor: Editor)
    requires op in ["==", "!=", ">", "<", ">=", "<="]
    requires |command| > 0 && forall i | 0 <= i < |command| :: !HasDigit(command[i])
    ensures IfCommand(s, ["if", NatToDigits(a), op, NatToDigits(b)] + command, depth, editor) ==
            if !Compare(Effective(op), a, b) then Completed(s)
            else if depth == 0 then Aborted(s, StackOverflow)
            else ProcessCommand(s, command, depth - 1, editor)
  {
    var tokens := ["if", NatToDigits(a), op, NatToDigits(b)] + command;
    var fallback := ConditionText(tokens).1;
    var holds := Compare(Effective(op), a, b);
    JudgeNumbers(s.variables, a, op, b, command);
    IfJudged(s, tokens, Judged(holds, []), depth, editor);
    CommandAfterNumbers(tokens, NatToDigits(a), op, NatToDigits(b), command, fallback);
    IfFollowQuiet(s, holds, tokens, fallback, command, depth, editor);
  }

  /** `if` follows the verdict on its condition. */
  lemma IfJudged(s: Session, tokens: seq<string>, verdict: Verdict, depth: nat, editor: Editor)
    requires |tokens| >= 1 && Judge(s.variables, tokens) == verdict
    ensures IfCommand(s, tokens, depth, editor) == IfFollow(s, verdict, tokens, ConditionText(tokens).1, depth, editor)
  {
  }

  /** A verdict without notices runs the chosen command when it holds and leaves the session as it was otherwise. */
  lemma IfFollowQuiet(s: Session, holds: bool, tokens: seq<string>, fallback: int, command: seq<string>, depth: nat, editor: Editor)
    requires fallback >= -1
    requires tokens[Min(LastDigitToken(tokens, fallback) + 1, |tokens|)..] == command
    ensures IfFollow(s, Judged(holds, []), tokens, fallback, depth, editor) ==
            if !holds then Completed(s)
            else if depth == 0 then Aborted(s, StackOverflow)
            else ProcessCommand(s, command, depth - 1, editor)
  {
    var s1 := s.(output := s.output + []);
    assert s1 == s;
    IfFollowJudged(s, holds, [], tokens, fallback, depth, editor);
  }

  /** What `if` does once its condition is judged: print the notices, then run the command or not. */
  lemma IfFollowJudged(s: Session, holds: bool, notice: seq<string>, tokens: seq<string>, fallback: int, depth: nat, editor: Editor)
    requires fallback >= -1
    ensures var s1 := s.(output := s.output + notice);
            IfFollow(s, Judged(holds, notice), tokens, fallback, depth, editor) ==
              if !holds then Completed(s1)
              else if depth == 0 then Aborted(s1, StackOverflow)
              else ProcessCommand(s1, tokens[Min(LastDigitToken(tokens, fallback) + 1, |tokens|)..], depth - 1, editor)
  {
  }

  /**
   * A digit in the last word of the command makes that word the last number:
   * the command `if` runs is then empty, and reading its first word throws.
   */
  lemma IfDigitInCommand(s: Session, tokens: seq<string>, notice: seq<string>, fallback: int, depth: nat, editor: Editor)
    requires |tokens| > 3 && fallback >= -1 && HasDigit(tokens[|tokens| - 1])
    ensures IfFollow(s, Judged(true, notice), tokens, fallback, depth, editor) ==
            Aborted(s.(output := s.output + notice), if depth == 0 then StackOverflow else IndexOutOfRange)
  {
    assert LastDigitToken(tokens, fallback) == |tokens| - 1;
    assert tokens[|tokens|..] == [];
  }

  /** The command `if` runs starts right after the right-hand number. */
  lemma {:induction false} CommandAfterNumbers(tokens: seq<string>, left: string, op: string, right: string, command: seq<string>, fallback: int)
    requires |right| > 0 && AllDigits(right) && fallback >= -1
    requires forall i | 0 <= i < |command| :: !HasDigit(command[i])
    requires tokens == ["if", left, op, right] + command
    ensures tokens[Min(LastDigitToken(tokens, fallback) + 1, |tokens|)..] == command
  {
    assert IsDigit(right[0]);
    assert tokens[3] == right && HasDigit(tokens[3]);
    assert forall i | 4 <= i < |tokens| :: tokens[i] == command[i - 4] && !HasDigit(tokens[i]);
    var k := LastDigitToken(tokens, fallback);
    assert k == 3;
    assert tokens[4..] == command;
  }

  /** As written, `if n >= n command` never runs the command. */
  lemma {:induction false} IfAtLeastOnEqual(s: Session, n: nat, command: seq<string>, depth: nat, editor: Editor)
    requires |command| > 0 && forall i | 0 <= i < |command| :: !HasDigit(command[i])
    ensures IfCommand(s, ["if", NatToDigits(n), ">=", NatToDigits(n)] + command, depth, editor) == Completed(s)
  {
    IfOnNumbers(s, n, ">=", n, command, depth, editor);
  }

  // ---------------------------------------------------------------------------
  // Properties of `sh`
  // ---------------------------------------------------------------------------

  lemma {:induction false} JoinSnoc(parts: seq<string>, x: string, sep: string)
    requires |parts| > 0
    ensures Join(parts + [x], sep) == Join(parts, sep) + sep + x
    decreases |parts|
  {
    if |parts| > 1 {
      assert (parts + [x])[1..] == parts[1..] + [x];
      JoinSnoc(parts[1..], x, sep);
    }
  }

  /** Only the pieces before the last one run: whatever the last piece holds does not matter. */
  lemma {:induction false} ScriptIgnoresLastPiece(s: Session, commands: seq<string>, other: seq<string>, i: nat, depth: nat, editor: Editor)
    requires |commands| == |other| > 0 && commands[..|commands| - 1] == other[..|other| - 1]
    ensures ScriptLoop(s, commands, i, depth, editor) == ScriptLoop(s, other, i, depth, editor)
    decreases |commands| - i
  {
    if i + 1 < |commands| && depth > 0 {
      assert commands[i] == commands[..|commands| - 1][i] == other[i];
      match ProcessCommand(s, SplitWhiteSpace(commands[i]), depth - 1, editor)
      case Aborted(_, _) =>
      case Completed(t) => ScriptIgnoresLastPiece(t, commands, other, i + 1, depth, editor);
    }
  }

  /** A script whose every line ends with a line break runs each of its lines, in order. */
  lemma ScriptOfLines(s: Session, name: string, lines: seq<string>, depth: nat, editor: Editor)
    requires s.currentPath in s.fileSystem && name in s.fileSystem[s.currentPath]
    requires |lines| > 0 && forall k | 0 <= k < |lines| :: '\n' !in lines[k]
    requires name in s.files && s.files[name] == Join(lines, "\n") + "\n"
    ensures RunScript(s, name, depth, editor) == ScriptLoop(s, lines + [""], 0, depth, editor)
  {
    JoinSnoc(lines, "", "\n");
    assert Join(lines, "\n") + "\n" + "" == Join(lines, "\n") + "\n";
    SplitJoin(lines + [""], '\n');
  }

  /** A last line without a line break never runs: the script behaves as if it were absent. */
  lemma ScriptDropsUnterminatedLine(s: Session, name: string, lines: seq<string>, depth: nat, editor: Editor)
    requires s.currentPath in s.fileSystem && name in s.fileSystem[s.currentPath]
    requires |lines| > 0 && forall k | 0 <= k < |lines| :: '\n' !in lines[k]
    requires name in s.files && s.files[name] == Join(lines, "\n")
    ensures RunScript(s, name, depth, editor) == ScriptLoop(s, lines[..|lines| - 1] + [""], 0, depth, editor)
  {
    SplitJoin(lines, '\n');
    var other := lines[..|lines| - 1] + [""];
    assert other[..|other| - 1] == lines[..|lines| - 1];
    ScriptIgnoresLastPiece(s, lines, other, 0, depth, editor);
  }
}
