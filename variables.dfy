/**
 * Shell variables: `set`, the `$name` substitution of `echo`, and the
 * comparison `EvaluateCondition` that `if` relies on. Variables hold the
 * decimal text of an integer.
 */
module Variables {
  import opened Wrappers
  import opened Text
  import opened ShellState
  import opened Messages

  /** A variable name may be anything that does not contain `$`. */
  function IsValidVariableName(name: string): (valid: bool)
    ensures valid <==> forall k | 0 <= k < |name| :: name[k] != '$'
  {
    '$' !in name
  }

  /**
   * `variables[name] = value`: a new name goes to the end of the enumeration
   * order, an existing one keeps its place. Storing a number keeps the session valid.
   */
  function Assign(s: Session, name: string, value: string): (r: Session)
    ensures r.variables == s.variables[name := value]
    ensures name in s.variables ==> r.variableOrder == s.variableOrder
    ensures name !in s.variables ==> r.variableOrder == s.variableOrder + [name]
    ensures r.(variables := s.variables, variableOrder := s.variableOrder) == s
    ensures Valid(s) && TryParseInt(value).Some? ==> Valid(r)
  {
    var order := if name in s.variables then s.variableOrder else s.variableOrder + [name];
    s.(variables := s.variables[name := value], variableOrder := order)
  }

  /** `set name value` after the value was evaluated: a name containing `$` is refused. */
  function SetVariable(s: Session, name: string, value: string): (r: Session)
    ensures s.output <= r.output
    ensures IsValidVariableName(name) ==> r == Assign(s, name, value)
    ensures !IsValidVariableName(name) ==> r == Say(s, InvalidName)
    ensures Valid(s) && TryParseInt(value).Some? ==> Valid(r)
  {
    if !IsValidVariableName(name) then Say(s, InvalidName)
    else Assign(s, name, value)
  }

  /**
   * Replace `$name` by the value of each variable in turn, in the order the
   * variables were created. Text without `$` is printed exactly as given, and
   * so is any text when none of the listed names is defined.
   */
  function Substitute(text: string, order: seq<string>, vars: map<string, string>): (r: string)
    ensures '$' !in text ==> r == text
    ensures (forall k | 0 <= k < |order| :: order[k] !in vars) ==> r == text
    decreases |order|
  {
    if order == [] then text
    else
      var name := order[0];
      var replaced := if name in vars then ReplaceAll(text, "$" + name, vars[name]) else text;
      assert '$' !in text ==> replaced == text by {
        if '$' !in text && name in vars {
          AbsentLead(text, "$" + name);
          ReplaceAbsent(text, "$" + name, vars[name]);
        }
      }
      Substitute(replaced, order[1..], vars)
  }

  /** `echo text`: print the text with variable references substituted; nothing else changes. */
  function Echo(s: Session, text: string): (r: Session)
    ensures s.output <= r.output
    ensures r.(output := s.output) == s
    ensures r.output == s.output + [Substitute(text, s.variableOrder, s.variables)]
  {
    Say(s, Substitute(text, s.variableOrder, s.variables))
  }

  /**
   * A reference `$name` in text without any other `$` prints the variable's
   * value in its place, whatever other variables exist, provided no other
   * defined name makes `$` + that name occur in the text.
   */
  lemma {:induction false} EchoReference(pre: string, name: string, post: string, order: seq<string>, vars: map<string, string>)
    requires '$' !in pre && '$' !in post
    requires name in vars && name in order && '$' !in vars[name]
    requires forall m | m in order && m in vars && m != name :: !Contains(pre + "$" + name + post, "$" + m)
    ensures Substitute(pre + "$" + name + post, order, vars) == pre + vars[name] + post
    decreases |order|
  {
    var text := pre + "$" + name + post;
    var m := order[0];
    if m == name {
      var pattern := "$" + name;
      assert text == pre + (pattern + post);
      ReplaceAfterPlain(pre, pattern + post, pattern, vars[name]);
      ReplaceAtFront(pattern, vars[name], post);
      AbsentLead(post, pattern);
      ReplaceAbsent(post, pattern, vars[name]);
      assert ReplaceAll(text, pattern, vars[name]) == pre + vars[name] + post;
    } else {
      if m in vars {
        ReplaceAbsent(text, "$" + m, vars[m]);
      }
      assert name in order[1..];
      EchoReference(pre, name, post, order[1..], vars);
    }
  }

  // ---------------------------------------------------------------------------
  // EvaluateCondition
  // ---------------------------------------------------------------------------

  /** How a condition is settled: a verdict and the notices printed on the way, or an exception. */
  datatype Check = Decided(holds: bool, notice: seq<string>) | Threw(reason: Fault)

  /** One side of a condition: a number, a `$name` that is not defined, or an exception. */
  datatype Side = Value(v: int) | Undefined(name: string) | Broken(reason: Fault)

  /**
   * A side that parses is its number; otherwise `$name` is the variable's value
   * and anything else counts as 0 (what `int.TryParse` leaves in its out
   * argument). Testing the first character of an empty side throws.
   */
  function ConditionSide(vars: map<string, string>, token: string): (r: Side)
    ensures TryParseInt(token).Some? ==> r == Value(TryParseInt(token).value)
    ensures r.Undefined? ==> token == "$" + r.name && r.name !in vars
    ensures TryParseInt(token).None? && token != "" && token[0] != '$' ==> r == Value(0)
    ensures TryParseInt(token).None? && token != "" && token[0] == '$' && token[1..] in vars ==>
              r == match TryParseInt(vars[token[1..]]) case Some(v) => Value(v) case None => Broken(FormatError)
    ensures r.Broken? <==> TryParseInt(token).None? && (token == "" || (token[0] == '$' && token[1..] in vars && TryParseInt(vars[token[1..]]).None?))
  {
    match TryParseInt(token)
    case Some(v) => Value(v)
    case None =>
      if token == "" then Broken(IndexOutOfRange)
      else if token[0] != '$' then Value(0)
      else
        var name := token[1..];
        if name !in vars then Undefined(name)
        else
          match TryParseInt(vars[name])
          case None => Broken(FormatError)
          case Some(v) => Value(v)
  }

  /** The comparison named by `op`; an operator the shell does not know is false. */
  function Compare(op: string, a: int, b: int): (holds: bool)
    ensures op !in ["==", "!=", ">", "<", ">=", "<="] ==> !holds
  {
    match op
    case "==" => a == b
    case "!=" => a != b
    case ">" => a > b
    case "<" => a < b
    case ">=" => a >= b
    case "<=" => a <= b
    case _ => false
  }

  /** The six operators come in negated pairs, and `>` is `<` with the sides swapped. */
  lemma CompareDuals(a: int, b: int)
    ensures Compare("!=", a, b) == !Compare("==", a, b)
    ensures Compare(">=", a, b) == !Compare("<", a, b)
    ensures Compare("<=", a, b) == !Compare(">", a, b)
    ensures Compare(">", a, b) == Compare("<", b, a)
    ensures Compare("==", a, b) == Compare("==", b, a)
  {
  }

  /**
   * `EvaluateCondition("a op b")`: split at spaces, settle the left side, then
   * the right one, then compare. An undefined variable prints a notice and
   * makes the condition false; fewer than three pieces throw.
   */
  function EvaluateCondition(vars: map<string, string>, condition: string): (r: Check)
    ensures r.Decided? && r.holds ==>
              var tokens := Split(condition, ' ');
              |tokens| >= 3 && tokens[1] in ["==", "!=", ">", "<", ">=", "<="] && r.notice == []
    ensures r.Decided? && !r.holds && r.notice != [] ==>
              exists name :: name !in vars && r.notice == [UndefinedNotice(name)]
  {
    var tokens := Split(condition, ' ');
    match ConditionSide(vars, tokens[0])
    case Broken(f) => Threw(f)
    case Undefined(name) => Decided(false, [UndefinedNotice(name)])
    case Value(a) =>
      if |tokens| < 3 then Threw(IndexOutOfRange)
      else
        match ConditionSide(vars, tokens[2])
        case Broken(f) => Threw(f)
        case Undefined(name) => Decided(false, [UndefinedNotice(name)])
        case Value(b) => Decided(Compare(tokens[1], a, b), [])
  }

  lemma NoSpaceInNumber(n: int)
    ensures ' ' !in IntToString(n)
  {
    var s := IntToString(n);
    if n < 0 {
      var d := NatToDigits(-n);
      assert s == "-" + d;
      assert forall i | 1 <= i < |s| :: s[i] == d[i - 1];
    }
    assert forall i | 0 <= i < |s| :: s[i] != ' ';
  }

  /** The condition text `if` builds from two numbers and an operator compares the numbers. */
  lemma ConditionOnNumbers(vars: map<string, string>, a: int, op: string, b: int)
    requires ' ' !in op
    ensures EvaluateCondition(vars, IntToString(a) + " " + op + " " + IntToString(b)) == Decided(Compare(op, a, b), [])
  {
    var parts := [IntToString(a), op, IntToString(b)];
    NoSpaceInNumber(a);
    NoSpaceInNumber(b);
    assert Join(parts[2..], " ") == IntToString(b);
    assert Join(parts[1..], " ") == op + " " + IntToString(b);
    assert Join(parts, " ") == IntToString(a) + " " + op + " " + IntToString(b);
    SplitJoin(parts, ' ');
    ParseFormatRoundTrip(a);
    ParseFormatRoundTrip(b);
  }

  /** A `$name` on the left reads the variable, or prints a notice and fails when it is undefined. */
  lemma ConditionOnVariable(vars: map<string, string>, name: string, op: string, b: int)
    requires ' ' !in name && ' ' !in op
    requires name in vars ==> TryParseInt(vars[name]).Some?
    ensures EvaluateCondition(vars, "$" + name + " " + op + " " + IntToString(b)) ==
            if name in vars then Decided(Compare(op, TryParseInt(vars[name]).value, b), [])
            else Decided(false, [UndefinedNotice(name)])
  {
    var parts := ["$" + name, op, IntToString(b)];
    NoSpaceInNumber(b);
    assert ' ' !in "$" + name;
    assert Join(parts[2..], " ") == IntToString(b);
    assert Join(parts[1..], " ") == op + " " + IntToString(b);
    assert Join(parts, " ") == "$" + name + " " + op + " " + IntToString(b);
    SplitJoin(parts, ' ');
    ParseFormatRoundTrip(b);
    assert ("$" + name)[1..] == name;
    assert TryParseInt("$" + name).None?;
  }
}
