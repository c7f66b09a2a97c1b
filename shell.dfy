/**
 * The `Shell` class of Shell/Program.cs: its dictionaries and current path are
 * fields updated in place, and each of its methods is proved to leave the
 * object in the state, and to throw exactly when, the functions of
 * `FileSystem`, `Variables` and `Interpreter` say. An exception is the
 * `Some(fault)` a method returns; the caller stops at once and passes it on.
 */
module ShellClass {
  import opened Wrappers
  import opened Text
  import opened Arithmetic
  import opened ShellState
  import opened Messages
  import FileSystem
  import Variables
  import Interpreter

  // ---------------------------------------------------------------------------
  // The two stacks of `EvaluateExpression`
  // ---------------------------------------------------------------------------

  /** Pop the second operand, the first operand and the operator; push the result. */
  method ApplyTop(numbers: seq<int>, operators: seq<char>) returns (r: Result<Machine>)
    requires |operators| > 0
    ensures r == Reduce(Machine(numbers, operators))
    ensures r.Ok? ==> |r.value.operators| == |operators| - 1
  {
    if |numbers| < 2 {
      return Err(StackUnderflow);
    }
    var second := numbers[|numbers| - 1];
    var first := numbers[|numbers| - 2];
    var op := operators[|operators| - 1];
    var v := ApplyOperator(first, second, op);
    if v.Err? {
      return Err(v.error);
    }
    r := Ok(Machine(numbers[..|numbers| - 2] + [v.value], operators[..|operators| - 1]));
  }

  /** An operator character: apply the stacked operators that take precedence, then push it. */
  method PushOperatorOnto(numbers: seq<int>, operators: seq<char>, op: char) returns (r: Result<Machine>)
    ensures r == PushOperator(Machine(numbers, operators), op)
  {
    var nums, ops := numbers, operators;
    while |ops| > 0 && HasPrecedence(op, ops[|ops| - 1])
      invariant PushOperator(Machine(nums, ops), op) == PushOperator(Machine(numbers, operators), op)
      decreases |ops|
    {
      var next := ApplyTop(nums, ops);
      if next.Err? {
        return Err(next.error);
      }
      nums, ops := next.value.numbers, next.value.operators;
    }
    r := Ok(Machine(nums, ops + [op]));
  }

  /** A `)`: apply the stacked operators down to the `(` and pop it; an empty stack throws. */
  method CloseParenthesis(numbers: seq<int>, operators: seq<char>) returns (r: Result<Machine>)
    ensures r == CloseParen(Machine(numbers, operators))
  {
    var nums, ops := numbers, operators;
    while true
      invariant CloseParen(Machine(nums, ops)) == CloseParen(Machine(numbers, operators))
      decreases |ops|
    {
      if |ops| == 0 {
        return Err(StackUnderflow);
      }
      if ops[|ops| - 1] == '(' {
        return Ok(Machine(nums, ops[..|ops| - 1]));
      }
      var next := ApplyTop(nums, ops);
      if next.Err? {
        return Err(next.error);
      }
      nums, ops := next.value.numbers, next.value.operators;
    }
  }

  /** A `(`, `)`, operator or number token: the branch of the evaluator's loop that handles it. */
  method StepMachine(numbers: seq<int>, operators: seq<char>, token: Token) returns (r: Result<Machine>)
    ensures r == Step(Machine(numbers, operators), token)
  {
    match token
    case Num(n) => r := Ok(Machine(numbers + [n], operators));
    case Open => r := Ok(Machine(numbers, operators + ['(']));
    case Close => r := CloseParenthesis(numbers, operators);
    case Op(c) => r := PushOperatorOnto(numbers, operators, c);
  }

  /** Accumulate the digits from `start` as `n * 10 + d`: one number token, ending before `next`. */
  method ReadNumber(s: string, vars: map<string, string>, start: nat) returns (n: int, next: nat)
    requires start < |s| && IsDigit(s[start])
    ensures start < next <= |s|
    ensures LexFrom(s, vars, start) == Prepend([Num(n)], LexFrom(s, vars, next))
  {
    var i := start;
    n := DigitValue(s[i]);
    assert s[start..i + 1] == [s[i]];
    while i + 1 < |s| && IsDigit(s[i + 1])
      invariant start <= i < |s|
      invariant forall k | start <= k <= i :: IsDigit(s[k])
      invariant AllDigits(s[start..i + 1]) && n == DigitsValue(s[start..i + 1])
    {
      assert s[start..i + 2][..i + 1 - start] == s[start..i + 1];
      n := n * 10 + DigitValue(s[i + 1]);
      i := i + 1;
    }
    next := i + 1;
    LexNumber(s, vars, start, next);
  }

  /**
   * `$name`: collect the letters, digits and underscores after the `$` and read
   * the variable; a missing variable or one that is not a number throws.
   */
  method ReadReference(s: string, vars: map<string, string>, start: nat) returns (r: Result<int>, next: nat)
    requires start < |s| && s[start] == '$'
    ensures start < next <= |s|
    ensures r.Ok? ==> LexFrom(s, vars, start) == Prepend([Num(r.value)], LexFrom(s, vars, next))
    ensures r.Err? ==> LexFrom(s, vars, start) == Err(r.error)
  {
    var i := start;
    var name := "";
    while i + 1 < |s| && IsNameChar(s[i + 1])
      invariant start <= i < |s|
      invariant forall k | start < k <= i :: IsNameChar(s[k])
      invariant name == s[start + 1..i + 1]
    {
      name := name + [s[i + 1]];
      i := i + 1;
    }
    next := i + 1;
    LexReference(s, vars, start, next);
    if name !in vars {
      return Err(UndefinedVariable(name)), next;
    }
    var value := TryParseInt(vars[name]);
    if value.None? {
      return Err(BadVariableValue(name)), next;
    }
    r := Ok(value.value);
  }

  /** The end of the text: apply every stacked operator, then pop the result. */
  method FinishStacks(numbers: seq<int>, operators: seq<char>) returns (r: Result<int>)
    ensures r == Finish(Machine(numbers, operators))
  {
    var nums, ops := numbers, operators;
    while |ops| > 0
      invariant Finish(Machine(nums, ops)) == Finish(Machine(numbers, operators))
      decreases |ops|
    {
      var next := ApplyTop(nums, ops);
      if next.Err? {
        return Err(next.error);
      }
      nums, ops := next.value.numbers, next.value.operators;
    }
    if |nums| == 0 {
      return Err(StackUnderflow);
    }
    r := Ok(nums[|nums| - 1]);
  }

  // ---------------------------------------------------------------------------
  // The shell
  // ---------------------------------------------------------------------------

  class Shell {
    var fileSystem: map<string, seq<string>>
    var files: map<string, string>
    var variables: map<string, string>
    /** The order in which the variables dictionary enumerates its keys. */
    var variableOrder: seq<string>
    var currentPath: string
    /** Every line written to the console so far. */
    var output: seq<string>
    /** What the interactive editor of `edit` saves, given the file name and its old text. */
    const editor: Interpreter.Editor

    /** The object's fields as one session value. */
    function State(): Session
      reads this
    {
      Session(fileSystem, files, variables, variableOrder, currentPath, output)
    }

    /** How a method ended: normally, or by throwing `fault` with the object as it then is. */
    function Ending(fault: Option<Fault>): Outcome
      reads this
    {
      if fault.None? then Completed(State()) else Aborted(State(), fault.value)
    }

    /** A shell with only the (empty) root directory, which is current. */
    constructor(editor: Interpreter.Editor)
      ensures State() == Initial() && Valid(State())
      ensures this.editor == editor
    {
      fileSystem := map[RootPath := []];
      files := map[];
      variables := map[];
      variableOrder := [];
      currentPath := RootPath;
      output := [];
      this.editor := editor;
    }

    method CreateDirectory(directory: string) returns (fault: Option<Fault>)
      modifies this
      ensures Ending(fault) == FileSystem.CreateDirectory(old(State()), directory)
    {
      var newPath := ChildPath(currentPath, directory);
      if newPath in fileSystem {
        output := output + [DirectoryExists];
        return None;
      }
      if currentPath !in fileSystem {
        return Some(MissingKey);
      }
      fileSystem := fileSystem[currentPath := fileSystem[currentPath] + [directory]];
      fileSystem := fileSystem[newPath := []];
      output := output + [CreatedDirectory(directory, currentPath)];
      return None;
    }

    /**
     * Print the entries of `path`, each directory followed by its own entries
     * three spaces further in; only the output changes.
     */
    method ListDirectory(path: string, depth: nat)
      modifies this
      ensures Unchanged(old(State())) && fileSystem == old(fileSystem)
      ensures output == old(output) + (if path in fileSystem then FileSystem.Listing(fileSystem, path, depth) else [InvalidPath])
      ensures depth == 0 ==> Ending(None) == FileSystem.ListDirectory(old(State()), path)
      decreases FileSystem.Longer(fileSystem, path), 1
    {
      if path !in fileSystem {
        output := output + [InvalidPath];
        return;
      }
      var items := fileSystem[path];
      var k := 0;
      while k < |items|
        invariant k <= |items|
        invariant Unchanged(old(State())) && fileSystem == old(fileSystem)
        invariant output == old(output) + FileSystem.Entries(fileSystem, path, items[..k], depth)
      {
        FileSystem.EntriesSnoc(fileSystem, path, items[..k], items[k], depth);
        assert items[..k + 1] == items[..k] + [items[k]];
        ListEntry(path, items[k], depth);
        k := k + 1;
      }
      assert items[..k] == items;
    }

    /** Print one entry of `path` and, when it is a directory, its own entries one level further in. */
    method ListEntry(path: string, item: string, depth: nat)
      modifies this
      ensures Unchanged(old(State())) && fileSystem == old(fileSystem)
      ensures output == old(output) + FileSystem.Entries(fileSystem, path, [item], depth)
      decreases FileSystem.Longer(fileSystem, path), 0
    {
      var newPath := ChildPath(path, item);
      FileSystem.EntriesSingle(fileSystem, path, item, depth);
      output := output + [FileSystem.Spaces(3 * depth) + item];
      if newPath in fileSystem {
        FileSystem.LongerShrinks(fileSystem, path, newPath);
        ListDirectory(newPath, depth + 1);
      }
    }

    /** Every field but the directory tree and the output is as in `s`. */
    predicate Unchanged(s: Session)
      reads this
    {
      files == s.files && variables == s.variables && variableOrder == s.variableOrder && currentPath == s.currentPath
    }

    method ChangeDirectory(directory: string) returns (fault: Option<Fault>)
      modifies this
      ensures Ending(fault) == FileSystem.ChangeDirectory(old(State()), directory)
    {
      if directory == ".." {
        if currentPath == RootPath {
          output := output + [AtRoot];
          return None;
        }
        var lastSlash := LastIndexWhere(currentPath, IsSlash);
        if lastSlash < 0 {
          return Some(IndexOutOfRange);
        }
        currentPath := currentPath[..lastSlash];
        return None;
      }
      var newPath := ChildPath(currentPath, directory);
      if newPath !in fileSystem {
        output := output + [NoSuchPath];
        return None;
      }
      currentPath := newPath;
      return None;
    }

    method CreateFile(filename: string) returns (fault: Option<Fault>)
      modifies this
      ensures Ending(fault) == FileSystem.CreateFile(old(State()), filename)
    {
      if currentPath !in fileSystem {
        return Some(MissingKey);
      }
      if filename in fileSystem[currentPath] {
        output := output + [FileExists];
        return None;
      }
      fileSystem := fileSystem[currentPath := fileSystem[currentPath] + [filename]];
      if filename in files {
        return Some(DuplicateKey);
      }
      files := files[filename := ""];
      output := output + [CreatedFile(filename)];
      return None;
    }

    method RemoveFile(name: string) returns (fault: Option<Fault>)
      modifies this
      ensures Ending(fault) == FileSystem.RemoveFile(old(State()), name)
    {
      if currentPath !in fileSystem {
        return Some(MissingKey);
      }
      if name !in fileSystem[currentPath] {
        output := output + [NoSuchEntry];
        return None;
      }
      var newPath := ChildPath(currentPath, name);
      if newPath !in fileSystem {
        fileSystem := fileSystem[currentPath := FileSystem.RemoveFirst(fileSystem[currentPath], name)];
        files := files - {name};
        output := output + [FileRemoved];
        return None;
      }
      if |fileSystem[newPath]| != 0 {
        output := output + [DirectoryNotEmpty];
        return None;
      }
      var listed := fileSystem[currentPath];
      fileSystem := fileSystem - {newPath};
      fileSystem := fileSystem[currentPath := FileSystem.RemoveFirst(listed, name)];
      output := output + [DirectoryRemoved];
      return None;
    }

    method WriteToFile(filename: string, text: string) returns (fault: Option<Fault>)
      modifies this
      ensures Ending(fault) == FileSystem.WriteToFile(old(State()), filename, text)
    {
      if currentPath !in fileSystem {
        return Some(MissingKey);
      }
      if filename !in fileSystem[currentPath] || filename !in files {
        output := output + [FileNotFound];
        return None;
      }
      files := files[filename := files[filename] + text + "\n"];
      output := output + [TextWritten(filename)];
      return None;
    }

    method ReadFile(filename: string) returns (fault: Option<Fault>)
      modifies this
      ensures Ending(fault) == FileSystem.ReadFile(old(State()), filename)
    {
      if currentPath !in fileSystem {
        return Some(MissingKey);
      }
      if filename !in fileSystem[currentPath] || filename !in files {
        output := output + [FileNotFound];
        return None;
      }
      output := output + [files[filename]];
      return None;
    }

    /** `edit name`: the editor's text replaces the file's. */
    method EditFile(filename: string)
      modifies this
      ensures Ending(None) == FileSystem.EditFile(old(State()), filename, editor)
    {
      if filename !in files {
        output := output + [NoSuchFile];
        return;
      }
      files := files[filename := editor(filename, files[filename])];
      output := output + [FileSaved];
    }

    method SetVariable(name: string, value: string)
      modifies this
      ensures State() == Variables.SetVariable(old(State()), name, value)
    {
      if !Variables.IsValidVariableName(name) {
        output := output + [InvalidName];
        return;
      }
      Assign(name, value);
    }

    /** `variables[name] = value`: a new name is enumerated after the existing ones. */
    method Assign(name: string, value: string)
      modifies this
      ensures State() == Variables.Assign(old(State()), name, value)
    {
      if name !in variables {
        variableOrder := variableOrder + [name];
      }
      variables := variables[name := value];
    }

    /** `echo text`: replace each variable's references in turn, then print. */
    method EchoCommand(text: string)
      modifies this
      ensures State() == Variables.Echo(old(State()), text)
    {
      var t := text;
      var k := 0;
      assert variableOrder[0..] == variableOrder;
      while k < |variableOrder|
        invariant k <= |variableOrder|
        invariant Variables.Substitute(t, variableOrder[k..], variables) == Variables.Substitute(text, variableOrder, variables)
      {
        var name := variableOrder[k];
        assert variableOrder[k..][1..] == variableOrder[k + 1..];
        if name in variables {
          t := ReplaceAll(t, "$" + name, variables[name]);
        }
        k := k + 1;
      }
      output := output + [t];
    }

    /**
     * The arithmetic evaluator, character by character over two stacks. It
     * succeeds exactly when `Evaluate` does, with the same value.
     */
    method EvaluateExpression(expression: string) returns (r: Result<int>)
      ensures r.Ok? <==> Evaluate(expression, variables).Ok?
      ensures r.Ok? ==> r.value == Evaluate(expression, variables).value
    {
      if |expression| == 1 && TryParseInt(expression).Some? {
        EvaluateOneCharacter(expression, variables);
        return Ok(TryParseInt(expression).value);
      }
      var numbers: seq<int> := [];
      var operators: seq<char> := [];
      ResumeStart(expression, variables);
      var i := 0;
      while i < |expression|
        invariant i <= |expression|
        invariant Resume(expression, variables, Machine(numbers, operators), i) == Evaluate(expression, variables)
        decreases |expression| - i
      {
        var c := expression[i];
        if !IsDigit(c) && c != '(' && c != ')' && !IsOperator(c) && c != '$' {
          LexSkip(expression, variables, Machine(numbers, operators), i);
          i := i + 1;
        } else {
          var token: Token;
          var next: nat;
          if IsDigit(c) {
            var n;
            n, next := ReadNumber(expression, variables, i);
            token := Num(n);
          } else if c == '$' {
            var value;
            value, next := ReadReference(expression, variables, i);
            if value.Err? {
              return Err(value.error);
            }
            token := Num(value.value);
          } else {
            token := if c == '(' then Open else if c == ')' then Close else Op(c);
            next := i + 1;
          }
          ResumeToken(expression, variables, Machine(numbers, operators), i, next, token);
          var stepped := StepMachine(numbers, operators, token);
          if stepped.Err? {
            return Err(stepped.error);
          }
          numbers, operators := stepped.value.numbers, stepped.value.operators;
          i := next;
        }
      }
      ResumeEnd(expression, variables, Machine(numbers, operators));
      r := FinishStacks(numbers, operators);
    }

    // -------------------------------------------------------------------------
    // The interpreter
    // -------------------------------------------------------------------------

    /** One command: dispatch on its first token; `sh`, `for` and `if` run nested commands. */
    method ProcessCommand(tokens: seq<string>, depth: nat) returns (fault: Option<Fault>)
      modifies this
      ensures Ending(fault) == Interpreter.ProcessCommand(old(State()), tokens, depth, editor)
      decreases depth, 3, 0
    {
      if |tokens| == 0 {
        return Some(IndexOutOfRange);
      }
      fault := Dispatch(Interpreter.Recognize(tokens[0]), tokens, depth);
    }

    /** The switch on the first token. */
    method Dispatch(command: Interpreter.Command, tokens: seq<string>, depth: nat) returns (fault: Option<Fault>)
      requires |tokens| > 0
      modifies this
      ensures Ending(fault) == Interpreter.Dispatch(old(State()), command, tokens, depth, editor)
      decreases depth, 2, 0
    {
      if command in {Interpreter.Sh, Interpreter.For, Interpreter.If} {
        fault := ControlCommand(command, tokens, depth);
      } else {
        fault := SimpleCommand(command, tokens);
      }
    }

    /** Every command that does not run other commands. */
    method SimpleCommand(command: Interpreter.Command, tokens: seq<string>) returns (fault: Option<Fault>)
      requires |tokens| > 0 && command !in {Interpreter.Sh, Interpreter.For, Interpreter.If}
      modifies this
      ensures Ending(fault) == Interpreter.SimpleCommand(old(State()), command, tokens, editor)
    {
      match command
      case Mkdir | Ls | Cd | Pwd =>
        Interpreter.SimpleCommandGroup(State(), command, tokens, editor);
        fault := DirectoryCommand(command, tokens);
      case Touch | Rm | Write | Cat | Edit =>
        Interpreter.SimpleCommandGroup(State(), command, tokens, editor);
        fault := FileCommand(command, tokens);
      case EchoText | Set | Eval =>
        Interpreter.SimpleCommandGroup(State(), command, tokens, editor);
        fault := VariableCommand(command, tokens);
      case Clear | Test | Exit => fault := None;
      case Unsupported =>
        output := output + [NotSupported(tokens[0])];
        fault := None;
    }

    /** `sh`, `for` and `if`, the commands that run other commands. */
    method ControlCommand(command: Interpreter.Command, tokens: seq<string>, depth: nat) returns (fault: Option<Fault>)
      requires |tokens| > 0 && command in {Interpreter.Sh, Interpreter.For, Interpreter.If}
      modifies this
      ensures Ending(fault) == Interpreter.Dispatch(old(State()), command, tokens, depth, editor)
      decreases depth, 1, 2
    {
      var n := |tokens|;
      if command == Interpreter.Sh {
        if n > 1 && EndsWith(tokens[1], ".sh") {
          fault := RunScript(tokens[1], depth);
        } else {
          output := output + [UnsupportedFileType];
          fault := None;
        }
      } else if command == Interpreter.For {
        if n > 4 {
          fault := ForCommand(tokens[1], tokens[3], Interpreter.JoinFrom(tokens, 4), depth);
        } else {
          output := output + [ForUsage];
          fault := None;
        }
      } else {
        if n > 4 {
          fault := IfCommand(tokens, depth);
        } else {
          output := output + [IfUsage];
          fault := None;
        }
      }
    }

    /** `mkdir`, `ls`, `cd` and `pwd`. */
    method DirectoryCommand(command: Interpreter.Command, tokens: seq<string>) returns (fault: Option<Fault>)
      requires |tokens| > 0 && command in {Interpreter.Mkdir, Interpreter.Ls, Interpreter.Cd, Interpreter.Pwd}
      modifies this
      ensures Ending(fault) == Interpreter.DirectoryCommand(old(State()), command, tokens)
    {
      var n := |tokens|;
      if command == Interpreter.Mkdir {
        fault := CreateDirectory(Interpreter.JoinFrom(tokens, 1));
      } else if command == Interpreter.Ls {
        ListDirectory(if n > 1 then Interpreter.JoinFrom(tokens, 1) else currentPath, 0);
        output := output + [""];
        fault := None;
      } else if command == Interpreter.Cd {
        if n > 1 {
          fault := ChangeDirectory(Interpreter.JoinFrom(tokens, 1));
        } else {
          output := output + [CdUsage];
          fault := None;
        }
      } else {
        output := output + [currentPath];
        fault := None;
      }
    }

    /** `touch`, `rm`, `write`, `cat` and `edit`. */
    method FileCommand(command: Interpreter.Command, tokens: seq<string>) returns (fault: Option<Fault>)
      requires |tokens| > 0 && command in {Interpreter.Touch, Interpreter.Rm, Interpreter.Write, Interpreter.Cat, Interpreter.Edit}
      modifies this
      ensures Ending(fault) == Interpreter.FileCommand(old(State()), command, tokens, editor)
    {
      var n := |tokens|;
      fault := None;
      if command == Interpreter.Touch {
        if n > 1 {
          fault := CreateFile(tokens[1]);
        } else {
          output := output + [TouchUsage];
        }
      } else if command == Interpreter.Rm {
        if n > 1 {
          fault := RemoveFile(tokens[1]);
        } else {
          output := output + [RmUsage];
        }
      } else if command == Interpreter.Write {
        if n > 2 {
          fault := WriteToFile(tokens[1], Interpreter.JoinFrom(tokens, 2));
        } else {
          output := output + [WriteUsage];
        }
      } else if command == Interpreter.Cat {
        if n > 1 && (EndsWith(tokens[1], ".txt") || EndsWith(tokens[1], ".sh")) {
          fault := ReadFile(tokens[1]);
        } else {
          output := output + [UnsupportedFileType];
        }
      } else {
        if n > 1 {
          EditFile(tokens[1]);
        } else {
          output := output + [EditUsage];
        }
      }
    }

    /** `echo`, `set` and `eval`; an expression that fails to evaluate throws. */
    method VariableCommand(command: Interpreter.Command, tokens: seq<string>) returns (fault: Option<Fault>)
      requires |tokens| > 0 && command in {Interpreter.EchoText, Interpreter.Set, Interpreter.Eval}
      modifies this
      ensures Ending(fault) == Interpreter.VariableCommand(old(State()), command, tokens)
    {
      var n := |tokens|;
      fault := None;
      if command == Interpreter.EchoText {
        if n > 1 {
          EchoCommand(Interpreter.JoinFrom(tokens, 1));
        } else {
          output := output + [EchoUsage];
        }
      } else if command == Interpreter.Set {
        if n > 2 {
          var value := EvaluateExpression(Interpreter.JoinFrom(tokens, 2));
          if value.Err? {
            return Some(EvaluationFailed);
          }
          SetVariable(tokens[1], IntToString(value.value));
        } else {
          output := output + [SetUsage];
        }
      } else {
        if n > 1 {
          var value := EvaluateExpression(Interpreter.JoinFrom(tokens, 1));
          if value.Err? {
            return Some(EvaluationFailed);
          }
          output := output + [IntToString(value.value)];
        } else {
          output := output + [EvalUsage];
        }
      }
    }

    /** `for name start-end command`: assign each value of the range in turn and run the command. */
    method ForCommand(variable: string, range: string, command: string, depth: nat) returns (fault: Option<Fault>)
      modifies this
      ensures Ending(fault) == Interpreter.ForCommand(old(State()), variable, range, command, depth, editor)
      decreases depth, 1, 0
    {
      if !Variables.IsValidVariableName(variable) {
        output := output + [InvalidName];
        return None;
      }
      var bounds := Split(range, '-');
      var start := TryParseInt(bounds[0]);
      if start.None? {
        output := output + [InvalidRange];
        return None;
      }
      if |bounds| < 2 {
        return Some(IndexOutOfRange);
      }
      var end := TryParseInt(bounds[1]);
      if end.None? {
        output := output + [InvalidRange];
        return None;
      }
      fault := ForLoop(variable, Split(command, ' '), start.value, end.value, depth);
    }

    /** Assign each value from `first` to `end` to the variable in turn and run the body after it. */
    method ForLoop(variable: string, body: seq<string>, first: int, end: int, depth: nat) returns (fault: Option<Fault>)
      modifies this
      ensures Ending(fault) == Interpreter.ForLoop(old(State()), variable, body, first, end, depth, editor)
      decreases depth, 0, 1
    {
      var i := first;
      while i <= end
        invariant Interpreter.ForLoop(State(), variable, body, i, end, depth, editor) ==
                  Interpreter.ForLoop(old(State()), variable, body, first, end, depth, editor)
        decreases end - i + 1
      {
        fault := ForRound(variable, body, i, end, depth);
        if fault.Some? {
          return;
        }
        i := i + 1;
      }
      return None;
    }

    /** One round of `for`: assign `i` to the variable and run the body; a fault ends the loop. */
    method ForRound(variable: string, body: seq<string>, i: int, end: int, depth: nat) returns (fault: Option<Fault>)
      requires i <= end
      modifies this
      ensures Interpreter.ForLoop(old(State()), variable, body, i, end, depth, editor) ==
              if fault.Some? then Ending(fault)
              else Interpreter.ForLoop(State(), variable, body, i + 1, end, depth, editor)
      decreases depth, 0, 0
    {
      ghost var before := State();
      Assign(variable, IntToString(i));
      if depth == 0 {
        Interpreter.ForLoopTooDeep(before, variable, body, i, end, editor);
        return Some(StackOverflow);
      }
      fault := ProcessCommand(body, depth - 1);
      Interpreter.ForLoopStep(before, variable, body, i, end, depth, editor, Ending(fault));
    }

    /** `if a op b command`: settle the condition, then follow the verdict. */
    method IfCommand(tokens: seq<string>, depth: nat) returns (fault: Option<Fault>)
      requires |tokens| >= 1
      modifies this
      ensures Ending(fault) == Interpreter.IfCommand(old(State()), tokens, depth, editor)
      decreases depth, 1, 1
    {
      var verdict, lastNumberIndex := JudgeCondition(tokens);
      fault := IfFollow(verdict, tokens, lastNumberIndex, depth);
    }

    /**
     * Print the notices and, when the condition holds, run the tokens after
     * the last token that has a digit, one level deeper.
     */
    method IfFollow(verdict: Interpreter.Verdict, tokens: seq<string>, lastNumberIndex: int, depth: nat) returns (fault: Option<Fault>)
      requires lastNumberIndex >= -1
      modifies this
      ensures Ending(fault) == Interpreter.IfFollow(old(State()), verdict, tokens, lastNumberIndex, depth, editor)
      decreases depth, 1, 0
    {
      match verdict
      case NoOperatorFound =>
        output := output + [NoOperator];
        return None;
      case Failed(f) =>
        return Some(f);
      case Judged(holds, notice) =>
        fault := RunIfHolds(holds, notice, tokens, lastNumberIndex, depth);
    }

    /** A judged condition: print its notices and run the command when it holds. */
    method RunIfHolds(holds: bool, notice: seq<string>, tokens: seq<string>, lastNumberIndex: int, depth: nat) returns (fault: Option<Fault>)
      requires lastNumberIndex >= -1
      modifies this
      ensures Ending(fault) == Interpreter.IfFollow(old(State()), Interpreter.Judged(holds, notice), tokens, lastNumberIndex, depth, editor)
      decreases depth, 0, 1
    {
      Interpreter.IfFollowJudged(State(), holds, notice, tokens, lastNumberIndex, depth, editor);
      output := output + notice;
      if !holds {
        return None;
      }
      var k := LastDigitIndex(tokens, lastNumberIndex);
      fault := RunDeeper(tokens[Interpreter.Min(k + 1, |tokens|)..], depth);
    }

    /** Run `command` one level deeper, unless no depth is left. */
    method RunDeeper(command: seq<string>, depth: nat) returns (fault: Option<Fault>)
      modifies this
      ensures Ending(fault) == if depth == 0 then Aborted(old(State()), StackOverflow)
                               else Interpreter.ProcessCommand(old(State()), command, depth - 1, editor)
      decreases depth, 0, 0
    {
      if depth == 0 {
        return Some(StackOverflow);
      }
      fault := ProcessCommand(command, depth - 1);
    }

    /**
     * The condition of `if`: cut the joined tokens after their last digit,
     * choose the operator, evaluate both sides and compare them. Also returns
     * where the cut was made.
     */
    method JudgeCondition(tokens: seq<string>) returns (verdict: Interpreter.Verdict, lastNumberIndex: int)
      requires |tokens| >= 1
      ensures verdict == Interpreter.Judge(variables, tokens)
      ensures lastNumberIndex == Interpreter.ConditionText(tokens).1
    {
      var joined := Interpreter.JoinFrom(tokens, 1);
      lastNumberIndex := LastIndexWhere(joined, IsDigit);
      var condition := joined[..lastNumberIndex + 1];
      var op := Interpreter.SelectOperator(condition);
      if op.None? {
        return Interpreter.NoOperatorFound, lastNumberIndex;
      }
      var sides := Interpreter.Sides(condition, op.value);
      verdict := SettleCondition(op.value, sides.0, sides.1);
    }

    /** Evaluate both sides and compare the numbers through `EvaluateCondition`; an evaluation that fails throws. */
    method SettleCondition(op: string, left: string, right: string) returns (verdict: Interpreter.Verdict)
      ensures verdict == Interpreter.Settle(variables, op, left, right)
    {
      var leftSide := EvaluateExpression(left);
      if leftSide.Err? {
        return Interpreter.Failed(EvaluationFailed);
      }
      var rightSide := EvaluateExpression(right);
      if rightSide.Err? {
        return Interpreter.Failed(EvaluationFailed);
      }
      match Variables.EvaluateCondition(variables, IntToString(leftSide.value) + " " + op + " " + IntToString(rightSide.value))
      case Threw(f) => verdict := Interpreter.Failed(f);
      case Decided(holds, notice) => verdict := Interpreter.Judged(holds, notice);
    }

    /** The scan for the last token from index 3 on that contains a digit; `fallback` when there is none. */
    method LastDigitIndex(tokens: seq<string>, fallback: int) returns (k: int)
      ensures k == Interpreter.LastDigitToken(tokens, fallback)
    {
      k := fallback;
      var i := 3;
      while i < |tokens|
        invariant 3 <= i && (|tokens| >= 3 ==> i <= |tokens|)
        invariant k == Interpreter.LastDigitToken(tokens[..Interpreter.Min(i, |tokens|)], fallback)
        decreases |tokens| - i
      {
        assert tokens[..i + 1][..i] == tokens[..i];
        if HasDigit(tokens[i]) {
          k := i;
        }
        i := i + 1;
      }
      assert tokens[..Interpreter.Min(i, |tokens|)] == tokens;
    }

    /** `sh name`: the script must be listed in the current directory; its lines run one level deeper. */
    method RunScript(name: string, depth: nat) returns (fault: Option<Fault>)
      modifies this
      ensures Ending(fault) == Interpreter.RunScript(old(State()), name, depth, editor)
      decreases depth, 1, 0
    {
      if currentPath !in fileSystem {
        return Some(MissingKey);
      }
      if name !in fileSystem[currentPath] {
        output := output + [NoSuchScript];
        return None;
      }
      if name !in files {
        return Some(MissingKey);
      }
      fault := RunLines(Split(files[name], '\n'), depth);
    }

    /** Every piece of the script but the last, split at white space, as a command. */
    method RunLines(commands: seq<string>, depth: nat) returns (fault: Option<Fault>)
      modifies this
      ensures Ending(fault) == Interpreter.ScriptLoop(old(State()), commands, 0, depth, editor)
      decreases depth, 0, 0
    {
      var i := 0;
      while i + 1 < |commands|
        invariant Interpreter.ScriptLoop(State(), commands, i, depth, editor) ==
                  Interpreter.ScriptLoop(old(State()), commands, 0, depth, editor)
        decreases |commands| - i
      {
        if depth == 0 {
          return Some(StackOverflow);
        }
        fault := ProcessCommand(SplitWhiteSpace(commands[i]), depth - 1);
        if fault.Some? {
          return;
        }
        i := i + 1;
      }
      return None;
    }
  }
}
