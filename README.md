# Shell — a verified model of an in-memory command shell

The `Shell` class of `Shell/Program.cs` keeps a tiny virtual file system and a
set of integer variables in memory. It understands `mkdir`, `ls`, `cd`,
`touch`, `rm`, `pwd`, `echo`, `write`, `cat`, `sh` (run a script file), `set`,
`for`, `if`, `eval`, `edit`, `clear`, `test` and `exit`. Arithmetic goes
through a two-stack (shunting-yard) evaluator.

This project models that class in Dafny, in two layers:

* **Specification functions** over a `Session` value (`ShellState`). A
  session holds:
  * the directory tree `fileSystem`, from a path to its ordered list of
    names;
  * the flat table `files`, keyed by bare file name;
  * `variables` and the order in which they were first assigned;
  * `currentPath`;
  * every line printed so far.

  Each command is a function from a session to an `Outcome`: `Completed`
  with the new session, or `Aborted` with the session at the moment a .NET
  exception escaped, and the kind of exception. The C# code catches
  nothing, so an exception ends the shell. The modules are:
  * `FileSystem`: the directory and file commands;
  * `Variables`: `set`, `echo` and the condition of `if`;
  * `Arithmetic` and `ArithmeticText`: the evaluator;
  * `Interpreter`: the dispatcher and the recursive commands `for`, `if`
    and `sh`.
* **The class** `ShellClass.Shell`. Its fields are the dictionaries and the
  current path, updated in place. Each of its methods is proved to leave the
  object exactly as the matching function says (`Ending(fault) == F(old(State()), ...)`).
  The evaluator is a loop over two stacks, proved to agree with a lexer
  followed by a stack machine. That machine is in turn proved to compute
  the usual precedence and left-associativity: `MachineComputesEval`
  checks it against a recursive reference evaluator over expression trees.

Commands nest: `for` and `if` run a command, and `sh` runs a script, which
may run itself. Every function and method therefore carries a `depth`, the
number of nested calls still available. Running out of depth is the
`StackOverflowException` the C# program would raise.

The code behaves unexpectedly in a few places; the model follows the code
in each:

* `exit` returns from `ProcessCommand` and changes nothing.
* A name may be both a file and a directory: `touch x` then `mkdir x`.
* In `if`, the operators `>=` and `<=` are never selected, because the code
  tests whether the condition contains `>` (or `<`) before it tests for
  `>=` (or `<=`).
  * For `if 5 >= 5 ...` the code splits at `>`. The right side becomes
    `= 5`, and the comparison `5 > 5` is false.
  * `Interpreter.IfAtLeastOnEqual` states this behaviour.
* In `if`, the command starts after the last word that holds a digit. A
  digit in the command moves that point: in `if 5 > 3 echo 1` the right side
  is read up to the `1`, and the command left to run is empty, so
  `ProcessCommand` throws on its first word. `Interpreter.IfDigitInCommand`
  states the throw.

## Model

| member | source | states |
|---|---|---|
| ShellState.Initial | Shell/Program.cs:20-27 | the constructor's session (only the empty root directory, which is current) satisfies the session invariant |
| ShellClass.Shell.constructor | Shell/Program.cs:20-27 | a new shell is the initial session |
| Text.SplitJoin | Shell/Program.cs:243-244 | splitting at a separator undoes joining pieces that do not contain it |
| Text.ParseFormatRoundTrip | Shell/Program.cs:250 | `int.TryParse(i.ToString())` gives back `i` for every integer |
| Text.DigitsRoundTrip | Shell/Program.cs:167-174 | the value of a number's decimal digits is the number |
| Text.IndexOf | Shell/Program.cs:263-285 | the result is the first position where the pattern occurs, and none exists when it is absent |
| Text.ReplaceAbsent | Shell/Program.cs:525 | `Replace` with a pattern that does not occur leaves the text unchanged |
| Text.ReplaceSelf | Shell/Program.cs:525 | replacing a pattern by itself gives back the text, so a variable whose value is its own reference leaves `echo` text as it is |
| FileSystem.CreateDirectory | Shell/Program.cs:434-450 | an existing `currentPath/name` only prints a message. Otherwise the name is appended to the current list, with the old entries kept in order, and the new path gets an empty list. On success it prints `Created directory 'name' in 'path'`. Nothing but the tree and the output changes. It throws exactly when `currentPath/name` does not exist and the current directory is missing |
| ShellClass.Shell.CreateDirectory | Shell/Program.cs:434-450 | the object ends as `FileSystem.CreateDirectory` says |
| FileSystem.ListDirectory | Shell/Program.cs:452-465 | listing changes nothing but the output. An existing path prints exactly its pre-order `Listing`, one line per entry indented by depth, and an unknown path prints `Invalid path.` |
| FileSystem.ListingIndented | Shell/Program.cs:460 | every line printed at nesting level `d` starts with `3*d` spaces |
| FileSystem.ListingMentions | Shell/Program.cs:458-460 | every name in the listed directory is printed, indented by its level |
| FileSystem.ListingLeaf | Shell/Program.cs:458-463 | a directory without sub-directories lists exactly its names, in order |
| ShellClass.Shell.ListDirectory | Shell/Program.cs:452-465 | the pre-order loop prints exactly `Listing` and changes nothing else |
| ShellClass.Shell.ListEntry | Shell/Program.cs:459-463 | one entry prints its line followed by its sub-tree's listing |
| FileSystem.ChangeDirectory | Shell/Program.cs:467-486 | only the current path and the output change. A valid session never throws. A name whose `currentPath/name` exists is entered, and any other name prints `Path does not exist.`. `..` at the root prints a message. Elsewhere `..` moves to the current path cut at its last `/` and prints nothing |
| FileSystem.ChangeDirectoryBack | Shell/Program.cs:467-486 | `cd name` followed by `cd ..` returns to the directory it started from |
| ShellClass.Shell.ChangeDirectory | Shell/Program.cs:467-486 | the object ends as `FileSystem.ChangeDirectory` says |
| FileSystem.CreateFile | Shell/Program.cs:488-497 | a listed name only prints a message. Otherwise the name is appended, `files[name]` becomes empty, and `File 'name' created.` is printed. It throws exactly when the current directory is missing, or when the name is already a file elsewhere; that throw leaves the name listed |
| ShellClass.Shell.CreateFile | Shell/Program.cs:488-497 | the object ends as `FileSystem.CreateFile` says |
| FileSystem.RemoveFile | Shell/Program.cs:499-521 | an unlisted name only prints `File/directory does not exist.`. A listed non-directory gets its first occurrence removed from the list, its file is dropped and `File removed.` is printed; the rest of the tree stays. A listed empty directory is unlisted the same way, its key removed, the files kept, and `Directory removed.` printed. A non-empty directory only prints a message. The variables and the current path never change |
| FileSystem.RemoveFirst | Shell/Program.cs:519 | `List.Remove` drops the first occurrence and keeps the others in order; an absent item leaves the list as it is |
| FileSystem.RemoveFirstAppended | Shell/Program.cs:488-508 | removing the name just appended restores the list |
| FileSystem.CreateThenRemoveDirectory | Shell/Program.cs:434-521 | `mkdir name` then `rm name` restores the session apart from its output |
| FileSystem.CreateThenRemoveFile | Shell/Program.cs:488-521 | `touch name` then `rm name` restores the session apart from its output |
| ShellClass.Shell.RemoveFile | Shell/Program.cs:499-521 | the object ends as `FileSystem.RemoveFile` says |
| FileSystem.WriteToFile | Shell/Program.cs:363-371 | for a name both listed and stored, exactly `text + "\n"` is appended to its text and the success message printed. Otherwise it prints `File not found.` and nothing changes |
| ShellClass.Shell.WriteToFile | Shell/Program.cs:363-371 | the object ends as `FileSystem.WriteToFile` says |
| FileSystem.ReadFile | Shell/Program.cs:373-380 | `cat` changes nothing but the output. A file reachable from the current directory prints its content, and any other name prints `File not found.` |
| FileSystem.WriteThenRead | Shell/Program.cs:363-380 | reading after a write prints the old text followed by the written line |
| ShellClass.Shell.ReadFile | Shell/Program.cs:373-380 | the object ends as `FileSystem.ReadFile` says |
| FileSystem.EditFile | Shell/Program.cs:382-423 | a missing file prints a message. Otherwise exactly `files[name]` is replaced by what the editor saves, and `File saved.` is printed |
| ShellClass.Shell.EditFile | Shell/Program.cs:382-423 | the object ends as `FileSystem.EditFile` says |
| Variables.Assign | Shell/Program.cs:153 | `variables[name] = value` sets that key and changes no other key or field, and a new key joins the enumeration order at its end |
| Variables.SetVariable | Shell/Program.cs:147-154 | a name containing `$` prints `Invalid variable name.` and leaves the variables unchanged. Any other name is assigned |
| ShellClass.Shell.SetVariable | Shell/Program.cs:147-154 | the object ends as `Variables.SetVariable` says |
| ShellClass.Shell.Assign | Shell/Program.cs:250 | the object ends as `Variables.Assign` says |
| Variables.Echo | Shell/Program.cs:523-528 | `echo` prints exactly the substituted text and changes nothing else |
| Variables.Substitute | Shell/Program.cs:524-526 | replacing each variable in turn leaves text without `$` as it is, and any text when no listed variable is defined |
| Variables.EchoReference | Shell/Program.cs:524-526 | a `$name` inside text without other `$` is replaced by the variable's value, the text around it kept. This holds in any variable order containing `name`, when no other defined variable's reference occurs in the text |
| ShellClass.Shell.EchoCommand | Shell/Program.cs:523-528 | the loop over the variables performs exactly `Variables.Echo` |
| Variables.ConditionSide | Shell/Program.cs:309-324 | an integer token is its value, and any other token without `$` is 0. A defined `$name` is the variable's value, or a format error when that value is not an integer. A side is undefined only for `$name` with `name` missing, and it is broken exactly for the empty token or a non-integer value |
| Variables.EvaluateCondition | Shell/Program.cs:306-342 | a true condition had at least three parts and a known operator, with no notice. A false one with a notice names an undefined variable |
| Variables.ConditionOnNumbers | Shell/Program.cs:306-342 | the text `a op b` built from two integers compares them with `op` |
| Variables.ConditionOnVariable | Shell/Program.cs:309-316 | `$name` on the left reads the variable. When it is undefined, a notice is printed and the condition is false |
| Arithmetic.HasPrecedence | Shell/Program.cs:218-225 | false against `(` or `)`. Between two operators it is true exactly when the stacked one binds at least as tightly |
| Arithmetic.TruncDiv | Shell/Program.cs:232 | C# `/` truncates toward zero: the remainder is smaller than the divisor, carries the dividend's sign, and the quotient's magnitude is `|a| / |b|` |
| Arithmetic.ApplyOperator | Shell/Program.cs:227-235 | succeeds exactly for `+ - * /` with a non-zero divisor for `/`. A zero divisor is `DivideByZeroException` and any other character `Invalid operator`. `-` gives the difference, and `/` the truncated quotient |
| Variables.Compare | Shell/Program.cs:326-341 | an operator other than the six comparisons is false |
| Variables.CompareDuals | Shell/Program.cs:326-341 | `!=`, `>=` and `<=` are the negations of `==`, `<` and `>`, and `>` is `<` with the sides swapped |
| Variables.IsValidVariableName | Shell/Program.cs:344-346 | a name is valid exactly when none of its characters is `$` |
| Arithmetic.MachineComputesEval | Shell/Program.cs:175-235 | the two-stack machine gives every expression tree's token sequence the value of the recursive reference evaluator: `*` and `/` bind tighter than `+` and `-`, and all four associate to the left |
| ArithmeticText.EvaluatePrinted | Shell/Program.cs:156-216 | evaluating an expression tree's text gives the reference value |
| ArithmeticText.LexRender | Shell/Program.cs:164-206 | scanning the text of a token sequence gives back those tokens |
| ArithmeticText.SkippedCharacter | Shell/Program.cs:164-207 | a character that is not a digit, letter, parenthesis, operator or `$` (a space, say) does not change the result, where removing it does not join a number or name with what follows (`1 2` is 2 but `12` is 12) |
| ArithmeticText.VariableReference | Shell/Program.cs:196-206 | `$name` stands for the variable's value, and an undefined name makes the whole evaluation fail |
| ArithmeticText.EvaluateLiteral | Shell/Program.cs:167-174 | a run of digits evaluates to its decimal value |
| ArithmeticText.EvaluateReference | Shell/Program.cs:196-204 | `$name` alone evaluates to the number the variable holds |
| Arithmetic.EvaluateOneCharacter | Shell/Program.cs:157-159 | the one-character shortcut gives the same value as the full evaluation |
| ShellClass.ApplyTop | Shell/Program.cs:209-213 | popping two numbers and an operator and pushing the result is one machine reduction, which removes one operator |
| ShellClass.PushOperatorOnto | Shell/Program.cs:187-195 | the inner loop reduces while the stacked operator has precedence, then pushes |
| ShellClass.CloseParenthesis | Shell/Program.cs:178-186 | `)` reduces down to the matching `(` and pops it |
| ShellClass.StepMachine | Shell/Program.cs:167-195 | one token moves the stacks as the machine's step does |
| ShellClass.ReadNumber | Shell/Program.cs:167-174 | the digit loop reads the number the lexer produces and moves past it |
| ShellClass.ReadReference | Shell/Program.cs:196-206 | the name loop reads the referenced value, or the failure the lexer reports |
| ShellClass.FinishStacks | Shell/Program.cs:209-215 | the final loop and pop give the machine's final value |
| ShellClass.Shell.EvaluateExpression | Shell/Program.cs:156-216 | the character loop over two stacks succeeds exactly when the reference evaluation does, with the same value |
| Interpreter.ProcessCommand | Shell/Program.cs:38-145 | every command keeps a valid session valid and only adds to the output |
| ShellClass.Shell.ProcessCommand | Shell/Program.cs:38-145 | the object ends as `Interpreter.ProcessCommand` says, and throws exactly when it aborts |
| ShellClass.Shell.Dispatch | Shell/Program.cs:39-144 | the switch ends as `Interpreter.Dispatch` says |
| ShellClass.Shell.SimpleCommand | Shell/Program.cs:39-143 | the non-nesting cases end as `Interpreter.SimpleCommand` says |
| ShellClass.Shell.ControlCommand | Shell/Program.cs:90-114 | the `sh`, `for` and `if` cases end as `Interpreter.Dispatch` says |
| ShellClass.Shell.DirectoryCommand | Shell/Program.cs:40-70 | `mkdir`, `ls`, `cd` and `pwd` end as `Interpreter.DirectoryCommand` says |
| ShellClass.Shell.FileCommand | Shell/Program.cs:56-126 | `touch`, `rm`, `write`, `cat` and `edit` end as `Interpreter.FileCommand` says |
| ShellClass.Shell.VariableCommand | Shell/Program.cs:71-120 | `echo`, `set` and `eval` end as `Interpreter.VariableCommand` says |
| Interpreter.ForLoop | Shell/Program.cs:249-252 | a start past the end runs nothing. Every round keeps a valid session valid and only adds output |
| Interpreter.ForRange | Shell/Program.cs:243-249 | the range `a-b` runs the body for `a`, …, `b` in ascending order |
| Interpreter.ForWithoutDash | Shell/Program.cs:244 | a range without `-` throws an index-out-of-range exception before any round |
| Interpreter.ForNegativeStart | Shell/Program.cs:243-246 | a range with a negative start prints `Invalid range.` and changes nothing else |
| Interpreter.ForCopies | Shell/Program.cs:237-253 | `for x a-b set y $x` completes with both `x` and `y` holding `b` |
| Interpreter.SetFromReference | Shell/Program.cs:96-102 | `set y $x` stores the value of `x` in `y` |
| ShellClass.Shell.ForCommand | Shell/Program.cs:237-253 | the object ends as `Interpreter.ForCommand` says |
| ShellClass.Shell.ForLoop | Shell/Program.cs:249-252 | the counting loop ends as `Interpreter.ForLoop` says |
| ShellClass.Shell.ForRound | Shell/Program.cs:250-251 | one round ends as `Interpreter.ForLoop`'s first step says |
| Interpreter.SelectOperator | Shell/Program.cs:263-290 | the chosen operator is the first of `==`, `!=`, `>`, `<` that occurs in the condition, so `==` wins over any other. None is chosen exactly when no operator occurs |
| Interpreter.Sides | Shell/Program.cs:264-293 | the left side is the text before the first occurrence of the operator; the right side is the text after it, up to the next occurrence or the end. Neither contains the operator |
| Interpreter.LastDigitToken | Shell/Program.cs:296-300 | the result is the last token from index 3 on that contains a digit, or the fallback when there is none |
| Interpreter.SelectOnOperator | Shell/Program.cs:263-286 | each of the six operators selects itself, except that `>=` selects `>` and `<=` selects `<` |
| Interpreter.SelectInMiddle | Shell/Program.cs:263-286 | text around the operator that has no operator characters does not change the choice |
| Interpreter.FoundInMiddle | Shell/Program.cs:263-286 | a pattern whose characters are absent from the surrounding text is found where it occurs in the middle |
| Interpreter.ConditionCut | Shell/Program.cs:256-259 | the condition of `if a op b command` is cut after `b` when the command has no digit |
| Interpreter.OperatorOfCondition | Shell/Program.cs:263-290 | a condition `a op b` on digit strings selects `op` (with the `>=`/`<=` reading above) |
| Interpreter.SidesOfCondition | Shell/Program.cs:264-293 | the sides of such a condition are `a ` and the rest of the operator, a space and `b` |
| Interpreter.JudgeNumbers | Shell/Program.cs:256-295 | the verdict on `if a op b command` is the comparison of `a` and `b` |
| Interpreter.IfOnNumbers | Shell/Program.cs:255-304 | `if a op b command` runs `command` exactly when the comparison holds, and otherwise changes nothing |
| Interpreter.IfAtLeastOnEqual | Shell/Program.cs:271-282 | `if n >= n command` never runs the command |
| Interpreter.IfDigitInCommand | Shell/Program.cs:295-302 | when the last word of the command holds a digit, a true condition runs an empty command, which throws |
| Interpreter.CommandAfterNumbers | Shell/Program.cs:296-301 | the command run by `if a op b command` is exactly the tokens after `b` |
| ShellClass.Shell.IfCommand | Shell/Program.cs:255-304 | the object ends as `Interpreter.IfCommand` says |
| ShellClass.Shell.IfFollow | Shell/Program.cs:288-303 | acting on the verdict ends as `Interpreter.IfFollow` says |
| ShellClass.Shell.RunIfHolds | Shell/Program.cs:295-303 | a true condition runs the command after the last digit token, and a false one changes nothing |
| ShellClass.Shell.RunDeeper | Shell/Program.cs:302 | the nested call throws a stack overflow at depth 0, and otherwise runs one level deeper |
| ShellClass.Shell.JudgeCondition | Shell/Program.cs:256-293 | the verdict and the digit index are those of `Interpreter.Judge` and `Interpreter.ConditionText` |
| ShellClass.Shell.SettleCondition | Shell/Program.cs:292-295 | evaluating the two sides and the condition gives `Interpreter.Settle` |
| ShellClass.Shell.LastDigitIndex | Shell/Program.cs:296-300 | the loop finds `Interpreter.LastDigitToken` |
| Interpreter.ScriptIgnoresLastPiece | Shell/Program.cs:357 | the script loop never runs the piece after the last line break |
| Interpreter.ScriptOfLines | Shell/Program.cs:348-361 | a script whose text ends with a line break runs each of its lines |
| Interpreter.ScriptDropsUnterminatedLine | Shell/Program.cs:355-357 | a final line without a line break is never run |
| ShellClass.Shell.RunScript | Shell/Program.cs:348-361 | the object ends as `Interpreter.RunScript` says |
| ShellClass.Shell.RunLines | Shell/Program.cs:357-360 | the loop over the script's lines ends as `Interpreter.ScriptLoop` says |

## Left out

- `Main` and `Run` are left out: the read–evaluate loop and the quit prompt only read the console and split each line at spaces before calling `ProcessCommand`.
- The interactive editor loop of `EditFile` (cursor keys, insertions, redrawing) is not modelled. It is a parameter `editor` from the file name and old text to the saved text. Only its effect on `files` and the `File saved.` line are modelled.
- `clear` clears the console, and `test` prints every key of the two dictionaries. Both are console effects, modelled as commands that change nothing.
- C# `int` is 32 bits wide, but the model's integers are unbounded: an overflow in the evaluator or in a `for` counter is not modelled.
- `char.IsDigit` and `char.IsLetterOrDigit` are restricted to ASCII. `int.TryParse` accepts an optional sign and ASCII digits, without the surrounding white space, culture-specific forms or range checks of .NET.
- ShellClass.Shell.EvaluateExpression: the method promises the same success and the same value as `Arithmetic.Evaluate`, but not the same error kind. `Evaluate` scans the whole text before it runs the stack machine, while the C# loop can meet a stack underflow before it reaches an undefined variable. Every failure is the same `EvaluationFailed` exception to the rest of the shell.
- The stack available to nested `for`, `if` and `sh` commands is the parameter `depth`. Running out of it is `StackOverflow`, but the actual stack size of a .NET thread is not modelled.
- The branch of `CreateDirectory` for `tokens.Length < 1` cannot be reached, because the token array always holds `mkdir`. It is not modelled as a separate case.
- `EchoCommand` enumerates the variables dictionary, and the model fixes that order as insertion order (`variableOrder`). That is the order of a .NET `Dictionary` that never loses a key, and no key is ever removed from `variables`.
- `RunScript` splits each line with `Split()`, which splits at every white-space character. The model splits at the ASCII white-space characters only.
