/**
 * The state of one shell session: the directory tree, the flat table of file
 * contents, the variables and the current directory, plus everything printed
 * so far. A C# exception ends the session; the model records the state at the
 * moment of the throw and the kind of failure.
 */
module ShellState {
  import opened Wrappers
  import opened Text

  /** The .NET exceptions the shell's code can raise (none of them is caught). */
  datatype Fault =
    | EvaluationFailed   // an exception out of `EvaluateExpression`
    | MissingKey         // `KeyNotFoundException` from a dictionary indexer
    | DuplicateKey       // `ArgumentException` from `Dictionary.Add`
    | IndexOutOfRange    // an array index or `Substring` argument out of range
    | FormatError        // `int.Parse` of a stored value that is not a number
    | StackOverflow      // nested commands and scripts beyond the available stack

  /**
   * `fileSystem` maps a directory path (`""` is the root, `"/a/b"` a
   * sub-directory) to the names listed in it, in insertion order; `files`
   * maps a file name (not a path) to its text; `variableOrder` is the order in
   * which the variables were first assigned, the order in which a .NET
   * dictionary that is never shrunk enumerates its keys.
   */
  datatype Session = Session(
    fileSystem: map<string, seq<string>>,
    files: map<string, string>,
    variables: map<string, string>,
    variableOrder: seq<string>,
    currentPath: string,
    output: seq<string>)

  /** How a command ends: normally, or by an exception that terminates the shell. */
  datatype Outcome = Completed(state: Session) | Aborted(state: Session, reason: Fault)

  /** The shell as its constructor leaves it: an empty root directory, which is current. */
  function Initial(): (s: Session)
    ensures Valid(s)
  {
    Session(map[RootPath := []], map[], map[], [], RootPath, [])
  }

  const RootPath: string := ""

  /** `path + "/" + name`, the key under which a sub-directory is stored. */
  function ChildPath(path: string, name: string): (p: string)
    ensures |p| > |path| && p[..|path|] == path && p[|path|] == '/'
  {
    path + "/" + name
  }

  /** `Console.WriteLine(line)`. */
  function Say(s: Session, line: string): (r: Session)
    ensures r.output == s.output + [line]
    ensures r.(output := s.output) == s
  {
    s.(output := s.output + [line])
  }

  predicate NoDuplicates<T(==)>(xs: seq<T>) {
    forall i, j | 0 <= i < j < |xs| :: xs[i] != xs[j]
  }

  /**
   * What every reachable session satisfies: the root exists, the current path
   * is the root or starts with `/`, the variable order lists each variable
   * exactly once, and every variable holds the text of an integer.
   */
  predicate Valid(s: Session) {
    WellFormed(s.fileSystem, s.currentPath, s.variables, s.variableOrder)
  }

  predicate WellFormed(fileSystem: map<string, seq<string>>, currentPath: string, variables: map<string, string>, variableOrder: seq<string>) {
    && RootPath in fileSystem
    && (currentPath == RootPath || currentPath[0] == '/')
    && NoDuplicates(variableOrder)
    && (forall k | k in variables :: k in variableOrder)
    && (forall i | 0 <= i < |variableOrder| :: variableOrder[i] in variables)
    && (forall k | k in variables :: TryParseInt(variables[k]).Some?)
  }
}
