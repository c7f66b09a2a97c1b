/** An optional value, used where the shell's C# code returns a success flag with an out value. */
module Wrappers {

  datatype Option<+T> = None | Some(value: T)
}
