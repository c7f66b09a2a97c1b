/** The lines the shell prints. */
module Messages {

  // mkdir, ls, cd
  const DirectoryExists: string := "Directory already exists."
  const InvalidPath: string := "Invalid path.\n"
  const AtRoot: string := "Cannot go up from root directory."
  const NoSuchPath: string := "Path does not exist."

  function CreatedDirectory(directory: string, path: string): string {
    "Created directory '" + directory + "' in '" + path + "'"
  }

  // touch, rm, write, cat, edit
  const FileExists: string := "File already exists."
  const NoSuchEntry: string := "File/directory does not exist."
  const FileRemoved: string := "File removed."
  const DirectoryNotEmpty: string := "Directory has contents in it, you must remove them first."
  const DirectoryRemoved: string := "Directory removed."
  const FileNotFound: string := "File not found."
  const NoSuchFile: string := "The specified file does not exist."
  const FileSaved: string := "File saved."

  function CreatedFile(name: string): string {
    "File '" + name + "' created."
  }

  function TextWritten(name: string): string {
    "Text written to '" + name + "'successfully."
  }

  // set, for, if, sh
  const InvalidName: string := "Invalid variable name."
  const InvalidRange: string := "Invalid range."
  const NoOperator: string := "Invalid operator in equation."
  const NoSuchScript: string := "Script specified does not exist."
  const UnsupportedFileType: string := "Filetype not supported or none specified."

  function UndefinedNotice(name: string): string {
    "Variable '" + name + "' does not exist."
  }

  function NotSupported(word: string): string {
    "Command '" + word + "' not supported."
  }

  // usage lines of `ProcessCommand`
  const CdUsage: string := "'cd' requires a directory to be specified."
  const TouchUsage: string := "'touch' requires a filename to be specified."
  const RmUsage: string := "'rm' requires a directory/filename to be specified."
  const EchoUsage: string := "'echo' requires a succeeding command."
  const WriteUsage: string := "'write' requires a filename and succeeding text."
  const SetUsage: string := "'set' requires a variable name and a value."
  const ForUsage: string := "'for' requires a variable name, a range, and a command."
  const IfUsage: string := "'if' requires at minimum: var1 operator var2 statement."
  const EvalUsage: string := "Minimum expression length is 3 components, i.e. 9 - 6."
  const EditUsage: string := "'edit' requires a filename to be specified."
}
