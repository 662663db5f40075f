/** The exceptions raised by the modelled functions of bgstools/io/io.py. */
module Errors {

  datatype IoError =
    | NotADirectory(path: string)   // ValueError: "does not exist or is not a directory"
    | FileNotFound(path: string)    // FileNotFoundError
    | DirectoryAccess(path: string) // OSError raised while listing a directory
    | KeyError(key: string)         // a service record without the key
    | TypeError                     // a value of the wrong kind, e.g. subscripting a string with 'name'
    | YamlError(path: string)       // the YAML loader failed on the file
    | CreateFailed(path: string)    // OSError raised by os.makedirs
    | UnboundLocal(name: string)    // UnboundLocalError: a local variable read before assignment
}
