/** Values shared by the whole model: optional and fallible results, the values an
    SQLite column can hold, and the Python exceptions that escape the parser. */
module Common {

  datatype Option<+T> = None | Some(value: T)

  datatype Result<+T> = Ok(value: T) | Err(error: Error)

  /** An SQLite value as the parser reads it back: NULL, an INTEGER or a TEXT. */
  datatype Cell = Null | Int(n: int) | Txt(s: string)

  /** The Python exceptions that end a run of the parser. */
  datatype Error =
    | IndexError          // a list index out of range
    | AttributeError      // `.group()` on a failed `re.search`
    | TypeError           // an unexpected keyword argument, or unpacking `None`
    | IntegrityError      // an INSERT that breaks the UNIQUE title constraint
    | NoSuchColumn(prefix: string, index: nat)  // OperationalError: no such column prefix+index
    | UnboundLocalError   // a local variable read before any assignment
}
