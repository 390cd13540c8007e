/** The Python exception classes the core raises or catches, with their
    subclass relation, and an exception value (class plus message). */
module Errors {

  /** `FileNotFoundError` names two classes: the built-in one (an `OSError`)
      and the converter's own subclass of `ConversionError`, which shadows
      it inside the converter module. They are kept apart here. */
  datatype ExceptionClass =
    | BaseException
    | KeyboardInterrupt       // stands for every class outside `Exception`
    | Exception
    | OSError
    | BuiltinFileNotFound
    | FileExists
    | NotADirectory
    | ValueError
    | TypeError
    | RuntimeError
    | NotImplementedError
    | ConversionError
    | LocalFileNotFound
    | UnsupportedFormat
    | ConversionFailed

  /** An exception raised with a single message argument; `str(e)` is that message. */
  datatype RaisedException = Raise(cls: ExceptionClass, message: string)

  function Depth(c: ExceptionClass): nat {
    match c
    case BaseException => 0
    case KeyboardInterrupt | Exception => 1
    case OSError | ValueError | TypeError | RuntimeError | ConversionError => 2
    case BuiltinFileNotFound | FileExists | NotADirectory | NotImplementedError
      | LocalFileNotFound | UnsupportedFormat | ConversionFailed => 3
  }

  /** The direct base class, as declared in Python and in the converter module. */
  function Base(c: ExceptionClass): (b: ExceptionClass)
    requires c != BaseException
    ensures Depth(b) + 1 == Depth(c)
  {
    match c
    case KeyboardInterrupt | Exception => BaseException
    case OSError | ValueError | TypeError | RuntimeError | ConversionError => Exception
    case BuiltinFileNotFound | FileExists | NotADirectory => OSError
    case NotImplementedError => RuntimeError
    case LocalFileNotFound | UnsupportedFormat | ConversionFailed => ConversionError
  }

  /** `issubclass(c, d)`: d is c or one of its bases, transitively. */
  predicate IsSubclass(c: ExceptionClass, d: ExceptionClass)
    decreases Depth(c)
  {
    c == d || (c != BaseException && IsSubclass(Base(c), d))
  }

  /** `str(e)` */
  function Str(e: RaisedException): string {
    e.message
  }

  /** The two `FileNotFoundError` classes are unrelated: catching one never
      catches the other, and only the local one is a `ConversionError`. */
  lemma FileNotFoundClassesUnrelated()
    ensures IsSubclass(LocalFileNotFound, ConversionError)
    ensures !IsSubclass(BuiltinFileNotFound, ConversionError)
    ensures !IsSubclass(BuiltinFileNotFound, LocalFileNotFound)
    ensures !IsSubclass(LocalFileNotFound, BuiltinFileNotFound)
    ensures IsSubclass(BuiltinFileNotFound, Exception) && IsSubclass(LocalFileNotFound, Exception)
  {
  }
}
