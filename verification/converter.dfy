/** Conversion options and results, and the `safe_convert` decorator that
    turns an exception raised by a conversion function into a failed result. */
module Converter {
  import opened Wrappers
  import opened Errors
  import opened Document
  import FileUtils
  import Parser

  /** Every fidelity flag defaults to true. */
  datatype ConversionOptions = ConversionOptions(
    preserveFormatting: bool := true,
    includeImages: bool := true,
    includeTables: bool := true,
    codeBlockDetection: bool := true)

  /** `ConversionOptions()` */
  function DefaultOptions(): (o: ConversionOptions)
    ensures o.preserveFormatting && o.includeImages && o.includeTables && o.codeBlockDetection
  {
    ConversionOptions()
  }

  /** `success` and `output_file` are required; the message and the
      statistics default to absent. */
  datatype ConversionResult = ConversionResult(
    success: bool,
    outputFile: string,
    errorMessage: Option<string> := None,
    conversionStats: Option<Attributes> := None)

  /** The keyword arguments of a `ConversionResult(...)` call; None marks an
      argument the call leaves out. */
  datatype ResultArguments = ResultArguments(
    success: Option<bool>,
    outputFile: Option<string>,
    errorMessage: Option<string>,
    conversionStats: Option<Attributes>)

  const MissingOutputFile: string :=
    "ConversionResult.__init__() missing 1 required positional argument: 'output_file'"

  /** The dataclass constructor: it builds a result only when both required
      arguments are given, and raises `TypeError` otherwise. No default is
      ever supplied for a missing `output_file`. */
  function ConstructResult(args: ResultArguments): (r: Result<ConversionResult, RaisedException>)
    ensures r.Success? <==> args.success.Some? && args.outputFile.Some?
    ensures r.Success? ==>
      && r.value.success == args.success.value
      && r.value.outputFile == args.outputFile.value
      && r.value.errorMessage == args.errorMessage
      && r.value.conversionStats == args.conversionStats
    ensures r.Failure? ==> r.error.cls == TypeError
    ensures args.success.Some? && args.outputFile.None? ==> r.error.message == MissingOutputFile
  {
    if args.success.None? && args.outputFile.None? then
      Failure(Raise(TypeError,
        "ConversionResult.__init__() missing 2 required positional arguments: 'success' and 'output_file'"))
    else if args.success.None? then
      Failure(Raise(TypeError,
        "ConversionResult.__init__() missing 1 required positional argument: 'success'"))
    else if args.outputFile.None? then
      Failure(Raise(TypeError, MissingOutputFile))
    else
      Success(ConversionResult(args.success.value, args.outputFile.value, args.errorMessage, args.conversionStats))
  }

  /** How a handler words its message: a fixed text, or `str(e)`. */
  datatype MessageRule = Fixed(text: string) | StrOfException

  /** `except cls: return ConversionResult(success=False, error_message=...)` */
  datatype Handler = Except(cls: ExceptionClass, rule: MessageRule)

  /** The wrapper's `except` clauses, in the order they are tried. */
  const Handlers: seq<Handler> := [
    Except(LocalFileNotFound, Fixed("文件未找到")),
    Except(UnsupportedFormat, Fixed("不支持的文件格式")),
    Except(Exception, StrOfException)
  ]

  predicate Catches(h: Handler, e: RaisedException) {
    IsSubclass(e.cls, h.cls)
  }

  /** The index of the first handler, from index i on, whose class e is an
      instance of: Python tries `except` clauses top to bottom. */
  function FirstHandler(handlers: seq<Handler>, e: RaisedException, i: nat): (r: Option<nat>)
    requires i <= |handlers|
    ensures r.Some? ==> i <= r.value < |handlers| && Catches(handlers[r.value], e)
    ensures r.Some? ==> forall j :: i <= j < r.value ==> !Catches(handlers[j], e)
    ensures r.None? ==> forall j :: i <= j < |handlers| ==> !Catches(handlers[j], e)
    decreases |handlers| - i
  {
    if i == |handlers| then None
    else if Catches(handlers[i], e) then Some(i)
    else FirstHandler(handlers, e, i + 1)
  }

  function Message(h: Handler, e: RaisedException): string {
    match h.rule
    case Fixed(text) => text
    case StrOfException => Str(e)
  }

  /** The arguments the matching handler passes to `ConversionResult`, or
      None when no handler catches e and it propagates. */
  function HandlerArguments(e: RaisedException): (r: Option<ResultArguments>)
    ensures r.Some? <==> IsSubclass(e.cls, Exception)
    ensures r.Some? ==> r.value.success == Some(false) && r.value.outputFile == None
    ensures r.Some? ==> r.value.errorMessage.Some? && r.value.conversionStats == None
  {
    match FirstHandler(Handlers, e, 0)
    case None => None
    case Some(i) => Some(ResultArguments(Some(false), None, Some(Message(Handlers[i], e)), None))
  }

  /** The message each kind of failure is meant to be reported with. */
  function IntendedMessage(e: RaisedException): Option<string> {
    match HandlerArguments(e)
    case None => None
    case Some(args) => args.errorMessage
  }

  /** What calling a function did: it returned a value or raised. */
  datatype Call<T> = Returned(value: T) | Raised(exception: RaisedException)

  /** A call to a modelled function: its result or the exception it raised. */
  function AsCall<T>(r: Result<T, RaisedException>): Call<T> {
    match r
    case Success(v) => Returned(v)
    case Failure(e) => Raised(e)
  }

  /** What the decorated function does: pass the value through, return a
      result built by a handler, or raise. */
  datatype Wrapped<T> =
    | PassedThrough(value: T)
    | HandledResult(result: ConversionResult)
    | Propagated(exception: RaisedException)

  /** `safe_convert(func)(*args)`. Every handler calls `ConversionResult`
      without `output_file`, so each caught exception is replaced by the
      constructor's `TypeError`, and no handler ever returns a result. */
  function SafeConvert<A, T>(func: A -> Call<T>, args: A): (r: Wrapped<T>)
    ensures func(args).Returned? ==> r == PassedThrough(func(args).value)
    ensures func(args).Raised? && !IsSubclass(func(args).exception.cls, Exception)
      ==> r == Propagated(func(args).exception)
    ensures func(args).Raised? && IsSubclass(func(args).exception.cls, Exception)
      ==> r == Propagated(Raise(TypeError, MissingOutputFile))
    ensures !r.HandledResult?
  {
    match func(args)
    case Returned(v) => PassedThrough(v)
    case Raised(e) =>
      match HandlerArguments(e)
      case None => Propagated(e)
      case Some(resultArgs) =>
        match ConstructResult(resultArgs)
        case Success(result) => HandledResult(result)
        case Failure(typeError) => Propagated(typeError)
  }

  /** The handlers' intended mapping: the local file-not-found and the
      unsupported-format errors get fixed messages, every other `Exception`
      (a conversion failure included) is reported by `str(e)`, and every
      handler marks the result unsuccessful and leaves out `output_file`. */
  lemma {:induction false} HandlerMapping(e: RaisedException)
    ensures e.cls == LocalFileNotFound ==> IntendedMessage(e) == Some("文件未找到")
    ensures e.cls == UnsupportedFormat ==> IntendedMessage(e) == Some("不支持的文件格式")
    ensures e.cls != LocalFileNotFound && e.cls != UnsupportedFormat && IsSubclass(e.cls, Exception)
      ==> IntendedMessage(e) == Some(e.message)
    ensures !IsSubclass(e.cls, Exception) ==> IntendedMessage(e) == None
    ensures HandlerArguments(e).Some? ==>
      HandlerArguments(e).value.success == Some(false) && HandlerArguments(e).value.outputFile == None
  {
    var c := e.cls;
    assert Catches(Handlers[0], e) <==> c == LocalFileNotFound;
    assert Catches(Handlers[1], e) <==> c == UnsupportedFormat;
    assert Catches(Handlers[2], e) <==> IsSubclass(c, Exception);
    assert c == LocalFileNotFound || c == UnsupportedFormat ==> IsSubclass(c, Exception);
  }

  /** For a conversion failure the handler would pass the error's own
      message as `error_message`, not a fixed text. */
  lemma ConversionFailedUsesMessage(m: string)
    ensures IntendedMessage(Raise(ConversionFailed, m)) == Some(m)
  {
    HandlerMapping(Raise(ConversionFailed, m));
  }

  /** The handler order matters: were the generic handler tried first, the
      handler would pass the local file-not-found error's own message as
      `error_message` instead of the fixed text. */
  lemma HandlerOrderMatters(m: string)
    requires m != "文件未找到"
    ensures IntendedMessage(Raise(LocalFileNotFound, m)) == Some("文件未找到")
    ensures FirstHandler([Handlers[2]] + Handlers[..2], Raise(LocalFileNotFound, m), 0) == Some(0)
    ensures Message(Handlers[2], Raise(LocalFileNotFound, m)) != "文件未找到"
  {
    HandlerMapping(Raise(LocalFileNotFound, m));
    assert Catches(Handlers[2], Raise(LocalFileNotFound, m));
  }

  /** `validate_file_path` raises the built-in `FileNotFoundError`, which the
      local handler does not catch: a missing file falls to the generic
      handler, which would pass the built-in error's own text as
      `error_message`. */
  lemma MissingFileFallsThrough(fs: FileUtils.FileSystem, p: string)
    requires !FileUtils.Exists(fs, p)
    ensures IntendedMessage(FileUtils.ValidateFilePath(fs, p).error) == Some("文件不存在: " + p)
    ensures IntendedMessage(FileUtils.ValidateFilePath(fs, p).error) != Some("文件未找到")
  {
    var e := FileUtils.ValidateFilePath(fs, p).error;
    HandlerMapping(e);
    assert ("文件不存在: " + p)[2] != "文件未找到"[2];
  }

  /** A parser's not-implemented error is an ordinary `Exception`, so
      wrapping `parse` turns it into the constructor's `TypeError`. */
  lemma WrappedParseRaisesTypeError(v: Parser.Parser, p: string)
    ensures SafeConvert((q: string) => AsCall(Parser.Parse(v, q)), p)
      == Propagated(Raise(TypeError, MissingOutputFile))
  {
    assert IsSubclass(NotImplementedError, Exception);
  }
}
