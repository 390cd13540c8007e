# DocumentConverter core, modelled in Dafny

DocumentConverter is meant to turn PDF and Word files into Markdown and back.
Its parsers and generators are still stubs: every `parse` and `generate`
raises `NotImplementedError`. What does exist is small and pure:

- each parser and generator variant classifies a path by its file suffix;
- `detect_format` picks a conversion direction from the `os.path.splitext`
  extension;
- `validate_file_path` and `create_output_dir` guard the filesystem;
- `safe_convert` is a decorator that is meant to turn an exception raised by
  a conversion function into a failed `ConversionResult`.

This project models that logic as immutable datatypes and pure functions and
proves its properties.

| file | module | models |
|---|---|---|
| wrappers.dfy | `Wrappers` | `Option` and `Result`, used in place of Python's `None` and raised exceptions |
| text.dfy | `Text` | ASCII `str.lower()`, `endswith` with one suffix or a tuple of suffixes |
| errors.dfy | `Errors` | the exception classes involved, with their subclass relation; the built-in and the local `FileNotFoundError` are two different classes |
| paths.dfy | `Paths` | POSIX `os.path.splitext` and `os.path.dirname` |
| document.dfy | `Document` | `DocumentElement` and `DocumentStructure` |
| parser.dfy | `Parser` | the PDF, Word and Markdown parser variants as one closed datatype |
| generator.dfy | `Generator` | the Markdown and Word generator variants |
| file_utils.dfy | `FileUtils` | an abstract filesystem, `validate_file_path`, `create_output_dir`, `detect_format` |
| converter.dfy | `Converter` | `ConversionOptions`, `ConversionResult`, the handler chain of `safe_convert` |

The filesystem is a map from path strings to a kind, either regular file or
directory. This is the same as a set of existing paths plus the subset of
them that are files. A root path ("/", "//", …) always exists as a directory.
The empty path never exists.

**safe_convert never returns a result on failure.** `ConversionResult`
declares `output_file` as a required field with no default. Each of the
three `except` branches builds the result without it. So in Python every
caught exception is replaced by the constructor's `TypeError`, and the
decorated function never returns a `ConversionResult` on a failure path.
The handlers' arguments (src/core/converter.py:62-66) show the intended
failed result, carrying "文件未找到", "不支持的文件格式" or `str(e)`, but the
model follows what the code does. `ConstructResult` refuses a call without `output_file`, and `SafeConvert`
proves that every caught exception ends up as that `TypeError`. No default
output path is invented. The message each handler *tries* to report is
still modelled, by `IntendedMessage`, and `HandlerMapping` states it.

**The shadowed `FileNotFoundError`.** `validate_file_path` raises the
built-in `FileNotFoundError`, but the decorator catches the converter's own
`FileNotFoundError` subclass. A missing input file therefore falls through to
the generic `Exception` handler, which would pass the built-in error's own
text as `error_message` (`MissingFileFallsThrough`).

**`detect_format` and the parsers disagree.** `splitext` does not treat the
leading dots of a final component as an extension. So `detect_format(".pdf")`
raises `ValueError`, while `PDFParser.can_parse(".pdf")` accepts the name. The
two agree except on names whose final component is only dots before the
suffix, such as ".pdf", "..pdf", "x/.md" or ".docx" (`DetectPdfVersusParser`
and its siblings).

## Model

| member | source | states |
|---|---|---|
| Errors.FileNotFoundClassesUnrelated | src/core/converter.py:31-40 | the local `FileNotFoundError` is a `ConversionError` and the built-in one is not; neither class catches the other, and both are `Exception`s |
| Paths.SplitExt | src/utils/file_utils.py:32 | `splitext` cuts the path into root and extension, which concatenate back to the path; the extension is empty or a dot followed by characters that are neither dots nor separators |
| Paths.SplitExtNamesStem | src/utils/file_utils.py:32 | an extension is split off only when the final component of the root has a character other than a dot |
| Paths.LeadingDotIsNotExtension | src/utils/file_utils.py:32 | ".pdf" and "dir/.pdf" have an empty extension, because a leading dot does not start one |
| Paths.SplitExtOfSuffix | src/utils/file_utils.py:32 | a path ending in an extension-shaped e has extension e exactly when its final component has a non-dot character before e |
| Paths.SplitExtLower | src/utils/file_utils.py:32 | splitting the lower-cased path gives the lower-cased root and extension |
| Paths.Dirname | src/utils/file_utils.py:23 | `dirname` returns the part of the path up to its last '/': a leading part of the path, empty exactly when the path has no '/', reaching no further than that last '/', and followed only by '/' characters up to it; trailing '/' are removed unless that part is the root, which is then returned whole |
| Document.NewElement | src/core/parser.py:12-18 | a new element keeps its content and type tag, and its attributes default to absent |
| Document.NewDocument | src/core/parser.py:21-27 | a new document keeps its title and its elements in order, and its metadata defaults to absent |
| Parser.Parse | src/core/parser.py:47-76 | `parse` fails with `NotImplementedError` for every variant and every path, with the variant's own message, and never yields a document |
| Parser.CanParse | src/core/parser.py:52-80 | `can_parse`: the lower-cased path ends with one of the variant's suffixes |
| Parser.CanParseSuffixes | src/core/parser.py:52-80 | the PDF parser accepts exactly the paths whose lower-cased form ends with ".pdf"; the Word parser ".docx" or ".doc"; the Markdown parser ".md" |
| Parser.CanParseCaseInsensitive | src/core/parser.py:52-80 | a path and its lower-cased form are accepted by the same parser variants |
| Parser.CanParseIgnoresPrefix | src/core/parser.py:52-80 | any prefix in front of an accepted path keeps it accepted, so only the suffix matters |
| Parser.BareExtensionIsParsed | src/core/parser.py:52-54 | ".pdf" and "dir/.pdf" are accepted by the PDF parser, and ".MD" by the Markdown parser |
| Parser.CanParseLastChar | src/core/parser.py:52-80 | an accepted path is non-empty, and its lower-cased last character is the last character of one of the variant's suffixes |
| Parser.ParsersDisjoint | src/core/parser.py:52-80 | no path is accepted by two different parser variants |
| Generator.Generate | src/core/generator.py:29-45 | `generate` fails with `NotImplementedError` for every variant, document and path |
| Generator.CanGenerate | src/core/generator.py:34-49 | `can_generate`: the lower-cased path ends with one of the generator's suffixes |
| Generator.GeneratorMatchesParser | src/core/generator.py:34-49 | each generator accepts exactly the paths that the parser for the same format accepts |
| Generator.CanGenerateSuffixes | src/core/generator.py:34-49 | the Markdown generator accepts exactly the lower-cased ".md" paths, and the Word generator ".docx" or ".doc" |
| Generator.CanGenerateCaseInsensitive | src/core/generator.py:34-49 | a path and its lower-cased form are accepted by the same generators |
| Generator.GeneratorsDisjoint | src/core/generator.py:34-49 | no path is accepted by both generators |
| FileUtils.Exists | src/utils/file_utils.py:12 | `os.path.exists`: a root always exists, the empty path never does, any other path exists when it has an entry |
| FileUtils.IsFile | src/utils/file_utils.py:15 | `os.path.isfile`: a non-root path whose entry is a regular file |
| FileUtils.IsDir | src/utils/file_utils.py:24-25 | an existing path that is not a regular file |
| FileUtils.ValidateFilePath | src/utils/file_utils.py:10-18 | success exactly for a regular file, with value true; a missing path gives the built-in `FileNotFoundError` before anything else; an existing non-file gives `ValueError`; each carries its message |
| FileUtils.MakeDirs | src/utils/file_utils.py:25 | on success the target is a directory; all old entries are unchanged; every new entry is a directory at the target or one of its ancestors (a leading part ending at a '/'); an existing directory leaves the filesystem untouched; a failure means a regular file sits at the target or at an ancestor |
| FileUtils.MakeDirsWellFormed | src/utils/file_utils.py:25 | creating directories keeps the filesystem a tree: the parent of every entry is a directory |
| FileUtils.CreateOutputDir | src/utils/file_utils.py:21-27 | a successful call returns true; the filesystem is unchanged when the directory part is empty or already exists; otherwise the directory exists afterwards; only the directory part and its ancestors are added, as directories; a failure means a regular file sits at the directory part or at one of its ancestors |
| FileUtils.CreateOutputDirIdempotent | src/utils/file_utils.py:21-27 | a second call after a successful one changes nothing and returns true |
| FileUtils.CreateOutputDirWellFormed | src/utils/file_utils.py:21-27 | on a tree-shaped filesystem a successful call leaves a tree, so every missing intermediate directory has been created |
| FileUtils.DetectFormat | src/utils/file_utils.py:30-44 | a detected direction is one of "pdf2md", "word2md" and "md2word"; every failure is a `ValueError` |
| FileUtils.DetectFormatByExtension | src/utils/file_utils.py:30-44 | ".pdf" gives "pdf2md", ".docx" or ".doc" gives "word2md", ".md" gives "md2word", compared after lower-casing the extension; any other extension fails, and its message names that extension |
| FileUtils.NoExtensionRejected | src/utils/file_utils.py:41-42 | a path without an extension fails with `ValueError` and an empty extension in the message |
| FileUtils.DetectFormatCaseInsensitive | src/utils/file_utils.py:32 | detection gives the same outcome on a path and on its lower-cased form |
| FileUtils.LowerExtensionIs | src/utils/file_utils.py:32 | the lower-cased extension is e exactly when the lower-cased path ends with e and the final component has a non-dot character before e |
| FileUtils.DetectPdfVersusParser | src/utils/file_utils.py:30-44 | "pdf2md" is detected exactly when the PDF parser accepts the path and the final component has a non-dot character before ".pdf" |
| FileUtils.DetectWordVersusParser | src/utils/file_utils.py:30-44 | "word2md" is detected exactly when the lower-cased path ends with ".docx" or ".doc" and the final component has a non-dot character before that suffix |
| FileUtils.DetectMarkdownVersusParser | src/utils/file_utils.py:30-44 | "md2word" is detected exactly when the Markdown parser accepts the path and the final component has a non-dot character before ".md" |
| FileUtils.DetectFormatSound | src/utils/file_utils.py:30-44 | a detected direction always names a path that the matching parser accepts |
| FileUtils.BarePdfNotDetected | src/utils/file_utils.py:32 | the converse fails: the PDF parser accepts ".pdf", but detection rejects it |
| Converter.DefaultOptions | src/core/converter.py:11-18 | all four options default to true |
| Converter.ConstructResult | src/core/converter.py:21-28 | a result is built exactly when both `success` and `output_file` are given, and it copies every argument; otherwise the constructor raises `TypeError`, and a missing `output_file` alone gives the missing-argument message |
| Converter.HandlerArguments | src/core/converter.py:61-66 | a handler is chosen exactly for an `Exception`; its constructor call passes `success=False` and an error message, and leaves out `output_file` and the statistics |
| Converter.FirstHandler | src/core/converter.py:59-66 | the chosen handler catches the exception and no earlier handler does; when none is chosen, no handler catches it |
| Converter.SafeConvert | src/core/converter.py:55-68 | a normal return passes through unchanged; an exception outside `Exception` propagates; every caught exception becomes the constructor's `TypeError`; no outcome is a handler-built result |
| Converter.HandlerMapping | src/core/converter.py:61-66 | the local file-not-found error maps to "文件未找到" and the unsupported-format error to "不支持的文件格式"; any other `Exception` maps to its own message; nothing else is caught; every handler passes `success=False` and leaves out `output_file` |
| Converter.ConversionFailedUsesMessage | src/core/converter.py:65-66 | for a conversion-failed error the handler would pass the error's own message as `error_message` |
| Converter.HandlerOrderMatters | src/core/converter.py:61-66 | the local file-not-found error gets the fixed message, although the generic handler also catches it; tried first, the generic handler would be picked and would pass a different message |
| Converter.MissingFileFallsThrough | src/core/converter.py:61-66 | the built-in `FileNotFoundError` from a missing path reaches the generic handler, which would pass "文件不存在: " followed by the path as `error_message`, not "文件未找到" |
| Converter.WrappedParseRaisesTypeError | src/core/converter.py:58-66 | wrapping any parser's `parse` gives the constructor's `TypeError`, whatever the path |

## Left out

- The command-line interface (src/cli/main.py): argument parsing, console output and `sys.exit`. It is I/O and does not call the core.
- Logger configuration (src/utils/logger.py): calls into the logging library.
- `get_file_size` and `get_file_info`: wrappers around `os.stat` that return sizes and float timestamps.
- Packaging and re-export files (setup.py, src/main.py, the `__init__.py` files), and the environment test.
- Case folding: `str.lower()` is modelled for ASCII letters only. Other Unicode case mappings are not modelled.
- Path syntax: only '/' is a separator. Filesystem paths are compared as strings, without resolving ".", "..", repeated or trailing separators, or symbolic links.
- FileUtils.MakeDirs: `os.makedirs` is library code. It is modelled only as creating every missing directory along the `dirname` chain, and failing when a regular file stands at the target or at an ancestor. Its permission errors, its special case for a final "." component, and its race handling are not modelled. The failure case is stated one way only: a failure implies that a file is in the way.
- FileUtils.CreateOutputDir: inherits the failure statement of `MakeDirs`, which is one way only.
- Errors raised by the filesystem carry the path as their message, not the operating system's text.
- `Any` values in attributes, metadata and statistics are narrowed to none, booleans, integers, strings and lists.
- Exception chaining: the `TypeError` raised inside an `except` block carries the caught exception as its context. The model does not record that context.
- Converter.SafeConvert: `*args, **kwargs` are modelled as one argument value passed to the wrapped function, and the wrapped function is a parameter.
- `ConversionOptions` is declared but never read by any operation, so only its defaults are modelled.
- The exception classes form a closed list. An `Exception` subclass outside it cannot be raised in the model: `KeyError`, `PermissionError`, or a user subclass of the local `FileNotFoundError` or of `UnsupportedFormatError`, which the first two `except` clauses would also catch.
- Exception classes outside `Exception` (`KeyboardInterrupt`, `SystemExit`, …) are represented by a single `KeyboardInterrupt` class.
