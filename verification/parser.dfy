/** The parser variants: each recognises its formats by a case-insensitive
    suffix test, and none of them can parse yet. */
module Parser {
  import opened Wrappers
  import opened Text
  import opened Errors
  import opened Document

  datatype Parser = PdfParser | WordParser | MarkdownParser

  /** The suffixes passed to `endswith`, in the order the source lists them. */
  function Suffixes(v: Parser): seq<string> {
    match v
    case PdfParser => [".pdf"]
    case WordParser => [".docx", ".doc"]
    case MarkdownParser => [".md"]
  }

  /** `can_parse`: the lower-cased path ends with one of the suffixes. */
  predicate CanParse(v: Parser, path: string) {
    EndsWithAny(Lower(path), Suffixes(v))
  }

  /** `parse(file_path)`: every variant raises `NotImplementedError`. */
  function Parse(v: Parser, path: string): (r: Result<DocumentStructure, RaisedException>)
    ensures r.Failure? && r.error.cls == NotImplementedError
    ensures v == PdfParser ==> r.error.message == "PDF 解析功能尚未实现"
    ensures v == WordParser ==> r.error.message == "Word 解析功能尚未实现"
    ensures v == MarkdownParser ==> r.error.message == "Markdown 解析功能尚未实现"
  {
    var what := match v
      case PdfParser => "PDF"
      case WordParser => "Word"
      case MarkdownParser => "Markdown";
    Failure(Raise(NotImplementedError, what + " 解析功能尚未实现"))
  }

  /** Each variant accepts exactly the paths whose lower-cased form ends
      with one of its suffixes. */
  lemma CanParseSuffixes(p: string)
    ensures CanParse(PdfParser, p) <==> EndsWith(Lower(p), ".pdf")
    ensures CanParse(WordParser, p) <==> EndsWith(Lower(p), ".docx") || EndsWith(Lower(p), ".doc")
    ensures CanParse(MarkdownParser, p) <==> EndsWith(Lower(p), ".md")
  {
    assert Suffixes(WordParser)[0] == ".docx" && Suffixes(WordParser)[1] == ".doc";
  }

  /** Case does not matter: a path and its lower-cased form are accepted
      by the same variants. */
  lemma CanParseCaseInsensitive(v: Parser, p: string)
    ensures CanParse(v, Lower(p)) == CanParse(v, p)
  {
    LowerIdempotent(p);
  }

  /** Only the suffix matters: whatever precedes an accepted path, even a
      directory, the result is still accepted. In particular a bare ".pdf"
      and "dir/.pdf" are PDF files to the parser. */
  lemma CanParseIgnoresPrefix(v: Parser, q: string, p: string)
    requires CanParse(v, p)
    ensures CanParse(v, q + p)
  {
    var k :| 0 <= k < |Suffixes(v)| && EndsWith(Lower(p), Suffixes(v)[k]);
    LowerAppend(q, p);
    EndsWithPrefixed(Lower(q), Lower(p), Suffixes(v)[k]);
  }

  lemma BareExtensionIsParsed()
    ensures CanParse(PdfParser, ".pdf")
    ensures CanParse(PdfParser, "dir/.pdf")
    ensures CanParse(MarkdownParser, ".MD")
  {
    assert Lower(".pdf") == ".pdf";
    assert EndsWith(Lower(".pdf"), Suffixes(PdfParser)[0]);
    CanParseIgnoresPrefix(PdfParser, "dir/", ".pdf");
    assert "dir/" + ".pdf" == "dir/.pdf";
    assert Lower(".MD") == ".md";
    assert EndsWith(Lower(".MD"), Suffixes(MarkdownParser)[0]);
  }

  /** The last character a variant's suffixes can end with. */
  predicate LastCharFits(v: Parser, c: char) {
    match v
    case PdfParser => c == 'f'
    case WordParser => c == 'x' || c == 'c'
    case MarkdownParser => c == 'd'
  }

  lemma CanParseLastChar(v: Parser, p: string)
    requires CanParse(v, p)
    ensures |p| > 0 && LastCharFits(v, Lower(p)[|p| - 1])
  {
    var k :| 0 <= k < |Suffixes(v)| && EndsWith(Lower(p), Suffixes(v)[k]);
    EndsWithLast(Lower(p), Suffixes(v)[k]);
  }

  /** No path is accepted by two different parser variants. */
  lemma ParsersDisjoint(v: Parser, w: Parser, p: string)
    requires v != w
    ensures !(CanParse(v, p) && CanParse(w, p))
  {
    if CanParse(v, p) && CanParse(w, p) {
      CanParseLastChar(v, p);
      CanParseLastChar(w, p);
    }
  }
}
