/** The generator variants: each recognises its output format by a
    case-insensitive suffix test, and none of them can generate yet. */
module Generator {
  import opened Wrappers
  import opened Text
  import opened Errors
  import opened Document
  import Parser

  datatype Generator = MarkdownGenerator | WordGenerator

  /** The suffixes passed to `endswith`, in the order the source lists them. */
  function Suffixes(g: Generator): seq<string> {
    match g
    case MarkdownGenerator => [".md"]
    case WordGenerator => [".docx", ".doc"]
  }

  /** `can_generate`: the lower-cased path ends with one of the suffixes. */
  predicate CanGenerate(g: Generator, path: string) {
    EndsWithAny(Lower(path), Suffixes(g))
  }

  /** `generate(document, output_path)`: every variant raises
      `NotImplementedError`, whatever the document and the path. */
  function Generate(g: Generator, document: DocumentStructure, path: string): (r: Result<bool, RaisedException>)
    ensures r.Failure? && r.error.cls == NotImplementedError
    ensures g == MarkdownGenerator ==> r.error.message == "Markdown 生成功能尚未实现"
    ensures g == WordGenerator ==> r.error.message == "Word 生成功能尚未实现"
  {
    var what := match g
      case MarkdownGenerator => "Markdown"
      case WordGenerator => "Word";
    Failure(Raise(NotImplementedError, what + " 生成功能尚未实现"))
  }

  /** The parser variant that reads the format a generator writes. */
  function Reader(g: Generator): Parser.Parser {
    match g
    case MarkdownGenerator => Parser.MarkdownParser
    case WordGenerator => Parser.WordParser
  }

  /** Each generator accepts exactly the paths its matching parser accepts. */
  lemma GeneratorMatchesParser(g: Generator, p: string)
    ensures CanGenerate(g, p) == Parser.CanParse(Reader(g), p)
  {
    assert Suffixes(g) == Parser.Suffixes(Reader(g));
  }

  lemma CanGenerateSuffixes(p: string)
    ensures CanGenerate(MarkdownGenerator, p) <==> EndsWith(Lower(p), ".md")
    ensures CanGenerate(WordGenerator, p) <==> EndsWith(Lower(p), ".docx") || EndsWith(Lower(p), ".doc")
  {
    GeneratorMatchesParser(MarkdownGenerator, p);
    GeneratorMatchesParser(WordGenerator, p);
    Parser.CanParseSuffixes(p);
  }

  lemma CanGenerateCaseInsensitive(g: Generator, p: string)
    ensures CanGenerate(g, Lower(p)) == CanGenerate(g, p)
  {
    GeneratorMatchesParser(g, p);
    GeneratorMatchesParser(g, Lower(p));
    Parser.CanParseCaseInsensitive(Reader(g), p);
  }

  /** No path is accepted by both generators. */
  lemma GeneratorsDisjoint(p: string)
    ensures !(CanGenerate(MarkdownGenerator, p) && CanGenerate(WordGenerator, p))
  {
    GeneratorMatchesParser(MarkdownGenerator, p);
    GeneratorMatchesParser(WordGenerator, p);
    Parser.ParsersDisjoint(Parser.MarkdownParser, Parser.WordParser, p);
  }
}
