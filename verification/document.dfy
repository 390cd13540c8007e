/** The intermediate document representation shared by parsers and generators. */
module Document {
  import opened Wrappers

  /** The values stored under `Dict[str, Any]` keys, narrowed to plain data. */
  datatype Value =
    | NoneValue
    | BoolValue(b: bool)
    | IntValue(i: int)
    | StrValue(s: string)
    | ListValue(items: seq<Value>)

  type Attributes = map<string, Value>

  /** One content unit: its text, a type tag, and optional attributes. */
  datatype DocumentElement = DocumentElement(
    content: string,
    elementType: string,
    attributes: Option<Attributes> := None)

  /** A title, the elements in reading order, and optional metadata. */
  datatype DocumentStructure = DocumentStructure(
    title: string,
    elements: seq<DocumentElement>,
    metadata: Option<Attributes> := None)

  /** `DocumentElement(content, element_type)`: attributes default to absent. */
  function NewElement(content: string, elementType: string): (e: DocumentElement)
    ensures e.content == content && e.elementType == elementType
    ensures e.attributes == None
  {
    DocumentElement(content, elementType)
  }

  /** `DocumentStructure(title, elements)`: the elements keep their order and
      metadata defaults to absent. */
  function NewDocument(title: string, elements: seq<DocumentElement>): (d: DocumentStructure)
    ensures d.title == title
    ensures |d.elements| == |elements|
    ensures forall i :: 0 <= i < |elements| ==> d.elements[i] == elements[i]
    ensures d.metadata == None
  {
    DocumentStructure(title, elements)
  }
}
