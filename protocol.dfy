/** The protocol records shared by the language server and the editor client. */
module Protocol {
  import opened Wrappers

  /** A zero-based position; components are JavaScript numbers and may be negative. */
  datatype Position = Position(line: int, character: int)

  datatype Range = Range(start: Position, end: Position)

  /** A document as the server's document manager hands it out. */
  datatype TextDocument = TextDocument(uri: string, text: string)

  /** The `File` record passed to the compiler service. */
  datatype File = File(uri: string, contents: string)

  /** An editor diagnostic; fields the model does not need are left out. */
  datatype Diagnostic = Diagnostic(
    range: Range,
    severity: Option<int>,
    code: Option<string>,
    source: Option<string>,
    message: string)

  /** The value of a completion item's free-form `data` field. */
  datatype Data = NoData | Number(n: int) | OtherData(json: string)

  datatype CompletionItem = CompletionItem(
    labelText: string,  // the protocol's `label` (a reserved word in Dafny)
    kind: Option<int>,
    detail: Option<string>,
    documentation: Option<string>,
    insertText: Option<string>,
    insertTextFormat: Option<int>,
    data: Data)

  // CompletionItemKind numbers of the Language Server Protocol
  const TextKind := 1
  const MethodKind := 2
  const FunctionKind := 3
  const ConstructorKind := 4
  const PropertyKind := 10
  const EnumKind := 13
  const KeywordKind := 14

  // InsertTextFormat.Snippet
  const SnippetFormat := 2

  /** A completion item with a label and a kind and no other field set. */
  function PlainItem(labelText: string, kind: int): CompletionItem {
    CompletionItem(labelText, Some(kind), None, None, None, None, NoData)
  }

  /** An execution result for one source line, as the run command reports it (1-based line). */
  datatype Frame = Frame(output: string, lineNumber: int)
}
