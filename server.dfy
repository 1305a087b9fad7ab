/**
 * The language server's request handlers: completion (compiler suggestions, keywords and
 * the document's words, by precedence), completion resolve, and the run request.
 */
module Server {
  import opened Wrappers
  import opened Protocol
  import Lexical

  datatype TextDocumentPositionParams = TextDocumentPositionParams(uri: string, position: Position)

  /** The static keyword snippets, in the order the handler lists them. */
  function Keywords(): seq<CompletionItem> {
    [ CompletionItem("choice.", Some(KeywordKind), Some("Declare a tagged union."), None,
                     Some("tags.\n\tcase($1)"), Some(SnippetFormat), NoData),
      CompletionItem("$", Some(KeywordKind),
                     Some("This keyword is use for declaring object types or object expression."), None,
                     None, None, NoData),
      CompletionItem("module.import()", Some(KeywordKind), Some("This keyword is use for importing module"), None,
                     Some("module.import(\"$1\")"), Some(SnippetFormat), NoData) ]
  }

  /** The lexical suggestions: one Text item per distinct word of the document. */
  function MiscSuggestions(contents: string): (items: seq<CompletionItem>)
    ensures |items| == |Lexical.Words(contents)|
    ensures forall i :: 0 <= i < |items| ==> items[i] == PlainItem(Lexical.Words(contents)[i], TextKind)
  {
    var words := Lexical.Words(contents);
    seq(|words|, i requires 0 <= i < |words| => PlainItem(words[i], TextKind))
  }

  /** The kinds that make the compiler's answer precise enough on its own. */
  predicate IsPreciseKind(kind: Option<int>) {
    kind.Some? && kind.value in {FunctionKind, MethodKind, EnumKind, ConstructorKind, PropertyKind}
  }

  predicate HasPreciseItem(items: seq<CompletionItem>) {
    exists i :: 0 <= i < |items| && IsPreciseKind(items[i].kind)
  }

  /** The file and position the compiler is asked about: the cursor's column minus one. */
  function SuggestRequest(params: TextDocumentPositionParams, contents: string): (req: (File, Position))
    ensures req.0 == File(params.uri, contents)
    ensures req.1.line == params.position.line && req.1.character == params.position.character - 1
  {
    (File(params.uri, contents), params.position.(character := params.position.character - 1))
  }

  /** The precedence rule between the compiler's answer, the keywords and the words. */
  function SelectCompletions(answer: Result<seq<CompletionItem>, string>, misc: seq<CompletionItem>): (r: seq<CompletionItem>)
    ensures answer.Success? && HasPreciseItem(answer.value) ==> r == answer.value
    ensures answer.Success? && !HasPreciseItem(answer.value) ==> r == answer.value + Keywords() + misc
    ensures answer.Failure? ==> r == Keywords() + misc
  {
    match answer
    case Success(items) => if HasPreciseItem(items) then items else items + Keywords() + misc
    case Failure(_) => Keywords() + misc
  }

  /**
   * The completion handler. `documents` is the server's document manager (open URI to text);
   * `suggest` is the compiler service's answer for a file and a position.
   * An unknown URI makes `documents.get(uri).getText()` throw before the `try`.
   */
  function OnCompletion(params: TextDocumentPositionParams, documents: map<string, string>,
                        suggest: (File, Position) -> Result<seq<CompletionItem>, string>): (r: Result<seq<CompletionItem>, string>)
    ensures params.uri !in documents <==> r.Failure?
    ensures params.uri in documents ==>
              var contents := documents[params.uri];
              var answer := suggest(File(params.uri, contents), Position(params.position.line, params.position.character - 1));
              r.value == SelectCompletions(answer, MiscSuggestions(contents))
  {
    if params.uri !in documents then Failure("documents.get(uri) is undefined")
    else
      var contents := documents[params.uri];
      var req := SuggestRequest(params, contents);
      Success(SelectCompletions(suggest(req.0, req.1), MiscSuggestions(contents)))
  }

  /** The keyword list: exactly three labels, all of kind Keyword. */
  lemma KeywordsAreThreeKeywords()
    ensures |Keywords()| == 3
    ensures Keywords()[0].labelText == "choice." && Keywords()[1].labelText == "$"
            && Keywords()[2].labelText == "module.import()"
    ensures forall k :: k in Keywords() ==> k.kind == Some(KeywordKind)
  {
  }

  /** The fallback lists add no precise item: the result holds one only when the answer was taken alone. */
  lemma FallbackAddsNoPreciseItem(answer: Result<seq<CompletionItem>, string>, contents: string)
    ensures var r := SelectCompletions(answer, MiscSuggestions(contents));
            HasPreciseItem(r) <==> answer.Success? && HasPreciseItem(answer.value) && r == answer.value
  {
    var misc := MiscSuggestions(contents);
    var tail := Keywords() + misc;
    assert !HasPreciseItem(tail) by {
      forall i | 0 <= i < |tail| ensures !IsPreciseKind(tail[i].kind) {
        if i >= 3 {
          assert tail[i] == misc[i - 3];
        }
      }
    }
    if answer.Success? && !HasPreciseItem(answer.value) {
      var r := answer.value + tail;
      assert r == answer.value + Keywords() + misc;
      forall i | 0 <= i < |r| ensures !IsPreciseKind(r[i].kind) {
        if i >= |answer.value| {
          assert r[i] == tail[i - |answer.value|];
        }
      }
    }
  }

  /** Without a precise answer, the result has one item per compiler item, keyword and distinct word. */
  lemma FallbackLength(answer: Result<seq<CompletionItem>, string>, contents: string)
    requires answer.Failure? || !HasPreciseItem(answer.value)
    ensures |SelectCompletions(answer, MiscSuggestions(contents))|
            == (if answer.Success? then |answer.value| else 0) + 3 + |Lexical.Words(contents)|
  {
  }

  /** Without a precise answer, the lexical suggestions close the result, after `n` other items. */
  lemma FallbackEndsWithMisc(answer: Result<seq<CompletionItem>, string>, misc: seq<CompletionItem>)
    requires answer.Failure? || !HasPreciseItem(answer.value)
    ensures var r, n := SelectCompletions(answer, misc), (if answer.Success? then |answer.value| else 0) + 3;
            |r| == n + |misc| && forall j :: n <= j < |r| ==> r[j] == misc[j - n]
  {
  }

  /** Without a precise answer, every maximal word of the document is offered once, as Text, at `i` after the keywords. */
  lemma FallbackOffersEveryWordOnce(answer: Result<seq<CompletionItem>, string>, contents: string, a: int, b: int)
    returns (i: nat)
    requires answer.Failure? || !HasPreciseItem(answer.value)
    requires Lexical.IsMaximalRun(contents, a, b)
    ensures var r, n := SelectCompletions(answer, MiscSuggestions(contents)), (if answer.Success? then |answer.value| else 0) + 3;
            n <= i < |r| && r[i] == PlainItem(contents[a..b], TextKind)
            && forall j :: n <= j < |r| && j != i ==> r[j].labelText != contents[a..b]
  {
    var words := Lexical.Words(contents);
    Lexical.MaximalRunIsWord(contents, a, b);
    Lexical.WordsAreDistinct(contents);
    var misc := MiscSuggestions(contents);
    FallbackEndsWithMisc(answer, misc);
    var n := (if answer.Success? then |answer.value| else 0) + 3;
    var k :| 0 <= k < |words| && words[k] == contents[a..b];
    i := n + k;
  }

  /** `onCompletionResolve`: `data` 1 and 2 get fixed details and documentation; other items pass unchanged. */
  function OnCompletionResolve(item: CompletionItem): (r: CompletionItem)
    ensures r.labelText == item.labelText && r.kind == item.kind && r.data == item.data
    ensures r.insertText == item.insertText && r.insertTextFormat == item.insertTextFormat
    ensures item.data == Number(1) ==>
              r.detail == Some("TypeScript details") && r.documentation == Some("TypeScript documentation")
    ensures item.data == Number(2) ==>
              r.detail == Some("JavaScript details") && r.documentation == Some("JavaScript documentation")
    ensures item.data != Number(1) && item.data != Number(2) ==> r == item
  {
    if item.data == Number(1) then
      item.(detail := Some("TypeScript details"), documentation := Some("TypeScript documentation"))
    else if item.data == Number(2) then
      item.(detail := Some("JavaScript details"), documentation := Some("JavaScript documentation"))
    else item
  }

  /** Resolving an already resolved item changes nothing. */
  lemma ResolveIdempotent(item: CompletionItem)
    ensures OnCompletionResolve(OnCompletionResolve(item)) == OnCompletionResolve(item)
  {
  }

  /** The notifications the server sends back for a run request. */
  datatype RunNotification = RunThisFileCompleted(result: seq<Frame>) | RunThisFileFailed(error: string)

  datatype RunReply = RunReply(informationMessages: seq<string>, notification: RunNotification)

  /** The `keli/runThisFile` handler, given the compiler service's outcome for the file. */
  function OnRunThisFile(executed: Result<seq<Frame>, string>): (r: RunReply)
    ensures executed.Success? ==> r == RunReply([], RunThisFileCompleted(executed.value))
    ensures executed.Failure? ==> r == RunReply([executed.error], RunThisFileFailed(executed.error))
  {
    match executed
    case Success(frames) => RunReply([], RunThisFileCompleted(frames))
    case Failure(e) => RunReply([e], RunThisFileFailed(e))
  }
}
