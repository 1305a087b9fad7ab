# Keli language support for VS Code: a Dafny model of its translation rules

The Keli editor extension has two halves. A language server sits between the editor and the
Keli compiler executable. An editor client shows the output of running a file inline, and it
offers a quick fix for non-exhaustive matches. This project models the decision and
translation rules in between, and proves what they promise:

- **Completion** (`Server`, `Lexical`). The compiler is asked about the column before the
  cursor. Its answer is taken alone when it holds an item of a precise kind (Function,
  Method, Enum, Constructor, Property). Otherwise the result is the answer, then three fixed
  keyword snippets, then the document's distinct words. When the compiler fails, the result
  is the keywords and the words, and the failure is not propagated. The words are the
  matches of the global regex `[\w\d’'-]+`, de-duplicated through a `Set`.
- **Completion resolve** (`Server.OnCompletionResolve`). Items with `data` 1 or 2 get fixed
  detail and documentation strings. Every other item passes through unchanged.
- **Settings cache and validation** (`Session`). A class holds the configuration capability,
  the global settings and the per-URI settings map. A lookup memoises the client's answer.
  Closing a document evicts its entry. A configuration change clears the map, or replaces the
  global settings when the capability is absent, and then revalidates every open document.
  Validating a document pushes the diagnostics analysed for that document under its own URI.
  A failed analysis pushes nothing.
- **Diagnostic post-processing** (`KeliService`, `JsText`). Each decoded diagnostic gets its
  message trimmed, as ECMAScript's `trim` does, and gets the source tag `"keli"`. A failure is
  returned as a value, not thrown.
- **Execution overlay** (`Overlay`). Each `{output, lineNumber}` frame becomes one zero-width
  decoration at `(lineNumber - 1, 0)`. Its hover text and its trailing text are both the
  output. The active editor's decoration set is replaced as a whole.
- **Missing-case code actions** (`MissingCases`). Every diagnostic whose message starts with
  `"Missing cases"` yields one `keli.addMissingCases` command, in order, with arguments
  `[document, range, message]`.

Some calls go into code outside this model: the compiler service's suggestions, analysis and
execution, the client's configuration answer, and `JSON.parse` of a notification payload.
Each becomes a parameter, either a function or a `Result` value. The model does what the
code does, including these details:

- `analyze` returns the caught error as its result rather than rejecting
  (server/src/keliService.ts:13-14).
- `analyze` writes `__temp__.keli` and runs the compiler with the arguments
  `["--analyze", "__temp__.keli"]` (server/src/keliService.ts:8-9). The scratch file is
  named relative to the working directory.
- The word pattern `[\w\d’'-]+` accepts ASCII letters, digits, `_`, `’`, `'` and `-`
  (server/src/server.ts:180).
- `documents.get(uri)` is undefined for a document that is not open. Calling `.getText()` on
  it throws before the `try` (server/src/server.ts:178), so that completion request fails
  (`Server.OnCompletion`).
- `String.prototype.match` returns `null` when nothing matches. `new Set(null)` is empty, so
  such a text gives no lexical suggestions (`Lexical.Match`, `Lexical.SpreadSet`).
- VS Code's `Position` constructor throws on a negative line. A frame with line number 0 or
  less therefore makes `displayOutputs` throw (client/src/extension.ts:100-102). The
  completed-run handler catches the error, shows it, and leaves the decorations unchanged
  (`Overlay.Decorations`). A missing active editor is caught the same way.

## Model

| member | source | states |
|---|---|---|
| `JsText.IsWhiteSpace` | server/src/keliService.ts:12 | the characters `trim` removes: ECMAScript's WhiteSpace (tab, vertical tab, form feed, space, no-break space, the Zs space separators, byte order mark) and LineTerminator (line feed, carriage return, line and paragraph separators) |
| `JsText.TrimStart` | server/src/keliService.ts:12 | the result is the suffix of the input left after its leading white space, and does not start with white space |
| `JsText.TrimEnd` | server/src/keliService.ts:12 | the result is the prefix of the input left before its trailing white space, and does not end with white space |
| `JsText.Trim` | server/src/keliService.ts:12 | the trimmed message is no longer than the input and has no leading or trailing white space |
| `JsText.TrimIsInfix` | server/src/keliService.ts:12 | the trimmed message is the contiguous part `s[i..j]` of the input, and everything before `i` and from `j` on is white space |
| `JsText.TrimmedIsFixed` | server/src/keliService.ts:12 | a string without leading or trailing white space is left unchanged by trim |
| `JsText.TrimIdempotent` | server/src/keliService.ts:12 | trimming twice gives the same message as trimming once |
| `Lexical.IsWordChar` | server/src/server.ts:180 | the regex's character class `[\w\d’'-]` under the `i` flag: ASCII letters, digits, `_`, `’`, `'` and `-` |
| `Lexical.RunStartsAt` | server/src/server.ts:180 | `w` is the maximal run of word characters starting at `a`, ending where the greedy `+` stops |
| `Lexical.RunEnd` | server/src/server.ts:180 | a match starting at `i` extends over word characters up to a non-word character or the end of the text (greedy `+`) |
| `Lexical.MatchesFrom` | server/src/server.ts:180 | the global scan from `i`: skip non-word characters, take the greedy run, continue after it; its properties are stated by `MatchesEmptyIff`, `MatchesAreMaximalRuns`, `MaximalRunsAreMatches` and `MatchesInTextOrder` |
| `Lexical.Match` | server/src/server.ts:180 | `match` gives `null` exactly when the text has no character of the class `[A-Za-z0-9_’'-]`, and otherwise a non-empty list; with `MatchesInTextOrder` that list is the maximal runs in text order |
| `Lexical.Distinct` | server/src/server.ts:180 | spreading the `Set` gives each match exactly once (pairwise distinct), and nothing that was not matched |
| `Lexical.SpreadSet` | server/src/server.ts:180 | `[...new Set(m)]`, with `new Set(null)` empty; its properties are stated by the `Words…` lemmas |
| `Lexical.Words` | server/src/server.ts:179-181 | the labels of the lexical suggestions: the de-duplicated matches of the document text, stated by `WordsAreDistinct`, `WordsAreMaximalRuns`, `MaximalRunIsWord`, `WordsEmptyIff` and `WordsInTextOrder` |
| `Lexical.IndexOf` | server/src/server.ts:180 | the position returned is the first occurrence of the value |
| `Lexical.MatchesEmptyIff` | server/src/server.ts:180 | the scan from `i` finds nothing if and only if no character from `i` on is a word character |
| `Lexical.MatchesAreMaximalRuns` | server/src/server.ts:180 | every match of the global scan is a non-empty maximal run of word characters of the text |
| `Lexical.MaximalRunsAreMatches` | server/src/server.ts:180 | every maximal run of word characters of the text is a match of the global scan |
| `Lexical.MatchesInTextOrder` | server/src/server.ts:180 | the scan lists the maximal runs from `i` on left to right: match `k` is the run at `starts[k]`, the starts strictly increase, and every maximal run from `i` on starts at one of them |
| `Lexical.IndexOfPastHead` | server/src/server.ts:180 | a value found past a differing first element has its first occurrence one further than in the tail |
| `Lexical.DistinctKeepsFirstOccurrenceOrder` | server/src/server.ts:180 | the de-duplicated values are ordered by their first occurrence in the match list (Set insertion order) |
| `Lexical.WordsAreDistinct` | server/src/server.ts:179-181 | the lexical suggestion labels are pairwise distinct |
| `Lexical.WordsAreMaximalRuns` | server/src/server.ts:179-181 | every lexical suggestion label is a maximal run of word characters of the document |
| `Lexical.MaximalRunIsWord` | server/src/server.ts:179-181 | every maximal run of word characters of the document is a lexical suggestion label |
| `Lexical.WordsEmptyIff` | server/src/server.ts:179-181 | there are no lexical suggestions exactly when the document has no word character |
| `Lexical.WordsInFirstMatchOrder` | server/src/server.ts:179-181 | lexical suggestions appear in the order of their first match |
| `Lexical.WordsInTextOrder` | server/src/server.ts:179-181 | the labels follow the text: label `p` is the maximal run at `starts[p]`, the starts strictly increase, and no maximal run with the same text starts before `starts[p]` (order of first occurrence in the document) |
| `Server.Keywords` | server/src/server.ts:155-175 | the three keyword snippets with their details, insert texts and snippet format; stated by `KeywordsAreThreeKeywords` |
| `Server.IsPreciseKind` | server/src/server.ts:186-191 | the kinds Function, Method, Enum, Constructor and Property |
| `Server.HasPreciseItem` | server/src/server.ts:186-191 | `otherItems.some(...)`: some item has a precise kind |
| `Server.MiscSuggestions` | server/src/server.ts:179-181 | one suggestion per distinct word, in order, each labelled with the word and of kind Text |
| `Server.SuggestRequest` | server/src/server.ts:177-184 | the compiler is asked about the same file contents and URI, on the same line, at the cursor's character minus one |
| `Server.SelectCompletions` | server/src/server.ts:186-197 | a precise answer is returned alone; an imprecise one is followed by the keywords and the words; a failure gives keywords then words |
| `Server.OnCompletion` | server/src/server.ts:150-200 | an open document gets the precedence rule applied to the compiler's answer at the shifted position; an unknown URI fails the request |
| `Server.KeywordsAreThreeKeywords` | server/src/server.ts:155-175 | the keyword list is exactly `choice.`, `$`, `module.import()`, all of kind Keyword |
| `Server.FallbackAddsNoPreciseItem` | server/src/server.ts:186-197 | the result holds a precise item if and only if the compiler's answer held one and was returned unmodified |
| `Server.FallbackLength` | server/src/server.ts:194-197 | without a precise answer, the length is compiler items plus three plus the number of distinct words |
| `Server.FallbackEndsWithMisc` | server/src/server.ts:194-197 | without a precise answer, the lexical suggestions are the last items of the result, after the compiler items and the three keywords |
| `Server.FallbackOffersEveryWordOnce` | server/src/server.ts:179-197 | without a precise answer, every maximal word of the document appears exactly once after the keywords, as a Text item |
| `Server.OnCompletionResolve` | server/src/server.ts:204-215 | `data` 1 sets the TypeScript strings, `data` 2 the JavaScript strings; label, kind, data and insert text are kept; any other item is unchanged |
| `Server.ResolveIdempotent` | server/src/server.ts:204-215 | resolving a resolved item again changes nothing |
| `Server.OnRunThisFile` | server/src/server.ts:237-245 | a successful run sends the completed notification with the result and no message; a failure shows the error and sends the failed notification with it |
| `Session.PendingPush` | server/src/server.ts:134-142 | validation pushes the analysis of the document's own URI and text under that URI, and pushes nothing when the analysis fails |
| `Session.PendingPushes` | server/src/server.ts:100 | revalidating the open documents pushes no more than there are documents; every push comes from one of them, and every successful analysis is pushed |
| `Session.PushesFollowDocuments` | server/src/server.ts:100 | push `p` is the push of document `idx[p]`, the positions strictly increase (one push per document at most, in the order the validations start), and every document whose analysis succeeds has its push |
| `Session.UrisAreDocumentUris` | server/src/server.ts:100 | the URI set of the open documents holds each document's URI and nothing else |
| `Session.CollectPending` | server/src/server.ts:100 | the pushes collected from the started validations are the pending pushes of the documents |
| `Session.SettingsCache.constructor` | server/src/server.ts:31-87 | the server starts without the capability, with the default settings (1000 problems) and an empty cache |
| `Session.SettingsCache.OnInitialize` | server/src/server.ts:41 | the configuration capability is recorded |
| `Session.SettingsCache.GetDocumentSettings` | server/src/server.ts:103-116 | without the capability the global settings are returned and the cache is untouched; a cached URI is answered from the cache without a fetch; otherwise the client is asked and its answer memoised |
| `Session.SettingsCache.OnDidClose` | server/src/server.ts:119-121 | closing removes that URI's entry and only it |
| `Session.SettingsCache.ValidateTextDocument` | server/src/server.ts:134-142 | the document's settings are looked up (and memoised) and the eventual push is that document's analysis |
| `Session.SettingsCache.OnDidChangeConfiguration` | server/src/server.ts:89-101 | with the capability the cache is cleared and refilled with the client's answer for exactly the open documents' URIs; without it the global settings become the supplied section or the defaults and the cache is unchanged; the open documents are revalidated |
| `Session.SettingsCache.ValidateAll` | server/src/server.ts:100 | validating each open document in turn fills the cleared cache with their URIs and yields their pending pushes |
| `Session.LookupTwice` | server/src/server.ts:107-115 | a second lookup of a URI returns the first lookup's value without a new fetch |
| `KeliService.AnalyzeInvocation` | server/src/keliService.ts:4-9 | the contents are written to `__temp__.keli` and the compiler is run with exactly `["--analyze", "__temp__.keli"]`, the file just written |
| `KeliService.Stamp` | server/src/keliService.ts:12 | the spread keeps range, severity and code, and the result has a trimmed message and the non-empty source tag (`WellFormed`) |
| `KeliService.Analyze` | server/src/keliService.ts:10-15 | a decode failure is returned as an error value; a non-string message is returned as an error; otherwise one diagnostic per decoded record in order, message trimmed, source `"keli"`, range, severity and code copied |
| `KeliService.AnalyzedAreWellFormed` | server/src/keliService.ts:12 | every returned diagnostic has a non-empty source tag and a message with no leading or trailing white space |
| `KeliService.AnalyzeIdempotent` | server/src/keliService.ts:12 | post-processing the returned diagnostics again gives the same diagnostics |
| `Overlay.Decorations` | client/src/extension.ts:99-116 | one decoration per frame, in order, zero width at `(lineNumber - 1, 0)`, hover and trailing text equal to the output, italic and dark gray; the first frame with a line below 1 throws instead |
| `Overlay.DecorationFor` | client/src/extension.ts:99-116 | the decoration of one frame is zero width at `(lineNumber - 1, 0)`, a valid line, with hover and trailing text equal to the output, italic and dark gray |
| `Overlay.Window.DisplayOutputs` | client/src/extension.ts:97-118 | the active editor's decoration set is replaced by the frames' decorations; when that throws, nothing changes |
| `Overlay.Window.OnRunThisFileCompleted` | client/src/extension.ts:66-72 | a parsed payload is displayed; a parse failure or a display failure is shown as an error and leaves the decorations unchanged |
| `Overlay.Window.OnRunThisFileFailed` | client/src/extension.ts:74-76 | a failed run only shows its message |
| `Overlay.DisplayTwice` | client/src/extension.ts:117 | displaying the same frames twice leaves the same decorations as displaying them once |
| `MissingCases.IsMissingCases` | client/src/AddMissingCaseProvider.ts:6 | `d.message.startsWith("Missing cases")`, as a prefix test |
| `MissingCases.ActionFor` | client/src/AddMissingCaseProvider.ts:7-11 | the command for one diagnostic: fixed title and command name, arguments `[document, range, message]`; stated for all actions by `ActionsFollowDiagnostics` |
| `MissingCases.Kept` | client/src/AddMissingCaseProvider.ts:5-6 | the kept positions are increasing, each holds a diagnostic whose message starts with `Missing cases`, and every such diagnostic is kept |
| `MissingCases.ProvideCodeActions` | client/src/AddMissingCaseProvider.ts:5-11 | every action is titled `Add missing cases` and runs `keli.addMissingCases` |
| `MissingCases.IncreasingIndicesFit` | client/src/AddMissingCaseProvider.ts:6 | increasing positions below `n` number at most `n`, so there are no more actions than diagnostics |
| `MissingCases.ActionsFollowDiagnostics` | client/src/AddMissingCaseProvider.ts:5-11 | actions correspond one to one and in order to the diagnostics starting with the marker, each with arguments `[document, range, message]`; other diagnostics yield none |

## Left out

- Connection setup, capability negotiation, `documents.listen`/`connection.listen`, and the watched-file and workspace-folder logging (server.ts:25-73, 144-147, 249-252). These are protocol plumbing. The capability is an input of `OnInitialize`, not computed from the client's capability object.
- The file write, the process spawn and the double `JSON.parse` of the compiler output (keliService.ts:6-11). These are I/O and a foreign decoder. `AnalyzeInvocation` describes the I/O as a value, and `Analyze` takes the decoder's verdict as its input.
- `KeliService.getCompletionItems`, `KeliService.execute` and the asynchronous, File-taking `analyze` that server.ts calls (server.ts:138, 184, 239). server/src/keliService.ts defines only the string-taking `analyze`, so each of the three is a `Result`-returning parameter. The client sends the document text to `keli/runThisFile`, while the server's handler types it as a `File`. The model does not reconcile the two, because `execute` is opaque.
- Asynchrony, ordering and races. Validations and runs are fire-and-forget, and they share one scratch file. `PendingPush` is the push a validation eventually makes; the order in which pushes arrive is not modelled.
- The run result as a JSON string. The server sends `JSON.stringify(result)` (server.ts:240) and the client parses it back; `Server.OnRunThisFile` carries the frames themselves in `RunThisFileCompleted`, and the client's `JSON.parse` is the `Result` input of `OnRunThisFileCompleted`.
- UTF-16 code units. Strings are sequences of code points, while JavaScript's `trim`, `match` and `startsWith` work on UTF-16 code units. The results agree on well-formed text; a lone surrogate cannot be represented.
- `Session.SettingsCache.GetDocumentSettings`: the cache holds settings values, not the promises (`Thenable`) the source stores. A rejected `getConfiguration` promise therefore cannot be represented. In the source it stays memoised (server.ts:107-115), and the `await` in `validateTextDocument` (server.ts:136) throws. That validation runs no analysis and pushes nothing, and every later validation of the URI fails the same way until the document is closed or the configuration changes. In the model `configuration` always answers, and `ValidateTextDocument` always yields `PendingPush`.
- VS Code API objects: the decoration type, the `LanguageClient` start and stop, and command registration (extension.ts:18-63, 80-95). `setDecorations` is modelled as assigning the active editor's entry in `Window.decorations`. An error's `toString()` text is modelled by the error value itself.
- `MissingCases.ProvideCodeActions`: the document argument is represented by its URI, not by the editor's document object.
- Fields of completion items and diagnostics that no handler here reads or writes (related information, tags, commit characters and so on). The object spread copies them unchanged; the model does not carry them.
- What the `keli.addMissingCases` command inserts. The provider only names the command (AddMissingCaseProvider.ts:9), and client/src/extension.ts registers no handler for it (only `keli.runThisFile`, extension.ts:60-63).
