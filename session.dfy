/**
 * The server's per-document settings cache and the validation it feeds.
 * The client's configuration answer for a scope URI, and the compiler service's analysis of a
 * file, are parameters: both are calls into code outside the model.
 */
module Session {
  import opened Wrappers
  import opened Protocol

  datatype ExampleSettings = ExampleSettings(maxNumberOfProblems: int)

  /** The settings used when the client cannot be asked. */
  const DefaultSettings := ExampleSettings(1000)

  /** A diagnostics push: the diagnostics the editor shows for `uri` from now on. */
  datatype PublishDiagnostics = PublishDiagnostics(uri: string, diagnostics: seq<Diagnostic>)

  /**
   * The push that validating `doc` eventually sends: the analysis of that very document under its
   * own URI; a failed analysis sends nothing (it is never turned into an empty list).
   */
  function PendingPush(doc: TextDocument, analyze: File -> Result<seq<Diagnostic>, string>): (p: Option<PublishDiagnostics>)
    ensures analyze(File(doc.uri, doc.text)).Failure? <==> p.None?
    ensures p.Some? ==> p.value.uri == doc.uri && p.value.diagnostics == analyze(File(doc.uri, doc.text)).value
  {
    match analyze(File(doc.uri, doc.text))
    case Success(diagnostics) => Some(PublishDiagnostics(doc.uri, diagnostics))
    case Failure(_) => None
  }

  /** The eventual pushes of validating each of `docs`, in the order the validations were started. */
  function PendingPushes(docs: seq<TextDocument>, analyze: File -> Result<seq<Diagnostic>, string>): (ps: seq<PublishDiagnostics>)
    ensures |ps| <= |docs|
    ensures forall p :: p in ps ==> exists d :: d in docs && PendingPush(d, analyze) == Some(p)
    ensures forall d :: d in docs && analyze(File(d.uri, d.text)).Success? ==> PendingPush(d, analyze).value in ps
  {
    if docs == [] then []
    else
      var rest := PendingPushes(docs[1..], analyze);
      match PendingPush(docs[0], analyze)
      case Some(p) => [p] + rest
      case None => rest
  }

  /**
   * `ps` follows `docs` through `idx`: push `p` is the push of document `idx[p]`, the positions
   * strictly increase, and every document whose analysis succeeds is among them.
   */
  ghost predicate Follows(docs: seq<TextDocument>, analyze: File -> Result<seq<Diagnostic>, string>,
                          ps: seq<PublishDiagnostics>, idx: seq<nat>) {
    |idx| == |ps|
    && (forall p, q :: 0 <= p < q < |idx| ==> idx[p] < idx[q])
    && (forall p :: 0 <= p < |idx| ==> idx[p] < |docs| && PendingPush(docs[idx[p]], analyze) == Some(ps[p]))
    && (forall k :: 0 <= k < |docs| && analyze(File(docs[k].uri, docs[k].text)).Success? ==> k in idx)
  }

  /**
   * The pushes follow the documents one to one, in order: push `p` is the push of document
   * `idx[p]`, the positions strictly increase (so at most one push per document), and every
   * document whose analysis succeeds has its push.
   */
  lemma {:induction false} PushesFollowDocuments(docs: seq<TextDocument>, analyze: File -> Result<seq<Diagnostic>, string>)
    returns (idx: seq<nat>)
    ensures Follows(docs, analyze, PendingPushes(docs, analyze), idx)
    decreases |docs|
  {
    if docs == [] {
      idx := [];
    } else {
      var rest := PushesFollowDocuments(docs[1..], analyze);
      var tail := PendingPushes(docs[1..], analyze);
      var shifted := Shift(rest);
      ShiftFollows(docs, analyze, tail, rest, shifted);
      match PendingPush(docs[0], analyze)
      case None =>
        assert PendingPushes(docs, analyze) == tail;
        idx := shifted;
      case Some(push) =>
        assert PendingPushes(docs, analyze) == [push] + tail;
        idx := [0] + shifted;
        ConsFollows(docs, analyze, push, tail, shifted);
    }
  }

  /** Each position one further. */
  function Shift(xs: seq<nat>): (r: seq<nat>)
    ensures |r| == |xs| && forall p :: 0 <= p < |r| ==> r[p] == xs[p] + 1
  {
    seq(|xs|, p requires 0 <= p < |xs| => xs[p] + 1)
  }

  /** Positions of the pushes `tail` of `docs[1..]`, shifted by one, are positions in `docs`. */
  lemma ShiftFollows(docs: seq<TextDocument>, analyze: File -> Result<seq<Diagnostic>, string>,
                     tail: seq<PublishDiagnostics>, rest: seq<nat>, shifted: seq<nat>)
    requires docs != []
    requires |rest| == |tail|
    requires forall p, q :: 0 <= p < q < |rest| ==> rest[p] < rest[q]
    requires forall p :: 0 <= p < |rest| ==> rest[p] < |docs[1..]| && PendingPush(docs[1..][rest[p]], analyze) == Some(tail[p])
    requires forall k :: 0 <= k < |docs[1..]| && analyze(File(docs[1..][k].uri, docs[1..][k].text)).Success? ==> k in rest
    requires |shifted| == |rest| && forall p :: 0 <= p < |shifted| ==> shifted[p] == rest[p] + 1
    ensures forall p, q :: 0 <= p < q < |shifted| ==> shifted[p] < shifted[q]
    ensures forall p :: 0 <= p < |shifted| ==> 0 < shifted[p] < |docs| && PendingPush(docs[shifted[p]], analyze) == Some(tail[p])
    ensures forall k :: 0 < k < |docs| && analyze(File(docs[k].uri, docs[k].text)).Success? ==> k in shifted
  {
    var later := docs[1..];
    assert forall k :: 0 <= k < |later| ==> later[k] == docs[k + 1];
    ShiftedPositions(docs, later, analyze, tail, rest, shifted);
    ShiftedComplete(docs, later, analyze, rest, shifted);
  }

  lemma ShiftedPositions(docs: seq<TextDocument>, later: seq<TextDocument>, analyze: File -> Result<seq<Diagnostic>, string>,
                         tail: seq<PublishDiagnostics>, rest: seq<nat>, shifted: seq<nat>)
    requires |later| + 1 == |docs| && forall k :: 0 <= k < |later| ==> later[k] == docs[k + 1]
    requires |rest| == |tail|
    requires forall p :: 0 <= p < |rest| ==> rest[p] < |later| && PendingPush(later[rest[p]], analyze) == Some(tail[p])
    requires |shifted| == |rest| && forall p :: 0 <= p < |shifted| ==> shifted[p] == rest[p] + 1
    ensures forall p :: 0 <= p < |shifted| ==> 0 < shifted[p] < |docs| && PendingPush(docs[shifted[p]], analyze) == Some(tail[p])
  {
    forall p | 0 <= p < |shifted| ensures 0 < shifted[p] < |docs| && PendingPush(docs[shifted[p]], analyze) == Some(tail[p]) {
      assert docs[shifted[p]] == later[rest[p]];
    }
  }

  lemma ShiftedComplete(docs: seq<TextDocument>, later: seq<TextDocument>, analyze: File -> Result<seq<Diagnostic>, string>,
                        rest: seq<nat>, shifted: seq<nat>)
    requires |later| + 1 == |docs| && forall k :: 0 <= k < |later| ==> later[k] == docs[k + 1]
    requires forall k :: 0 <= k < |later| && analyze(File(later[k].uri, later[k].text)).Success? ==> k in rest
    requires |shifted| == |rest| && forall p :: 0 <= p < |shifted| ==> shifted[p] == rest[p] + 1
    ensures forall k :: 0 < k < |docs| && analyze(File(docs[k].uri, docs[k].text)).Success? ==> k in shifted
  {
    forall k | 0 < k < |docs| && analyze(File(docs[k].uri, docs[k].text)).Success? ensures k in shifted {
      assert later[k - 1] == docs[k];
      var p :| 0 <= p < |rest| && rest[p] == k - 1;
      assert shifted[p] == k;
    }
  }

  /** The first document's push in front of the shifted positions keeps the correspondence. */
  lemma ConsFollows(docs: seq<TextDocument>, analyze: File -> Result<seq<Diagnostic>, string>,
                    push: PublishDiagnostics, tail: seq<PublishDiagnostics>, shifted: seq<nat>)
    requires docs != [] && PendingPush(docs[0], analyze) == Some(push)
    requires |shifted| == |tail|
    requires forall p, q :: 0 <= p < q < |shifted| ==> shifted[p] < shifted[q]
    requires forall p :: 0 <= p < |shifted| ==> 0 < shifted[p] < |docs| && PendingPush(docs[shifted[p]], analyze) == Some(tail[p])
    requires forall k :: 0 < k < |docs| && analyze(File(docs[k].uri, docs[k].text)).Success? ==> k in shifted
    ensures var ps, idx := [push] + tail, [0] + shifted;
            |idx| == |ps|
            && (forall p, q :: 0 <= p < q < |idx| ==> idx[p] < idx[q])
            && (forall p :: 0 <= p < |idx| ==> idx[p] < |docs| && PendingPush(docs[idx[p]], analyze) == Some(ps[p]))
            && (forall k :: 0 <= k < |docs| && analyze(File(docs[k].uri, docs[k].text)).Success? ==> k in idx)
  {
    var ps, idx := [push] + tail, [0] + shifted;
    forall p, q | 0 <= p < q < |idx| ensures idx[p] < idx[q] {
      assert idx[q] == shifted[q - 1];
      if p > 0 {
        assert idx[p] == shifted[p - 1];
      }
    }
    forall p | 0 <= p < |idx| ensures idx[p] < |docs| && PendingPush(docs[idx[p]], analyze) == Some(ps[p]) {
      if p > 0 {
        assert idx[p] == shifted[p - 1] && ps[p] == tail[p - 1];
      }
    }
  }

  /** The URIs of `docs`, as a set. */
  function Uris(docs: seq<TextDocument>): set<string> {
    if docs == [] then {} else Uris(docs[..|docs| - 1]) + {docs[|docs| - 1].uri}
  }

  /** `Uris` holds the URI of each document and nothing else. */
  lemma {:induction false} UrisAreDocumentUris(docs: seq<TextDocument>)
    ensures forall d :: d in docs ==> d.uri in Uris(docs)
    ensures forall u :: u in Uris(docs) ==> exists d :: d in docs && d.uri == u
  {
    if docs != [] {
      var front := docs[..|docs| - 1];
      UrisAreDocumentUris(front);
      assert docs == front + [docs[|docs| - 1]];
    }
  }

  class SettingsCache {
    var hasConfigurationCapability: bool
    var globalSettings: ExampleSettings
    var documentSettings: map<string, ExampleSettings>

    constructor ()
      ensures !hasConfigurationCapability && globalSettings == DefaultSettings && documentSettings == map[]
    {
      hasConfigurationCapability := false;
      globalSettings := DefaultSettings;
      documentSettings := map[];
    }

    /** `onInitialize`: records whether the client answers `workspace/configuration`. */
    method OnInitialize(configurationCapability: bool)
      modifies this`hasConfigurationCapability
      ensures hasConfigurationCapability == configurationCapability
    {
      hasConfigurationCapability := configurationCapability;
    }

    /**
     * `getDocumentSettings`. `configuration` is the client's answer for each scope URI;
     * `fetched` tells whether the client was asked.
     */
    method GetDocumentSettings(resource: string, configuration: string -> ExampleSettings)
      returns (settings: ExampleSettings, fetched: bool)
      modifies this`documentSettings
      ensures !hasConfigurationCapability ==>
                settings == globalSettings && !fetched && documentSettings == old(documentSettings)
      ensures hasConfigurationCapability && resource in old(documentSettings) ==>
                settings == old(documentSettings)[resource] && !fetched && documentSettings == old(documentSettings)
      ensures hasConfigurationCapability && resource !in old(documentSettings) ==>
                settings == configuration(resource) && fetched
                && documentSettings == old(documentSettings)[resource := settings]
    {
      if !hasConfigurationCapability {
        return globalSettings, false;
      }
      if resource in documentSettings {
        settings, fetched := documentSettings[resource], false;
      } else {
        settings, fetched := configuration(resource), true;
        documentSettings := documentSettings[resource := settings];
      }
    }

    /** The document manager's close event: forget that document's settings and nothing else. */
    method OnDidClose(uri: string)
      modifies this`documentSettings
      ensures documentSettings == old(documentSettings) - {uri}
    {
      documentSettings := documentSettings - {uri};
    }

    /**
     * `validateTextDocument`: its synchronous part looks the settings up (and may memoise them);
     * `push` is what it eventually sends.
     */
    method ValidateTextDocument(doc: TextDocument, configuration: string -> ExampleSettings,
                                analyze: File -> Result<seq<Diagnostic>, string>)
      returns (push: Option<PublishDiagnostics>)
      modifies this`documentSettings
      ensures push == PendingPush(doc, analyze)
      ensures documentSettings == if hasConfigurationCapability && doc.uri !in old(documentSettings)
                                  then old(documentSettings)[doc.uri := configuration(doc.uri)]
                                  else old(documentSettings)
    {
      var settings, fetched := GetDocumentSettings(doc.uri, configuration);
      push := PendingPush(doc, analyze);
    }

    /**
     * `onDidChangeConfiguration`: reset the cache (or replace the global settings), then validate
     * every open document. `languageServerExample` is the section of the change, if any.
     */
    method OnDidChangeConfiguration(languageServerExample: Option<ExampleSettings>, openDocuments: seq<TextDocument>,
                                    configuration: string -> ExampleSettings,
                                    analyze: File -> Result<seq<Diagnostic>, string>)
      returns (pushes: seq<PublishDiagnostics>)
      modifies this`documentSettings, this`globalSettings
      ensures hasConfigurationCapability ==>
                globalSettings == old(globalSettings) && documentSettings.Keys == Uris(openDocuments)
                && forall u :: u in documentSettings ==> documentSettings[u] == configuration(u)
      ensures !hasConfigurationCapability ==>
                globalSettings == languageServerExample.GetOr(DefaultSettings)
                && documentSettings == old(documentSettings)
      ensures pushes == PendingPushes(openDocuments, analyze)
    {
      if hasConfigurationCapability {
        documentSettings := map[];
      } else {
        globalSettings := languageServerExample.GetOr(DefaultSettings);
      }
      pushes := ValidateAll(openDocuments, configuration, analyze);
    }

    /** `documents.all().forEach(validateTextDocument)`, from an empty cache when the capability is present. */
    method ValidateAll(openDocuments: seq<TextDocument>, configuration: string -> ExampleSettings,
                       analyze: File -> Result<seq<Diagnostic>, string>)
      returns (pushes: seq<PublishDiagnostics>)
      requires hasConfigurationCapability ==> documentSettings == map[]
      modifies this`documentSettings
      ensures hasConfigurationCapability ==>
                documentSettings.Keys == Uris(openDocuments)
                && forall u :: u in documentSettings ==> documentSettings[u] == configuration(u)
      ensures !hasConfigurationCapability ==> documentSettings == old(documentSettings)
      ensures pushes == PendingPushes(openDocuments, analyze)
    {
      var i := 0;
      var started: seq<Option<PublishDiagnostics>> := [];
      while i < |openDocuments|
        invariant 0 <= i <= |openDocuments|
        invariant |started| == i
        invariant forall k :: 0 <= k < i ==> started[k] == PendingPush(openDocuments[k], analyze)
        invariant hasConfigurationCapability ==>
                    documentSettings.Keys == Uris(openDocuments[..i])
                    && forall u :: u in documentSettings ==> documentSettings[u] == configuration(u)
        invariant !hasConfigurationCapability ==> documentSettings == old(documentSettings)
      {
        assert openDocuments[..i + 1][..i] == openDocuments[..i];
        assert Uris(openDocuments[..i + 1]) == Uris(openDocuments[..i]) + {openDocuments[i].uri};
        var push := ValidateTextDocument(openDocuments[i], configuration, analyze);
        started := started + [push];
        i := i + 1;
      }
      assert openDocuments[..i] == openDocuments;
      pushes := Collect(started);
      CollectPending(openDocuments, analyze, started);
    }
  }

  /** The pushes actually made, in order. */
  function Collect(started: seq<Option<PublishDiagnostics>>): seq<PublishDiagnostics> {
    if started == [] then []
    else
      match started[0]
      case Some(p) => [p] + Collect(started[1..])
      case None => Collect(started[1..])
  }

  lemma {:induction false} CollectPending(docs: seq<TextDocument>, analyze: File -> Result<seq<Diagnostic>, string>,
                                          started: seq<Option<PublishDiagnostics>>)
    requires |started| == |docs|
    requires forall k :: 0 <= k < |docs| ==> started[k] == PendingPush(docs[k], analyze)
    ensures Collect(started) == PendingPushes(docs, analyze)
  {
    if docs != [] {
      CollectPending(docs[1..], analyze, started[1..]);
    }
  }

  /** A second lookup of the same URI is answered from the cache, with the first lookup's value. */
  method LookupTwice(cache: SettingsCache, resource: string, configuration: string -> ExampleSettings)
    returns (first: ExampleSettings, second: ExampleSettings, fetchedAgain: bool)
    modifies cache`documentSettings
    ensures second == first && !fetchedAgain
  {
    var fetched;
    first, fetched := cache.GetDocumentSettings(resource, configuration);
    second, fetchedAgain := cache.GetDocumentSettings(resource, configuration);
  }
}
