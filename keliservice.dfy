/**
 * The compiler service's `analyze`: write the document to a fixed scratch file, run the
 * compiler on it and turn its decoded JSON output into editor diagnostics.
 */
module KeliService {
  import opened Wrappers
  import opened Protocol
  import JsText

  /** The compiler executable the service runs. */
  const CompilerPath := "/home/hou32hou/Repos/keli/compiler/.stack-work/install/x86_64-linux/lts-13.0/8.6.3/bin/keli-compiler-exe"

  /** The scratch file, relative to the working directory, reused by every request. */
  const ScratchFile := "__temp__.keli"

  /** The tag stamped on every diagnostic the service returns. */
  const SourceTag := "keli"

  /** The process I/O of one `analyze` call: the file written, then the command run. */
  datatype Invocation = Invocation(
    writtenPath: string,
    writtenContents: string,
    executable: string,
    arguments: seq<string>)

  /** A diagnostic record as decoded from the compiler's JSON; `message` is `None` when it is not a string. */
  datatype DecodedDiagnostic = DecodedDiagnostic(
    range: Range,
    severity: Option<int>,
    code: Option<string>,
    source: Option<string>,
    message: Option<string>)

  /** What the `try` block catches. */
  datatype AnalyzeError =
    | UnreadableOutput(detail: string)  // the output is not (doubly encoded) JSON of an array
    | MessageNotString                  // `x.message.trim` is not a function

  /** `analyze` returns either the diagnostics or, instead of throwing it, the caught error. */
  datatype Analysis = Diagnostics(items: seq<Diagnostic>) | ReturnedError(error: AnalyzeError)

  /** The file write and the compiler command for `contents`: the compiler reads the file just written. */
  function AnalyzeInvocation(contents: string): (inv: Invocation)
    ensures inv.writtenPath == ScratchFile && inv.writtenContents == contents
    ensures inv.executable == CompilerPath
    ensures inv.arguments == ["--analyze", inv.writtenPath]
  {
    Invocation(ScratchFile, contents, CompilerPath, ["--analyze", ScratchFile])
  }

  /** `{...x, message: x.message.trim(), source: "keli"}` for a record whose message is a string. */
  function Stamp(x: DecodedDiagnostic): (d: Diagnostic)
    requires x.message.Some?
    ensures WellFormed(d)
    ensures d.range == x.range && d.severity == x.severity && d.code == x.code
  {
    Diagnostic(x.range, x.severity, x.code, Some(SourceTag), JsText.Trim(x.message.value))
  }

  predicate AllMessagesAreStrings(xs: seq<DecodedDiagnostic>) {
    forall i :: 0 <= i < |xs| ==> xs[i].message.Some?
  }

  /** The post-processing of `analyze`, given the decoder's verdict on the compiler output. */
  function Analyze(decoded: Result<seq<DecodedDiagnostic>, string>): (r: Analysis)
    ensures decoded.Failure? ==> r == ReturnedError(UnreadableOutput(decoded.error))
    ensures decoded.Success? && !AllMessagesAreStrings(decoded.value) ==> r == ReturnedError(MessageNotString)
    ensures decoded.Success? && AllMessagesAreStrings(decoded.value) ==>
              r.Diagnostics? && |r.items| == |decoded.value|
              && forall i :: 0 <= i < |r.items| ==>
                   var x, d := decoded.value[i], r.items[i];
                   d.message == JsText.Trim(x.message.value) && d.source == Some(SourceTag)
                   && d.range == x.range && d.severity == x.severity && d.code == x.code
  {
    match decoded
    case Failure(e) => ReturnedError(UnreadableOutput(e))
    case Success(xs) =>
      if AllMessagesAreStrings(xs) then Diagnostics(seq(|xs|, i requires 0 <= i < |xs| => Stamp(xs[i])))
      else ReturnedError(MessageNotString)
  }

  /** A diagnostic as `analyze` hands it out: trimmed message, non-empty source tag. */
  ghost predicate WellFormed(d: Diagnostic) {
    d.source.Some? && d.source.value != []
    && (d.message == [] || (!JsText.IsWhiteSpace(d.message[0]) && !JsText.IsWhiteSpace(d.message[|d.message| - 1])))
  }

  /** Every diagnostic that `analyze` returns is well formed. */
  lemma AnalyzedAreWellFormed(decoded: Result<seq<DecodedDiagnostic>, string>)
    requires Analyze(decoded).Diagnostics?
    ensures forall d :: d in Analyze(decoded).items ==> WellFormed(d)
  {
    var items := Analyze(decoded).items;
    assert forall i :: 0 <= i < |items| ==> items[i] == Stamp(decoded.value[i]);
    forall d | d in items ensures WellFormed(d) {
      var i :| 0 <= i < |items| && items[i] == d;
    }
  }

  /** The decoded form of a diagnostic the editor already holds. */
  function Reencode(d: Diagnostic): DecodedDiagnostic {
    DecodedDiagnostic(d.range, d.severity, d.code, d.source, Some(d.message))
  }

  /** Stamping is idempotent: post-processing `analyze`'s own output again changes nothing. */
  lemma AnalyzeIdempotent(decoded: Result<seq<DecodedDiagnostic>, string>)
    requires Analyze(decoded).Diagnostics?
    ensures var items := Analyze(decoded).items;
            Analyze(Success(seq(|items|, i requires 0 <= i < |items| => Reencode(items[i])))) == Analyze(decoded)
  {
    var items := Analyze(decoded).items;
    var again := seq(|items|, i requires 0 <= i < |items| => Reencode(items[i]));
    assert AllMessagesAreStrings(again);
    var r := Analyze(Success(again));
    forall i | 0 <= i < |items| ensures r.items[i] == items[i] {
      JsText.TrimIdempotent(decoded.value[i].message.value);
    }
  }
}
