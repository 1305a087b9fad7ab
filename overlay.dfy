/**
 * The editor client's execution overlay: each run frame becomes one inline decoration, and the
 * decoration set of the active editor is replaced as a whole.
 */
module Overlay {
  import opened Wrappers
  import opened Protocol

  /** The `after` render options of a decoration. */
  datatype AfterText = AfterText(contentText: string, fontStyle: string, color: string)

  datatype Decoration = Decoration(range: Range, hoverMessage: string, after: AfterText)

  /** What the client's handlers can catch while showing a run's outputs. */
  datatype ClientError =
    | InvalidPayload(detail: string)  // `JSON.parse` rejected the notification payload
    | IllegalLine(line: int)          // `new vscode.Position` refuses a negative line
    | NoActiveEditor                  // `activeTextEditor` is undefined

  /** A message the client shows with `showErrorMessage`. */
  datatype Shown = CaughtError(error: ClientError) | RunFailedMessage(text: string)

  /** The decoration for one frame: zero width at column 0 of the frame's line, made 0-based. */
  function DecorationFor(frame: Frame): (d: Decoration)
    requires frame.lineNumber >= 1
    ensures Decorates(frame, d) && d.range.start.line >= 0
  {
    var at := Position(frame.lineNumber - 1, 0);
    Decoration(Range(at, at), frame.output, AfterText(frame.output, "italic", "darkgray"))
  }

  /** Whether `frame` yields a decoration as `d`. */
  ghost predicate Decorates(frame: Frame, d: Decoration) {
    d.range.start == Position(frame.lineNumber - 1, 0) && d.range.end == d.range.start
    && d.hoverMessage == frame.output && d.after.contentText == frame.output
    && d.after.fontStyle == "italic" && d.after.color == "darkgray"
  }

  /** `outputs.map(...)` in `displayOutputs`; the first frame on a line below 1 throws. */
  function Decorations(outputs: seq<Frame>): (r: Result<seq<Decoration>, ClientError>)
    ensures r.Success? <==> forall i :: 0 <= i < |outputs| ==> outputs[i].lineNumber >= 1
    ensures r.Success? ==> |r.value| == |outputs|
                           && forall i :: 0 <= i < |outputs| ==> Decorates(outputs[i], r.value[i])
    ensures r.Failure? ==> exists i :: 0 <= i < |outputs| && r.error == IllegalLine(outputs[i].lineNumber - 1)
                                       && outputs[i].lineNumber < 1
                                       && forall j :: 0 <= j < i ==> outputs[j].lineNumber >= 1
  {
    if outputs == [] then Success([])
    else if outputs[0].lineNumber - 1 < 0 then Failure(IllegalLine(outputs[0].lineNumber - 1))
    else
      match Decorations(outputs[1..])
      case Success(rest) => Success([DecorationFor(outputs[0])] + rest)
      case Failure(e) => Failure(e)
  }

  type EditorId = nat

  /** The client's window: its active editor, each editor's decorations of the one run-output type, the messages shown. */
  class Window {
    var activeEditor: Option<EditorId>
    var decorations: map<EditorId, seq<Decoration>>
    var shown: seq<Shown>

    constructor (active: Option<EditorId>)
      ensures activeEditor == active && decorations == map[] && shown == []
    {
      activeEditor := active;
      decorations := map[];
      shown := [];
    }

    /** `displayOutputs`: replace the active editor's decoration set, or throw without touching it. */
    method DisplayOutputs(outputs: seq<Frame>) returns (thrown: Option<ClientError>)
      modifies this`decorations
      ensures Decorations(outputs).Failure? ==> thrown == Some(Decorations(outputs).error)
      ensures Decorations(outputs).Success? && activeEditor.None? ==> thrown == Some(NoActiveEditor)
      ensures thrown.Some? ==> decorations == old(decorations)
      ensures Decorations(outputs).Success? && activeEditor.Some? ==>
                thrown.None? && decorations == old(decorations)[activeEditor.value := Decorations(outputs).value]
    {
      var r := Decorations(outputs);
      if r.Failure? {
        return Some(r.error);
      }
      if activeEditor.None? {
        return Some(NoActiveEditor);
      }
      decorations := decorations[activeEditor.value := r.value];
      thrown := None;
    }

    /** The `keli/runThisFileCompleted` handler; `parsed` is `JSON.parse` of the payload. */
    method OnRunThisFileCompleted(parsed: Result<seq<Frame>, string>)
      modifies this`decorations, this`shown
      ensures parsed.Failure? ==> decorations == old(decorations) && shown == old(shown) + [CaughtError(InvalidPayload(parsed.error))]
      ensures parsed.Success? && Decorations(parsed.value).Failure? ==>
                decorations == old(decorations) && shown == old(shown) + [CaughtError(Decorations(parsed.value).error)]
      ensures parsed.Success? && Decorations(parsed.value).Success? && activeEditor.None? ==>
                decorations == old(decorations) && shown == old(shown) + [CaughtError(NoActiveEditor)]
      ensures parsed.Success? && Decorations(parsed.value).Success? && activeEditor.Some? ==>
                decorations == old(decorations)[activeEditor.value := Decorations(parsed.value).value]
                && shown == old(shown)
    {
      match parsed
      case Failure(e) =>
        shown := shown + [CaughtError(InvalidPayload(e))];
      case Success(outputs) =>
        var thrown := DisplayOutputs(outputs);
        if thrown.Some? {
          shown := shown + [CaughtError(thrown.value)];
        }
    }

    /** The `keli/runThisFileFailed` handler: only shows the message. */
    method OnRunThisFileFailed(error: string)
      modifies this`shown
      ensures shown == old(shown) + [RunFailedMessage(error)]
    {
      shown := shown + [RunFailedMessage(error)];
    }
  }

  /** Showing the same outputs twice leaves the same decorations as showing them once. */
  method DisplayTwice(w: Window, outputs: seq<Frame>) returns (once: map<EditorId, seq<Decoration>>)
    modifies w`decorations
    ensures once == if Decorations(outputs).Success? && w.activeEditor.Some?
                    then old(w.decorations)[w.activeEditor.value := Decorations(outputs).value]
                    else old(w.decorations)
    ensures w.decorations == once
  {
    var thrown := w.DisplayOutputs(outputs);
    once := w.decorations;
    thrown := w.DisplayOutputs(outputs);
  }
}
