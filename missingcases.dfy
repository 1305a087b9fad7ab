/**
 * The client's code-action provider for non-exhaustive matches: every diagnostic reporting
 * missing cases offers the command that inserts them.
 */
module MissingCases {
  import opened Protocol

  /** The message prefix the compiler uses for non-exhaustive matches. */
  const Marker := "Missing cases"

  /** A command argument: the document (named by its URI), the diagnostic's range, its message. */
  datatype Argument = DocumentArg(uri: string) | RangeArg(range: Range) | MessageArg(message: string)

  datatype Command = Command(title: string, command: string, arguments: seq<Argument>)

  /** `d.message.startsWith("Missing cases")`. */
  predicate IsMissingCases(d: Diagnostic) {
    Marker <= d.message
  }

  /** The `filter` step, as the positions from `i` on that it keeps, in increasing order. */
  function Kept(ds: seq<Diagnostic>, i: nat): (keep: seq<nat>)
    requires i <= |ds|
    ensures forall p :: 0 <= p < |keep| ==> i <= keep[p] < |ds| && IsMissingCases(ds[keep[p]])
    ensures forall p, q :: 0 <= p < q < |keep| ==> keep[p] < keep[q]
    ensures forall k :: i <= k < |ds| && IsMissingCases(ds[k]) ==> k in keep
    decreases |ds| - i
  {
    if i == |ds| then []
    else
      var rest := Kept(ds, i + 1);
      if IsMissingCases(ds[i]) then [i] + rest else rest
  }

  function ActionFor(document: string, d: Diagnostic): Command {
    Command("Add missing cases", "keli.addMissingCases", [DocumentArg(document), RangeArg(d.range), MessageArg(d.message)])
  }

  /** `provideCodeActions`; the requested range and the cancellation token are not consulted. */
  function ProvideCodeActions(document: string, range: Range, diagnostics: seq<Diagnostic>): (actions: seq<Command>)
    ensures forall a :: a in actions ==> a.title == "Add missing cases" && a.command == "keli.addMissingCases"
  {
    var keep := Kept(diagnostics, 0);
    seq(|keep|, p requires 0 <= p < |keep| => ActionFor(document, diagnostics[keep[p]]))
  }

  /** An increasing sequence of indices of `ds` is no longer than `ds`. */
  lemma {:induction false} IncreasingIndicesFit(keep: seq<nat>, n: nat)
    requires forall p :: 0 <= p < |keep| ==> keep[p] < n
    requires forall p, q :: 0 <= p < q < |keep| ==> keep[p] < keep[q]
    ensures |keep| <= n
    decreases n
  {
    if keep != [] {
      var last := keep[|keep| - 1];
      var front := keep[..|keep| - 1];
      assert forall p :: 0 <= p < |front| ==> front[p] < last;
      IncreasingIndicesFit(front, last);
    }
  }

  /**
   * The actions correspond one to one, in order, to the diagnostics whose message starts with
   * the marker: `idx[p]` is the diagnostic behind action `p`; there are at most as many actions as diagnostics.
   */
  lemma ActionsFollowDiagnostics(document: string, range: Range, ds: seq<Diagnostic>)
    returns (idx: seq<nat>)
    ensures var actions := ProvideCodeActions(document, range, ds);
            |idx| == |actions| && |actions| <= |ds|
            && (forall p, q :: 0 <= p < q < |idx| ==> idx[p] < idx[q])
            && (forall p :: 0 <= p < |idx| ==>
                  idx[p] < |ds| && IsMissingCases(ds[idx[p]])
                  && actions[p].arguments == [DocumentArg(document), RangeArg(ds[idx[p]].range), MessageArg(ds[idx[p]].message)])
            && (forall k :: 0 <= k < |ds| && IsMissingCases(ds[k]) ==> k in idx)
  {
    idx := Kept(ds, 0);
    IncreasingIndicesFit(idx, |ds|);
  }
}
