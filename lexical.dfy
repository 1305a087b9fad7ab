/**
 * The completion handler's lexical scan of a document: every match of the global regular
 * expression `[\w\d’'-]+` (case-insensitive), de-duplicated through a `Set`, which keeps
 * values in the order they were first inserted.
 */
module Lexical {
  import opened Wrappers

  /** The regex's character class: ASCII letters and digits, `_`, `’`, `'` and `-`. */
  predicate IsWordChar(c: char) {
    ('A' <= c <= 'Z') || ('a' <= c <= 'z') || ('0' <= c <= '9')
    || c == '_' || c == '\U{2019}' || c == '\'' || c == '-'
  }

  /** `s[i..j]` is a maximal run of word characters: non-empty, bounded by non-word characters or the ends of `s`. */
  ghost predicate IsMaximalRun(s: string, i: int, j: int) {
    0 <= i < j <= |s|
    && (forall k :: i <= k < j ==> IsWordChar(s[k]))
    && (i == 0 || !IsWordChar(s[i - 1]))
    && (j == |s| || !IsWordChar(s[j]))
  }

  /** Where the greedy `+` stops when a match starts at `i`. */
  function RunEnd(s: string, i: nat): (j: nat)
    requires i <= |s|
    ensures i <= j <= |s|
    ensures forall k :: i <= k < j ==> IsWordChar(s[k])
    ensures j == |s| || !IsWordChar(s[j])
    decreases |s| - i
  {
    if i == |s| || !IsWordChar(s[i]) then i else RunEnd(s, i + 1)
  }

  /** `w` is the maximal run of word characters that starts at `a`. */
  ghost predicate RunStartsAt(s: string, a: int, w: string) {
    0 <= a < |s| && IsMaximalRun(s, a, RunEnd(s, a)) && w == s[a..RunEnd(s, a)]
  }

  /** The matches of the global regex scan of `s` that starts at index `i`. */
  function MatchesFrom(s: string, i: nat): seq<string>
    requires i <= |s|
    decreases |s| - i
  {
    if i == |s| then []
    else if !IsWordChar(s[i]) then MatchesFrom(s, i + 1)
    else
      var j := RunEnd(s, i);
      [s[i..j]] + MatchesFrom(s, j)
  }

  /** `s.match(re)`: the list of matches, or `null` (here `None`) when there is none. */
  function Match(s: string): (m: Option<seq<string>>)
    ensures m.None? <==> forall k :: 0 <= k < |s| ==> !IsWordChar(s[k])
    ensures m.Some? ==> m.value != []
  {
    MatchesEmptyIff(s, 0);
    var found := MatchesFrom(s, 0);
    if found == [] then None else Some(found)
  }

  /** `[...new Set(xs)]`, with the values already in the set named by `seen`. */
  function Distinct(xs: seq<string>, seen: set<string>): (r: seq<string>)
    ensures forall x :: x in r <==> x in xs && x !in seen
    ensures forall p, q :: 0 <= p < q < |r| ==> r[p] != r[q]
  {
    if xs == [] then []
    else if xs[0] in seen then Distinct(xs[1..], seen)
    else [xs[0]] + Distinct(xs[1..], seen + {xs[0]})
  }

  /** `[...new Set(m)]`; `new Set(null)` is the empty set. */
  function SpreadSet(m: Option<seq<string>>): seq<string> {
    match m
    case None => []
    case Some(xs) => Distinct(xs, {})
  }

  /** The labels of the lexical suggestions for a document text. */
  function Words(text: string): seq<string> {
    SpreadSet(Match(text))
  }

  /** The index of the first occurrence of `x` in `xs`. */
  function IndexOf(xs: seq<string>, x: string): (k: nat)
    requires x in xs
    ensures k < |xs| && xs[k] == x
    ensures forall m :: 0 <= m < k ==> xs[m] != x
  {
    if xs[0] == x then 0 else 1 + IndexOf(xs[1..], x)
  }

  /** The scan finds nothing exactly when no character from `i` on is a word character. */
  lemma {:induction false} MatchesEmptyIff(s: string, i: nat)
    requires i <= |s|
    ensures MatchesFrom(s, i) == [] <==> forall k :: i <= k < |s| ==> !IsWordChar(s[k])
    decreases |s| - i
  {
    if i < |s| && !IsWordChar(s[i]) {
      MatchesEmptyIff(s, i + 1);
    }
  }

  /** Every match is a maximal run of word characters of `s`. */
  lemma {:induction false} MatchesAreMaximalRuns(s: string, i: nat)
    requires i <= |s|
    requires i == 0 || !IsWordChar(s[i - 1])
    ensures forall w :: w in MatchesFrom(s, i) ==>
              exists a, b :: i <= a && IsMaximalRun(s, a, b) && w == s[a..b]
    decreases |s| - i
  {
    if i == |s| {
    } else if !IsWordChar(s[i]) {
      MatchesAreMaximalRuns(s, i + 1);
    } else {
      var j := RunEnd(s, i);
      assert IsMaximalRun(s, i, j);
      if j < |s| {
        assert MatchesFrom(s, j) == MatchesFrom(s, j + 1);
        MatchesAreMaximalRuns(s, j + 1);
      }
    }
  }

  /** Every maximal run of word characters of `s` is a match. */
  lemma {:induction false} MaximalRunsAreMatches(s: string, i: nat)
    requires i <= |s|
    requires i == 0 || !IsWordChar(s[i - 1])
    ensures forall a, b :: i <= a && IsMaximalRun(s, a, b) ==> s[a..b] in MatchesFrom(s, i)
    decreases |s| - i
  {
    if i == |s| {
    } else if !IsWordChar(s[i]) {
      MaximalRunsAreMatches(s, i + 1);
      forall a, b | i <= a && IsMaximalRun(s, a, b) ensures s[a..b] in MatchesFrom(s, i) {
        assert a != i;
      }
    } else {
      var j := RunEnd(s, i);
      if j < |s| {
        assert MatchesFrom(s, j) == MatchesFrom(s, j + 1);
        MaximalRunsAreMatches(s, j + 1);
      }
      forall a, b | i <= a && IsMaximalRun(s, a, b) ensures s[a..b] in MatchesFrom(s, i) {
      }
    }
  }

  /** A maximal run starting at `a` ends where the greedy `+` stops. */
  lemma MaximalRunEnd(s: string, a: int, b: int)
    requires IsMaximalRun(s, a, b)
    ensures RunEnd(s, a) == b
  {
  }

  /**
   * The scan lists the maximal runs from `i` on left to right: match `k` is the run starting at
   * `starts[k]`, the starts increase, and every maximal run from `i` on starts at one of them.
   */
  lemma {:induction false} MatchesInTextOrder(s: string, i: nat) returns (starts: seq<nat>)
    requires i <= |s|
    requires i == 0 || !IsWordChar(s[i - 1])
    ensures |starts| == |MatchesFrom(s, i)|
    ensures forall k :: 0 <= k < |starts| ==>
              i <= starts[k] && RunStartsAt(s, starts[k], MatchesFrom(s, i)[k])
    ensures forall p, q :: 0 <= p < q < |starts| ==> starts[p] < starts[q]
    ensures forall a, b :: i <= a && IsMaximalRun(s, a, b) ==> a in starts
    decreases |s| - i
  {
    if i == |s| {
      starts := [];
    } else if !IsWordChar(s[i]) {
      starts := MatchesInTextOrder(s, i + 1);
      forall a, b | i <= a && IsMaximalRun(s, a, b) ensures a in starts {
        assert a != i;
      }
    } else {
      var j := RunEnd(s, i);
      var rest: seq<nat> := [];
      if j < |s| {
        assert MatchesFrom(s, j) == MatchesFrom(s, j + 1);
        rest := MatchesInTextOrder(s, j + 1);
      }
      RunAtHead(s, i, rest);
      starts := [i] + rest;
    }
  }

  /** The step of `MatchesInTextOrder` for a run starting at `i`, given the starts found after it. */
  lemma RunAtHead(s: string, i: nat, rest: seq<nat>)
    requires i < |s| && IsWordChar(s[i]) && (i == 0 || !IsWordChar(s[i - 1]))
    requires var j := RunEnd(s, i);
             |rest| == |MatchesFrom(s, j)|
             && (forall k :: 0 <= k < |rest| ==>
                   j < rest[k] && RunStartsAt(s, rest[k], MatchesFrom(s, j)[k]))
             && (forall p, q :: 0 <= p < q < |rest| ==> rest[p] < rest[q])
             && (forall a, b :: j < a && IsMaximalRun(s, a, b) ==> a in rest)
    ensures var starts := [i] + rest;
            |starts| == |MatchesFrom(s, i)|
            && (forall k :: 0 <= k < |starts| ==>
                  i <= starts[k] && RunStartsAt(s, starts[k], MatchesFrom(s, i)[k]))
            && (forall p, q :: 0 <= p < q < |starts| ==> starts[p] < starts[q])
            && (forall a, b :: i <= a && IsMaximalRun(s, a, b) ==> a in starts)
  {
    var j := RunEnd(s, i);
    HeadMatches(s, i, rest);
    HeadStartsIncrease(i, j, rest);
    HeadCoversRuns(s, i, rest);
  }

  /** With the run at `i` in front, match `k` is still the run at start `k`. */
  lemma HeadMatches(s: string, i: nat, rest: seq<nat>)
    requires i < |s| && IsWordChar(s[i]) && (i == 0 || !IsWordChar(s[i - 1]))
    requires var j := RunEnd(s, i);
             |rest| == |MatchesFrom(s, j)|
             && forall k :: 0 <= k < |rest| ==>
                  j < rest[k] && RunStartsAt(s, rest[k], MatchesFrom(s, j)[k])
    ensures var starts := [i] + rest;
            |starts| == |MatchesFrom(s, i)|
            && forall k :: 0 <= k < |starts| ==>
                 i <= starts[k] && RunStartsAt(s, starts[k], MatchesFrom(s, i)[k])
  {
    var j := RunEnd(s, i);
    assert MatchesFrom(s, i) == [s[i..j]] + MatchesFrom(s, j);
    assert IsMaximalRun(s, i, j);
    ConsStarts(s, i, s[i..j], MatchesFrom(s, j), rest);
  }

  /** Putting the run at `i`, with text `w`, in front of later runs keeps every start paired with its match. */
  lemma ConsStarts(s: string, i: nat, w: string, tail: seq<string>, rest: seq<nat>)
    requires RunStartsAt(s, i, w)
    requires |rest| == |tail| && forall k :: 0 <= k < |rest| ==> i < rest[k] && RunStartsAt(s, rest[k], tail[k])
    ensures var starts, ms := [i] + rest, [w] + tail;
            |starts| == |ms| && forall k :: 0 <= k < |starts| ==> i <= starts[k] && RunStartsAt(s, starts[k], ms[k])
  {
    var starts, ms := [i] + rest, [w] + tail;
    forall k | 0 <= k < |starts| ensures i <= starts[k] && RunStartsAt(s, starts[k], ms[k]) {
      if k > 0 {
        assert starts[k] == rest[k - 1] && ms[k] == tail[k - 1];
      }
    }
  }

  lemma HeadStartsIncrease(i: nat, j: nat, rest: seq<nat>)
    requires i <= j
    requires forall k :: 0 <= k < |rest| ==> j < rest[k]
    requires forall p, q :: 0 <= p < q < |rest| ==> rest[p] < rest[q]
    ensures var starts := [i] + rest;
            forall p, q :: 0 <= p < q < |starts| ==> starts[p] < starts[q]
  {
    var starts := [i] + rest;
    forall p, q | 0 <= p < q < |starts| ensures starts[p] < starts[q] {
      assert starts[q] == rest[q - 1];
      if p > 0 {
        assert starts[p] == rest[p - 1];
      }
    }
  }

  /** No maximal run starts inside the run at `i`, so every one from `i` on is at `i` or after it. */
  lemma HeadCoversRuns(s: string, i: nat, rest: seq<nat>)
    requires i < |s| && IsWordChar(s[i])
    requires forall a, b :: RunEnd(s, i) < a && IsMaximalRun(s, a, b) ==> a in rest
    ensures forall a, b :: i <= a && IsMaximalRun(s, a, b) ==> a in [i] + rest
  {
    var j := RunEnd(s, i);
    forall a, b | i <= a && IsMaximalRun(s, a, b) ensures a in [i] + rest {
      if a > j {
        assert a in rest;
      }
    }
  }

  /** Past a first element it is not, the first occurrence of `y` is one further than in the tail. */
  lemma IndexOfPastHead(xs: seq<string>, y: string)
    requires y in xs && y != xs[0]
    ensures y in xs[1..] && IndexOf(xs, y) == 1 + IndexOf(xs[1..], y)
  {
  }

  /** `Distinct` keeps the values in the order of their first occurrence. */
  lemma {:induction false} DistinctKeepsFirstOccurrenceOrder(xs: seq<string>, seen: set<string>)
    ensures forall p, q :: 0 <= p < q < |Distinct(xs, seen)| ==>
              IndexOf(xs, Distinct(xs, seen)[p]) < IndexOf(xs, Distinct(xs, seen)[q])
    decreases |xs|
  {
    if xs == [] {
    } else if xs[0] in seen {
      DistinctKeepsFirstOccurrenceOrder(xs[1..], seen);
      PastHeadKeepsOrder(xs, Distinct(xs[1..], seen));
    } else {
      var tail := Distinct(xs[1..], seen + {xs[0]});
      DistinctKeepsFirstOccurrenceOrder(xs[1..], seen + {xs[0]});
      PastHeadKeepsOrder(xs, tail);
      HeadFirstKeepsOrder(xs, tail);
    }
  }

  /** Values of the tail, none equal to the head, keep the order of their first occurrences in `xs`. */
  lemma PastHeadKeepsOrder(xs: seq<string>, r: seq<string>)
    requires xs != []
    requires forall p :: 0 <= p < |r| ==> r[p] in xs[1..] && r[p] != xs[0]
    requires forall p, q :: 0 <= p < q < |r| ==> IndexOf(xs[1..], r[p]) < IndexOf(xs[1..], r[q])
    ensures forall p, q :: 0 <= p < q < |r| ==> IndexOf(xs, r[p]) < IndexOf(xs, r[q])
  {
    forall p, q | 0 <= p < q < |r| ensures IndexOf(xs, r[p]) < IndexOf(xs, r[q]) {
      IndexOfPastHead(xs, r[p]);
      IndexOfPastHead(xs, r[q]);
    }
  }

  /** The head in front of such tail values keeps the order: its first occurrence is `0`. */
  lemma HeadFirstKeepsOrder(xs: seq<string>, tail: seq<string>)
    requires xs != []
    requires forall p :: 0 <= p < |tail| ==> tail[p] in xs[1..] && tail[p] != xs[0]
    requires forall p, q :: 0 <= p < q < |tail| ==> IndexOf(xs, tail[p]) < IndexOf(xs, tail[q])
    ensures var r := [xs[0]] + tail;
            forall p, q :: 0 <= p < q < |r| ==> IndexOf(xs, r[p]) < IndexOf(xs, r[q])
  {
    var r := [xs[0]] + tail;
    forall p, q | 0 <= p < q < |r| ensures IndexOf(xs, r[p]) < IndexOf(xs, r[q]) {
      assert r[q] == tail[q - 1];
      IndexOfPastHead(xs, r[q]);
      if p > 0 {
        assert r[p] == tail[p - 1];
      }
    }
  }

  /** The suggestion labels are pairwise distinct. */
  lemma WordsAreDistinct(text: string)
    ensures var ws := Words(text);
            forall p, q :: 0 <= p < q < |ws| ==> ws[p] != ws[q]
  {
  }

  /** Every suggestion label is a maximal run of word characters of the text. */
  lemma WordsAreMaximalRuns(text: string)
    ensures forall w :: w in Words(text) ==> exists a, b :: IsMaximalRun(text, a, b) && w == text[a..b]
  {
    MatchesAreMaximalRuns(text, 0);
  }

  /** Every maximal run of word characters of the text is a suggestion label. */
  lemma MaximalRunIsWord(text: string, a: int, b: int)
    requires IsMaximalRun(text, a, b)
    ensures text[a..b] in Words(text)
  {
    MaximalRunsAreMatches(text, 0);
    MatchesEmptyIff(text, 0);
    assert IsWordChar(text[a]);
  }

  /** There are no suggestion labels exactly when the text has no word character. */
  lemma WordsEmptyIff(text: string)
    ensures Words(text) == [] <==> forall k :: 0 <= k < |text| ==> !IsWordChar(text[k])
  {
  }

  /** The suggestion labels follow the order in which their first match occurs in the scan. */
  lemma WordsInFirstMatchOrder(text: string)
    requires Match(text).Some?
    ensures var ws, ms := Words(text), Match(text).value;
            forall p, q :: 0 <= p < q < |ws| ==> IndexOf(ms, ws[p]) < IndexOf(ms, ws[q])
  {
    assert Words(text) == Distinct(Match(text).value, {});
    DistinctKeepsFirstOccurrenceOrder(Match(text).value, {});
  }

  /** The positions in `xs` of the first occurrences of the values `Distinct` keeps, increasing. */
  lemma FirstIndices(xs: seq<string>) returns (idx: seq<nat>)
    ensures |idx| == |Distinct(xs, {})|
    ensures forall p :: 0 <= p < |idx| ==>
              idx[p] < |xs| && xs[idx[p]] == Distinct(xs, {})[p]
              && forall n :: 0 <= n < idx[p] ==> xs[n] != xs[idx[p]]
    ensures forall p, q :: 0 <= p < q < |idx| ==> idx[p] < idx[q]
  {
    var ws := Distinct(xs, {});
    assert forall p :: 0 <= p < |ws| ==> ws[p] in xs by {
      forall p | 0 <= p < |ws| ensures ws[p] in xs {
        assert ws[p] in ws;
      }
    }
    idx := seq(|ws|, p requires 0 <= p < |ws| => IndexOf(xs, ws[p]));
    DistinctKeepsFirstOccurrenceOrder(xs, {});
  }

  /** A first occurrence at `k` starts no later than any other occurrence `n` of the same value. */
  lemma EarliestStart(xs: seq<string>, at: seq<nat>, k: nat, n: nat)
    requires |at| == |xs| && k < |xs| && n < |xs| && xs[n] == xs[k]
    requires forall p, q :: 0 <= p < q < |at| ==> at[p] < at[q]
    requires forall m :: 0 <= m < k ==> xs[m] != xs[k]
    ensures at[k] <= at[n]
  {
    if n < k {
      assert false;
    } else if k < n {
      assert at[k] < at[n];
    }
  }

  /** `at[idx[p]]` for each `p`: increasing indices into increasing starts give increasing starts. */
  function Compose(at: seq<nat>, idx: seq<nat>): (r: seq<nat>)
    requires forall p :: 0 <= p < |idx| ==> idx[p] < |at|
    requires forall p, q :: 0 <= p < q < |at| ==> at[p] < at[q]
    requires forall p, q :: 0 <= p < q < |idx| ==> idx[p] < idx[q]
    ensures |r| == |idx| && forall p :: 0 <= p < |r| ==> r[p] == at[idx[p]]
    ensures forall p, q :: 0 <= p < q < |r| ==> r[p] < r[q]
  {
    var r := seq(|idx|, p requires 0 <= p < |idx| => at[idx[p]]);
    assert forall p, q :: 0 <= p < q < |r| ==> r[p] < r[q] by {
      forall p, q | 0 <= p < q < |r| ensures r[p] < r[q] {
        assert idx[p] < idx[q];
      }
    }
    r
  }

  /**
   * The suggestion labels in text order: label `p` is the maximal run at `starts[p]`, the starts
   * increase, and no maximal run with the same text starts earlier (first occurrence).
   */
  lemma WordsInTextOrder(text: string) returns (starts: seq<nat>)
    ensures |starts| == |Words(text)|
    ensures forall p :: 0 <= p < |starts| ==> RunStartsAt(text, starts[p], Words(text)[p])
    ensures forall p, q :: 0 <= p < q < |starts| ==> starts[p] < starts[q]
    ensures forall p, a, b :: 0 <= p < |starts| && IsMaximalRun(text, a, b) && text[a..b] == Words(text)[p] ==>
              starts[p] <= a
  {
    var ms := MatchesFrom(text, 0);
    var at := MatchesInTextOrder(text, 0);
    if ms == [] {
      starts := [];
    } else {
      var ws := Words(text);
      assert ws == Distinct(ms, {});
      var idx := FirstIndices(ms);
      starts := Compose(at, idx);
      forall p, a, b | 0 <= p < |starts| && IsMaximalRun(text, a, b) && text[a..b] == ws[p]
        ensures starts[p] <= a
      {
        assert a in at;
        var n :| 0 <= n < |at| && at[n] == a;
        MaximalRunEnd(text, a, b);
        assert ms[n] == ms[idx[p]];
        EarliestStart(ms, at, idx[p], n);
      }
    }
  }
}
