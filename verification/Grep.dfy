/** The non-overlapping substring scan. */
module Grep {
  /** The target stands at position p of the text. */
  ghost predicate Occurs(text: string, target: string, p: nat) {
    p + |target| <= |text| && text[p..p + |target|] == target
  }

  /** Where the scan goes on after its i-th match. */
  function From(at: seq<nat>, m: nat, i: nat): nat
    requires i <= |at|
  {
    if i == 0 then 0 else at[i - 1] + m
  }

  /** Each match is the first occurrence at or after the end of the one before it. */
  ghost predicate IsNext(text: string, target: string, at: seq<nat>, i: nat)
    requires i < |at|
  {
    && From(at, |target|, i) <= at[i] && Occurs(text, target, at[i])
    && forall p {:trigger Occurs(text, target, p)} :: From(at, |target|, i) <= p < at[i] ==> !Occurs(text, target, p)
  }

  /** The matches of a scan that has got to `upTo`. */
  ghost predicate Greedy(text: string, target: string, at: seq<nat>, upTo: nat) {
    && (forall i: nat {:trigger IsNext(text, target, at, i)} :: i < |at| ==> IsNext(text, target, at, i))
    && (forall p: nat {:trigger Occurs(text, target, p)} :: From(at, |target|, |at|) <= p < upTo ==>
      !Occurs(text, target, p))
  }

  /** Occurrences in order, none reaching into the next. */
  ghost predicate Disjoint(text: string, target: string, at: seq<nat>) {
    && (forall i :: 0 <= i < |at| ==> Occurs(text, target, at[i]))
    && (forall i :: 0 <= i && i + 1 < |at| ==> at[i] + |target| <= at[i + 1])
  }

  /** The greedy scan stays ahead of any other choice. */
  lemma {:induction false} StaysAhead(text: string, target: string, at: seq<nat>, other: seq<nat>, i: nat)
    requires Greedy(text, target, at, |text| + 1) && Disjoint(text, target, other) && i < |other| && |target| > 0
    ensures i < |at| && at[i] <= other[i]
    decreases i
  {
    if i > 0 { StaysAhead(text, target, at, other, i - 1); }
    assert Occurs(text, target, other[i]);
    assert i <= |at| && From(at, |target|, i) <= other[i];
    if i < |at| { assert IsNext(text, target, at, i); }
  }

  lemma GreedyIsDisjoint(text: string, target: string, at: seq<nat>)
    requires Greedy(text, target, at, |text| + 1)
    ensures Disjoint(text, target, at)
  {
    forall i: nat | i < |at| ensures Occurs(text, target, at[i]) && From(at, |target|, i) <= at[i] {
      assert IsNext(text, target, at, i);
    }
    forall i: nat | i + 1 < |at| ensures at[i] + |target| <= at[i + 1] {
      assert From(at, |target|, i + 1) <= at[i + 1];
    }
  }

  /** The matches are disjoint occurrences, and no choice of disjoint occurrences has more of them. */
  lemma GreedyIsOptimal(text: string, target: string, at: seq<nat>)
    requires Greedy(text, target, at, |text| + 1) && |target| > 0
    ensures Disjoint(text, target, at)
    ensures forall other: seq<nat> {:trigger Disjoint(text, target, other)} ::
      Disjoint(text, target, other) ==> |other| <= |at|
  {
    hide Greedy, Disjoint;
    GreedyIsDisjoint(text, target, at);
    forall other: seq<nat> | Disjoint(text, target, other) ensures |other| <= |at| {
      if |other| > 0 { StaysAhead(text, target, at, other, |other| - 1); }
    }
  }

  // ---- lines

  function Newlines(text: string): nat {
    if text == "" then 0 else Newlines(text[..|text| - 1]) + if text[|text| - 1] == '\n' then 1 else 0
  }

  function Between(text: string, p: nat, q: nat): nat { if p <= q <= |text| then Newlines(text[p..q]) else 0 }

  lemma {:induction false} BetweenAdds(text: string, p: nat, q: nat, r: nat)
    requires p <= q <= r <= |text|
    ensures Between(text, p, r) == Between(text, p, q) + Between(text, q, r)
    decreases r
  {
    if q < r {
      BetweenAdds(text, p, q, r - 1);
      assert text[p..r][..r - p - 1] == text[p..r - 1] && text[q..r][..r - q - 1] == text[q..r - 1];
    }
  }

  lemma {:induction false} HasNewline(text: string)
    ensures Newlines(text) > 0 <==> '\n' in text
  {
    if text != "" {
      HasNewline(text[..|text| - 1]);
      assert text == text[..|text| - 1] + [text[|text| - 1]];
    }
  }

  /** The newlines that the scan has looked at when it reports match i: it steps over the rest of each match. */
  function Counted(text: string, at: seq<nat>, m: nat, i: nat): nat
    requires i < |at|
  {
    (if i == 0 then 0 else Counted(text, at, m, i - 1)) + Between(text, From(at, m, i), at[i] + 1)
  }

  /** Every match is reported on the line it is on: one plus the newlines before it. */
  ghost predicate NumbersRight(text: string, target: string, at: seq<nat>) {
    forall i: nat {:trigger at[i]} :: i < |at| ==> Counted(text, at, |target|, i) == Between(text, 0, at[i])
  }

  lemma {:induction false} CountedAll(text: string, target: string, at: seq<nat>, i: nat)
    requires Greedy(text, target, at, |text| + 1) && '\n' !in target && target != "" && i < |at|
    ensures at[i] + |target| <= |text|
      && Counted(text, at, |target|, i) == Between(text, 0, at[i]) == Between(text, 0, at[i] + |target|)
    decreases i
  {
    var m := |target|;
    assert IsNext(text, target, at, i);
    var p := at[i];
    assert text[p..p + m] == target;
    HasNewline(target);
    BetweenAdds(text, p, p + 1, p + m);
    BetweenAdds(text, 0, p, p + m);
    BetweenAdds(text, From(at, m, i), p, p + 1);
    BetweenAdds(text, 0, From(at, m, i), p);
    if i > 0 { CountedAll(text, target, at, i - 1); }
  }

  /** A target with a newline, twice in a row, is reported on a wrong line at one of its two matches. */
  lemma WrongNumber(target: string) returns (text: string, at: seq<nat>)
    requires '\n' in target
    ensures Greedy(text, target, at, |text| + 1) && !NumbersRight(text, target, at)
  {
    var m := |target|;
    text, at := target + target, [0, m];
    assert Occurs(text, target, 0) && Occurs(text, target, m);
    assert IsNext(text, target, at, 0) && IsNext(text, target, at, 1);
    HasNewline(target);
    assert text[0..m] == target && text[0..1] == [target[0]] && text[m..m + 1] == [target[0]];
    HasNewline([target[0]]);
    assert at[0] == 0 && at[1] == m;
    assert Counted(text, at, m, 0) == Between(text, 0, 1);
    assert Counted(text, at, m, 1) == Between(text, 0, 1) + Between(text, m, m + 1);
  }

  /** The line numbers are right for every text exactly when the target has no newline. */
  lemma NumbersRightIff(target: string)
    requires target != ""
    ensures (forall text, at {:trigger NumbersRight(text, target, at)} :: Greedy(text, target, at, |text| + 1) ==>
      NumbersRight(text, target, at)) <==> '\n' !in target
  {
    if '\n' in target {
      var text, at := WrongNumber(target);
    } else {
      forall text, at | Greedy(text, target, at, |text| + 1) ensures NumbersRight(text, target, at) {
        forall i: nat | i < |at| ensures Counted(text, at, |target|, i) == Between(text, 0, at[i]) {
          CountedAll(text, target, at, i);
        }
      }
    }
  }

  /** The text from s to e is the line that position p is on. */
  ghost predicate IsLine(text: string, p: nat, s: nat, e: nat) {
    && s <= p <= e <= |text|
    && (s == 0 || text[s - 1] == '\n') && (e == |text| || text[e] == '\n')
    && forall i :: s <= i < e ==> text[i] != '\n'
  }

  /** `memchr` for a newline from `from` on, or the end of the text. */
  method LineEnd(text: string, from: nat) returns (e: nat)
    requires from <= |text|
    ensures from <= e <= |text| && (e == |text| || text[e] == '\n') && forall i :: from <= i < e ==> text[i] != '\n'
  {
    e := from;
    while e < |text| && text[e] != '\n'
      invariant from <= e <= |text| && forall i :: from <= i < e ==> text[i] != '\n'
    {
      e := e + 1;
    }
  }

  /** A printed match: the line number and the line. */
  datatype Report = Report(line: nat, text: string)

  ghost predicate LineOk(text: string, p: nat, line: string) {
    exists s: nat, e: nat :: IsLine(text, p, s, e) && line == text[s..e]
  }

  /** `grep_buffer`: `printed` is what is written for each match, `total` the count in the last line, if any. */
  method GrepBuffer(text: string, target: string) returns (printed: seq<Report>, total: nat, ghost at: seq<nat>)
    ensures total == |printed| == |at| && (target == "" ==> total == 0)
    ensures target != "" ==> Greedy(text, target, at, |text| + 1)
    ensures forall i {:trigger printed[i]} :: 0 <= i < total ==> printed[i].line == 1 + Counted(text, at, |target|, i)
    ensures '\n' !in target ==> forall i {:trigger printed[i]} :: 0 <= i < total ==>
      LineOk(text, at[i], printed[i].text)
  {
    hide Greedy, Between, Counted, LineStart, LineOk, Occurs, IsLine;
    printed, total, at := [], 0, [];
    var m := |target|;
    ScanStarts(text, target);
    if |text| < m { ScanEnds(text, target, [], 0); }
    if m == 0 || |text| < m { return; }
    var ptr, lineStart, lineNo := 0, 0, 1;
    while ptr <= |text| - m
      invariant ptr <= |text| && total == |printed| == |at|
      invariant Greedy(text, target, at, ptr) && From(at, m, |at|) <= ptr
      invariant lineNo == 1 + (if at == [] then 0 else Counted(text, at, m, |at| - 1))
        + Between(text, From(at, m, |at|), ptr)
      invariant forall i {:trigger printed[i]} :: 0 <= i < total ==> printed[i].line == 1 + Counted(text, at, m, i)
      invariant lineStart <= |text| && ('\n' !in target ==> LineStart(text, lineStart, ptr))
      invariant '\n' !in target ==> forall i {:trigger printed[i]} :: 0 <= i < total ==>
        LineOk(text, at[i], printed[i].text)
      decreases |text| - ptr
    {
      OneCharacter(text, From(at, m, |at|), ptr, lineStart);
      if text[ptr] == '\n' { lineNo, lineStart := lineNo + 1, ptr + 1; }
      if text[ptr..ptr + m] == target {
        var e := LineEnd(text, lineStart);
        if '\n' !in target { MatchedLine(text, target, ptr, lineStart, e); }
        Longer(text, target, at, ptr);
        SameCounts(text, at, ptr, m);
        printed, total, at := printed + [Report(lineNo, text[lineStart..e])], total + 1, at + [ptr];
        ptr := ptr + m;
      } else {
        NotHere(text, target, at, ptr);
        ptr := ptr + 1;
      }
    }
    ScanEnds(text, target, at, ptr);
  }

  lemma ScanStarts(text: string, target: string)
    ensures Greedy(text, target, [], 0) && Between(text, 0, 0) == 0 && LineStart(text, 0, 0)
  {
  }

  lemma ScanEnds(text: string, target: string, at: seq<nat>, ptr: nat)
    requires Greedy(text, target, at, ptr) && ptr > |text| - |target|
    ensures Greedy(text, target, at, |text| + 1)
  {
  }

  lemma NotHere(text: string, target: string, at: seq<nat>, ptr: nat)
    requires Greedy(text, target, at, ptr) && ptr + |target| <= |text| && text[ptr..ptr + |target|] != target
    ensures Greedy(text, target, at, ptr + 1)
  {
  }

  lemma OneCharacter(text: string, from: nat, p: nat, s: nat)
    requires from <= p < |text|
    ensures Between(text, from, p + 1) == Between(text, from, p) + if text[p] == '\n' then 1 else 0
    ensures LineStart(text, s, p) ==> if text[p] == '\n' then LineStart(text, p + 1, p + 1)
      else LineStart(text, s, p + 1)
  {
    BetweenAdds(text, from, p, p + 1);
    assert text[p..p + 1] == [text[p]];
    assert Newlines(text[p..p + 1][..0]) == 0;
  }

  lemma {:induction false} SameCount(text: string, at: seq<nat>, p: nat, m: nat, i: nat)
    requires i < |at|
    ensures Counted(text, at + [p], m, i) == Counted(text, at, m, i)
    decreases i
  {
    if i > 0 { SameCount(text, at, p, m, i - 1); }
  }

  lemma SameCounts(text: string, at: seq<nat>, p: nat, m: nat)
    requires p + m <= |text|
    ensures forall i {:trigger Counted(text, at + [p], m, i)} :: 0 <= i < |at| ==>
      Counted(text, at + [p], m, i) == Counted(text, at, m, i)
    ensures Counted(text, at + [p], m, |at|) == (if at == [] then 0 else Counted(text, at, m, |at| - 1))
      + Between(text, From(at, m, |at|), p + 1)
    ensures From(at + [p], m, |at| + 1) == p + m && Between(text, p + m, p + m) == 0
  {
    forall i | 0 <= i < |at| ensures Counted(text, at + [p], m, i) == Counted(text, at, m, i) {
      SameCount(text, at, p, m, i);
    }
  }

  /** No newline between the line's start and ptr, and one, or the beginning, before it. */
  ghost predicate LineStart(text: string, s: nat, ptr: nat) {
    s <= ptr <= |text| && (s == 0 || text[s - 1] == '\n') && forall i :: s <= i < ptr ==> text[i] != '\n'
  }

  /** At a match of a target without newlines, with the line's start up to date. */
  lemma MatchedLine(text: string, target: string, p: nat, s: nat, e: nat)
    requires '\n' !in target && target != "" && p + |target| <= |text| && text[p..p + |target|] == target
    requires LineStart(text, s, p + 1)
    requires s <= e <= |text| && (e == |text| || text[e] == '\n') && forall i :: s <= i < e ==> text[i] != '\n'
    ensures LineOk(text, p, text[s..e]) && LineStart(text, s, p + |target|)
  {
    forall i | p <= i < p + |target| ensures text[i] != '\n' { assert text[p..p + |target|][i - p] in target; }
    assert s <= p by { assert text[p] != '\n'; }
    assert IsLine(text, p, s, e);
  }

  lemma Longer(text: string, target: string, at: seq<nat>, p: nat)
    requires Greedy(text, target, at, p) && p + |target| <= |text| && text[p..p + |target|] == target
      && From(at, |target|, |at|) <= p
    ensures Greedy(text, target, at + [p], p + |target|)
  {
    var at' := at + [p];
    assert Occurs(text, target, p);
    forall i: nat | i < |at'| ensures IsNext(text, target, at', i) {
      if i < |at| { assert IsNext(text, target, at, i); }
    }
  }
}
