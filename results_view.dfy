/**
 * The results list of components/ResultsScreen.tsx: the poll's options are
 * sorted in place by descending percentage, then each option is shown with
 * its percentage, its vote count (a missing or non-numeric entry shows as
 * 0), a "vote"/"votes" label, and a winner badge on the first row when its
 * percentage is positive.
 */
module ResultsView {
  import opened Decimal
  import opened Aggregation

  /** `results.option_percentages[o] || 0`. */
  function PctOrZero(pcts: map<string, real>, o: string): (p: real)
    ensures o !in pcts ==> p == 0.0
    ensures o in pcts ==> p == pcts[o]
  {
    if o in pcts then pcts[o] else 0.0
  }

  /** `results.option_counts[o] || 0`: an absent key and `NaN` both read as 0. */
  function CountOrZero(counts: map<string, Count>, o: string): (c: nat)
    ensures o !in counts || counts[o].NaN? ==> c == 0
    ensures o in counts && counts[o].Num? ==> c == counts[o].n
  {
    if o in counts && counts[o].Num? then counts[o].n else 0
  }

  /** `{count} vote{count !== 1 ? 's' : ''}`. */
  function VoteLabel(count: nat): string {
    Dec(count) + " vote" + (if count != 1 then "s" else "")
  }

  /** The label is the numeral followed by "vote", with "s" exactly when the count is not 1. */
  lemma VoteLabelPlural(count: nat)
    ensures var text := VoteLabel(count);
      && text[..|Dec(count)|] == Dec(count)
      && Value(text[..|Dec(count)|]) == count
      && (count == 1 <==> text[|text| - 4..] == "vote")
      && (count != 1 <==> text[|text| - 5..] == "votes")
  {
    ValueOfDec(count);
    LabelEnding(Dec(count), count != 1);
  }

  /** Whatever the numeral, the label ends in "votes" when plural and in "vote" otherwise. */
  lemma LabelEnding(numeral: string, plural: bool)
    ensures var text := numeral + " vote" + (if plural then "s" else "");
      && text[..|numeral|] == numeral
      && (!plural <==> text[|text| - 4..] == "vote")
      && (plural <==> text[|text| - 5..] == "votes")
  {
    var text := numeral + " vote" + (if plural then "s" else "");
    assert text[..|numeral|] == numeral;
    if plural {
      assert text[|text| - 5..] == "votes";
      assert text[|text| - 4..] == "otes";
    } else {
      assert text[|text| - 4..] == "vote";
      assert text[|text| - 5..] == " vote";
    }
  }

  /** One rendered row of the results list. */
  datatype Row = Row(option: string, percentage: real, count: nat, isWinner: bool, voteLabel: string)

  /** `index === 0 && percentage > 0`. */
  predicate IsWinner(index: nat, percentage: real) {
    index == 0 && percentage > 0.0
  }

  /** The rows `options.map((option, index) => ...)` renders, in the order of `options`. */
  function Rows(options: seq<string>, results: PollResults<string>): (rows: seq<Row>)
    ensures |rows| == |options|
  {
    seq(|options|, i requires 0 <= i < |options| =>
      var pct := PctOrZero(results.option_percentages, options[i]);
      var count := CountOrZero(results.option_counts, options[i]);
      Row(options[i], pct, count, IsWinner(i, pct), VoteLabel(count)))
  }

  /**
   * Only the first row can carry the badge, and it carries it exactly when
   * its percentage is positive: at most one winner, none when every
   * percentage is 0.
   */
  lemma AtMostOneWinner(options: seq<string>, results: PollResults<string>)
    ensures var rows := Rows(options, results);
      && (forall i :: 0 <= i < |rows| && rows[i].isWinner ==> i == 0)
      && (|rows| > 0 ==> (rows[0].isWinner <==> rows[0].percentage > 0.0))
      && ((forall i :: 0 <= i < |rows| ==> rows[i].percentage == 0.0) ==>
            forall i :: 0 <= i < |rows| ==> !rows[i].isWinner)
  {
  }

  /** Options in non-increasing order of percentage, a missing percentage counting as 0. */
  predicate Ranked(s: seq<string>, pcts: map<string, real>) {
    forall i, j :: 0 <= i < j < |s| ==> PctOrZero(pcts, s[i]) >= PctOrZero(pcts, s[j])
  }

  /**
   * `poll.options.sort((a, b) => pct(b) - pct(a))`: reorders the array in
   * place into a permutation of itself ranked by descending percentage.
   * Elements move left only past strictly smaller percentages, so equal
   * percentages keep their order as in JavaScript's stable sort.
   */
  method SortByPercentage(a: array<string>, pcts: map<string, real>)
    modifies a
    ensures Ranked(a[..], pcts)
    ensures multiset(a[..]) == multiset(old(a[..]))
  {
    for i := 0 to a.Length
      invariant Ranked(a[..i], pcts)
      invariant multiset(a[..]) == multiset(old(a[..]))
    {
      InsertLeft(a, pcts, i);
    }
    assert a[..a.Length] == a[..];
  }

  /** One pass of the sort: moves `a[i]` left past every strictly smaller percentage. */
  method InsertLeft(a: array<string>, pcts: map<string, real>, i: nat)
    requires i < a.Length && Ranked(a[..i], pcts)
    modifies a
    ensures Ranked(a[..i + 1], pcts)
    ensures multiset(a[..]) == multiset(old(a[..]))
  {
    var j := i;
    while j > 0 && PctOrZero(pcts, a[j - 1]) < PctOrZero(pcts, a[j])
      invariant 0 <= j <= i
      invariant multiset(a[..]) == multiset(old(a[..]))
      invariant RankedAround(a[..i + 1], pcts, j)
    {
      ghost var before := a[..i + 1];
      Swap(a, j - 1, j);
      assert a[..i + 1] == before[j - 1 := before[j]][j := before[j - 1]];
      SwapKeepsRanked(before, pcts, j);
      j := j - 1;
    }
    RankedAroundDone(a[..i + 1], pcts, j);
  }

  /**
   * The state of an insertion pass: `s` is ranked except that the element
   * at `j` sits above strictly smaller percentages to its right.
   */
  ghost predicate RankedAround(s: seq<string>, pcts: map<string, real>, j: nat) {
    && j < |s|
    && (forall k, l :: 0 <= k < l < |s| && k != j && l != j ==> PctOrZero(pcts, s[k]) >= PctOrZero(pcts, s[l]))
    && (forall l :: j < l < |s| ==> PctOrZero(pcts, s[j]) > PctOrZero(pcts, s[l]))
  }

  lemma SwapKeepsRanked(s: seq<string>, pcts: map<string, real>, j: nat)
    requires RankedAround(s, pcts, j) && 0 < j
    requires PctOrZero(pcts, s[j - 1]) < PctOrZero(pcts, s[j])
    ensures RankedAround(s[j - 1 := s[j]][j := s[j - 1]], pcts, j - 1)
  {
  }

  lemma RankedAroundDone(s: seq<string>, pcts: map<string, real>, j: nat)
    requires RankedAround(s, pcts, j)
    requires j == 0 || PctOrZero(pcts, s[j - 1]) >= PctOrZero(pcts, s[j])
    ensures Ranked(s, pcts)
  {
  }

  /** Exchanges two elements of the array. */
  method Swap(a: array<string>, i: nat, j: nat)
    requires i < a.Length && j < a.Length
    modifies a
    ensures a[..] == old(a[..])[i := old(a[j])][j := old(a[i])]
    ensures multiset(a[..]) == multiset(old(a[..]))
  {
    a[i], a[j] := a[j], a[i];
  }

  /** In a ranked list the first option has the greatest percentage. */
  lemma FirstIsMaximal(s: seq<string>, pcts: map<string, real>)
    requires Ranked(s, pcts) && |s| > 0
    ensures forall i :: 0 <= i < |s| ==> PctOrZero(pcts, s[i]) <= PctOrZero(pcts, s[0])
  {
  }

  /**
   * Over ranked options the badge goes to an option with the greatest
   * percentage, and some row wins exactly when some option has a positive
   * percentage.
   */
  lemma RankedWinnerIsMaximal(options: seq<string>, results: PollResults<string>)
    requires Ranked(options, results.option_percentages)
    ensures var rows := Rows(options, results);
      && (forall i, k :: 0 <= i < |rows| && 0 <= k < |rows| && rows[i].isWinner ==> rows[k].percentage <= rows[i].percentage)
      && ((exists i :: 0 <= i < |rows| && rows[i].isWinner) <==> (exists k :: 0 <= k < |rows| && rows[k].percentage > 0.0))
  {
    var rows := Rows(options, results);
    if |options| > 0 {
      FirstIsMaximal(options, results.option_percentages);
      if exists k :: 0 <= k < |rows| && rows[k].percentage > 0.0 {
        assert rows[0].isWinner;
      }
    }
  }

  /**
   * The results list of the component: sorts the poll's own options array
   * (so the caller's `poll.options` ends up reordered), then renders a row
   * per option.
   */
  method RankedRows(options: array<string>, results: PollResults<string>) returns (rows: seq<Row>)
    modifies options
    ensures multiset(options[..]) == multiset(old(options[..]))
    ensures Ranked(options[..], results.option_percentages)
    ensures rows == Rows(options[..], results)
  {
    SortByPercentage(options, results.option_percentages);
    rows := Rows(options[..], results);
  }
}
