/**
 * Vote aggregation shared by the poll store (lib/database.ts) and the demo
 * store (app/page.tsx): both count the matching responses per option into a
 * plain JavaScript record and derive each option's percentage of the total.
 */
module Aggregation {

  /**
   * A value of the `optionCounts` record. `record[k]++` on a key that was
   * never set reads `undefined`, and `undefined + 1` is `NaN`, which every
   * later `++` keeps.
   */
  datatype Count = Num(n: nat) | NaN

  /** The derived results record (lib/types.ts `PollResults`). */
  datatype PollResults<Id> = PollResults(
    poll_id: Id,
    total_responses: nat,
    option_counts: map<string, Count>,
    option_percentages: map<string, real>)

  ghost predicate Distinct(s: seq<string>) {
    forall i, j :: 0 <= i < j < |s| ==> s[i] != s[j]
  }

  /** `counts[o]++` on a JavaScript record. */
  function Bump(counts: map<string, Count>, o: string): map<string, Count> {
    counts[o := if o in counts && counts[o].Num? then Num(counts[o].n + 1) else NaN]
  }

  /** `options.forEach(o => counts[o] = 0)` on an empty record. */
  function ZeroCounts(options: seq<string>): map<string, Count> {
    map o | o in options :: Num(0)
  }

  /** The record after `choices.forEach(c => counts[c]++)`. */
  function Tally(counts: map<string, Count>, choices: seq<string>): map<string, Count>
    decreases |choices|
  {
    if choices == [] then counts
    else Bump(Tally(counts, choices[..|choices| - 1]), choices[|choices| - 1])
  }

  /** `total > 0 ? (count / total) * 100 : 0`, in exact arithmetic. */
  function Percent(count: nat, total: nat): real {
    if total > 0 then count as real / total as real * 100.0 else 0.0
  }

  /**
   * The results of a poll declaring `options` whose stored responses chose
   * `choices`: every response is counted, and every declared option gets
   * its share of the total.
   */
  function ResultsFor<Id>(pollId: Id, options: seq<string>, choices: seq<string>): PollResults<Id> {
    PollResults(
      pollId,
      |choices|,
      Tally(ZeroCounts(options), choices),
      Shares(options, choices))
  }

  /** Each declared option's percentage of all choices. */
  function Shares(options: seq<string>, choices: seq<string>): map<string, real> {
    map o | o in options :: Percent(multiset(choices)[o], |choices|)
  }

  /**
   * The aggregation loops of both `getPollResults`: zero every option, bump
   * the chosen option of each response, then compute each option's share.
   */
  method ComputeResults<Id>(pollId: Id, options: seq<string>, choices: seq<string>)
    returns (r: PollResults<Id>)
    ensures r == ResultsFor(pollId, options, choices)
  {
    var counts := ZeroAll(options);
    counts := CountAll(counts, choices);
    var percentages := ShareAll(options, choices, counts);
    r := PollResults(pollId, |choices|, counts, percentages);
  }

  /** `options.forEach(o => counts[o] = 0)`: every declared option starts at zero. */
  method ZeroAll(options: seq<string>) returns (counts: map<string, Count>)
    ensures counts == ZeroCounts(options)
  {
    counts := map[];
    for i := 0 to |options|
      invariant counts == ZeroCounts(options[..i])
    {
      assert options[..i + 1] == options[..i] + [options[i]];
      counts := counts[options[i] := Num(0)];
    }
    assert options[..|options|] == options;
  }

  /** `responses.forEach(r => counts[r.chosen_option]++)`, one response at a time. */
  method CountAll(init: map<string, Count>, choices: seq<string>) returns (counts: map<string, Count>)
    ensures counts == Tally(init, choices)
  {
    counts := init;
    for i := 0 to |choices|
      invariant counts == Tally(init, choices[..i])
    {
      assert choices[..i + 1][..i] == choices[..i];
      counts := Bump(counts, choices[i]);
    }
    assert choices[..|choices|] == choices;
  }

  /**
   * The percentage loop: each declared option's count over the total, times
   * 100, or 0 with no responses; the counts read are the tallied ones.
   */
  method ShareAll(options: seq<string>, choices: seq<string>, counts: map<string, Count>) returns (percentages: map<string, real>)
    requires counts == Tally(ZeroCounts(options), choices)
    ensures percentages == Shares(options, choices)
  {
    var total := |choices|;
    percentages := map[];
    for i := 0 to |options|
      invariant percentages == map o | o in options[..i] :: Percent(multiset(choices)[o], total)
    {
      var o := options[i];
      TallyOf(ZeroCounts(options), choices, o);
      assert options[..i + 1] == options[..i] + [o];
      percentages := percentages[o := if total > 0 then counts[o].n as real / total as real * 100.0 else 0.0];
    }
    assert options[..|options|] == options;
  }

  /**
   * Tallying adds, to a number already in the record, the number of choices
   * of that key; it turns a key absent from the record into `NaN` as soon as
   * one choice names it, and leaves other keys absent.
   */
  lemma {:induction false} TallyOf(init: map<string, Count>, choices: seq<string>, o: string)
    ensures o in Tally(init, choices) <==> o in init || o in choices
    ensures o in init && init[o].Num? ==> Tally(init, choices)[o] == Num(init[o].n + multiset(choices)[o])
    ensures o in init && init[o].NaN? ==> Tally(init, choices)[o] == NaN
    ensures o !in init && o in choices ==> Tally(init, choices)[o] == NaN
    decreases |choices|
  {
    if choices != [] {
      var prefix := choices[..|choices| - 1];
      var c := choices[|choices| - 1];
      assert choices == prefix + [c];
      assert multiset(choices) == multiset(prefix) + multiset{c};
      TallyOf(init, prefix, o);
    }
  }

  /**
   * Every declared option has a count equal to the number of responses that
   * chose it (zero when none did); an undeclared choice adds an extra `NaN`
   * entry; nothing else appears.
   */
  lemma OptionCounts<Id>(pollId: Id, options: seq<string>, choices: seq<string>, o: string)
    ensures var r := ResultsFor(pollId, options, choices);
      && r.total_responses == |choices|
      && (o in r.option_counts <==> o in options || o in choices)
      && (o in options ==> r.option_counts[o] == Num(multiset(choices)[o]))
      && (o !in options && o in choices ==> r.option_counts[o] == NaN)
  {
    TallyOf(ZeroCounts(options), choices, o);
  }

  /** Sum of the multiplicities in `ms` of the keys listed in `keys`. */
  function SumOver(keys: seq<string>, ms: multiset<string>): nat {
    if keys == [] then 0 else ms[keys[0]] + SumOver(keys[1..], ms)
  }

  lemma {:induction false} SumOverAdd(keys: seq<string>, ms: multiset<string>, c: string)
    ensures SumOver(keys, ms + multiset{c}) == SumOver(keys, ms) + multiset(keys)[c]
  {
    if keys != [] {
      assert keys == [keys[0]] + keys[1..];
      SumOverAdd(keys[1..], ms, c);
    }
  }

  lemma {:induction false} DistinctOnce(keys: seq<string>, c: string)
    requires Distinct(keys) && c in keys
    ensures multiset(keys)[c] == 1
  {
    assert keys == [keys[0]] + keys[1..];
    if keys[0] == c {
      assert c !in keys[1..];
    } else {
      DistinctOnce(keys[1..], c);
    }
  }

  /** When every choice is one of the distinct declared options, the per-option counts add up to the number of choices. */
  lemma {:induction false} SumOverChoices(keys: seq<string>, choices: seq<string>)
    requires Distinct(keys)
    requires forall i :: 0 <= i < |choices| ==> choices[i] in keys
    ensures SumOver(keys, multiset(choices)) == |choices|
    decreases |choices|
  {
    if choices == [] {
      SumOverEmpty(keys);
    } else {
      var prefix := choices[..|choices| - 1];
      var c := choices[|choices| - 1];
      assert choices == prefix + [c];
      SumOverChoices(keys, prefix);
      SumOverAdd(keys, multiset(prefix), c);
      DistinctOnce(keys, c);
    }
  }

  lemma {:induction false} SumOverEmpty(keys: seq<string>)
    ensures SumOver(keys, multiset{}) == 0
  {
    if keys != [] { SumOverEmpty(keys[1..]); }
  }

  /** Sum of `counts[k]` over the listed keys, each of which holds a number. */
  function SumCounts(keys: seq<string>, counts: map<string, Count>): nat
    requires forall k :: k in keys ==> k in counts && counts[k].Num?
  {
    if keys == [] then 0 else counts[keys[0]].n + SumCounts(keys[1..], counts)
  }

  /** Sum of `percentages[k]` over the listed keys. */
  function SumPercentages(keys: seq<string>, percentages: map<string, real>): real
    requires forall k :: k in keys ==> k in percentages
  {
    if keys == [] then 0.0 else percentages[keys[0]] + SumPercentages(keys[1..], percentages)
  }

  lemma {:induction false} SumCountsIsSumOver(keys: seq<string>, options: seq<string>, choices: seq<string>)
    requires forall k :: k in keys ==> k in options
    ensures forall k :: k in keys ==> k in Tally(ZeroCounts(options), choices) && Tally(ZeroCounts(options), choices)[k].Num?
    ensures SumCounts(keys, Tally(ZeroCounts(options), choices)) == SumOver(keys, multiset(choices))
  {
    forall k | k in keys ensures k in Tally(ZeroCounts(options), choices) && Tally(ZeroCounts(options), choices)[k] == Num(multiset(choices)[k]) {
      TallyOf(ZeroCounts(options), choices, k);
    }
    if keys != [] {
      SumCountsIsSumOver(keys[1..], options, choices);
    }
  }

  /**
   * With distinct declared options and only declared choices, the counts of
   * the declared options add up to `total_responses`.
   */
  lemma CountsSumToTotal<Id>(pollId: Id, options: seq<string>, choices: seq<string>)
    requires Distinct(options)
    requires forall i :: 0 <= i < |choices| ==> choices[i] in options
    ensures var r := ResultsFor(pollId, options, choices);
      && (forall o :: o in options ==> o in r.option_counts && r.option_counts[o].Num?)
      && SumCounts(options, r.option_counts) == r.total_responses
  {
    SumCountsIsSumOver(options, options, choices);
    SumOverChoices(options, choices);
  }

  lemma {:induction false} SumOfShares(keys: seq<string>, options: seq<string>, choices: seq<string>)
    requires |choices| > 0
    requires forall k :: k in keys ==> k in options
    ensures forall k :: k in keys ==> k in Shares(options, choices)
    ensures SumPercentages(keys, Shares(options, choices))
         == SumOver(keys, multiset(choices)) as real / |choices| as real * 100.0
  {
    if keys != [] {
      SumOfShares(keys[1..], options, choices);
      ShareAdd(multiset(choices)[keys[0]] as real, SumOver(keys[1..], multiset(choices)) as real, |choices| as real);
    }
  }

  /**
   * With distinct declared options, only declared choices and at least one
   * response, the percentages of the declared options add up to 100.
   */
  lemma PercentagesSumTo100<Id>(pollId: Id, options: seq<string>, choices: seq<string>)
    requires Distinct(options)
    requires forall i :: 0 <= i < |choices| ==> choices[i] in options
    requires |choices| > 0
    ensures var r := ResultsFor(pollId, options, choices);
      && (forall o :: o in options ==> o in r.option_percentages)
      && SumPercentages(options, r.option_percentages) == 100.0
  {
    SumOfShares(options, options, choices);
    SumOverChoices(options, choices);
    WholeShare(|choices| as real);
  }

  lemma WholeShare(t: real)
    requires t > 0.0
    ensures t / t * 100.0 == 100.0
  {
    assert t / t == 1.0;
  }

  /**
   * Every declared option gets a percentage within [0, 100], and exactly
   * `count / total * 100`; with no responses every percentage is 0.
   */
  lemma Percentages<Id>(pollId: Id, options: seq<string>, choices: seq<string>, o: string)
    requires o in options
    ensures var r := ResultsFor(pollId, options, choices);
      && o in r.option_percentages
      && 0.0 <= r.option_percentages[o] <= 100.0
      && (|choices| > 0 ==> r.option_percentages[o] == multiset(choices)[o] as real / |choices| as real * 100.0)
      && (|choices| == 0 ==> r.option_percentages[o] == 0.0 && r.option_counts[o] == Num(0))
  {
    TallyOf(ZeroCounts(options), choices, o);
    MultiplicityAtMostLength(choices, o);
    if |choices| > 0 {
      ShareBounds(multiset(choices)[o] as real, |choices| as real);
    }
  }

  lemma ShareAdd(a: real, b: real, t: real)
    requires t > 0.0
    ensures a / t * 100.0 + b / t * 100.0 == (a + b) / t * 100.0
  {
    var x, y := a / t, b / t;
    assert x * t == a && y * t == b;
    assert (x + y) * t == a + b;
  }

  lemma ShareBounds(c: real, t: real)
    requires 0.0 <= c <= t && t > 0.0
    ensures 0.0 <= c / t * 100.0 <= 100.0
  {
    var x := c / t;
    assert x * t == c;
    assert x <= 1.0;
  }

  lemma {:induction false} MultiplicityAtMostLength(s: seq<string>, o: string)
    ensures multiset(s)[o] <= |s|
  {
    if s != [] {
      assert s == [s[0]] + s[1..];
      MultiplicityAtMostLength(s[1..], o);
    }
  }
}
