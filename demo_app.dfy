/**
 * The single-page demo of app/page.tsx: a second in-memory store
 * (`mockDatabase`) holding users and responses in JavaScript `Map`s, the
 * `Home` screen state machine over welcome / poll / recording / results,
 * its 120-second countdown and the `formatTime` helper.
 */
module DemoApp {
  import opened Wrappers
  import opened Decimal
  import opened OrderedMap
  import opened Aggregation
  import opened ResultsView

  datatype DemoUser = DemoUser(id: string, email: string)

  datatype DemoResponse = DemoResponse(pollId: string, userId: string, option: string, videoUrl: string, timestamp: int)

  /** The hard-coded `mockPoll`. */
  const MockPollId: string := "poll-1"
  const MockQuestion: string := "Who has the most contagious laugh on campus?"
  const MockOptions: seq<string> := [
    "The one who snorts when they laugh",
    "The silent giggler",
    "The belly laugher",
    "The one who laughs at everything"
  ]
  const MockVideoUrl: string := "mock-video-url"

  /** The options of `mockPoll` are distinct, so the demo's counts add up to its total. */
  lemma MockOptionsDistinct()
    ensures Distinct(MockOptions)
  {
  }

  /** The store key of a response: `${pollId}-${userId}`. */
  function ResponseKey(pollId: string, userId: string): (key: string)
    ensures |key| == |pollId| + 1 + |userId|
    ensures key[..|pollId|] == pollId && key[|pollId|] == '-' && key[|pollId| + 1..] == userId
  {
    pollId + "-" + userId
  }

  /** Within one poll the key determines the user, so one user has one slot per poll. */
  lemma ResponseKeyInjective(pollId: string, u1: string, u2: string)
    ensures ResponseKey(pollId, u1) == ResponseKey(pollId, u2) <==> u1 == u2
  {
    if ResponseKey(pollId, u1) == ResponseKey(pollId, u2) {
      var n := |pollId| + 1;
      assert ResponseKey(pollId, u1)[n..] == u1;
      assert ResponseKey(pollId, u2)[n..] == u2;
    }
  }

  /**
   * Across polls the key is not injective: a poll id that ends in a dash
   * followed by a prefix of the user id shares a key with another pair.
   * The demo only ever stores responses to `poll-1`, where no collision arises.
   */
  lemma ResponseKeyCollides()
    ensures ResponseKey("poll", "1-user-7") == ResponseKey("poll-1", "user-7")
  {
  }

  /** The chosen options of the responses to `pollId`, in iteration order. */
  function DemoChoices(rs: seq<DemoResponse>, pollId: string): seq<string>
    decreases |rs|
  {
    if rs == [] then []
    else
      var last := rs[|rs| - 1];
      DemoChoices(rs[..|rs| - 1], pollId) + (if last.pollId == pollId then [last.option] else [])
  }

  /** A stored response to `pollId` has its option among the counted choices. */
  lemma {:induction false} DemoChoicesHas(rs: seq<DemoResponse>, pollId: string, r: DemoResponse)
    requires r in rs && r.pollId == pollId
    ensures r.option in DemoChoices(rs, pollId)
    decreases |rs|
  {
    var init := rs[..|rs| - 1];
    if r != rs[|rs| - 1] {
      assert rs == init + [rs[|rs| - 1]];
      DemoChoicesHas(init, pollId, r);
    }
  }

  /** Every entry is stored under the key of its own poll and user. */
  ghost predicate KeyedByVoter(m: seq<(string, DemoResponse)>) {
    forall i :: 0 <= i < |m| ==> m[i].0 == ResponseKey(m[i].1.pollId, m[i].1.userId)
  }

  /** A store keyed by voter holds at most one response per poll and user. */
  lemma OneResponsePerVoter(m: seq<(string, DemoResponse)>)
    requires DistinctKeys(m) && KeyedByVoter(m)
    ensures forall i, j :: 0 <= i < j < |m| ==>
      m[i].1.pollId != m[j].1.pollId || m[i].1.userId != m[j].1.userId
  {
  }

  /**
   * A repeated submission by the same user to the same poll replaces the
   * earlier one: storing two votes is the same as storing only the last.
   */
  lemma ResubmitReplaces(m: seq<(string, DemoResponse)>, r1: DemoResponse, r2: DemoResponse)
    requires r1.pollId == r2.pollId && r1.userId == r2.userId
    ensures Set(Set(m, ResponseKey(r1.pollId, r1.userId), r1), ResponseKey(r2.pollId, r2.userId), r2)
         == Set(m, ResponseKey(r2.pollId, r2.userId), r2)
  {
    SetTwice(m, ResponseKey(r1.pollId, r1.userId), r1, r2);
  }

  /** `mockDatabase`. */
  class DemoStore {
    var users: seq<(string, DemoUser)>
    var responses: seq<(string, DemoResponse)>

    ghost predicate Valid()
      reads this
    {
      DistinctKeys(users) && DistinctKeys(responses) && KeyedByVoter(responses)
    }

    constructor ()
      ensures Valid() && users == [] && responses == []
    {
      users, responses := [], [];
    }

    /**
     * `createUser`: the id is `user-` and the millisecond clock, so a
     * second user created in the same millisecond replaces the first.
     */
    method CreateUser(email: string, now: nat) returns (user: DemoUser)
      requires Valid()
      modifies this
      ensures Valid()
      ensures user == DemoUser("user-" + Dec(now), email)
      ensures users == Set(old(users), user.id, user)
      ensures Get(users, user.id) == Some(user)
      ensures responses == old(responses)
    {
      user := DemoUser("user-" + Dec(now), email);
      SetKeepsDistinct(users, user.id, user);
      users := Set(users, user.id, user);
      GetAfterSet(old(users), user.id, user, user.id);
    }

    /** `submitResponse`: stores the response under the poll-and-user key, replacing any earlier one. */
    method SubmitResponse(pollId: string, userId: string, option: string, videoUrl: string, now: int)
      requires Valid()
      modifies this
      ensures Valid()
      ensures responses == Set(old(responses), ResponseKey(pollId, userId),
        DemoResponse(pollId, userId, option, videoUrl, now))
      ensures DemoResponse(pollId, userId, option, videoUrl, now) in Values(responses)
      ensures users == old(users)
    {
      var response := DemoResponse(pollId, userId, option, videoUrl, now);
      SetKeepsDistinct(responses, ResponseKey(pollId, userId), response);
      responses := Set(responses, ResponseKey(pollId, userId), response);
      var k :| 0 <= k < |responses| && responses[k] == (ResponseKey(pollId, userId), response);
      assert Values(responses)[k] == response;
    }

    /**
     * `getPollResults`: counts the responses to `pollId` over the options
     * of `mockPoll`, whatever poll the id names.
     */
    method GetPollResults(pollId: string) returns (r: PollResults<string>)
      ensures r == ResultsFor(pollId, MockOptions, DemoChoices(Values(responses), pollId))
    {
      var all := Values(responses);
      var choices: seq<string> := [];
      for i := 0 to |all|
        invariant choices == DemoChoices(all[..i], pollId)
      {
        assert all[..i + 1][..i] == all[..i];
        if all[i].pollId == pollId {
          choices := choices + [all[i].option];
        }
      }
      assert all[..|all|] == all;
      r := ComputeResults(pollId, MockOptions, choices);
    }
  }

  datatype AppState = Welcome | PollScreen | Recording | Results | Waiting

  const PollSeconds: nat := 120

  /** `formatTime(seconds)`: minutes, a colon, and the seconds padded to two digits. */
  function FormatTime(seconds: nat): string {
    Dec(seconds / 60) + ":" + PadStart2(Dec(seconds % 60))
  }

  /**
   * Reading the text back: before the colon stand the minutes, after it
   * exactly two digits of seconds below 60, and minutes * 60 + seconds is
   * the input again.
   */
  lemma FormatTimeRoundTrip(seconds: nat)
    ensures var t := FormatTime(seconds);
      && |t| >= 4 && t[|t| - 3] == ':'
      && AllDigits(t[..|t| - 3]) && AllDigits(t[|t| - 2..])
      && Value(t[|t| - 2..]) < 60
      && Value(t[..|t| - 3]) * 60 + Value(t[|t| - 2..]) == seconds
  {
    var mins := Dec(seconds / 60);
    var secs := PadStart2(Dec(seconds % 60));
    TwoDigitField(seconds % 60);
    ValueOfDec(seconds / 60);
    var t := FormatTime(seconds);
    assert t == mins + ":" + secs;
    assert t[..|t| - 3] == mins;
    assert t[|t| - 2..] == secs;
  }

  /** `((120 - timeLeft) / 120) * 100`, the elapsed share of the poll window. */
  function ProgressPercentage(timeLeft: int): real {
    (PollSeconds - timeLeft) as real / PollSeconds as real * 100.0
  }

  /** The bar is empty at the start, full at zero, and grows as the counter falls. */
  lemma ProgressBounds(t1: int, t2: int)
    requires 0 <= t1 <= t2 <= PollSeconds
    ensures 0.0 <= ProgressPercentage(t2) <= ProgressPercentage(t1) <= 100.0
    ensures ProgressPercentage(PollSeconds) == 0.0 && ProgressPercentage(0) == 100.0
  {
  }

  /** The `Home` page component and its state. */
  class Home {
    var user: Option<DemoUser>
    var selectedOption: string
    var appState: AppState
    var isPollActive: bool
    var pollResults: Option<PollResults<string>>
    var timeLeft: int
    var email: string
    const store: DemoStore

    /**
     * The counter stays within the poll window, and the results screen is
     * only ever entered with results to show.
     */
    ghost predicate Valid()
      reads this, store
    {
      && 0 <= timeLeft <= PollSeconds
      && (appState == Results ==> pollResults.Some?)
      && store.Valid()
    }

    constructor (store: DemoStore)
      requires store.Valid()
      ensures Valid() && this.store == store
      ensures user == None && selectedOption == "" && appState == Welcome
      ensures !isPollActive && pollResults == None && timeLeft == PollSeconds && email == ""
    {
      this.store := store;
      user, selectedOption, appState := None, "", Welcome;
      isPollActive, pollResults, timeLeft, email := false, None, PollSeconds, "";
    }

    /** The email input's `onChange`. */
    method SetEmail(value: string)
      requires Valid()
      modifies this
      ensures Valid()
      ensures email == value
      ensures user == old(user) && appState == old(appState) && selectedOption == old(selectedOption)
      ensures isPollActive == old(isPollActive) && pollResults == old(pollResults) && timeLeft == old(timeLeft)
    {
      email := value;
    }

    /** `handleLogin`: with a non-empty email, creates and keeps a user and moves on to the poll. */
    method HandleLogin(now: nat)
      requires Valid()
      modifies this, store
      ensures Valid()
      ensures email != "" ==>
        && user == Some(DemoUser("user-" + Dec(now), email))
        && appState == PollScreen
        && store.users == Set(old(store.users), user.value.id, user.value)
      ensures email == "" ==> user == old(user) && appState == old(appState) && store.users == old(store.users)
      ensures store.responses == old(store.responses)
      ensures selectedOption == old(selectedOption) && isPollActive == old(isPollActive)
      ensures pollResults == old(pollResults) && timeLeft == old(timeLeft) && email == old(email)
    {
      if email != "" {
        var newUser := store.CreateUser(email, now);
        user := Some(newUser);
        appState := PollScreen;
      }
    }

    /** `handleVote`: remembers the option and opens the recorder. */
    method HandleVote(option: string)
      requires Valid()
      modifies this
      ensures Valid()
      ensures selectedOption == option && appState == Recording
      ensures user == old(user) && isPollActive == old(isPollActive)
      ensures pollResults == old(pollResults) && timeLeft == old(timeLeft) && email == old(email)
    {
      selectedOption := option;
      appState := Recording;
    }

    /**
     * `handleRecordingComplete`: without a user or a selected option it
     * does nothing; otherwise it submits the vote first and then shows the
     * results, which therefore include that vote.
     */
    method HandleRecordingComplete(now: int)
      requires Valid()
      modifies this, store
      ensures Valid()
      ensures user.None? || selectedOption == "" ==>
        appState == old(appState) && pollResults == old(pollResults) && store.responses == old(store.responses)
      ensures user.Some? && selectedOption != "" ==>
        && store.responses == Set(old(store.responses), ResponseKey(MockPollId, user.value.id),
             DemoResponse(MockPollId, user.value.id, selectedOption, MockVideoUrl, now))
        && pollResults == Some(ResultsFor(MockPollId, MockOptions, DemoChoices(Values(store.responses), MockPollId)))
        && selectedOption in DemoChoices(Values(store.responses), MockPollId)
        && appState == Results
      ensures user == old(user) && selectedOption == old(selectedOption) && isPollActive == old(isPollActive)
      ensures timeLeft == old(timeLeft) && email == old(email) && store.users == old(store.users)
    {
      if user.None? || selectedOption == "" {
        return;
      }
      var response := DemoResponse(MockPollId, user.value.id, selectedOption, MockVideoUrl, now);
      store.SubmitResponse(MockPollId, user.value.id, selectedOption, MockVideoUrl, now);
      ghost var stored := Values(store.responses);
      DemoChoicesHas(stored, MockPollId, response);
      ShowResults();
    }

    /** `handleRecordingCancel`: drops the selection and goes back to the poll. */
    method HandleRecordingCancel()
      requires Valid()
      modifies this
      ensures Valid()
      ensures selectedOption == "" && appState == PollScreen
      ensures user == old(user) && isPollActive == old(isPollActive)
      ensures pollResults == old(pollResults) && timeLeft == old(timeLeft) && email == old(email)
    {
      selectedOption := "";
      appState := PollScreen;
    }

    /** `handlePollExpire`: closes the poll and shows the current results. */
    method HandlePollExpire()
      requires Valid()
      modifies this
      ensures Valid()
      ensures !isPollActive && appState == Results
      ensures pollResults == Some(ResultsFor(MockPollId, MockOptions, DemoChoices(Values(store.responses), MockPollId)))
      ensures user == old(user) && selectedOption == old(selectedOption)
      ensures timeLeft == old(timeLeft) && email == old(email)
    {
      isPollActive := false;
      ShowResults();
    }

    /** `setPollResults(mockDatabase.getPollResults(mockPoll.id)); setAppState('results')`. */
    method ShowResults()
      requires Valid()
      modifies this
      ensures Valid()
      ensures appState == Results
      ensures pollResults == Some(ResultsFor(MockPollId, MockOptions, DemoChoices(Values(store.responses), MockPollId)))
      ensures user == old(user) && selectedOption == old(selectedOption) && isPollActive == old(isPollActive)
      ensures timeLeft == old(timeLeft) && email == old(email)
    {
      var results := store.GetPollResults(MockPollId);
      pollResults := Some(results);
      appState := Results;
    }

    /**
     * One second of the poll timer. The interval only runs while the poll
     * screen shows an active poll; it counts down by one while above 1,
     * and from 1 (or below) it sets 0 and expires the poll.
     */
    method Tick()
      requires Valid()
      modifies this
      ensures Valid()
      ensures !(old(appState) == PollScreen && old(isPollActive)) ==>
        appState == old(appState) && isPollActive == old(isPollActive)
        && timeLeft == old(timeLeft) && pollResults == old(pollResults)
      ensures old(appState) == PollScreen && old(isPollActive) && old(timeLeft) > 1 ==>
        timeLeft == old(timeLeft) - 1 && appState == PollScreen && isPollActive
        && pollResults == old(pollResults)
      ensures old(appState) == PollScreen && old(isPollActive) && old(timeLeft) <= 1 ==>
        timeLeft == 0 && appState == Results && !isPollActive
        && pollResults == Some(ResultsFor(MockPollId, MockOptions, DemoChoices(Values(store.responses), MockPollId)))
      ensures user == old(user) && selectedOption == old(selectedOption) && email == old(email)
    {
      if !(appState == PollScreen && isPollActive) {
        return;
      }
      if timeLeft <= 1 {
        HandlePollExpire();
        timeLeft := 0;
      } else {
        timeLeft := timeLeft - 1;
      }
    }

    /** The "Start Poll Now (Demo)" button: activates the poll with a fresh 120-second window. */
    method StartPollDemo()
      requires Valid()
      modifies this
      ensures Valid()
      ensures isPollActive && timeLeft == PollSeconds
      ensures user == old(user) && selectedOption == old(selectedOption) && appState == old(appState)
      ensures pollResults == old(pollResults) && email == old(email)
    {
      isPollActive := true;
      timeLeft := PollSeconds;
    }

    /**
     * The results list with the options ranked first, as the results
     * component does: the badge then goes to an option with the greatest
     * percentage.
     */
    method RankedPageRows() returns (rows: seq<Row>)
      requires Valid() && appState == Results
      ensures |rows| == |MockOptions|
      ensures multiset(seq(|rows|, i requires 0 <= i < |rows| => rows[i].option)) == multiset(MockOptions)
      ensures forall i, k :: 0 <= i < |rows| && 0 <= k < |rows| && rows[i].isWinner ==>
        rows[k].percentage <= rows[i].percentage
      ensures (exists i :: 0 <= i < |rows| && rows[i].isWinner) <==>
        (exists k :: 0 <= k < |rows| && rows[k].percentage > 0.0)
    {
      var options := new string[|MockOptions|](i requires 0 <= i < |MockOptions| => MockOptions[i]);
      assert options[..] == MockOptions;
      rows := RankedRows(options, pollResults.value);
      RankedWinnerIsMaximal(options[..], pollResults.value);
      assert seq(|rows|, i requires 0 <= i < |rows| => rows[i].option) == options[..];
    }

    /**
     * The results list of the page as written: the options of `mockPoll` in
     * declaration order, with the badge on the first of them.
     */
    method PageRows() returns (rows: seq<Row>)
      requires Valid() && appState == Results
      ensures rows == Rows(MockOptions, pollResults.value)
    {
      rows := Rows(MockOptions, pollResults.value);
    }
  }

  /**
   * The page's own results list flags the first declared option even when
   * another option has more votes: two votes for the second option and one
   * for the first put the badge on the first, at a third of the votes.
   */
  lemma PageWinnerNotHighest()
    ensures var choices := [MockOptions[1], MockOptions[1], MockOptions[0]];
      var rows := Rows(MockOptions, ResultsFor(MockPollId, MockOptions, choices));
      rows[0].isWinner && rows[1].percentage > rows[0].percentage
  {
    var first, second := MockOptions[0], MockOptions[1];
    var choices := [second, second, first];
    assert first != second;
    assert multiset(choices) == multiset{second, second, first};
    var pcts := Shares(MockOptions, choices);
    assert ResultsFor(MockPollId, MockOptions, choices).option_percentages == pcts;
    assert pcts[first] == Percent(1, 3) == 1.0 / 3.0 * 100.0;
    assert pcts[second] == Percent(2, 3) == 2.0 / 3.0 * 100.0;
  }
}
