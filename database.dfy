/**
 * The in-memory poll store `MockDatabase` of lib/database.ts. Each of its
 * four JavaScript `Map`s is keyed by a freshly generated id, so every `set`
 * appends; the tables are kept here as sequences in insertion order, the
 * order in which the lookups scan them.
 */
module Database {
  import opened Wrappers
  import opened PollTypes
  import opened Aggregation

  const DayMs: nat := 86_400_000
  const RetentionDays: nat := 30

  /** The calendar day of a timestamp (`setHours(0, 0, 0, 0)`, time zone left out). */
  function Day(t: int): int {
    t / DayMs
  }

  /** The retention cut-off of `cleanupOldData`: thirty days before `now`. */
  function Cutoff(now: int): int {
    now - RetentionDays * DayMs
  }

  datatype Template = Template(question: string, options: seq<string>)

  /** The templates `initializeMockData` uses for today's polls. */
  const SeedTemplates: seq<Template> := [
    Template("Who has the most contagious laugh on campus?",
      ["The one who snorts when they laugh", "The silent giggler", "The belly laugher", "The one who laughs at everything"]),
    Template("Which classmate would you want on your team for any challenge?",
      ["The problem solver", "The cheerleader", "The creative one", "The organized planner"]),
    Template("Who has the best style that makes you smile?",
      ["The color coordinator", "The vintage lover", "The minimalist", "The trendsetter"])
  ]

  /** The templates `createDailyPolls` uses for tomorrow's polls. */
  const DailyTemplates: seq<Template> := [
    Template("Who brightens your day with their smile?",
      ["The morning person", "The lunch buddy", "The hallway greeter", "The class clown"]),
    Template("Which classmate would you trust with your biggest secret?",
      ["The loyal friend", "The good listener", "The trustworthy one", "The supportive person"]),
    Template("Who has the most positive energy in the room?",
      ["The motivator", "The encourager", "The optimist", "The cheerleader"])
  ]

  /** Name, district and state of the three seeded schools. */
  const SeedSchools: seq<(string, string, string)> := [
    ("Plano Senior High School", "Plano ISD", "Texas"),
    ("Allen High School", "Allen ISD", "Texas"),
    ("McKinney High School", "McKinney ISD", "Texas")
  ]

  /** The record of seeded school `k`, whose id is `k`. */
  function SeedSchool(k: nat): School
    requires k < |SeedSchools|
  {
    School(k, SeedSchools[k].0, SeedSchools[k].1, SeedSchools[k].2)
  }

  ghost predicate Seeded(schools: seq<School>) {
    |schools| == |SeedSchools| && forall k :: 0 <= k < |SeedSchools| ==> schools[k] == SeedSchool(k)
  }

  /**
   * The polls one round-robin pass appends: school `i` of the list gets
   * template `i mod |templates|`, all scheduled for `scheduledFor`.
   */
  function RoundRobin(schools: seq<School>, templates: seq<Template>, firstId: Uuid, scheduledFor: int, now: int): seq<DailyPoll>
    requires |templates| > 0
  {
    seq(|schools|, i requires 0 <= i < |schools| =>
      DailyPoll(firstId + i, schools[i].school_id,
        templates[i % |templates|].question, templates[i % |templates|].options,
        scheduledFor, now))
  }

  /** Whether `p` is the given school's poll on the calendar day of `now`. */
  predicate IsTodaysPoll(p: DailyPoll, schoolId: Uuid, now: int) {
    p.school_id == schoolId && Day(p.scheduled_for) == Day(now)
  }

  /** `dailyPolls.get(pollId)`. */
  function PollById(polls: seq<DailyPoll>, pollId: Uuid): (r: Option<DailyPoll>)
    ensures r.None? <==> forall i :: 0 <= i < |polls| ==> polls[i].poll_id != pollId
    ensures r.Some? ==> r.value in polls && r.value.poll_id == pollId
  {
    if polls == [] then None
    else if polls[0].poll_id == pollId then Some(polls[0])
    else
      var r := PollById(polls[1..], pollId);
      assert forall i :: 1 <= i < |polls| ==> polls[i] == polls[1..][i - 1];
      r
  }

  /** The chosen options of the stored responses to `pollId`, in storage order. */
  function ChoicesFor(rs: seq<PollResponse>, pollId: Uuid): seq<string>
    decreases |rs|
  {
    if rs == [] then []
    else
      var last := rs[|rs| - 1];
      ChoicesFor(rs[..|rs| - 1], pollId) + (if last.poll_id == pollId then [last.chosen_option] else [])
  }

  /** Whether some stored response is by `userId` to `pollId`. */
  predicate Voted(rs: seq<PollResponse>, pollId: Uuid, userId: Uuid) {
    exists i :: 0 <= i < |rs| && rs[i].poll_id == pollId && rs[i].responder_id == userId
  }

  /** The records of `s` that are not older than `cutoff`, in order. */
  function KeepSince<T>(s: seq<T>, at: T -> int, cutoff: int): seq<T>
    decreases |s|
  {
    if s == [] then []
    else
      var last := s[|s| - 1];
      KeepSince(s[..|s| - 1], at, cutoff) + (if at(last) < cutoff then [] else [last])
  }

  lemma KeepSinceStep<T>(s: seq<T>, at: T -> int, cutoff: int, j: nat)
    requires j < |s|
    ensures KeepSince(s[..j + 1], at, cutoff)
         == KeepSince(s[..j], at, cutoff) + (if at(s[j]) < cutoff then [] else [s[j]])
  {
    assert s[..j + 1][..j] == s[..j];
  }

  /**
   * One step of deleting while iterating: with the first `j` records of
   * `orig` filtered into `table[..i]` and the rest untouched, the record at
   * `i` is `orig[j]`, and deleting it (when old) or stepping past it (when
   * not) extends the filtered part by one record of `orig`.
   */
  lemma PurgeStep<T>(orig: seq<T>, at: T -> int, cutoff: int, j: nat, table: seq<T>, i: nat)
    requires j <= |orig|
    requires table == KeepSince(orig[..j], at, cutoff) + orig[j..]
    requires i == |KeepSince(orig[..j], at, cutoff)|
    ensures i < |table| <==> j < |orig|
    ensures j < |orig| ==> table[i] == orig[j]
    ensures j < |orig| && at(orig[j]) < cutoff ==>
      table[..i] + table[i + 1..] == KeepSince(orig[..j + 1], at, cutoff) + orig[j + 1..]
      && i == |KeepSince(orig[..j + 1], at, cutoff)|
    ensures j < |orig| && at(orig[j]) >= cutoff ==>
      table == KeepSince(orig[..j + 1], at, cutoff) + orig[j + 1..]
      && i + 1 == |KeepSince(orig[..j + 1], at, cutoff)|
  {
    if j < |orig| {
      var kept := KeepSince(orig[..j], at, cutoff);
      KeepSinceStep(orig, at, cutoff, j);
      assert table[..i] == kept && table[i..] == orig[j..];
      assert table[i + 1..] == orig[j + 1..];
      if at(orig[j]) >= cutoff {
        assert table == (kept + [orig[j]]) + orig[j + 1..];
      }
    }
  }

  function SubmittedAt(r: PollResponse): int { r.submitted_at }
  function ScheduledFor(p: DailyPoll): int { p.scheduled_for }
  function UserId(u: User): Uuid { u.user_id }
  function SchoolId(s: School): Uuid { s.school_id }
  function PollId(p: DailyPoll): Uuid { p.poll_id }
  function ResponseId(r: PollResponse): Uuid { r.response_id }

  /**
   * The keys of a table were all issued before `bound` and increase in
   * insertion order, so they are distinct and a new key is never among them.
   */
  ghost predicate Keyed<T>(s: seq<T>, id: T -> Uuid, bound: Uuid) {
    && (forall i :: 0 <= i < |s| ==> id(s[i]) < bound)
    && (forall i, j :: 0 <= i < j < |s| ==> id(s[i]) < id(s[j]))
  }

  lemma KeyedAppend<T>(s: seq<T>, id: T -> Uuid, bound: Uuid, x: T)
    requires Keyed(s, id, bound) && id(x) == bound
    ensures Keyed(s + [x], id, bound + 1)
  {
  }

  /** Issuing an id to another table leaves this one keyed under the new bound. */
  lemma KeyedRaise<T>(s: seq<T>, id: T -> Uuid, bound: Uuid)
    requires Keyed(s, id, bound)
    ensures Keyed(s, id, bound + 1)
  {
  }

  lemma KeyedRemove<T>(s: seq<T>, id: T -> Uuid, bound: Uuid, k: nat)
    requires Keyed(s, id, bound) && k < |s|
    ensures Keyed(s[..k] + s[k + 1..], id, bound)
  {
    var t := s[..k] + s[k + 1..];
    assert forall i :: 0 <= i < |t| ==> t[i] == if i < k then s[i] else s[i + 1];
  }

  /** The first loop of `initializeMockData`: each seeded school under the next fresh id, from 0. */
  method SeedSchoolTable() returns (table: seq<School>)
    ensures Seeded(table)
    ensures Keyed(table, SchoolId, |SeedSchools|)
  {
    table := [];
    for i := 0 to |SeedSchools|
      invariant |table| == i
      invariant forall k :: 0 <= k < i ==> table[k] == SeedSchool(k)
      invariant Keyed(table, SchoolId, i)
    {
      var school := School(i, SeedSchools[i].0, SeedSchools[i].1, SeedSchools[i].2);
      KeyedAppend(table, SchoolId, i, school);
      table := table + [school];
    }
  }

  class MockDatabase {
    var users: seq<User>
    var schools: seq<School>
    var dailyPolls: seq<DailyPoll>
    var responses: seq<PollResponse>
    /** The next identifier `uuidv4()` hands out. */
    var nextId: Uuid

    ghost predicate Valid()
      reads this
    {
      && Keyed(users, UserId, nextId)
      && Keyed(schools, SchoolId, nextId)
      && Keyed(dailyPolls, PollId, nextId)
      && Keyed(responses, ResponseId, nextId)
    }

    /** `new MockDatabase()`. */
    constructor (now: int)
      ensures Valid()
      ensures users == [] && responses == []
      ensures Seeded(schools)
      ensures dailyPolls == RoundRobin(schools, SeedTemplates, 3, now, now)
      ensures nextId == 6
    {
      users, schools, dailyPolls, responses := [], [], [], [];
      nextId := 0;
      new;
      InitializeMockData(now);
    }

    /** `initializeMockData`: three schools, then round-robin one poll per school for today. */
    method InitializeMockData(now: int)
      requires Valid() && nextId == 0
      requires users == [] && schools == [] && dailyPolls == [] && responses == []
      modifies this
      ensures Valid()
      ensures users == [] && responses == []
      ensures Seeded(schools)
      ensures dailyPolls == RoundRobin(schools, SeedTemplates, 3, now, now)
      ensures nextId == 6
    {
      schools := SeedSchoolTable();
      nextId := |SeedSchools|;
      AppendRoundRobin(SeedTemplates, now, now);
    }

    /** The round-robin loop shared by `initializeMockData` and `createDailyPolls`. */
    method AppendRoundRobin(templates: seq<Template>, scheduledFor: int, now: int)
      requires Valid() && |templates| > 0
      modifies this
      ensures Valid()
      ensures dailyPolls == old(dailyPolls) + RoundRobin(schools, templates, old(nextId), scheduledFor, now)
      ensures nextId == old(nextId) + |schools|
      ensures users == old(users) && schools == old(schools) && responses == old(responses)
    {
      ghost var batch := RoundRobin(schools, templates, nextId, scheduledFor, now);
      for index := 0 to |schools|
        invariant Valid()
        invariant nextId == old(nextId) + index
        invariant dailyPolls == old(dailyPolls) + batch[..index]
        invariant users == old(users) && schools == old(schools) && responses == old(responses)
      {
        var template := templates[index % |templates|];
        var poll := DailyPoll(nextId, schools[index].school_id, template.question, template.options, scheduledFor, now);
        assert poll == batch[index];
        assert batch[..index + 1] == batch[..index] + [poll];
        KeyedAppend(dailyPolls, PollId, nextId, poll);
        KeyedRaise(users, UserId, nextId);
        KeyedRaise(schools, SchoolId, nextId);
        KeyedRaise(responses, ResponseId, nextId);
        dailyPolls := dailyPolls + [poll];
        nextId := nextId + 1;
      }
      assert batch[..|schools|] == batch;
    }

    /** `createUser`: always stores a new user under a fresh id; there is no check for an existing email. */
    method CreateUser(schoolEmail: string, now: int) returns (user: User)
      requires Valid()
      modifies this
      ensures Valid()
      ensures user.school_email == schoolEmail && user.created_at == now
      ensures forall u :: u in old(users) ==> u.user_id != user.user_id
      ensures users == old(users) + [user]
      ensures schools == old(schools) && dailyPolls == old(dailyPolls) && responses == old(responses)
    {
      user := User(nextId, schoolEmail, now);
      KeyedAppend(users, UserId, nextId, user);
      users := users + [user];
      nextId := nextId + 1;
    }

    /** `getUserByEmail`: the first stored user with this email, or none when no user has it. */
    method GetUserByEmail(email: string) returns (r: Option<User>)
      ensures r.None? <==> forall i :: 0 <= i < |users| ==> users[i].school_email != email
      ensures r.Some? ==> exists k :: (0 <= k < |users| && users[k] == r.value
        && r.value.school_email == email
        && forall i :: 0 <= i < k ==> users[i].school_email != email)
    {
      for i := 0 to |users|
        invariant forall j :: 0 <= j < i ==> users[j].school_email != email
      {
        if users[i].school_email == email {
          return Some(users[i]);
        }
      }
      return None;
    }

    /** `getSchools`: every stored school, in insertion order. */
    method GetSchools() returns (r: seq<School>)
      ensures r == schools
    {
      r := schools;
    }

    /** `getSchoolById`: the stored school with this id, or none. */
    method GetSchoolById(schoolId: Uuid) returns (r: Option<School>)
      ensures r.None? <==> forall i :: 0 <= i < |schools| ==> schools[i].school_id != schoolId
      ensures r.Some? ==> r.value in schools && r.value.school_id == schoolId
    {
      for i := 0 to |schools|
        invariant forall j :: 0 <= j < i ==> schools[j].school_id != schoolId
      {
        if schools[i].school_id == schoolId {
          return Some(schools[i]);
        }
      }
      return None;
    }

    /** `getTodaysPoll`: the first stored poll of the school scheduled on today's date, or none. */
    method GetTodaysPoll(schoolId: Uuid, now: int) returns (r: Option<DailyPoll>)
      ensures r.None? <==> forall i :: 0 <= i < |dailyPolls| ==> !IsTodaysPoll(dailyPolls[i], schoolId, now)
      ensures r.Some? ==> exists k :: (0 <= k < |dailyPolls| && dailyPolls[k] == r.value
        && IsTodaysPoll(r.value, schoolId, now)
        && forall i :: 0 <= i < k ==> !IsTodaysPoll(dailyPolls[i], schoolId, now))
    {
      var today := Day(now);
      for i := 0 to |dailyPolls|
        invariant forall j :: 0 <= j < i ==> !IsTodaysPoll(dailyPolls[j], schoolId, now)
      {
        var poll := dailyPolls[i];
        if poll.school_id == schoolId && Day(poll.scheduled_for) == today {
          return Some(poll);
        }
      }
      return None;
    }

    /** `createPoll`: stores the given poll under a fresh id. */
    method CreatePoll(schoolId: Uuid, question: string, options: seq<string>, scheduledFor: int, now: int)
      returns (poll: DailyPoll)
      requires Valid()
      modifies this
      ensures Valid()
      ensures poll == DailyPoll(old(nextId), schoolId, question, options, scheduledFor, now)
      ensures forall p :: p in old(dailyPolls) ==> p.poll_id != poll.poll_id
      ensures dailyPolls == old(dailyPolls) + [poll]
      ensures users == old(users) && schools == old(schools) && responses == old(responses)
    {
      poll := DailyPoll(nextId, schoolId, question, options, scheduledFor, now);
      KeyedAppend(dailyPolls, PollId, nextId, poll);
      dailyPolls := dailyPolls + [poll];
      nextId := nextId + 1;
    }

    /**
     * `submitResponse`: stores the caller's response under a fresh id. It
     * checks neither for an earlier vote of the same user nor that the
     * chosen option belongs to the poll.
     */
    method SubmitResponse(pollId: Uuid, responderId: Uuid, chosenOption: string, selfieVideoUrl: string, now: int)
      returns (response: PollResponse)
      requires Valid()
      modifies this
      ensures Valid()
      ensures response == PollResponse(old(nextId), pollId, responderId, chosenOption, selfieVideoUrl, now)
      ensures forall r :: r in old(responses) ==> r.response_id != response.response_id
      ensures responses == old(responses) + [response]
      ensures users == old(users) && schools == old(schools) && dailyPolls == old(dailyPolls)
    {
      response := PollResponse(nextId, pollId, responderId, chosenOption, selfieVideoUrl, now);
      KeyedAppend(responses, ResponseId, nextId, response);
      responses := responses + [response];
      nextId := nextId + 1;
    }

    /** `hasUserVoted`: whether some stored response is by this user to this poll. */
    method HasUserVoted(pollId: Uuid, userId: Uuid) returns (voted: bool)
      ensures voted <==> Voted(responses, pollId, userId)
    {
      for i := 0 to |responses|
        invariant !Voted(responses[..i], pollId, userId)
      {
        if responses[i].poll_id == pollId && responses[i].responder_id == userId {
          assert responses[i] == responses[..i + 1][i];
          return true;
        }
        assert responses[..i + 1] == responses[..i] + [responses[i]];
      }
      assert responses[..|responses|] == responses;
      return false;
    }

    /**
     * `getPollResults`: "Poll not found" for an id that is not stored;
     * otherwise the results over every stored response to the poll.
     */
    method GetPollResults(pollId: Uuid) returns (r: Result<PollResults<Uuid>, string>)
      ensures PollById(dailyPolls, pollId).None? ==> r == Failure("Poll not found")
      ensures PollById(dailyPolls, pollId).Some? ==>
        r == Success(ResultsFor(pollId, PollById(dailyPolls, pollId).value.options, ChoicesFor(responses, pollId)))
    {
      var found := PollById(dailyPolls, pollId);
      if found.None? {
        return Failure("Poll not found");
      }
      var poll := found.value;
      var choices: seq<string> := [];
      for i := 0 to |responses|
        invariant choices == ChoicesFor(responses[..i], pollId)
      {
        assert responses[..i + 1][..i] == responses[..i];
        if responses[i].poll_id == pollId {
          choices := choices + [responses[i].chosen_option];
        }
      }
      assert responses[..|responses|] == responses;
      var results := ComputeResults(pollId, poll.options, choices);
      return Success(results);
    }

    /** `createDailyPolls`: one poll per school for tomorrow, templates taken round-robin. */
    method CreateDailyPolls(now: int)
      requires Valid()
      modifies this
      ensures Valid()
      ensures dailyPolls == old(dailyPolls) + RoundRobin(schools, DailyTemplates, old(nextId), now + DayMs, now)
      ensures nextId == old(nextId) + |schools|
      ensures users == old(users) && schools == old(schools) && responses == old(responses)
    {
      AppendRoundRobin(DailyTemplates, now + DayMs, now);
    }

    /**
     * `cleanupOldData`: deletes every response submitted and every poll
     * scheduled before the thirty-day cut-off.
     */
    method CleanupOldData(now: int)
      requires Valid()
      modifies this
      ensures Valid()
      ensures responses == KeepSince(old(responses), SubmittedAt, Cutoff(now))
      ensures dailyPolls == KeepSince(old(dailyPolls), ScheduledFor, Cutoff(now))
      ensures users == old(users) && schools == old(schools) && nextId == old(nextId)
    {
      var cutoff := Cutoff(now);
      PurgeResponses(cutoff);
      PurgePolls(cutoff);
    }

    /** The first loop of `cleanupOldData`: deletes old responses while iterating over them. */
    method PurgeResponses(cutoff: int)
      requires Valid()
      modifies this
      ensures Valid()
      ensures responses == KeepSince(old(responses), SubmittedAt, cutoff)
      ensures users == old(users) && schools == old(schools) && dailyPolls == old(dailyPolls) && nextId == old(nextId)
    {
      ghost var orig := responses;
      var table := responses;
      var i := 0;
      ghost var j := 0;
      while i < |table|
        invariant 0 <= j <= |orig|
        invariant table == KeepSince(orig[..j], SubmittedAt, cutoff) + orig[j..]
        invariant i == |KeepSince(orig[..j], SubmittedAt, cutoff)|
        invariant Keyed(table, ResponseId, nextId)
        invariant unchanged(this)
        decreases |orig| - j
      {
        PurgeStep(orig, SubmittedAt, cutoff, j, table, i);
        if table[i].submitted_at < cutoff {
          KeyedRemove(table, ResponseId, nextId, i);
          table := table[..i] + table[i + 1..];
        } else {
          i := i + 1;
        }
        j := j + 1;
      }
      assert orig[..j] == orig;
      responses := table;
    }

    /** The second loop of `cleanupOldData`: deletes old polls while iterating over them. */
    method PurgePolls(cutoff: int)
      requires Valid()
      modifies this
      ensures Valid()
      ensures dailyPolls == KeepSince(old(dailyPolls), ScheduledFor, cutoff)
      ensures users == old(users) && schools == old(schools) && responses == old(responses) && nextId == old(nextId)
    {
      ghost var orig := dailyPolls;
      var table := dailyPolls;
      var i := 0;
      ghost var j := 0;
      while i < |table|
        invariant 0 <= j <= |orig|
        invariant table == KeepSince(orig[..j], ScheduledFor, cutoff) + orig[j..]
        invariant i == |KeepSince(orig[..j], ScheduledFor, cutoff)|
        invariant Keyed(table, PollId, nextId)
        invariant unchanged(this)
        decreases |orig| - j
      {
        PurgeStep(orig, ScheduledFor, cutoff, j, table, i);
        if table[i].scheduled_for < cutoff {
          KeyedRemove(table, PollId, nextId, i);
          table := table[..i] + table[i + 1..];
        } else {
          i := i + 1;
        }
        j := j + 1;
      }
      assert orig[..j] == orig;
      dailyPolls := table;
    }
  }
  /** `cleanupOldData` keeps a record exactly when it is not older than the cut-off. */
  lemma {:induction false} KeepSinceMembers<T>(s: seq<T>, at: T -> int, cutoff: int, x: T)
    ensures x in KeepSince(s, at, cutoff) <==> x in s && at(x) >= cutoff
    decreases |s|
  {
    if s != [] {
      var init := s[..|s| - 1];
      KeepSinceMembers(init, at, cutoff, x);
      assert s == init + [s[|s| - 1]];
    }
  }

  /** A purge never adds records, and it removes none exactly when no record is older than the cut-off. */
  lemma {:induction false} KeepSinceShorter<T>(s: seq<T>, at: T -> int, cutoff: int)
    ensures |KeepSince(s, at, cutoff)| <= |s|
    ensures |KeepSince(s, at, cutoff)| == |s| <==> forall i :: 0 <= i < |s| ==> at(s[i]) >= cutoff
    decreases |s|
  {
    if s != [] {
      var init := s[..|s| - 1];
      KeepSinceShorter(init, at, cutoff);
      assert forall i :: 0 <= i < |init| ==> init[i] == s[i];
    }
  }

  /**
   * A later cleanup (an earlier-or-equal cut-off applied to what a later
   * cut-off kept) is the same as applying the later cut-off alone.
   */
  lemma {:induction false} KeepSinceCompose<T>(s: seq<T>, at: T -> int, c1: int, c2: int)
    requires c1 <= c2
    ensures KeepSince(KeepSince(s, at, c1), at, c2) == KeepSince(s, at, c2)
    decreases |s|
  {
    if s != [] {
      var init := s[..|s| - 1];
      var last := s[|s| - 1];
      var k := KeepSince(init, at, c1);
      KeepSinceCompose(init, at, c1, c2);
      if at(last) >= c1 {
        assert KeepSince(s, at, c1) == k + [last];
        assert (k + [last])[..|k + [last]| - 1] == k;
      } else {
        assert KeepSince(s, at, c1) == k + [];
        assert k + [] == k;
        assert KeepSince(s, at, c2) == KeepSince(init, at, c2) + [];
      }
    }
  }

  /** A second `cleanupOldData` with the same cut-off deletes nothing. */
  lemma KeepSinceIdempotent<T>(s: seq<T>, at: T -> int, cutoff: int)
    ensures KeepSince(KeepSince(s, at, cutoff), at, cutoff) == KeepSince(s, at, cutoff)
  {
    KeepSinceCompose(s, at, cutoff, cutoff);
  }

  /**
   * Every template offers four distinct options, so the counting and
   * percentage lemmas of the aggregation apply to every poll the store
   * creates itself.
   */
  lemma TemplateOptionsDistinct()
    ensures forall t :: t in SeedTemplates + DailyTemplates ==> |t.options| == 4 && Distinct(t.options)
  {
    forall t | t in SeedTemplates + DailyTemplates
      ensures |t.options| == 4 && Distinct(t.options)
    {
      FourDistinct(t.options);
    }
  }

  /** Four strings are distinct when no two of them are equal. */
  lemma FourDistinct(s: seq<string>)
    requires |s| == 4
    requires s[0] != s[1] && s[0] != s[2] && s[0] != s[3] && s[1] != s[2] && s[1] != s[3] && s[2] != s[3]
    ensures Distinct(s)
  {
  }

  /** The indices of the stored responses to `pollId`. */
  ghost function ResponsesTo(rs: seq<PollResponse>, pollId: Uuid): set<nat> {
    set i: nat | i < |rs| && rs[i].poll_id == pollId
  }

  /**
   * `total_responses` is the number of stored responses to the poll, and an
   * option is among the counted choices exactly when some such response chose it.
   */
  lemma {:induction false} ChoicesForCounts(rs: seq<PollResponse>, pollId: Uuid, o: string)
    ensures |ChoicesFor(rs, pollId)| == |ResponsesTo(rs, pollId)|
    ensures o in ChoicesFor(rs, pollId) <==>
      exists i :: 0 <= i < |rs| && rs[i].poll_id == pollId && rs[i].chosen_option == o
    decreases |rs|
  {
    if rs != [] {
      var init := rs[..|rs| - 1];
      var last := rs[|rs| - 1];
      ChoicesForCounts(init, pollId, o);
      assert forall i :: 0 <= i < |init| ==> init[i] == rs[i];
      if last.poll_id == pollId {
        assert ResponsesTo(rs, pollId) == ResponsesTo(init, pollId) + {|rs| - 1};
      } else {
        assert ResponsesTo(rs, pollId) == ResponsesTo(init, pollId);
      }
    }
  }

  /**
   * No dedupe: every submission to a poll, including a repeated vote by the
   * same user, adds one to its total and one to the chosen option's share.
   */
  lemma SubmitCountsAgain(rs: seq<PollResponse>, r: PollResponse)
    ensures |ChoicesFor(rs + [r], r.poll_id)| == |ChoicesFor(rs, r.poll_id)| + 1
    ensures multiset(ChoicesFor(rs + [r], r.poll_id))[r.chosen_option]
         == multiset(ChoicesFor(rs, r.poll_id))[r.chosen_option] + 1
  {
    assert (rs + [r])[..|rs + [r]| - 1] == rs;
  }

  /** `hasUserVoted` is true right after `submitResponse` for that poll and user. */
  lemma VotedAfterSubmit(rs: seq<PollResponse>, r: PollResponse, pollId: Uuid, userId: Uuid)
    ensures Voted(rs + [r], pollId, userId) <==>
      Voted(rs, pollId, userId) || (r.poll_id == pollId && r.responder_id == userId)
  {
    var t := rs + [r];
    if Voted(t, pollId, userId) && !(r.poll_id == pollId && r.responder_id == userId) {
      var i :| 0 <= i < |t| && t[i].poll_id == pollId && t[i].responder_id == userId;
      assert t[i] == rs[i];
    }
    if Voted(rs, pollId, userId) {
      var i :| 0 <= i < |rs| && rs[i].poll_id == pollId && rs[i].responder_id == userId;
      assert t[i] == rs[i];
    }
    if r.poll_id == pollId && r.responder_id == userId {
      assert t[|rs|] == r;
    }
  }

  /** `tomorrow.setDate(getDate() + 1)` lands on the next calendar day. */
  lemma TomorrowIsNextDay(now: int)
    ensures Day(now + DayMs) == Day(now) + 1
  {
    assert now + DayMs == (Day(now) + 1) * DayMs + now % DayMs;
  }

  /** The cut-off lies exactly thirty calendar days before `now`. */
  lemma CutoffIsThirtyDaysBack(now: int)
    ensures Day(Cutoff(now)) == Day(now) - 30
    ensures Cutoff(now) % DayMs == now % DayMs
  {
    assert Cutoff(now) == (Day(now) - 30) * DayMs + now % DayMs;
  }

  /**
   * One round-robin pass gives each school exactly one poll: the `k`-th
   * poll belongs to the `k`-th school, takes the question and options of
   * template `k mod |templates|`, and has id `firstId + k`. The ids are new
   * to a poll table keyed below `firstId`, which stays keyed with the batch
   * appended; with distinct school ids no school gets two.
   */
  lemma RoundRobinOnePerSchool(schools: seq<School>, templates: seq<Template>, firstId: Uuid, scheduledFor: int, now: int,
                               bound: Uuid, stored: seq<DailyPoll>)
    requires |templates| > 0 && Keyed(schools, SchoolId, bound) && Keyed(stored, PollId, firstId)
    ensures var batch := RoundRobin(schools, templates, firstId, scheduledFor, now);
      && |batch| == |schools|
      && (forall k :: 0 <= k < |batch| ==>
            batch[k].school_id == schools[k].school_id && batch[k].scheduled_for == scheduledFor
            && batch[k].question == templates[k % |templates|].question
            && batch[k].options == templates[k % |templates|].options
            && batch[k].poll_id == firstId + k)
      && (forall k, m :: 0 <= k < m < |batch| ==>
            batch[k].school_id != batch[m].school_id && batch[k].poll_id < batch[m].poll_id)
      && (forall s :: s in schools ==> exists k :: 0 <= k < |batch| && batch[k].school_id == s.school_id)
      && (forall k, p :: 0 <= k < |batch| && p in stored ==> p.poll_id != batch[k].poll_id)
      && Keyed(stored + batch, PollId, firstId + |schools|)
  {
    var batch := RoundRobin(schools, templates, firstId, scheduledFor, now);
    forall s | s in schools
      ensures exists k :: 0 <= k < |batch| && batch[k].school_id == s.school_id
    {
      var k :| 0 <= k < |schools| && schools[k] == s;
      assert batch[k].school_id == s.school_id;
    }
  }

  /**
   * No dedupe: two `createDailyPolls` runs at any two times of the same day
   * give each school two polls with the same question for the next day.
   * On that day both count as the school's poll of the day, and the first
   * run's stands earlier in the table, so `getTodaysPoll`, which returns the
   * first match, never reaches the second.
   */
  lemma SecondRunDuplicates(schools: seq<School>, firstId: Uuid, secondId: Uuid, now1: int, now2: int, k: nat, t: int)
    requires k < |schools| && Day(now1) == Day(now2) && Day(t) == Day(now1) + 1
    ensures var polls := RoundRobin(schools, DailyTemplates, firstId, now1 + DayMs, now1)
                       + RoundRobin(schools, DailyTemplates, secondId, now2 + DayMs, now2);
      && polls[k].school_id == polls[|schools| + k].school_id == schools[k].school_id
      && polls[k].question == polls[|schools| + k].question
      && Day(polls[k].scheduled_for) == Day(polls[|schools| + k].scheduled_for) == Day(now1) + 1
      && IsTodaysPoll(polls[k], schools[k].school_id, t)
      && IsTodaysPoll(polls[|schools| + k], schools[k].school_id, t)
  {
    TomorrowIsNextDay(now1);
    TomorrowIsNextDay(now2);
  }
}
