/**
 * The capped test run (`scripts/test-daily-flow.ts`): the first user that has tags, at most two
 * of its tags, a 2000 ms delay after each success, and the digest under the test title. The query's
 * `email: { not: undefined }` filter excludes nobody, so a chosen user without an email ends the
 * run before any generation.
 */
module TestDailyFlow {
  import opened Domain
  import opened DailyReport
  import EmailHtml

  /** Delay after each successful tag in the test run. */
  const TestDelayMs: nat := 2000
  /** `take: 2` on the tags relation. */
  const TagLimit: nat := 2

  /** `findFirst` with `tags: { some: {} }`: the first user, in load order, with a tag. */
  function FirstWithTags(users: seq<User>): (k: Option<nat>)
    ensures k.Some? ==> k.value < |users| && |users[k.value].tags| > 0
    ensures k.Some? ==> forall m :: 0 <= m < k.value ==> |users[m].tags| == 0
    ensures k.None? ==> forall m :: 0 <= m < |users| ==> |users[m].tags| == 0
  {
    if users == [] then None
    else if |users[0].tags| > 0 then Some(0)
    else match FirstWithTags(users[1..])
      case None => None
      case Some(k) => Some(k + 1)
  }

  /** The tags the query includes: the first TagLimit of them, in load order. */
  function TakeTags(tags: seq<Tag>): (taken: seq<Tag>)
    ensures |taken| <= TagLimit && |taken| <= |tags|
    ensures |tags| <= TagLimit ==> taken == tags
    ensures |tags| > TagLimit ==> |taken| == TagLimit
    ensures taken == tags[..|taken|]
  {
    if |tags| <= TagLimit then tags else tags[..TagLimit]
  }

  /** The last event of a non-empty trace. */
  function Last(trace: seq<Event>): Event
    requires trace != []
  {
    trace[|trace| - 1]
  }

  /** The user the test run works for: the query's answer, when it has an email. */
  function TestUser(users: seq<User>): (k: Option<nat>)
    ensures k.Some? ==> k.value < |users| && Truthy(users[k.value].email) && |users[k.value].tags| > 0
    ensures k.Some? ==> forall m :: 0 <= m < k.value ==> |users[m].tags| == 0
    ensures k.None? <==> FirstWithTags(users).None? || !Truthy(users[FirstWithTags(users).value].email)
  {
    match FirstWithTags(users)
    case None => None
    case Some(k) => if Truthy(users[k].email) then Some(k) else None
  }

  /**
   * The test run: the query, the early return, the capped tag loop, then mail or a skip notice.
   * It writes at most TagLimit rows, and it fails only when the load fails or the chosen user's
   * mail does.
   */
  function TestFlow(load: LoadResult, env: Env, render: Renderer): (run: Run)
    ensures |run.rows| <= TagLimit
    ensures run.failure.Some? ==>
      || load.LoadFailed?
      || (TestUser(load.users).Some? && env.deliver(TestUser(load.users).value) == MailFailed(run.failure.value))
  {
    match load
    case LoadFailed(message) => Run([], [], Some(message))
    case Loaded(users) =>
      match TestUser(users)
      case None => Run([], [NoSuitableUser], None)
      case Some(k) =>
        var user := users[k];
        var tags := TakeTags(user.tags);
        var r := RunTags(env, k, tags, |tags|, TestDelayMs);
        if |r.digest| == 0 then Run(r.rows, r.trace + [EmailSkipped], None)
        else Run(r.rows, r.trace + [SendEmail(user.email.value, render(r.digest))], MailFailure(env.deliver(k)))
  }

  /** The script's `main`; a rejection (of the query or of the mail) is returned as `failure`. */
  method TestMain(load: LoadResult, env: Env, date: string)
    returns (rows: seq<AssessmentRow>, trace: seq<Event>, failure: Option<string>)
    ensures Run(rows, trace, failure) == TestFlow(load, env, EmailHtml.TestPage(date))
  {
    if load.LoadFailed? {
      return [], [], Some(load.message);
    }
    var found := FirstWithTags(load.users);
    if found.None? || !Truthy(load.users[found.value].email) {
      return [], [NoSuitableUser], None;
    }
    var k := found.value;
    var user := load.users[k];
    var digest;
    digest, rows, trace := ProcessTags(env, k, TakeTags(user.tags), TestDelayMs);
    failure := None;
    if |digest| > 0 {
      var html := EmailHtml.TestPage(date)(digest);
      trace := trace + [SendEmail(user.email.value, html)];
      var outcome := env.deliver(k);
      if outcome.MailFailed? {
        failure := Some(outcome.message);
      }
    } else {
      trace := trace + [EmailSkipped];
    }
  }

  /** Without a user that has tags, or when that user has no email, nothing is generated, written or mailed. */
  lemma EarlyReturnDoesNothing(users: seq<User>, env: Env, render: Renderer)
    requires FirstWithTags(users).None? || !Truthy(users[FirstWithTags(users).value].email)
    ensures TestFlow(Loaded(users), env, render) == Run([], [NoSuitableUser], None)
  {
  }

  /**
   * At most two tags are tried: the generator calls are those of the chosen user's first two tags,
   * in load order, and no more rows are written than calls are made.
   */
  lemma TriesFirstTwoTags(users: seq<User>, env: Env, render: Renderer)
    ensures Filter(TestFlow(Loaded(users), env, render).trace, IsGenerate)
         == (if TestUser(users).Some? then Calls(TakeTags(users[TestUser(users).value].tags)) else [])
    ensures |TestFlow(Loaded(users), env, render).rows| <= |Filter(TestFlow(Loaded(users), env, render).trace, IsGenerate)| <= TagLimit
  {
    if TestUser(users).Some? {
      ChosenUserCalls(users, env, render, TestUser(users).value);
    } else {
      assert Filter([NoSuitableUser], IsGenerate) == [];
    }
  }

  /** TriesFirstTwoTags for a run that found its user. */
  lemma ChosenUserCalls(users: seq<User>, env: Env, render: Renderer, k: nat)
    requires TestUser(users) == Some(k)
    ensures Filter(TestFlow(Loaded(users), env, render).trace, IsGenerate) == Calls(TakeTags(users[k].tags))
    ensures |TestFlow(Loaded(users), env, render).rows| <= |TakeTags(users[k].tags)|
  {
    var run := TestFlow(Loaded(users), env, render);
    var tags := TakeTags(users[k].tags);
    var r := RunTags(env, k, tags, |tags|, TestDelayMs);
    DigestMatchesSuccesses(env, k, tags, |tags|, TestDelayMs);
    GeneratesInOrder(env, k, tags, |tags|, TestDelayMs);
    assert tags[..|tags|] == tags;
    var last := run.trace[|run.trace| - 1];
    assert run.trace == r.trace + [last];
    FilterAppend(r.trace, [last], IsGenerate);
    assert Filter([last], IsGenerate) == [];
  }

  /**
   * For the chosen user, the digest is mailed, once and as the last event, exactly when at least
   * one of the tried tags succeeded; otherwise the skip notice is the last event, no mail goes out
   * and the run cannot fail.
   */
  lemma MailIffSuccess(users: seq<User>, env: Env, render: Renderer, k: nat)
    requires TestUser(users) == Some(k)
    ensures (exists j :: 0 <= j < |TakeTags(users[k].tags)| && Succeeded(env, k, j)) ==>
      && Filter(TestFlow(Loaded(users), env, render).trace, IsSend) == [Last(TestFlow(Loaded(users), env, render).trace)]
      && Last(TestFlow(Loaded(users), env, render).trace).SendEmail?
      && Last(TestFlow(Loaded(users), env, render).trace).to == users[k].email.value
    ensures (forall j :: 0 <= j < |TakeTags(users[k].tags)| ==> !Succeeded(env, k, j)) ==>
      && Filter(TestFlow(Loaded(users), env, render).trace, IsSend) == []
      && Last(TestFlow(Loaded(users), env, render).trace) == EmailSkipped
      && TestFlow(Loaded(users), env, render).failure.None?
  {
    var tags := TakeTags(users[k].tags);
    var r := RunTags(env, k, tags, |tags|, TestDelayMs);
    var js := SucceededTags(env, k, |tags|);
    var run := TestFlow(Loaded(users), env, render);
    ChosenUserRun(users, env, render, k);
    TagTraceCounts(env, k, tags, |tags|, TestDelayMs);
    DigestMatchesSuccesses(env, k, tags, |tags|, TestDelayMs);
    FilterAppend(r.trace, [Last(run.trace)], IsSend);
    if |js| != 0 {
      assert js[0] < |tags| && Succeeded(env, k, js[0]);
    }
  }

  /** The run for a found user: the capped tag loop, then one last event, the mail or the skip notice. */
  lemma ChosenUserRun(users: seq<User>, env: Env, render: Renderer, k: nat)
    requires TestUser(users) == Some(k)
    ensures var r := RunTags(env, k, TakeTags(users[k].tags), |TakeTags(users[k].tags)|, TestDelayMs);
      var run := TestFlow(Loaded(users), env, render);
      && run.trace != []
      && run.trace == r.trace + [Last(run.trace)]
      && Last(run.trace) == (if |r.digest| == 0 then EmailSkipped else SendEmail(users[k].email.value, render(r.digest)))
      && run.failure == (if |r.digest| == 0 then None else MailFailure(env.deliver(k)))
  {
  }
}
