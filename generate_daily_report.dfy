/**
 * The command-line variant of the daily digest (`scripts/generate-daily-report.ts`): the same
 * user loop as the scheduled route, without the secret check. A failure of the bulk load or of a
 * mail rejects `main`; the rejection is only logged, so it ends the run with its message.
 */
module GenerateDailyReport {
  import opened Domain
  import opened DailyReport
  import EmailHtml
  import CronRoute

  /**
   * The script's whole run: the load, then every user in load order until a mail fails. A failed
   * load does nothing else and rejects with its message; otherwise the run rejects exactly when
   * some user's mail failed.
   */
  function MainSpec(load: LoadResult, env: Env, date: string): (run: Run)
    ensures load.LoadFailed? ==> run.rows == [] && run.trace == [] && run.failure == Some(load.message)
    ensures load.Loaded? ==> (run.failure.Some? <==> Stopped(env, load.users, |load.users|))
  {
    match load
    case LoadFailed(message) => Run([], [], Some(message))
    case Loaded(users) =>
      FailureIsStop(env, users, |users|, EmailHtml.DailyPage(date));
      RunUsers(env, users, |users|, EmailHtml.DailyPage(date))
  }

  /** `main`: load, then the user loop; a rejection is returned as `failure`. */
  method GenerateReports(load: LoadResult, env: Env, date: string)
    returns (rows: seq<AssessmentRow>, trace: seq<Event>, failure: Option<string>)
    ensures Run(rows, trace, failure) == MainSpec(load, env, date)
  {
    if load.LoadFailed? {
      return [], [], Some(load.message);
    }
    rows, trace, failure := ProcessUsers(env, load.users, EmailHtml.DailyPage(date));
  }

  /**
   * The script and an admitted request to the route do the same work on the same users: the same
   * rows, the same events, and the script fails exactly when the route answers 500, with the
   * route's body being the script's failure message whenever that message is not empty.
   */
  lemma SameAsRoute(secret: Option<string>, header: Option<string>, load: LoadResult, env: Env, date: string)
    requires !CronRoute.Refused(secret, header)
    ensures var run, o := MainSpec(load, env, date), CronRoute.PostSpec(secret, header, load, env, date);
      && run.rows == o.rows && run.trace == o.trace
      && (run.failure.Some? <==> o.response.status == 500)
      && (run.failure.Some? && run.failure.value != "" ==> o.response.body == run.failure.value)
  {
  }

  /**
   * Nothing happens for users after the first failed mail: the run over all users equals the run
   * over the users up to and including the one whose mail failed.
   */
  lemma {:induction false} StopsAtFailedMail(users: seq<User>, env: Env, date: string, m: nat)
    requires m < |users|
    requires RunUsers(env, users, m, EmailHtml.DailyPage(date)).failure.None?
    requires EmailsUser(env, m, users[m]) && env.deliver(m).MailFailed?
    ensures MainSpec(Loaded(users), env, date) == RunUsers(env, users, m + 1, EmailHtml.DailyPage(date))
    ensures MainSpec(Loaded(users), env, date).failure == Some(env.deliver(m).message)
  {
    MailFailureEndsRun(env, users, m, EmailHtml.DailyPage(date));
  }
}
