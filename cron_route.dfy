/**
 * The scheduled route `POST /api/cron/daily-report`: a shared-secret check on the
 * `authorization` header, then the daily digest loop over every loaded user. A failure of the
 * bulk load or of a mail reaches the route's outer catch and becomes a 500 response whose body is
 * the error's message.
 */
module CronRoute {
  import opened Domain
  import opened DailyReport
  import EmailHtml

  /** The HTTP response: a status code and a body. */
  datatype Response = Response(status: nat, body: string)

  const UnauthorizedBody: string := "Unauthorized"
  const FallbackError: string := "Internal Error"
  const SuccessBody: string := "{\"success\":true,\"message\":\"Daily reports generated and sent.\"}"

  /** What a request leads to: the response, the rows written and the run's events. */
  datatype Outcome = Outcome(response: Response, rows: seq<AssessmentRow>, trace: seq<Event>)

  /**
   * The secret test: a configured (non-empty) secret must be presented as `Bearer <secret>`. A
   * request is refused exactly when a secret is configured and the header is missing, does not
   * start with "Bearer ", or does not continue with the secret and nothing else.
   */
  predicate Refused(secret: Option<string>, header: Option<string>)
    ensures Refused(secret, header) <==>
      && Truthy(secret)
      && !(&& header.Some? && |header.value| == 7 + |secret.value|
           && header.value[..7] == "Bearer " && header.value[7..] == secret.value)
  {
    assert header.Some? && |header.value| >= 7 ==> header.value == header.value[..7] + header.value[7..];
    Truthy(secret) && header != Some("Bearer " + secret.value)
  }

  /** The outer catch: status 500 with the error's message, or a fixed text when it has none. */
  function ErrorResponse(message: string): (r: Response)
    ensures r.status == 500 && r.body != ""
    ensures message != "" ==> r.body == message
    ensures message == "" ==> r.body == FallbackError
  {
    Response(500, if message == "" then FallbackError else message)
  }

  /**
   * The route's whole behaviour for one request. It answers 200, 401 or 500; 200 carries the
   * success body, and nothing is generated, written or mailed unless the request is admitted and
   * the users are loaded.
   */
  function PostSpec(secret: Option<string>, header: Option<string>, load: LoadResult, env: Env, date: string): (o: Outcome)
    ensures o.response.status == 200 || o.response.status == 401 || o.response.status == 500
    ensures o.response.status == 200 ==> o.response.body == SuccessBody
    ensures o.rows != [] || o.trace != [] ==> !Refused(secret, header) && load.Loaded?
  {
    if Refused(secret, header) then Outcome(Response(401, UnauthorizedBody), [], [])
    else match load
      case LoadFailed(message) => Outcome(ErrorResponse(message), [], [])
      case Loaded(users) =>
        var r := RunUsers(env, users, |users|, EmailHtml.DailyPage(date));
        Outcome(if r.failure.None? then Response(200, SuccessBody) else ErrorResponse(r.failure.value), r.rows, r.trace)
  }

  /** The handler: guard, load, the user loop, then the response. */
  method Post(secret: Option<string>, header: Option<string>, load: LoadResult, env: Env, date: string)
    returns (response: Response, rows: seq<AssessmentRow>, trace: seq<Event>)
    ensures Outcome(response, rows, trace) == PostSpec(secret, header, load, env, date)
  {
    if Truthy(secret) && header != Some("Bearer " + secret.value) {
      return Response(401, UnauthorizedBody), [], [];
    }
    if load.LoadFailed? {
      return ErrorResponse(load.message), [], [];
    }
    var failure;
    rows, trace, failure := ProcessUsers(env, load.users, EmailHtml.DailyPage(date));
    if failure.Some? {
      response := ErrorResponse(failure.value);
    } else {
      response := Response(200, SuccessBody);
    }
  }

  /**
   * With a secret configured, exactly one header gets through, `Bearer <secret>`; any other is
   * answered 401 before anything is loaded, generated, written or mailed. Without a secret every
   * request gets through.
   */
  lemma SecretGuard(secret: Option<string>, header: Option<string>, load: LoadResult, env: Env, date: string)
    ensures var o := PostSpec(secret, header, load, env, date);
      (o.response.status == 401 <==> Truthy(secret) && header != Some("Bearer " + secret.value))
      && (o.response.status == 401 ==> o.rows == [] && o.trace == [] && o.response.body == UnauthorizedBody)
  {
    if !Refused(secret, header) && load.Loaded? {
      var r := RunUsers(env, load.users, |load.users|, EmailHtml.DailyPage(date));
      assert r.failure.Some? ==> ErrorResponse(r.failure.value).status == 500;
    }
  }

  /**
   * An admitted request over loaded users answers 200 exactly when every mail went through, and
   * otherwise 500 carrying the message of the mail that failed, which was the last one sent.
   */
  lemma StatusReflectsMail(secret: Option<string>, header: Option<string>, users: seq<User>, env: Env, date: string)
    requires !Refused(secret, header)
    ensures var o, es := PostSpec(secret, header, Loaded(users), env, date), Emailed(env, users, |users|);
      && (o.response.status == 200 <==> AllSent(env, es))
      && (o.response.status == 200 || o.response.status == 500)
      && (o.response.status == 500 ==>
            |es| > 0 && exists message :: env.deliver(es[|es| - 1]) == MailFailed(message) && o.response == ErrorResponse(message))
  {
    var render := EmailHtml.DailyPage(date);
    var r := RunUsers(env, users, |users|, render);
    var es := Emailed(env, users, |users|);
    FailureComesFromMail(env, users, |users|, render);
    if r.failure.Some? {
      var last := es[|es| - 1];
      assert env.deliver(last) == MailFailed(r.failure.value);
      assert !AllSent(env, es) by {
        assert env.deliver(es[|es| - 1]) != Sent;
      }
    }
  }
}
