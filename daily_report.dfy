/**
 * The daily digest loop: for every loaded user with an email and at least one tag, walk the tags
 * in load order, ask the generator for an assessment, write a row, push the assessment and the
 * tag's name onto the digest list and wait; a failing tag is caught and skipped. A non-empty digest
 * is rendered and mailed once. A mail failure is not caught inside the loop: it ends the run.
 *
 * The generator, the database and the mailer are oracles (`Env`); the database is modelled by the
 * rows the run appends, the console and the sleeps by an event trace. The HTML renderer is a
 * parameter: each entry point passes `generateEmailHtml` with its own title and the day's date.
 */
module DailyReport {
  import opened Domain

  /** Delay after each successful tag in the cron route and the CLI script. */
  const DailyDelayMs: nat := 4000

  /** What a call to the mailer does: return normally, or throw with a message. */
  datatype MailOutcome = Sent | MailFailed(message: string)

  /**
   * The collaborators the loop cannot see. `generate(i, j)` is the generator's answer for tag j of
   * user i (None: it threw), `persist(i, j)` whether the database accepts that tag's row, and
   * `deliver(i)` what the mailer does with user i's digest. Each position is tried at most once per
   * run, so these are as free as a nondeterministic collaborator.
   */
  datatype Env = Env(
    generate: (nat, nat) -> Option<Assessment>,
    persist: (nat, nat) -> bool,
    deliver: nat -> MailOutcome)

  /** Observable steps of a run, in order. */
  datatype Event =
    | Generate(subject: string, watchItems: seq<string>)
    | Delay(ms: nat)
    | TagError(tagName: string)
    | SendEmail(to: string, html: string)
    | EmailSkipped
    | NoSuitableUser

  predicate IsGenerate(e: Event) { e.Generate? }
  predicate IsDelay(e: Event) { e.Delay? }
  predicate IsTagError(e: Event) { e.TagError? }
  predicate IsSend(e: Event) { e.SendEmail? }

  /** The events of `trace` that satisfy `keep`, in trace order. */
  function Filter(trace: seq<Event>, keep: Event -> bool): (kept: seq<Event>)
    ensures |kept| <= |trace|
    ensures forall k :: 0 <= k < |kept| ==> keep(kept[k])
  {
    if trace == [] then []
    else (if keep(trace[0]) then [trace[0]] else []) + Filter(trace[1..], keep)
  }

  lemma {:induction false} FilterAppend(a: seq<Event>, b: seq<Event>, keep: Event -> bool)
    ensures Filter(a + b, keep) == Filter(a, keep) + Filter(b, keep)
  {
    if a == [] {
      assert a + b == b;
    } else {
      assert (a + b)[1..] == a[1..] + b;
      FilterAppend(a[1..], b, keep);
    }
  }

  /** Tag j of user i made it through the whole try block. */
  predicate Succeeded(env: Env, i: nat, j: nat) {
    env.generate(i, j).Some? && env.persist(i, j)
  }

  function RowOf(tag: Tag, a: Assessment): AssessmentRow {
    AssessmentRow(tag.id, a.points, a.sentiment, a.summary)
  }

  /** What the tag loop has produced so far: the digest list, the rows written and the trace. */
  datatype TagsRun = TagsRun(digest: seq<DigestEntry>, rows: seq<AssessmentRow>, trace: seq<Event>)

  /**
   * One pass of the tag loop's body: the call, then write, push and delay, or the catch. A pass
   * writes one row and pushes one entry exactly when its tag succeeds; the order of its events is
   * stated by TagTraceShape and StepGenerates.
   */
  function TagStep(env: Env, i: nat, j: nat, tag: Tag, delayMs: nat): (s: TagsRun)
    ensures |s.digest| == |s.rows| <= 1
    ensures |s.rows| == 1 <==> Succeeded(env, i, j)
  {
    var call := Generate(tag.name, CatalystContents(tag.catalysts));
    if Succeeded(env, i, j) then
      var a := env.generate(i, j).value;
      TagsRun([DigestEntry(tag.name, a)], [RowOf(tag, a)], [call, Delay(delayMs)])
    else
      TagsRun([], [], [call, TagError(tag.name)])
  }

  /** The first n passes of the tag loop of user i: one digest entry per row, at most one per tag. */
  function RunTags(env: Env, i: nat, tags: seq<Tag>, n: nat, delayMs: nat): (r: TagsRun)
    requires n <= |tags|
    ensures |r.digest| == |r.rows| <= n
  {
    if n == 0 then TagsRun([], [], [])
    else
      var r := RunTags(env, i, tags, n - 1, delayMs);
      var s := TagStep(env, i, n - 1, tags[n - 1], delayMs);
      TagsRun(r.digest + s.digest, r.rows + s.rows, r.trace + s.trace)
  }

  /** Positions, among the first n tags of user i, of the tags that succeeded, increasing. */
  function SucceededTags(env: Env, i: nat, n: nat): (js: seq<nat>)
    ensures |js| <= n
    ensures forall k :: 0 <= k < |js| ==> js[k] < n && Succeeded(env, i, js[k])
    ensures forall k, l :: 0 <= k < l < |js| ==> js[k] < js[l]
    ensures forall j :: 0 <= j < n && Succeeded(env, i, j) ==> j in js
  {
    if n == 0 then []
    else SucceededTags(env, i, n - 1) + (if Succeeded(env, i, n - 1) then [n - 1] else [])
  }

  /**
   * The digest list and the rows written correspond one to one with the tags that succeeded, in
   * tag order: the k-th entry is the k-th successful tag's assessment with the tag's name, and the
   * k-th row is that assessment stored under the tag's id.
   */
  lemma {:induction false} DigestMatchesSuccesses(env: Env, i: nat, tags: seq<Tag>, n: nat, delayMs: nat)
    requires n <= |tags|
    ensures var r, js := RunTags(env, i, tags, n, delayMs), SucceededTags(env, i, n);
      && |r.digest| == |js|
      && |r.rows| == |js|
      && forall k :: 0 <= k < |js| ==>
           && r.digest[k] == DigestEntry(tags[js[k]].name, env.generate(i, js[k]).value)
           && r.rows[k] == RowOf(tags[js[k]], env.generate(i, js[k]).value)
  {
    if n > 0 {
      DigestMatchesSuccesses(env, i, tags, n - 1, delayMs);
    }
  }

  /**
   * Tags are processed one at a time in load order: the trace is, per tag, the generator call with
   * the tag's name and its catalyst contents in order, followed by the delay when the tag
   * succeeded and by the caught error otherwise.
   */
  lemma {:induction false} TagTraceShape(env: Env, i: nat, tags: seq<Tag>, n: nat, delayMs: nat)
    requires n <= |tags|
    ensures var t := RunTags(env, i, tags, n, delayMs).trace;
      && |t| == 2 * n
      && forall j :: 0 <= j < n ==>
           && t[2 * j] == Generate(tags[j].name, CatalystContents(tags[j].catalysts))
           && t[2 * j + 1] == (if Succeeded(env, i, j) then Delay(delayMs) else TagError(tags[j].name))
  {
    if n > 0 {
      TagTraceShape(env, i, tags, n - 1, delayMs);
    }
  }

  /**
   * The event counts of a tag loop over n tags: one generator call per tag, one delay per row
   * written, one caught error per tag without a row, and no mail.
   */
  predicate TagCounts(r: TagsRun, n: nat) {
    && |r.rows| <= n
    && |Filter(r.trace, IsGenerate)| == n
    && |Filter(r.trace, IsDelay)| == |r.rows|
    && |Filter(r.trace, IsTagError)| == n - |r.rows|
    && Filter(r.trace, IsSend) == []
  }

  lemma TagCountsAppend(r: TagsRun, s: TagsRun, n: nat)
    requires TagCounts(r, n) && TagCounts(s, 1)
    ensures TagCounts(TagsRun(r.digest + s.digest, r.rows + s.rows, r.trace + s.trace), n + 1)
  {
    FilterAppend(r.trace, s.trace, IsGenerate);
    FilterAppend(r.trace, s.trace, IsDelay);
    FilterAppend(r.trace, s.trace, IsTagError);
    FilterAppend(r.trace, s.trace, IsSend);
  }

  /**
   * Counting the tag loop's events: one generator call per tag, one delay per row written (so per
   * successful tag), one caught error per failed tag, and no mail.
   */
  lemma {:induction false} TagTraceCounts(env: Env, i: nat, tags: seq<Tag>, n: nat, delayMs: nat)
    requires n <= |tags|
    ensures TagCounts(RunTags(env, i, tags, n, delayMs), n)
  {
    if n == 0 {
      assert Filter([], IsGenerate) == [];
    } else {
      TagTraceCounts(env, i, tags, n - 1, delayMs);
      StepCounts(env, i, n - 1, tags[n - 1], delayMs);
      TagCountsAppend(RunTags(env, i, tags, n - 1, delayMs), TagStep(env, i, n - 1, tags[n - 1], delayMs), n - 1);
    }
  }

  /** One pass of the tag loop: one call, then a delay on success or a caught error otherwise. */
  lemma StepCounts(env: Env, i: nat, j: nat, tag: Tag, delayMs: nat)
    ensures TagCounts(TagStep(env, i, j, tag, delayMs), 1)
  {
    var t := TagStep(env, i, j, tag, delayMs).trace;
    assert t[1..][1..] == [];
  }

  /** The generator call made for each of `tags`, in order: the tag's name and its catalyst texts. */
  function Calls(tags: seq<Tag>): (calls: seq<Event>)
    ensures |calls| == |tags|
    ensures forall j :: 0 <= j < |tags| ==> calls[j] == Generate(tags[j].name, CatalystContents(tags[j].catalysts))
  {
    if tags == [] then []
    else Calls(tags[..|tags| - 1]) + [Generate(tags[|tags| - 1].name, CatalystContents(tags[|tags| - 1].catalysts))]
  }

  /** The generator calls of the first n passes are the calls for the first n tags, in tag order. */
  lemma {:induction false} GeneratesInOrder(env: Env, i: nat, tags: seq<Tag>, n: nat, delayMs: nat)
    requires n <= |tags|
    ensures Filter(RunTags(env, i, tags, n, delayMs).trace, IsGenerate) == Calls(tags[..n])
  {
    if n == 0 {
      assert tags[..0] == [];
    } else {
      GeneratesInOrder(env, i, tags, n - 1, delayMs);
      var r := RunTags(env, i, tags, n - 1, delayMs);
      var s := TagStep(env, i, n - 1, tags[n - 1], delayMs);
      FilterAppend(r.trace, s.trace, IsGenerate);
      StepGenerates(env, i, n - 1, tags[n - 1], delayMs);
      assert tags[..n][..n - 1] == tags[..n - 1];
    }
  }

  /** One pass of the tag loop makes exactly one generator call, for its own tag. */
  lemma StepGenerates(env: Env, i: nat, j: nat, tag: Tag, delayMs: nat)
    ensures Filter(TagStep(env, i, j, tag, delayMs).trace, IsGenerate) == [Generate(tag.name, CatalystContents(tag.catalysts))]
  {
    var t := TagStep(env, i, j, tag, delayMs).trace;
    assert t[1..][1..] == [];
  }

  /** The tag loop, walking `tags` in order; rows and the digest list grow by appending. */
  method ProcessTags(env: Env, i: nat, tags: seq<Tag>, delayMs: nat)
    returns (digest: seq<DigestEntry>, rows: seq<AssessmentRow>, trace: seq<Event>)
    ensures TagsRun(digest, rows, trace) == RunTags(env, i, tags, |tags|, delayMs)
  {
    digest, rows, trace := [], [], [];
    for j := 0 to |tags|
      invariant TagsRun(digest, rows, trace) == RunTags(env, i, tags, j, delayMs)
    {
      var tag := tags[j];
      var catalysts := CatalystContents(tag.catalysts);
      trace := trace + [Generate(tag.name, catalysts)];
      var assessment := env.generate(i, j);
      if assessment.Some? && env.persist(i, j) {
        rows := rows + [RowOf(tag, assessment.value)];
        digest := digest + [DigestEntry(tag.name, assessment.value)];
        trace := trace + [Delay(delayMs)];
      } else {
        trace := trace + [TagError(tag.name)];
      }
    }
  }

  /** What a run, or one user's share of it, has produced; `failure` is the message that ended it. */
  datatype Run = Run(rows: seq<AssessmentRow>, trace: seq<Event>, failure: Option<string>)

  /** The loop's skip test: `!user.email || user.tags.length === 0`. */
  predicate Eligible(user: User)
    ensures Eligible(user) <==> user.email.Some? && user.email.value != [] && user.tags != []
  {
    Truthy(user.email) && |user.tags| != 0
  }

  function UserTags(env: Env, i: nat, user: User): TagsRun {
    RunTags(env, i, user.tags, |user.tags|, DailyDelayMs)
  }

  /** Renders a digest list into the mail's HTML. */
  type Renderer = seq<DigestEntry> -> string

  /** The mailer call for user i: the rendered digest sent to the user's address. */
  function DigestMail(env: Env, i: nat, user: User, render: Renderer): Event
    requires user.email.Some?
  {
    SendEmail(user.email.value, render(UserTags(env, i, user).digest))
  }

  function MailFailure(outcome: MailOutcome): Option<string> {
    if outcome.MailFailed? then Some(outcome.message) else None
  }

  /** One pass of the user loop's body for user i: at most one row per tag of the user. */
  function UserStep(env: Env, i: nat, user: User, render: Renderer): (u: Run)
    ensures |u.rows| <= |user.tags|
  {
    if !Eligible(user) then Run([], [], None)
    else
      var r := UserTags(env, i, user);
      if |r.digest| == 0 then Run(r.rows, r.trace, None)
      else Run(r.rows, r.trace + [DigestMail(env, i, user, render)], MailFailure(env.deliver(i)))
  }

  /** The first n passes of the user loop; once a mail has failed nothing more happens. */
  function RunUsers(env: Env, users: seq<User>, n: nat, render: Renderer): Run
    requires n <= |users|
  {
    if n == 0 then Run([], [], None)
    else
      var s := RunUsers(env, users, n - 1, render);
      if s.failure.Some? then s
      else
        var u := UserStep(env, n - 1, users[n - 1], render);
        Run(s.rows + u.rows, s.trace + u.trace, u.failure)
  }

  /** User i is mailed when reached: it is eligible and its digest list is not empty. */
  predicate EmailsUser(env: Env, i: nat, user: User) {
    Eligible(user) && |UserTags(env, i, user).digest| != 0
  }

  /** A user is mailed exactly when it has an email, and at least one of its tags succeeded. */
  lemma EmailsUserIffSuccess(env: Env, i: nat, user: User)
    ensures EmailsUser(env, i, user) <==>
      Truthy(user.email) && exists j :: 0 <= j < |user.tags| && Succeeded(env, i, j)
  {
    var js := SucceededTags(env, i, |user.tags|);
    DigestMatchesSuccesses(env, i, user.tags, |user.tags|, DailyDelayMs);
    if |js| != 0 {
      assert js[0] < |user.tags| && Succeeded(env, i, js[0]);
    }
  }

  /** Some mail among the first n users failed, which ends the run. */
  predicate Stopped(env: Env, users: seq<User>, n: nat)
    requires n <= |users|
  {
    n > 0 && (Stopped(env, users, n - 1) || (EmailsUser(env, n - 1, users[n - 1]) && env.deliver(n - 1).MailFailed?))
  }

  /** Positions of the users the first n passes send mail to, increasing. */
  function Emailed(env: Env, users: seq<User>, n: nat): (es: seq<nat>)
    requires n <= |users|
    ensures forall k :: 0 <= k < |es| ==> es[k] < n
    ensures forall k, l :: 0 <= k < l < |es| ==> es[k] < es[l]
    ensures forall k :: 0 <= k < |es| ==> Eligible(users[es[k]])
  {
    if n == 0 then []
    else
      var reached := !Stopped(env, users, n - 1);
      Emailed(env, users, n - 1) + (if reached && EmailsUser(env, n - 1, users[n - 1]) then [n - 1] else [])
  }

  /** User i is among the emailed exactly when no earlier mail failed and it is mailed when reached. */
  lemma {:induction false} EmailedExactly(env: Env, users: seq<User>, n: nat, i: nat)
    requires i < n <= |users|
    ensures i in Emailed(env, users, n) <==> !Stopped(env, users, i) && EmailsUser(env, i, users[i])
  {
    var prev := Emailed(env, users, n - 1);
    var last := if !Stopped(env, users, n - 1) && EmailsUser(env, n - 1, users[n - 1]) then [n - 1] else [];
    assert Emailed(env, users, n) == prev + last;
    if i < n - 1 {
      EmailedExactly(env, users, n - 1, i);
      assert i !in last;
    } else {
      assert i !in prev;
    }
  }

  /**
   * A skipped user (no email, or no tags) costs nothing: no generator call, no row, no mail. An
   * eligible user is mailed exactly once when at least one of its tags succeeded, and otherwise not
   * at all; the mail is the last thing its pass does.
   */
  lemma UserMailedOnce(env: Env, i: nat, user: User, render: Renderer)
    ensures var u := UserStep(env, i, user, render);
      && (!Eligible(user) ==> u == Run([], [], None))
      && Filter(u.trace, IsSend) == (if EmailsUser(env, i, user) then [DigestMail(env, i, user, render)] else [])
      && (EmailsUser(env, i, user) ==> u.trace[|u.trace| - 1] == DigestMail(env, i, user, render))
  {
    if Eligible(user) {
      var r := UserTags(env, i, user);
      TagTraceCounts(env, i, user.tags, |user.tags|, DailyDelayMs);
      DigestMatchesSuccesses(env, i, user.tags, |user.tags|, DailyDelayMs);
      if |r.digest| != 0 {
        var mail := DigestMail(env, i, user, render);
        FilterAppend(r.trace, [mail], IsSend);
        assert Filter([mail], IsSend) == [mail];
      }
    }
  }

  /** Only a mail can end the run, and only when the user is mailed at all. */
  lemma UserFailure(env: Env, i: nat, user: User, render: Renderer)
    ensures UserStep(env, i, user, render).failure == (if EmailsUser(env, i, user) then MailFailure(env.deliver(i)) else None)
  {
  }

  /** A mail failure ends the run: later passes of the user loop change nothing. */
  lemma {:induction false} AbortIsFinal(env: Env, users: seq<User>, n: nat, m: nat, render: Renderer)
    requires n <= m <= |users|
    requires RunUsers(env, users, n, render).failure.Some?
    ensures RunUsers(env, users, m, render) == RunUsers(env, users, n, render)
  {
    if m > n {
      AbortIsFinal(env, users, n, m - 1, render);
      var s := RunUsers(env, users, m - 1, render);
      assert s.failure.Some?;
      assert RunUsers(env, users, m, render) == s;
    }
  }

  /** A failed mail ends the run with its message, and the passes after it change nothing. */
  lemma MailFailureEndsRun(env: Env, users: seq<User>, m: nat, render: Renderer)
    requires m < |users| && RunUsers(env, users, m, render).failure.None?
    requires EmailsUser(env, m, users[m]) && env.deliver(m).MailFailed?
    ensures RunUsers(env, users, m + 1, render).failure == Some(env.deliver(m).message)
    ensures RunUsers(env, users, |users|, render) == RunUsers(env, users, m + 1, render)
  {
    UserFailure(env, m, users[m], render);
    assert RunUsers(env, users, m + 1, render).failure == UserStep(env, m, users[m], render).failure;
    AbortIsFinal(env, users, m + 1, |users|, render);
  }

  /**
   * The run has failed after n users exactly when one of their mails failed, and the failure
   * carries the message of the mail that failed.
   */
  lemma {:induction false} FailureIsStop(env: Env, users: seq<User>, n: nat, render: Renderer)
    requires n <= |users|
    ensures var s := RunUsers(env, users, n, render);
      && (s.failure.Some? <==> Stopped(env, users, n))
      && (s.failure.Some? ==> exists k :: 0 <= k < n && !Stopped(env, users, k) && EmailsUser(env, k, users[k]) && env.deliver(k) == MailFailed(s.failure.value))
  {
    if n > 0 {
      FailureIsStop(env, users, n - 1, render);
      var s := RunUsers(env, users, n - 1, render);
      var mails := EmailsUser(env, n - 1, users[n - 1]);
      var outcome := env.deliver(n - 1);
      assert Stopped(env, users, n) == (Stopped(env, users, n - 1) || (mails && outcome.MailFailed?));
      if s.failure.None? {
        UserFailure(env, n - 1, users[n - 1], render);
        assert RunUsers(env, users, n, render).failure == (if mails then MailFailure(outcome) else None);
      }
    }
  }

  /** Every position in `es` is a user with an address. */
  predicate Addressable(users: seq<User>, es: seq<nat>) {
    forall k :: 0 <= k < |es| ==> es[k] < |users| && users[es[k]].email.Some?
  }

  /** The digest mails to the users at the positions `es`, in that order. */
  function Mails(env: Env, users: seq<User>, render: Renderer, es: seq<nat>): (mails: seq<Event>)
    requires Addressable(users, es)
    ensures |mails| == |es|
    ensures forall k :: 0 <= k < |mails| ==> mails[k].SendEmail? && mails[k].to == users[es[k]].email.value
  {
    if es == [] then []
    else Mails(env, users, render, es[..|es| - 1]) + [DigestMail(env, es[|es| - 1], users[es[|es| - 1]], render)]
  }

  lemma AddressableAppend(users: seq<User>, es1: seq<nat>, es2: seq<nat>)
    requires Addressable(users, es1) && Addressable(users, es2)
    ensures Addressable(users, es1 + es2)
  {
    var es := es1 + es2;
    forall k | 0 <= k < |es|
      ensures es[k] < |users| && users[es[k]].email.Some?
    {
      if k >= |es1| {
        assert es[k] == es2[k - |es1|];
      }
    }
  }

  lemma {:induction false} MailsAppend(env: Env, users: seq<User>, render: Renderer, es1: seq<nat>, es2: seq<nat>)
    requires Addressable(users, es1) && Addressable(users, es2)
    ensures Addressable(users, es1 + es2)
    ensures Mails(env, users, render, es1 + es2) == Mails(env, users, render, es1) + Mails(env, users, render, es2)
  {
    AddressableAppend(users, es1, es2);
    if es2 == [] {
      assert es1 + es2 == es1;
    } else {
      var init, last := es2[..|es2| - 1], es2[|es2| - 1];
      assert es2 == init + [last];
      assert (es1 + es2)[..|es1 + es2| - 1] == es1 + init;
      assert Addressable(users, init) by {
        AddressablePrefix(users, es2, |init|);
      }
      MailsAppend(env, users, render, es1, init);
    }
  }

  lemma AddressablePrefix(users: seq<User>, es: seq<nat>, m: nat)
    requires Addressable(users, es) && m <= |es|
    ensures Addressable(users, es[..m])
  {
    forall k | 0 <= k < m
      ensures es[..m][k] < |users| && users[es[..m][k]].email.Some?
    {
      assert es[..m][k] == es[k];
    }
  }

  /**
   * Mail goes out at most once per user, in user order, and only to users reached before any mail
   * failed: the mailer calls are exactly the digest mails of the emailed users, in order.
   */
  lemma {:induction false} MailsFollowUsers(env: Env, users: seq<User>, n: nat, render: Renderer)
    requires n <= |users|
    ensures Addressable(users, Emailed(env, users, n))
    ensures Filter(RunUsers(env, users, n, render).trace, IsSend) == Mails(env, users, render, Emailed(env, users, n))
  {
    EmailedAddressable(env, users, n);
    if n > 0 {
      MailsFollowUsers(env, users, n - 1, render);
      FailureIsStop(env, users, n - 1, render);
      var s := RunUsers(env, users, n - 1, render);
      if s.failure.Some? {
        assert Emailed(env, users, n) == Emailed(env, users, n - 1);
        assert RunUsers(env, users, n, render) == s;
      } else {
        ReachedStep(env, users, n, render);
        MailsStep(env, users, render, n - 1, Filter(s.trace, IsSend), Emailed(env, users, n - 1),
                  Filter(RunUsers(env, users, n, render).trace, IsSend), Emailed(env, users, n));
      }
    } else {
      assert Filter([], IsSend) == [];
    }
  }

  /** The emailed users all have an address. */
  lemma EmailedAddressable(env: Env, users: seq<User>, n: nat)
    requires n <= |users|
    ensures Addressable(users, Emailed(env, users, n))
  {
    var es := Emailed(env, users, n);
    forall k | 0 <= k < |es|
      ensures es[k] < |users| && users[es[k]].email.Some?
    {
      assert Eligible(users[es[k]]);
    }
  }

  /** The inductive step of MailsFollowUsers: a reached pass appends its user's mails to both sides. */
  lemma MailsStep(env: Env, users: seq<User>, render: Renderer, i: nat,
                  sendsBefore: seq<Event>, esBefore: seq<nat>, sends: seq<Event>, es: seq<nat>)
    requires i < |users| && Addressable(users, esBefore)
    requires sendsBefore == Mails(env, users, render, esBefore)
    requires sends == sendsBefore + Filter(UserStep(env, i, users[i], render).trace, IsSend)
    requires es == esBefore + (if EmailsUser(env, i, users[i]) then [i] else [])
    ensures Addressable(users, es) && sends == Mails(env, users, render, es)
  {
    UserMails(env, users, i, render);
    MailsAppend(env, users, render, esBefore, if EmailsUser(env, i, users[i]) then [i] else []);
  }

  /** A user's pass calls the mailer once, with its digest mail, when the user is mailed, and otherwise not at all. */
  lemma UserMails(env: Env, users: seq<User>, i: nat, render: Renderer)
    requires i < |users|
    ensures Addressable(users, if EmailsUser(env, i, users[i]) then [i] else [])
    ensures Filter(UserStep(env, i, users[i], render).trace, IsSend)
         == Mails(env, users, render, if EmailsUser(env, i, users[i]) then [i] else [])
  {
    UserMailedOnce(env, i, users[i], render);
    if EmailsUser(env, i, users[i]) {
      assert [i][..0] == [];
    }
  }

  /** One reached pass of the user loop, as the inductive proofs over RunUsers use it. */
  lemma ReachedStep(env: Env, users: seq<User>, n: nat, render: Renderer)
    requires 0 < n <= |users|
    requires RunUsers(env, users, n - 1, render).failure.None? && !Stopped(env, users, n - 1)
    ensures Filter(RunUsers(env, users, n, render).trace, IsSend)
         == Filter(RunUsers(env, users, n - 1, render).trace, IsSend) + Filter(UserStep(env, n - 1, users[n - 1], render).trace, IsSend)
    ensures Emailed(env, users, n) == Emailed(env, users, n - 1) + (if EmailsUser(env, n - 1, users[n - 1]) then [n - 1] else [])
    ensures RunUsers(env, users, n, render).failure
         == (if EmailsUser(env, n - 1, users[n - 1]) then MailFailure(env.deliver(n - 1)) else None)
  {
    var s := RunUsers(env, users, n - 1, render);
    var u := UserStep(env, n - 1, users[n - 1], render);
    FilterAppend(s.trace, u.trace, IsSend);
    UserFailure(env, n - 1, users[n - 1], render);
  }

  /** Every mail to the users `es` went through. */
  predicate AllSent(env: Env, es: seq<nat>) {
    forall k :: 0 <= k < |es| ==> env.deliver(es[k]) == Sent
  }

  /**
   * The run fails exactly when a mail fails, with the message of the last mail sent: every earlier
   * mail went through, and a run without failure sent every mail successfully.
   */
  lemma {:induction false} FailureComesFromMail(env: Env, users: seq<User>, n: nat, render: Renderer)
    requires n <= |users|
    ensures RunUsers(env, users, n, render).failure.None? ==> AllSent(env, Emailed(env, users, n))
    ensures RunUsers(env, users, n, render).failure.Some? ==>
      var es := Emailed(env, users, n);
      |es| > 0 && AllSent(env, es[..|es| - 1])
      && env.deliver(es[|es| - 1]) == MailFailed(RunUsers(env, users, n, render).failure.value)
  {
    if n > 0 {
      FailureComesFromMail(env, users, n - 1, render);
      FailureIsStop(env, users, n - 1, render);
      var s := RunUsers(env, users, n - 1, render);
      if s.failure.Some? {
        assert Emailed(env, users, n) == Emailed(env, users, n - 1);
        assert RunUsers(env, users, n, render) == s;
      } else {
        ReachedStep(env, users, n, render);
        var mails := EmailsUser(env, n - 1, users[n - 1]);
        LastMailDecides(env, Emailed(env, users, n - 1), n - 1, mails, Emailed(env, users, n), RunUsers(env, users, n, render).failure);
      }
    }
  }

  /** The inductive step of FailureComesFromMail: a reached pass mails user i or not, and fails only when that mail fails. */
  lemma LastMailDecides(env: Env, esBefore: seq<nat>, i: nat, mails: bool, es: seq<nat>, failure: Option<string>)
    requires AllSent(env, esBefore)
    requires es == esBefore + (if mails then [i] else [])
    requires failure == (if mails then MailFailure(env.deliver(i)) else None)
    ensures failure.None? ==> AllSent(env, es)
    ensures failure.Some? ==> |es| > 0 && AllSent(env, es[..|es| - 1]) && env.deliver(es[|es| - 1]) == MailFailed(failure.value)
  {
    if mails {
      assert es[..|es| - 1] == esBefore;
    }
  }

  /** As many rows as delays, and every generator call ended in a delay or in a caught error. */
  predicate Balanced(rows: seq<AssessmentRow>, trace: seq<Event>) {
    && |rows| == |Filter(trace, IsDelay)|
    && |Filter(trace, IsGenerate)| == |Filter(trace, IsDelay)| + |Filter(trace, IsTagError)|
  }

  lemma BalancedAppend(rows1: seq<AssessmentRow>, trace1: seq<Event>, rows2: seq<AssessmentRow>, trace2: seq<Event>)
    requires Balanced(rows1, trace1) && Balanced(rows2, trace2)
    ensures Balanced(rows1 + rows2, trace1 + trace2)
  {
    FilterAppend(trace1, trace2, IsDelay);
    FilterAppend(trace1, trace2, IsGenerate);
    FilterAppend(trace1, trace2, IsTagError);
  }

  /**
   * Over a whole run, the rows created are exactly as many as the delays, and every generator call
   * ended either in a delay or in a caught error. RowsAreReachedSuccesses counts the same rows
   * against the successful tags.
   */
  lemma {:induction false} RowsMatchSuccesses(env: Env, users: seq<User>, n: nat, render: Renderer)
    requires n <= |users|
    ensures Balanced(RunUsers(env, users, n, render).rows, RunUsers(env, users, n, render).trace)
  {
    if n > 0 {
      RowsMatchSuccesses(env, users, n - 1, render);
      BalancedStep(env, users, n, render);
    }
  }

  /**
   * The number of successful tags of the users, among the first n, that the run reaches (no earlier
   * mail failed) and does not skip.
   */
  function ReachedSuccesses(env: Env, users: seq<User>, n: nat): nat
    requires n <= |users|
  {
    if n == 0 then 0
    else
      var i := n - 1;
      ReachedSuccesses(env, users, i)
      + (if !Stopped(env, users, i) && Eligible(users[i]) then |SucceededTags(env, i, |users[i].tags|)| else 0)
  }

  /**
   * A run creates as many rows as there are successful tags (generator call and row write both
   * succeeded) of the users it reaches and does not skip.
   */
  lemma {:induction false} RowsAreReachedSuccesses(env: Env, users: seq<User>, n: nat, render: Renderer)
    requires n <= |users|
    ensures |RunUsers(env, users, n, render).rows| == ReachedSuccesses(env, users, n)
  {
    if n > 0 {
      var i := n - 1;
      RowsAreReachedSuccesses(env, users, i, render);
      FailureIsStop(env, users, i, render);
      if !Stopped(env, users, i) && Eligible(users[i]) {
        DigestMatchesSuccesses(env, i, users[i].tags, |users[i].tags|, DailyDelayMs);
      }
    }
  }

  /** The inductive step of RowsMatchSuccesses. */
  lemma BalancedStep(env: Env, users: seq<User>, n: nat, render: Renderer)
    requires 0 < n <= |users|
    requires Balanced(RunUsers(env, users, n - 1, render).rows, RunUsers(env, users, n - 1, render).trace)
    ensures Balanced(RunUsers(env, users, n, render).rows, RunUsers(env, users, n, render).trace)
  {
    var s := RunUsers(env, users, n - 1, render);
    if s.failure.None? {
      var u := UserStep(env, n - 1, users[n - 1], render);
      UserStepCounts(env, n - 1, users[n - 1], render);
      BalancedAppend(s.rows, s.trace, u.rows, u.trace);
    }
  }

  /** One user's pass: as many rows as delays, and as many calls as delays and caught errors. */
  lemma UserStepCounts(env: Env, i: nat, user: User, render: Renderer)
    ensures Balanced(UserStep(env, i, user, render).rows, UserStep(env, i, user, render).trace)
  {
    if Eligible(user) {
      var r := UserTags(env, i, user);
      TagTraceCounts(env, i, user.tags, |user.tags|, DailyDelayMs);
      DigestMatchesSuccesses(env, i, user.tags, |user.tags|, DailyDelayMs);
      if |r.digest| != 0 {
        var mail := [DigestMail(env, i, user, render)];
        assert Balanced([], mail);
        BalancedAppend(r.rows, r.trace, [], mail);
        assert r.rows + [] == r.rows;
      }
    }
  }

  /**
   * The body of the user loop for user i: the skip test, the tag loop, and the mail when the
   * digest list is not empty. A mail failure is returned as the pass's `failure`.
   */
  method ProcessUser(env: Env, i: nat, user: User, render: Renderer) returns (u: Run)
    ensures u == UserStep(env, i, user, render)
  {
    if !Truthy(user.email) || |user.tags| == 0 {
      return Run([], [], None);
    }
    var digest, rows, trace := ProcessTags(env, i, user.tags, DailyDelayMs);
    var failure := None;
    if |digest| > 0 {
      var html := render(digest);
      trace := trace + [SendEmail(user.email.value, html)];
      var outcome := env.deliver(i);
      if outcome.MailFailed? {
        failure := Some(outcome.message);
      }
    }
    u := Run(rows, trace, failure);
  }

  /**
   * The user loop. A mail failure leaves the loop, as the exception does in the source; the rows
   * already written stay.
   */
  method ProcessUsers(env: Env, users: seq<User>, render: Renderer)
    returns (rows: seq<AssessmentRow>, trace: seq<Event>, failure: Option<string>)
    ensures Run(rows, trace, failure) == RunUsers(env, users, |users|, render)
  {
    rows, trace, failure := [], [], None;
    var i := 0;
    while i < |users| && failure.None?
      invariant 0 <= i <= |users|
      invariant Run(rows, trace, failure) == RunUsers(env, users, i, render)
    {
      var u := ProcessUser(env, i, users[i], render);
      rows, trace, failure := rows + u.rows, trace + u.trace, u.failure;
      i := i + 1;
    }
    if i < |users| {
      AbortIsFinal(env, users, i, |users|, render);
    }
  }

  /** The result of the bulk load of users with their tags and catalysts. */
  datatype LoadResult = Loaded(users: seq<User>) | LoadFailed(message: string)
}
