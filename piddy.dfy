/**
 * piddy.py: wait for a process to exit, then mail a notification, either
 * through the SMTP server on 127.0.0.1 or, with `-p`, through a server whose
 * credentials are asked for and checked before the wait begins.
 */
module Piddy {
  import opened PyStr
  import opened Recipients
  import opened Notification
  import Polling

  /** The port `prompt_for_credentials` always uses (SMTP submission with STARTTLS). */
  const SubmissionPort: int := 587
  /** The SMTP reply code for a successful AUTH. */
  const AuthSuccess: int := 235

  /**
   * The host offered when none is typed: "smtp." followed by everything after
   * the first '@' of the user name, or nothing when the name has no '@'.
   */
  function DefaultHost(user: string): (h: string)
    ensures '@' !in user ==> h == ""
    ensures '@' in user ==> exists i :: 0 <= i < |user| && user[i] == '@' && '@' !in user[..i] && h == "smtp." + user[i + 1..]
  {
    if '@' in user then "smtp." + user[Index(user, '@') + 1..] else ""
  }

  /** `(raw_input(...) or default_host).strip()`: a typed answer replaces the default. */
  function SmtpHost(user: string, typed: string): string {
    Strip(if typed != "" then typed else DefaultHost(user))
  }

  /** A default host built from a stripped user name has no surrounding whitespace. */
  lemma DefaultHostStripped(user: string)
    requires IsStripped(user)
    ensures IsStripped(DefaultHost(user))
  {
    if '@' in user {
      var h := DefaultHost(user);
      var i := Index(user, '@');
      var rest := user[i + 1..];
      assert h == "smtp." + rest;
      if rest != [] {
        assert h[|h| - 1] == rest[|rest| - 1] == user[|user| - 1];
      }
    }
  }

  /**
   * The host actually used: what was typed, stripped, or else the default;
   * the default needs no stripping since the user name was stripped first.
   */
  lemma SmtpHostChoice(user: string, typed: string)
    requires IsStripped(user)
    ensures typed != "" ==> SmtpHost(user, typed) == Strip(typed)
    ensures typed == "" ==> SmtpHost(user, typed) == DefaultHost(user)
  {
    if typed == "" {
      DefaultHostStripped(user);
      StripFixed(DefaultHost(user));
      assert SmtpHost(user, typed) == Strip(DefaultHost(user));
    }
  }

  /** How the SMTP exchange (connect, EHLO, STARTTLS, EHLO, AUTH) ends. */
  datatype LoginReply =
    | Replied(code: int)    // login returned this reply code
    | SmtpException         // an smtplib.SMTPException, SMTPHeloError included
    | TlsUnsupported        // RuntimeError: no SSL/TLS support in Python
    | SocketError           // any other exception, which the code does not catch

  /** What the user types at the three prompts, and how the server answers. */
  datatype Answers = Answers(user: string, password: string, host: string, reply: LoginReply)

  /** Why `prompt_for_credentials` ends the program instead of returning. */
  datatype Refusal =
    | MissingUserOrHost     // no connection attempted; "Could not connect"
    | LoginRejected(code: int)
    | SmtpFailure
    | NoTls
    | Unhandled

  datatype CredentialCheck = Accepted(creds: Credentials) | Refused(reason: Refusal)

  /** The refusal the code reports for a reply other than 235. */
  function ReplyRefusal(reply: LoginReply): Refusal {
    match reply
    case Replied(code) => LoginRejected(code)
    case SmtpException => SmtpFailure
    case TlsUnsupported => NoTls
    case SocketError => Unhandled
  }

  /** The answers pass the check: a user and a host were given and the login was accepted. */
  predicate LoginSucceeds(a: Answers) {
    var user := Strip(a.user);
    user != "" && SmtpHost(user, a.host) != "" && a.reply == Replied(AuthSuccess)
  }

  /** The credentials the answers describe. */
  function OfferedCredentials(a: Answers): Credentials {
    var user := Strip(a.user);
    Credentials(SmtpHost(user, a.host), SubmissionPort, user, a.password)
  }

  /**
   * `prompt_for_credentials`: returns the credentials only when a user and a
   * host were given and the server accepted the login with 235; every other
   * outcome ends the program (here: a refusal naming why).
   */
  method PromptForCredentials(answers: Answers) returns (check: CredentialCheck)
    ensures check.Accepted? <==> LoginSucceeds(answers)
    ensures check.Accepted? ==> check.creds == OfferedCredentials(answers) && check.creds.port == 587
    ensures check == Refused(MissingUserOrHost) <==> Strip(answers.user) == "" || SmtpHost(Strip(answers.user), answers.host) == ""
    ensures check.Refused? && check.reason != MissingUserOrHost ==>
      answers.reply != Replied(AuthSuccess) && check.reason == ReplyRefusal(answers.reply)
  {
    var user := Strip(answers.user);
    var defaultHost := DefaultHost(user);
    var host := if answers.host != "" then answers.host else defaultHost;
    host := Strip(host);
    assert host == SmtpHost(user, answers.host);
    var port := SubmissionPort;

    var success := false;
    var failure := MissingUserOrHost;
    if user != "" && host != "" {
      match answers.reply {
        case Replied(code) =>
          if code == AuthSuccess {
            success := true;
          } else {
            failure := LoginRejected(code);
          }
        case SmtpException =>
          return Refused(SmtpFailure);
        case TlsUnsupported =>
          return Refused(NoTls);
        case SocketError =>
          return Refused(Unhandled);
      }
    }

    if success {
      check := Accepted(Credentials(host, port, user, answers.password));
    } else {
      check := Refused(failure);
    }
  }

  /**
   * `notify`: the mail it sends. The envelope recipients are the whole
   * normalized list; the envelope sender is the From address on the
   * localhost path but the login user on the authenticated path.
   */
  function NotifyMail(pid: int, recipients: RecipientsArg, name: Option<string>, sender: Option<string>,
                      credentials: Option<Credentials>, env: Environment): (m: Mail)
    ensures m.envelopeTo == Normalize(recipients)
    ensures m.message == Compose(pid, m.envelopeTo, name, sender, env)
    ensures credentials.None? ==> m.transport == LocalRelay && m.envelopeFrom == m.message.fromHeader
    ensures credentials.Some? ==> m.transport == SmtpRelay(credentials.value) && m.envelopeFrom == credentials.value.user
  {
    var rs := Normalize(recipients);
    var message := Compose(pid, rs, name, sender, env);
    match credentials
    case None => Mail(LocalRelay, message.fromHeader, rs, message)
    case Some(c) => Mail(SmtpRelay(c), c.user, rs, message)
  }

  /**
   * For recipients parsed from `-e`, the To header, parsed again, lists
   * exactly the envelope recipients, in order.
   */
  lemma ToHeaderListsEnvelope(pid: int, email: string, name: Option<string>, sender: Option<string>,
                              credentials: Option<Credentials>, env: Environment)
    ensures var m := NotifyMail(pid, Sequence(ParseRecipients(email)), name, sender, credentials, env);
            ParseRecipients(m.message.toHeader) == m.envelopeTo == ParseRecipients(email)
  {
    ParseJoinParse(email);
  }

  /** The command line: pid, `-e`, `-n`, `-s` and `-p`. */
  datatype Args = Args(pid: int, email: string, name: Option<string>, sender: Option<string>, prompt: bool)

  /** The steps of one run, as they happen. */
  datatype Event =
    | CheckedPid(alive: bool)
    | Prompted(accepted: bool)
    | Waited(sleeps: nat, exited: bool)
    | Sent(mail: Mail, headers: seq<(string, string)>)

  function Stage(e: Event): nat {
    match e
    case CheckedPid(_) => 0
    case Prompted(_) => 1
    case Waited(_, _) => 2
    case Sent(_, _) => 3
  }

  /** Each step happens at most once, and in the order check, prompt, wait, send. */
  predicate InOrder(trace: seq<Event>) {
    forall i, j :: 0 <= i < j < |trace| ==> Stage(trace[i]) < Stage(trace[j])
  }

  /** Some step of the run is of the given stage. */
  predicate Happens(trace: seq<Event>, stage: nat) {
    exists i :: 0 <= i < |trace| && Stage(trace[i]) == stage
  }

  /**
   * What the credential prompt yields: the accepted credentials, or `None`
   * when the answers were refused and the program exited.
   */
  function PromptResult(answers: Answers): Option<Credentials> {
    if LoginSucceeds(answers) then Some(OfferedCredentials(answers)) else None
  }

  /** The mail a run sends once the wait is over. */
  function RunMail(args: Args, env: Environment, credentials: Option<Credentials>): Mail {
    NotifyMail(args.pid, Sequence(ParseRecipients(args.email)), args.name, args.sender, credentials, env)
  }

  /**
   * The steps of the `__main__` block. `alive` is the first `check_pid`
   * answer, `granted` what the credential prompt yields (only asked with
   * `-p`), `probe` the answers `wait_for_pid` gets and `mail` what `notify`
   * sends.
   */
  function RunTrace(args: Args, alive: bool, granted: Option<Credentials>, probe: seq<bool>, mail: Mail): seq<Event> {
    if !alive then [CheckedPid(false)]
    else if args.prompt && granted.None? then [CheckedPid(true), Prompted(false)]
    else
      var prompted := if args.prompt then [Prompted(true)] else [];
      var waited := [CheckedPid(true)] + prompted + [Waited(Polling.FirstFalse(probe), false in probe)];
      if false in probe then waited + [Sent(mail, Headers(mail.message))] else waited
  }

  /**
   * The `__main__` block: check the pid; if it is alive, prompt for
   * credentials (with `-p`), wait, then notify the recipients parsed from `-e`.
   */
  method Run(args: Args, env: Environment, alive: bool, answers: Answers, probe: seq<bool>) returns (trace: seq<Event>)
    ensures var granted := PromptResult(answers);
            trace == RunTrace(args, alive, granted, probe, RunMail(args, env, if args.prompt then granted else None))
  {
    if !alive {
      return [CheckedPid(false)];
    }

    var credentials: Option<Credentials> := None;
    var prompted: seq<Event> := [];
    if args.prompt {
      var check := PromptForCredentials(answers);
      if check.Refused? {
        return [CheckedPid(true), Prompted(false)];
      }
      credentials := Some(check.creds);
      prompted := [Prompted(true)];
    }

    var exited, sleeps := Polling.WaitForPid(probe);
    trace := [CheckedPid(true)] + prompted + [Waited(sleeps, exited)];
    if !exited {
      return;
    }

    var mail := NotifyMail(args.pid, Sequence(ParseRecipients(args.email)), args.name, args.sender, credentials, env);
    var msg := BuildMime(mail.message);
    trace := trace + [Sent(mail, msg.headers)];
  }

  /** The steps always come in the order check, prompt, wait, send, each at most once. */
  lemma RunInOrder(args: Args, alive: bool, granted: Option<Credentials>, probe: seq<bool>, mail: Mail)
    ensures var trace := RunTrace(args, alive, granted, probe, mail);
            trace != [] && trace[0] == CheckedPid(alive) && InOrder(trace)
  {
    var trace := RunTrace(args, alive, granted, probe, mail);
    var stages := seq(|trace|, k requires 0 <= k < |trace| => Stage(trace[k]));
    if !alive {
      assert stages == [0];
    } else if args.prompt && granted.None? {
      assert stages == [0, 1];
    } else if args.prompt {
      assert stages == if false in probe then [0, 1, 2, 3] else [0, 1, 2];
    } else {
      assert stages == if false in probe then [0, 2, 3] else [0, 2];
    }
  }

  /** A pid that is not running: no prompt, no wait, no mail. */
  lemma DeadPidDoesNothing(args: Args, granted: Option<Credentials>, probe: seq<bool>, mail: Mail)
    ensures RunTrace(args, false, granted, probe, mail) == [CheckedPid(false)]
  {
  }

  /**
   * Which steps happen: the prompt exactly with `-p` on a live pid; the wait
   * exactly when the pid is alive and the credentials (if asked for) were
   * accepted; the mail exactly when, in addition, the wait saw the process gone.
   */
  lemma RunSteps(args: Args, alive: bool, granted: Option<Credentials>, probe: seq<bool>, mail: Mail)
    ensures var trace := RunTrace(args, alive, granted, probe, mail);
      && (Happens(trace, 1) <==> alive && args.prompt)
      && (Happens(trace, 2) <==> alive && (!args.prompt || granted.Some?))
      && (Happens(trace, 3) <==> alive && (!args.prompt || granted.Some?) && false in probe)
  {
    var trace := RunTrace(args, alive, granted, probe, mail);
    if alive && (!args.prompt || granted.Some?) {
      var w := if args.prompt then 2 else 1;
      assert Stage(trace[w]) == 2;
      if false in probe {
        assert Stage(trace[w + 1]) == 3;
      }
    }
    if alive && args.prompt {
      assert Stage(trace[1]) == 1;
    }
  }

  /** The wait step reports one sleep per `true` answer before the first `false`. */
  lemma RunWaitSleeps(args: Args, alive: bool, granted: Option<Credentials>, probe: seq<bool>, mail: Mail)
    ensures forall e :: e in RunTrace(args, alive, granted, probe, mail) && e.Waited? ==>
      e.sleeps == Polling.FirstFalse(probe) && (e.exited <==> false in probe)
  {
  }

  /**
   * The mail of a run goes, by the transport the prompt chose, to exactly the
   * recipients parsed from `-e`, which its To header lists in the same order.
   */
  lemma RunMailRecipients(args: Args, env: Environment, credentials: Option<Credentials>)
    ensures var m := RunMail(args, env, credentials);
      && m.envelopeTo == ParseRecipients(args.email) == ParseRecipients(m.message.toHeader)
      && (credentials.Some? ==> m.transport == SmtpRelay(credentials.value) && m.envelopeFrom == credentials.value.user)
      && (credentials.None? ==> m.transport == LocalRelay && m.envelopeFrom == m.message.fromHeader)
  {
    ToHeaderListsEnvelope(args.pid, args.email, args.name, args.sender, credentials, env);
  }
}
