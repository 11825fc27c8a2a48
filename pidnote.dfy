/**
 * pidnote.py: the localhost-only form of the watcher. It has no credential
 * prompt; `notify` always hands the mail to the SMTP server on 127.0.0.1,
 * with the From address as envelope sender. Its run is a piddy run without
 * `-p`, and the steps are recorded with the same events.
 */
module PidNote {
  import opened PyStr
  import opened Recipients
  import opened Notification
  import Polling
  import Piddy

  /** The command line: pid, `-e`, `-n` and `-s`. */
  datatype Args = Args(pid: int, email: string, name: Option<string>, sender: Option<string>)

  /**
   * `notify`: the mail it sends to 127.0.0.1, from the From address to the
   * whole normalized recipient list.
   */
  function NotifyMail(pid: int, recipients: RecipientsArg, name: Option<string>, sender: Option<string>,
                      env: Environment): (m: Mail)
    ensures m.transport == LocalRelay
    ensures m.envelopeTo == Normalize(recipients)
    ensures m.envelopeFrom == m.message.fromHeader == FromAddress(sender, env)
    ensures m.message == Compose(pid, m.envelopeTo, name, sender, env)
  {
    var rs := Normalize(recipients);
    var message := Compose(pid, rs, name, sender, env);
    Mail(LocalRelay, message.fromHeader, rs, message)
  }

  /** This `notify` sends the same mail as piddy's `notify` called without credentials. */
  lemma NotifyMatchesPiddy(pid: int, recipients: RecipientsArg, name: Option<string>, sender: Option<string>,
                           env: Environment)
    ensures NotifyMail(pid, recipients, name, sender, env) == Piddy.NotifyMail(pid, recipients, name, sender, None, env)
  {
  }

  /** The mail a run sends once the wait is over. */
  function RunMail(args: Args, env: Environment): Mail {
    NotifyMail(args.pid, Sequence(ParseRecipients(args.email)), args.name, args.sender, env)
  }

  /**
   * The steps of the `__main__` block. `alive` is the first `check_pid`
   * answer, `probe` the answers `wait_for_pid` gets and `mail` what `notify`
   * sends.
   */
  function RunTrace(alive: bool, probe: seq<bool>, mail: Mail): seq<Piddy.Event> {
    if !alive then [Piddy.CheckedPid(false)]
    else
      var waited := [Piddy.CheckedPid(true), Piddy.Waited(Polling.FirstFalse(probe), false in probe)];
      if false in probe then waited + [Piddy.Sent(mail, Headers(mail.message))] else waited
  }

  /**
   * The `__main__` block: check the pid; if it is alive, wait, then notify
   * the recipients parsed from `-e`.
   */
  method Run(args: Args, env: Environment, alive: bool, probe: seq<bool>) returns (trace: seq<Piddy.Event>)
    ensures trace == RunTrace(alive, probe, RunMail(args, env))
  {
    if !alive {
      return [Piddy.CheckedPid(false)];
    }

    var exited, sleeps := Polling.WaitForPid(probe);
    trace := [Piddy.CheckedPid(true), Piddy.Waited(sleeps, exited)];
    if !exited {
      return;
    }

    var mail := NotifyMail(args.pid, Sequence(ParseRecipients(args.email)), args.name, args.sender, env);
    var msg := BuildMime(mail.message);
    trace := trace + [Piddy.Sent(mail, msg.headers)];
  }

  /** A pidnote run takes the same steps as a piddy run without `-p`. */
  lemma RunMatchesPiddy(args: Args, alive: bool, probe: seq<bool>, mail: Mail)
    ensures RunTrace(alive, probe, mail)
         == Piddy.RunTrace(Piddy.Args(args.pid, args.email, args.name, args.sender, false), alive, None, probe, mail)
  {
  }

  /**
   * A dead pid means no wait and no mail; otherwise the wait comes first and
   * the mail follows exactly when the wait saw the process gone, sleeping
   * once per `true` answer before the first `false`.
   */
  lemma RunSteps(args: Args, alive: bool, probe: seq<bool>, mail: Mail)
    ensures var trace := RunTrace(alive, probe, mail);
      && trace != [] && trace[0] == Piddy.CheckedPid(alive) && Piddy.InOrder(trace)
      && (!alive ==> trace == [Piddy.CheckedPid(false)])
      && (Piddy.Happens(trace, 2) <==> alive)
      && (Piddy.Happens(trace, 3) <==> alive && false in probe)
      && (forall e :: e in trace && e.Waited? ==> e.sleeps == Polling.FirstFalse(probe))
  {
    var piddyArgs := Piddy.Args(args.pid, args.email, args.name, args.sender, false);
    RunMatchesPiddy(args, alive, probe, mail);
    Piddy.RunInOrder(piddyArgs, alive, None, probe, mail);
    Piddy.RunSteps(piddyArgs, alive, None, probe, mail);
    Piddy.RunWaitSleeps(piddyArgs, alive, None, probe, mail);
  }

  /**
   * The mail goes to 127.0.0.1, from the From address, to exactly the
   * recipients parsed from `-e`, which its To header lists in the same order.
   */
  lemma RunMailRecipients(args: Args, env: Environment)
    ensures var m := RunMail(args, env);
      && m.transport == LocalRelay && m.envelopeFrom == m.message.fromHeader
      && m.envelopeTo == ParseRecipients(args.email) == ParseRecipients(m.message.toHeader)
  {
    ParseJoinParse(args.email);
  }
}
