/**
 * What `notify` builds before it talks to a mail server: the process name
 * and sender defaults, the one line of text used as both subject and body,
 * the three headers assigned to the MIMEText object, and the mail handed to
 * the SMTP transport (envelope sender, envelope recipients, transport).
 */
module Notification {
  import opened PyStr
  import opened Recipients

  /** What `getpass.getuser()` and `socket.gethostname()` return on this machine. */
  datatype Environment = Environment(user: string, hostname: string)

  const DefaultName: string := "Your process"
  const PidOpen: string := " (pid "
  const Finished: string := "), finished running."

  /** `name or "Your process"`: `None` and the empty string both fall back to the default. */
  function ProcessName(name: Option<string>): (r: string)
    ensures r != ""
    ensures name.Some? && name.value != "" ==> r == name.value
    ensures name.None? || name.value == "" ==> r == DefaultName
  {
    if name.Some? && name.value != "" then name.value else DefaultName
  }

  /** `"%s (pid %s), finished running." % (name, pid)`. */
  function NotificationText(name: string, pid: int): string {
    name + PidOpen + IntToString(pid) + Finished
  }

  /** `sender or getpass.getuser() + "@" + socket.gethostname()`. */
  function FromAddress(sender: Option<string>, env: Environment): (r: string)
    ensures sender.Some? && sender.value != "" ==> r == sender.value
    ensures sender.None? || sender.value == "" ==> r == env.user + "@" + env.hostname
  {
    if sender.Some? && sender.value != "" then sender.value else env.user + "@" + env.hostname
  }

  /** The message as its headers and body give it. */
  datatype Message = Message(subject: string, fromHeader: string, toHeader: string, body: string)

  /** The values `notify` puts into the message, for an already normalized recipient list. */
  function Compose(pid: int, recipients: seq<string>, name: Option<string>, sender: Option<string>, env: Environment): (m: Message)
    ensures m.subject == m.body == NotificationText(ProcessName(name), pid)
    ensures m.fromHeader == FromAddress(sender, env)
    ensures m.toHeader == JoinRecipients(recipients)
  {
    var text := NotificationText(ProcessName(name), pid);
    Message(text, FromAddress(sender, env), JoinRecipients(recipients), text)
  }

  /** The headers in the order `notify` assigns them. */
  function Headers(m: Message): seq<(string, string)> {
    [("Subject", m.subject), ("From", m.fromHeader), ("To", m.toHeader)]
  }

  /** An `email.mime.text.MIMEText` object: its text payload and the headers assigned to it. */
  class MimeText {
    const payload: string
    var headers: seq<(string, string)>

    constructor (text: string)
      ensures payload == text && headers == []
    {
      payload := text;
      headers := [];
    }

    /** `msg[name] = value`, which appends a header. */
    method Set(name: string, value: string)
      modifies this
      ensures headers == old(headers) + [(name, value)]
    {
      headers := headers + [(name, value)];
    }
  }

  /** `msg = MIMEText(text)` followed by the Subject, From and To assignments. */
  method BuildMime(m: Message) returns (msg: MimeText)
    ensures fresh(msg)
    ensures msg.payload == m.body && msg.headers == Headers(m)
  {
    msg := new MimeText(m.body);
    msg.Set("Subject", m.subject);
    msg.Set("From", m.fromHeader);
    msg.Set("To", m.toHeader);
  }

  /** What `prompt_for_credentials` returns: `{host, port, user, password}`. */
  datatype Credentials = Credentials(host: string, port: int, user: string, password: string)

  /** The SMTP connection `notify` opens: `127.0.0.1`, or the server in the credentials. */
  datatype Transport = LocalRelay | SmtpRelay(credentials: Credentials)

  /** One `sendmail` call: transport, envelope sender, envelope recipients and the message. */
  datatype Mail = Mail(transport: Transport, envelopeFrom: string, envelopeTo: seq<string>, message: Message)

  /** In two equal notification texts, the first pid part is no longer than the second. */
  lemma {:induction false} PidPartsSameLength(n1: string, d1: string, p1: int, n2: string, d2: string, p2: int)
    requires d1 == IntToString(p1) && d2 == IntToString(p2)
    requires n1 + PidOpen + d1 == n2 + PidOpen + d2
    ensures |d1| <= |d2|
  {
    var u := n1 + PidOpen + d1;
    var k := |u| - |d2| - 1;
    assert u[k] == (n2 + PidOpen + d2)[k] == ' ';
  }

  /**
   * The text names the process and its pid unambiguously: two notifications
   * read the same only when both the name and the pid are the same.
   */
  lemma NotificationTextInjective(n1: string, p1: int, n2: string, p2: int)
    requires NotificationText(n1, p1) == NotificationText(n2, p2)
    ensures n1 == n2 && p1 == p2
  {
    var d1, d2 := IntToString(p1), IntToString(p2);
    var u1, u2 := n1 + PidOpen + d1, n2 + PidOpen + d2;
    assert u1 + Finished == u2 + Finished;
    assert u1 == (u1 + Finished)[..|u1|] == (u2 + Finished)[..|u2|] == u2;
    PidPartsSameLength(n1, d1, p1, n2, d2, p2);
    PidPartsSameLength(n2, d2, p2, n1, d1, p1);
    assert d1 == u1[|u1| - |d1|..] == d2;
    assert n1 == u1[..|n1|] == n2;
    IntToStringInjective(p1, p2);
  }

  /** The message of a process with no name says "Your process", whatever its pid. */
  lemma DefaultNameUsed(pid: int, recipients: seq<string>, sender: Option<string>, env: Environment)
    ensures Compose(pid, recipients, None, sender, env) == Compose(pid, recipients, Some(""), sender, env)
    ensures Compose(pid, recipients, None, sender, env).subject[..|DefaultName|] == DefaultName
  {
  }
}
