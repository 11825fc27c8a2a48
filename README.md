# piddy in Dafny

A model of piddy, two small Python 2 scripts. Each one waits for an operating-system process, given by its pid, to finish. Then it emails a one-line notification to a list of recipients.

- `piddy.py` can first ask for credentials for an external SMTP server with `-p` and check them, before the wait begins.
- `pidnote.py` is the localhost-only variant.

The model covers the logic between the I/O calls:

- how the `-e` argument becomes a recipient list and the `To` header;
- the defaults for the process name and the sender;
- the notification text, used as both subject and body;
- the envelope sender and recipients on each transport;
- the default SMTP host and the credential decision;
- the polling loop;
- the order of steps in the main block.

Files:

- `pystr.dfy` (module `PyStr`): the Python `str` behaviour the scripts use. This is `strip()`, `split(',')`, `join`, where `split("@", 1)` cuts (the first '@') and `str(int)`, with their laws: strip is idempotent, split and join are inverses, and printing an int is injective.
- `recipients.dfy` (module `Recipients`): parsing `-e`, normalizing a lone recipient, the `To` header, and the round trip between header and list.
- `notification.dfy` (module `Notification`): the name and sender defaults and the notification text. Also the message record, the `MIMEText` object whose headers are assigned in place, the credentials, and the mail handed to SMTP.
- `polling.dfy` (module `Polling`): `wait_for_pid` as a loop over the answers of `check_pid`.
- `piddy.dfy` (module `Piddy`): the default host, `prompt_for_credentials` as a decision method over an abstract SMTP reply, `notify` with its two transports, and the `__main__` block as a method. The block's steps are specified by a trace function, with lemmas on their order.
- `pidnote.dfy` (module `PidNote`): `pidnote.py`'s `notify` and main block, each proved to match piddy's localhost path.

The I/O is given as parameters:

- `alive` is the first `check_pid` answer.
- `probe[i]` is the answer of the i-th `check_pid` call inside `wait_for_pid`.
- `Answers` holds what the three prompts read and how the SMTP login exchange ends.
- `Environment` holds `getpass.getuser()` and `socket.gethostname()`.

The probe is a finite sequence. When every answer is `true`, the model reports that the wait has not ended (`exited == false`, and nothing is sent). The real loop would go on polling.

Behaviour of the scripts the model keeps:

- Every `OSError` from `os.kill(pid, 0)`, permission denied included, means "not alive" (piddy.py:32-37).
- Recipients are not validated. An empty `-e` gives one empty recipient.
- A `KeyboardInterrupt` during the wait is not caught.
- Every failure of the credential check ends the program with status 1, or with a traceback for socket errors.

## Model

| member | source | states |
|---|---|---|
| PyStr.Strip | piddy.py:170 | `s.strip()`: the result has no whitespace at either end |
| PyStr.StripCutsOnlySpace | piddy.py:170 | `s.strip()` is a contiguous part of the input with only whitespace before and after it |
| PyStr.StripKeepsOut | piddy.py:170 | a character absent from a field is absent from the stripped field, so stripped fields stay comma-free |
| PyStr.StripFixed | piddy.py:170 | `strip()` leaves a string unchanged exactly when it has no whitespace at either end |
| PyStr.StripIdempotent | piddy.py:170 | stripping twice is the same as stripping once |
| PyStr.StripSpacePrefix | piddy.py:170 | leading whitespace never changes the stripped result |
| PyStr.Split | piddy.py:170 | `s.split(',')` gives one more field than there are commas, and no field contains a comma |
| PyStr.Join | piddy.py:118 | `sep.join(parts)`: its properties are stated by `SplitThenJoin` and `JoinThenSplit` (joining undoes splitting, and splitting undoes joining separator-free parts) |
| PyStr.SplitThenJoin | piddy.py:170 | the split fields joined with ',' give back the input: nothing is lost or reordered |
| PyStr.JoinThenSplit | piddy.py:170 | splitting the join of comma-free fields gives those fields back, so the split fields are the only such list |
| PyStr.Index | piddy.py:65 | where `user.split("@", 1)` cuts: the position of the first '@', which is present |
| PyStr.IntToString | piddy.py:113 | `str(pid)`: a '-' exactly for negative pids, then non-empty decimal digits whose value is the pid's magnitude, with no leading zero unless the pid is 0 |
| PyStr.IntToStringInjective | piddy.py:113 | different pids print differently |
| Recipients.ParseRecipients | piddy.py:170 | one entry per comma-separated field, in order, each the stripped field, free of commas and surrounding whitespace; `""` gives `[""]` |
| Recipients.Normalize | piddy.py:110 | a list or tuple is kept as it is; any other value becomes a one-element list |
| Recipients.NormalizeIdempotent | piddy.py:110 | a normalized list passed to `notify` again is kept as it is |
| Recipients.JoinRecipients | piddy.py:118 | `", ".join(recipients)`: its property is stated by `HeaderFields` and `ParseJoinRoundTrip` (the header lists the recipients in order and parses back to them) |
| Recipients.HeaderFields | piddy.py:118 | the `To` header, read as comma-separated fields, is the first recipient followed by each later recipient after one blank, in order |
| Recipients.ParseJoinRoundTrip | piddy.py:118 | parsing the `To` header of a non-empty list of clean entries gives back the same list |
| Recipients.ParseJoinParse | piddy.py:170 | parsing the `To` header built from a parsed `-e` argument gives the parsed list again |
| Notification.ProcessName | piddy.py:111 | the name is the given one when non-empty, otherwise "Your process"; never empty |
| Notification.FromAddress | piddy.py:112 | the From address is the given sender when non-empty, otherwise user@hostname |
| Notification.Compose | piddy.py:111-118 | subject and body are the same text, "name (pid N), finished running." with the defaulted name; From is the defaulted sender; To is the recipients joined with ", " |
| Notification.NotificationText | piddy.py:113 | the one-line text: its property is stated by `NotificationTextInjective` (it determines both the name and the pid) |
| Notification.NotificationTextInjective | piddy.py:113 | two notification texts are equal only for the same name and the same pid |
| Notification.DefaultNameUsed | piddy.py:111 | no name and an empty name give the same message, whose subject starts with "Your process" |
| Notification.MimeText.Set | piddy.py:116-118 | `msg[name] = value` appends that header after the ones already set |
| Notification.BuildMime | piddy.py:115-118 | the MIMEText object carries the text as payload and gets the Subject, From and To headers in that order |
| Polling.FirstFalse | piddy.py:46-49 | the number of leading `true` answers is the index of the first `false`, or all answers when none is `false` |
| Polling.WaitForPid | piddy.py:40-50 | the loop ends exactly when an answer is `false`, and it sleeps once for each `true` answer before the first `false` |
| Polling.NoSleepWhenAlreadyGone | piddy.py:46 | a first answer of `false` means no sleep |
| Piddy.DefaultHost | piddy.py:65 | "smtp." followed by everything after the first '@' of the user, or "" when the user has no '@' |
| Piddy.DefaultHostStripped | piddy.py:62-65 | a default host built from a stripped user name has no surrounding whitespace |
| Piddy.SmtpHost | piddy.py:66-67 | the host used: its property is stated by `SmtpHostChoice` |
| Piddy.SmtpHostChoice | piddy.py:65-67 | a typed host replaces the default and is stripped; with nothing typed the host is the default itself |
| Piddy.PromptForCredentials | piddy.py:53-99 | credentials come back exactly when user and host are non-empty and login returns 235; they are then (host, 587, user, password); no connection is tried without user or host; every other outcome is a refusal naming the SMTP result |
| Piddy.NotifyMail | piddy.py:103-134 | envelope recipients are the whole normalized list; localhost path: envelope sender is the From address; authenticated path: the server in the credentials and the credential user as envelope sender |
| Piddy.ToHeaderListsEnvelope | piddy.py:118-133 | for recipients parsed from `-e`, the To header parsed again equals the envelope recipients |
| Piddy.Run | piddy.py:160-176 | the main block takes exactly the steps its trace function gives |
| Piddy.RunInOrder | piddy.py:160-176 | the run starts with the pid check, and its steps come in the order check, prompt, wait, send, each at most once |
| Piddy.DeadPidDoesNothing | piddy.py:160-176 | a pid that is not running gives no prompt, no wait and no mail |
| Piddy.RunSteps | piddy.py:160-173 | prompt exactly with `-p` on a live pid; wait exactly when live and credentials (if asked) accepted; mail exactly when, in addition, the wait saw the process gone |
| Piddy.RunWaitSleeps | piddy.py:167 | the wait step sleeps once per `true` answer before the first `false` |
| Piddy.RunMailRecipients | piddy.py:169-173 | the mail goes to exactly the recipients parsed from `-e`, listed in the same order in the To header, by the transport the prompt chose |
| PidNote.NotifyMail | pidnote.py:39-58 | always 127.0.0.1; envelope sender equals the From header; envelope recipients are the normalized list; the message is the shared composition |
| PidNote.NotifyMatchesPiddy | pidnote.py:39-58 | pidnote's `notify` sends the same mail as piddy's `notify` without credentials |
| PidNote.Run | pidnote.py:79-88 | the main block takes exactly the steps its trace function gives |
| PidNote.RunMatchesPiddy | pidnote.py:79-88 | a pidnote run takes the same steps as a piddy run without `-p` |
| PidNote.RunSteps | pidnote.py:79-88 | dead pid: only the check; otherwise the wait comes first, sleeping once per `true` answer, and the mail follows exactly when the wait saw the process gone |
| PidNote.RunMailRecipients | pidnote.py:82-85 | the mail goes to 127.0.0.1, from the From address, to exactly the parsed recipients, listed in the same order in the To header |

## Left out

- `os.kill(pid, 0)` (piddy.py:33, pidnote.py:19) is an OS call. It is modelled only by its answers (`alive`, `probe`).
- `time.time`, `time.sleep` and the elapsed-seconds progress line (piddy.py:45-50) are wall-clock time and terminal output. A sleep is counted, not timed.
- A wait that never ends is not modelled: loops without a termination measure are not used. A finite, all-`true` probe stands for a wait still in progress.
- The `smtplib` exchanges (connect, EHLO, STARTTLS, login, sendmail, quit; piddy.py:74-83, 122-134) are network I/O through a library. The credential check sees only how the exchange ends (`LoginReply`). `notify`'s own connection is modelled by the mail it hands over (`Mail`), and a failure while sending is not modelled.
- In real smtplib a rejected login raises `SMTPAuthenticationError` rather than returning a code. That is one of the `SmtpException` outcomes here; the `Replied(code)` case keeps the code's `else` branch. `SMTPHeloError` is a subclass of `SMTPException`, so its separate handler (piddy.py:87-89) can never run; both end as `SmtpFailure`.
- `MIMEText.as_string()` is library serialisation. The message is the record of subject, From, To and body, plus the headers assigned in order. The headers `MIMEText` adds by itself (Content-Type and others) are not modelled.
- `raw_input`, `getpass.getpass`, `getpass.getuser` and `socket.gethostname` are terminal I/O and the environment. Their results are parameters.
- `argparse`, the help fallback (piddy.py:155-156), the printed messages and `sys.exit` statuses are CLI plumbing. A refused credential check is modelled as a `Refused` value that ends the run.
- Any value other than a string is not modelled: Python would also wrap a non-string lone recipient, but joining it would raise.
- Piddy.Run: the trace records only that the prompt accepted or refused. The reason for a refusal is stated by Piddy.PromptForCredentials.
