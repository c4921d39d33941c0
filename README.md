# picam notifier and day/night switch — a Dafny model

This project models the decision logic of three scripts from the picam
repository. It contains no I/O.

- **TextOnError.py**, the guarded-command runner. It runs a command. When
  the command fails, it fills the `{cmd}`, `{code}` and `{host}` tokens of a
  message template, expands escaped newlines, and then either prints the
  text (pretend mode) or sends it to every configured phone number. It exits
  with the command's failure code.
- **SendText.py**, the command-line notifier. It joins its arguments into
  one message and rejects an empty message. It expands escaped newlines,
  then prints or sends the text.
- **auto_mode.py**, the day/night switch. It reads a light-dependent
  resistor. A reading that disagrees with the current mode starts a vote
  over four more readings. The mode pin is written only when the vote
  confirms a change.

Modules:

- `Wrappers`: `Option`.
- `Cli`: what the two notifiers share from argparse and their output: the
  usage-error exit status and the pretend-mode banner.
- `Strings`: the Python string operations the scripts use:
  - `" ".join`, with `Split` as its inverse;
  - `str.replace`, pinned down in terms of the pattern's occurrences: a
    text without one is unchanged, and the first one is replaced before the
    scan resumes after it;
  - `str(int)`, with the decimal value of a digit string as its inverse.
- `Newlines`: the substitution `re.sub(r"(^|[^\\])(\\n)", "\\1\n", …)`
  that both notifiers apply last.
  - `ExpandNewlines` is the scan as the regular-expression engine runs it.
  - `Converted` and `Emitted` are a position-by-position reference saying
    which escapes the scan converts.
- `Messaging`: the credentials (sender and recipients) and the messaging
  client.
  - The client is a class whose ghost `outbox` records every
    `messages.create` call.
  - `SendToAll` is the `for to_phone in …` loop that both notifiers share.
- `TextOnError`: `Decide` is the whole decision as a function.
  `RunGuarded` is the same flow performed step by step.
- `SendText`: `MessageText` is the text or the rejection. `Notify` is the
  script's flow.
- `AutoMode`: the classification is `LdrMode`, the vote is `DayCount` and
  `VerifiedMode`, and one pass of the main loop is `StepOutcome`.
  - The class `Controller` holds `current_mode` and a ghost log of pin
    writes.
  - Its `Step` method performs one pass, and `Run` performs passes over a
    finite stream of readings.

Inputs that the scripts get from outside are parameters:

- the child's exit status;
- the hostname lookup, which is `None` when `socket.gethostname` raised;
- the sensor readings, as natural numbers;
- the parsed arguments and flags.

The code sets `--always` aside: `if not cmd or always_send_mode` rejects the
run whenever the flag is given (TextOnError.py:147-148). The flag's help
text (TextOnError.py:90-92) promises a text even when nothing failed. The
model follows the code, and `TextOnError.AlwaysNeverSends` proves that the
send path for the flag cannot be reached.

## Model

| member | source | states |
|---|---|---|
| `Strings.Join` | SendText.py:104 | the joined text is as long as the words' letters plus one space between each two words |
| `Strings.JoinEmptyIff` | SendText.py:104-107 | the words joined with single spaces are empty exactly when there are no words or one empty word |
| `Strings.JoinSplit` | SendText.py:104 | splitting any text at spaces and joining the pieces gives the text back |
| `Strings.SplitJoin` | SendText.py:104 | splitting joined words gives back the words when no word contains a space |
| `Strings.ReplaceAbsent` | TextOnError.py:170-174 | `str.replace` returns a text unchanged when the pattern does not occur in it |
| `Strings.ReplaceBySelf` | TextOnError.py:170-174 | replacing a pattern by itself leaves any text unchanged |
| `Strings.Replace` | TextOnError.py:170-174 | every character of the result comes from the text or from the replacement |
| `Strings.ReplaceFirstOccurrence` | TextOnError.py:170-174 | for any replacement, the first occurrence of the pattern is replaced, the text before it is copied, and the scan resumes after it without rescanning the inserted text |
| `Strings.ReplaceLeavesNoOccurrence` | TextOnError.py:170-174 | every occurrence is replaced: with a non-empty replacement sharing no character with the pattern, no occurrence is left |
| `Strings.NatToDecimal` | TextOnError.py:171 | `str(error_code)` is a non-empty string of decimal digits with no leading zero |
| `Strings.DecimalRoundTrip` | TextOnError.py:171 | reading the decimal text of a number back gives the number |
| `Strings.DecimalHasNoMarkup` | TextOnError.py:171 | the decimal text of the code contains no brace and no backslash, so later steps leave it alone |
| `Newlines.ExpandNewlines` | TextOnError.py:176 | the substitution never lengthens the text, and it adds no character other than a newline |
| `Newlines.ExpandMatchesEmitted` | TextOnError.py:175-176 | the regular-expression scan's output is the concatenation of each position's contribution under the reference definition |
| `Newlines.ExpandLength` | TextOnError.py:176 | the output is the input shortened by one character per converted escape |
| `Newlines.CopiedCharacter` | TextOnError.py:176 | a character outside a converted escape is copied unchanged, at its index less the earlier conversions, so order is kept |
| `Newlines.ConvertedBecomesNewline` | TextOnError.py:176 | a converted escape becomes one real newline at the matching output position |
| `Newlines.LeadingEscapeConverted` | TextOnError.py:176 | a `\n` at the very start becomes a newline |
| `Newlines.EscapeAfterPlainConverted` | TextOnError.py:176 | a `\n` after a character that is not a backslash, and not part of an earlier match, is converted |
| `Newlines.EscapedBackslashKept` | TextOnError.py:175-176 | `\\n` is kept verbatim: all three characters reach the output |
| `Newlines.BackToBackSecondKept` | TextOnError.py:176 | in two back-to-back escapes only the first converts, because its `n` is consumed by the first match |
| `Newlines.ScanWithoutBackslash` | TextOnError.py:176 | a text with no backslash is left unchanged |
| `Newlines.ScanBreaksAfter` | TextOnError.py:176 | a non-empty backslash-free stretch followed by `\n` is copied, and the escape becomes a newline |
| `Newlines.Examples` | SendText.py:111-112 | concrete cases: `\nx`, `a\nb`, `\n\n`, `a\n\nb` |
| `Newlines.EscapedPairExample` | SendText.py:111-112 | concrete case: in `a\\nb` the doubled backslash keeps the `\n` |
| `Messaging.Client.constructor` | TextOnError.py:140 | a new client has created no message |
| `Messaging.Client.Create` | TextOnError.py:184-187 | `messages.create` appends exactly one `(to, from, body)` record to the outbox |
| `Messaging.Fanout` | TextOnError.py:182-187 | the loop creates exactly one message per recipient |
| `Messaging.FanoutEntries` | TextOnError.py:182-187 | the fan-out has one message per recipient: entry k goes to recipient k, from the sender, with the body |
| `Messaging.SendToAll` | SendText.py:118-123 | the send loop appends exactly the fan-out to the outbox and nothing else |
| `TextOnError.RunGuarded` | TextOnError.py:142-192 | the script's step-by-step flow ends with the exit status, the printed text and the outbox that `Decide` prescribes |
| `TextOnError.HostnameOf` | TextOnError.py:43-52 | a successful lookup gives the looked-up name, and a lookup that raised gives the sentinel `<Host Undetermined>` |
| `TextOnError.Template` | TextOnError.py:145 | the template is never empty: it is the `--message` text when one was given, otherwise the default notice |
| `TextOnError.Decide` | TextOnError.py:142-192 | the run is rejected exactly when the command is empty or `--always` is set; otherwise `error_code` is the child's status when positive and 0 otherwise, a text is produced exactly when the status is positive, and the script exits with `error_code`; its parts are `FailureMessage`, the `{cmd}` and `{code}` substitutions of lines 170-171, and `FinalText`, the `{host}` substitution and newline expansion of lines 174-176 |
| `TextOnError.RejectedIff` | TextOnError.py:147-148 | the run is rejected exactly when the command is empty or `--always` is set; it then exits with status 2 and prints and sends nothing |
| `TextOnError.AlwaysNeverSends` | TextOnError.py:144-148 | as written, `--always` never leads to a printed or sent text |
| `TextOnError.ErrorCodeFromStatus` | TextOnError.py:150-192 | `error_code` is the child's status when that is positive and 0 otherwise; the exit status equals it, and a text exists exactly when the status is positive |
| `TextOnError.SendsIff` | TextOnError.py:173-187 | a message is created exactly when there is a command, `--always` is off, the child failed and pretend mode is off |
| `TextOnError.DeliveriesPerRecipient` | TextOnError.py:182-187 | the created messages go to every recipient in list order, from the configured sender, with the same body |
| `TextOnError.PretendPrintsOnly` | TextOnError.py:178-179 | pretend mode creates no message and prints the banner, the text and a newline |
| `TextOnError.NoCodeTokenLeft` | TextOnError.py:170-171 | after the failure substitutions no `{code}` is left, not even one introduced by the command text |
| `TextOnError.DefaultTemplateText` | TextOnError.py:170-176 | with the default template of line 76, a failing command, and no tokens or backslashes in the inserted texts, the text is `There was a failure on h.` NL `Exit Code: c` NL `Command: x` |
| `TextOnError.LookedUpHostText` | TextOnError.py:43-52 | when the hostname lookup succeeds, the looked-up name stands in the default notice |
| `TextOnError.UndeterminedHostText` | TextOnError.py:43-52 | when the hostname lookup fails, the sentinel `<Host Undetermined>` stands in the notice |
| `TextOnError.SuccessSendsNothing` | TextOnError.py:168-173 | the command `true` exiting with 0 leads to no text, no delivery and exit status 0 |
| `TextOnError.FailureThreeNotifiesOnce` | TextOnError.py:168-187 | `make` failing with 3 sends the default notice once to the single recipient, and the runner exits with 3 |
| `TextOnError.CodeInsideCommandReplaced` | TextOnError.py:170-171 | a `{code}` inside the command words is replaced too, since `{cmd}` is substituted first |
| `TextOnError.CodeInsideHostKept` | TextOnError.py:171-174 | a `{code}` inside the hostname is kept, since `{host}` is substituted after `{code}` |
| `SendText.Notify` | SendText.py:103-123 | the script's flow returns the exit status, the printed text and the outbox that `MessageText` prescribes |
| `SendText.ExitStatus` | SendText.py:106-107 | the script exits with the usage error exactly when there are no words or one empty word, and with 0 otherwise |
| `SendText.MessageText` | SendText.py:104-112 | there is no text to send exactly when there are no words or one empty word |
| `SendText.RejectedIff` | SendText.py:104-107 | the message is rejected exactly when there are no words or one empty word; it then exits with status 2 and prints and sends nothing |
| `SendText.EmptyRejected` | SendText.py:106-107 | no arguments, or one empty argument, is a usage error |
| `SendText.PlainWordsRoundTrip` | SendText.py:104-112 | words without spaces or backslashes are sent as they are, single spaces apart, and can be split back into the words |
| `SendText.TextLength` | SendText.py:111-112 | the sent text is the joined message shortened by one character per converted escape |
| `SendText.BreakAfterPlainStart` | SendText.py:111-112 | a `\n` after a backslash-free, non-empty start becomes a line break |
| `SendText.BreakInWord` | SendText.py:112 | `Hello\nWorld` is sent as two lines |
| `SendText.BreakStartingWord` | SendText.py:104-112 | a `\n` at the start of a later word follows the joining space, so it becomes a line break |
| `SendText.DeliveriesPerRecipient` | SendText.py:117-123 | with pretend mode off there are exactly `len(to_phones)` messages; entry k goes to `to_phones[k]` from the configured sender with the same text |
| `SendText.PretendPrintsOnly` | SendText.py:114-115 | pretend mode creates no message and prints the banner, the expanded text and a newline |
| `AutoMode.LdrMode` | auto_mode.py:74-78 | a reading is day exactly when it is below the threshold 100000 |
| `AutoMode.ClassifyThreshold` | auto_mode.py:74-78 | a reading below 100000 is day (GPIO high), one at or above it is night (GPIO low); a lower reading is never darker |
| `AutoMode.ModeName` | auto_mode.py:87-94 | the name is `UNKNOWN` exactly for a level other than high and low, and `None` exactly for the unset mode |
| `AutoMode.ModeNames` | auto_mode.py:87-94 | day is named `DAY` and night `NIGHT` |
| `AutoMode.DayCount` | auto_mode.py:108-112 | the day count never exceeds the number of readings, and is 0 exactly when every reading is night |
| `AutoMode.VerifiedMode` | auto_mode.py:114-116 | the test `day_count * 2 > 5` gives day exactly when at least three votes are day |
| `AutoMode.VerifyVote` | auto_mode.py:108-116 | the loop over `range(1, 5)` counts the day classifications of exactly four readings, so the count is at most 4, and returns the majority mode |
| `AutoMode.Controller.constructor` | auto_mode.py:101 | the controller starts with no mode and no pin write |
| `AutoMode.Controller.SetMode` | auto_mode.py:81-84 | `set_mode` adds one pin write and leaves `current_mode` to its caller |
| `AutoMode.StepOutcome` | auto_mode.py:104-122 | a pass consumes 1 reading, and then writes nothing, or 5 readings; a write always differs from the current mode, and a pass from the unset mode always writes |
| `AutoMode.Controller.Step` | auto_mode.py:104-122 | one pass takes 1 or 5 readings and writes the pin and updates `current_mode` exactly as `StepOutcome` says; `current_mode` stays the last write, and once set is never unset |
| `AutoMode.Controller.Run` | auto_mode.py:101-122 | repeated passes over a stream end in the mode and pin log that `RunFrom` computes, keeping the log invariant |
| `AutoMode.AgreeingReadingIsNoOp` | auto_mode.py:104-106 | when the first reading agrees with the set mode, the pass takes that one reading and writes nothing |
| `AutoMode.WritesIff` | auto_mode.py:106-122 | the pin is written exactly when no mode is set, or when both the first reading and the vote disagree with the mode; the vote is what is written |
| `AutoMode.InitialSampleNotCounted` | auto_mode.py:104-112 | the first reading only decides whether to vote; it is not counted in the vote |
| `AutoMode.ThreeOfFourGivesDay` | auto_mode.py:108-122 | three day votes out of four switch night to day |
| `AutoMode.TwoOfFourKeepsNight` | auto_mode.py:108-122 | two day votes out of four are no majority: night is kept and the pin is not written |
| `AutoMode.TwoOfFourFromNoModeWritesNight` | auto_mode.py:106-122 | from no mode, a day first reading with two day votes out of four writes night |
| `AutoMode.RunFrom` | auto_mode.py:101-122 | there are at most as many passes as readings, and each pass writes the pin at most once |
| `AutoMode.RunFromLog` | auto_mode.py:101-122 | over any number of passes the mode is the last pin write, consecutive writes differ, the first write differs from the starting mode, and once set the mode is never unset |
| `AutoMode.RunFromStart` | auto_mode.py:101-122 | starting with no mode, the first pass writes the pin, and the log ends in the current mode with no repeated write |

## Left out

- The child process: `subprocess.Popen`, the two `echo_pipe` reader threads
  and the 0.2 s liveness poll (TextOnError.py:55-67, 151-167). These are
  concurrency and pipe I/O. The child is represented only by its exit
  status.
- The failure to start the child: when `subprocess.Popen` raises
  (TextOnError.py:152), for a program that does not exist or an empty first
  word, the script ends with a traceback and exit status 1 and sends
  nothing. The model's child always starts and reports an exit status.
- `socket.gethostname`, which is a foreign call. Its result is an optional
  name. The logging of its failure is not modelled.
- The Twilio client and `messages.create`. The provider is represented by
  the ghost outbox; delivery and provider errors are not modelled.
- argparse, the loading of `picam.json`, the credential `assert`s, and all
  logging (TextOnError.py:78-140, SendText.py:46-101). These are
  configuration I/O.
  - The non-empty recipient list that `assert data['twilio']['to_phones']`
    guarantees is a precondition of the flows.
  - In test mode both scripts assert `test.from_phone` but then read
    `test.test_from` (TextOnError.py:122/126).
  - The exit status 2 of `parser.error` is argparse's documented behaviour;
    its usage message is not modelled.
- `TextOnError.RunGuarded`: the operating system keeps only the low 8 bits
  of the status passed to `sys.exit(error_code)`. The model returns the
  status itself.
- `Strings.Replace`: an empty pattern is not modelled. Python then inserts
  the replacement before the first character, between every two characters
  and after the last (`"abc".replace("", "-")` is `-a-b-c-`). Every call
  site uses a fixed, non-empty token.
- `ldr_strength` (auto_mode.py:53-71), a GPIO busy-wait with no timeout and
  a float elapsed-time conversion to microseconds. Each reading is a
  supplied natural number.
- `AutoMode.Controller.Step`: it receives the next five readings at once;
  the script asks the sensor for each one. A pass that agrees with the mode
  uses only the first of them.
- `AutoMode.Controller.Run`: the `while True` loop is bounded by a finite
  stream of readings. The loop stops when fewer than five readings remain.
- All `time.sleep` delays, the keyboard interrupt and the final
  `GPIO.cleanup()`. The pin setup calls are not modelled separately; a pin
  write is one log entry.
- ldr.py, which only counts busy-wait iterations on a pin and prints them.
