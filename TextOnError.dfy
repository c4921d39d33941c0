/**
 * The guarded-command runner (TextOnError.py): run a command, and when it
 * fails send a text built from a template with `{cmd}`, `{code}` and
 * `{host}` filled in; exit with the command's failure code.
 *
 * The child process is represented only by its exit status, the hostname
 * lookup by an optional name (absent when `socket.gethostname` raised), and
 * the messaging client by its outbox. `Decide` is the whole decision as a
 * function; `RunGuarded` performs it step by step as the script does.
 */
module TextOnError {
  import opened Wrappers
  import opened Strings
  import opened Newlines
  import opened Messaging
  import opened Cli

  /** The fixed parts of the default template; each `\n` in them is two characters, backslash and `n`. */
  const Lead: string := "There was a failure on "
  const CodeLine: string := ".\\nExit Code: "
  const CommandLine: string := "\\nCommand: "

  /**
   * `default_message`, the raw string `There was a failure on {host}.\nExit
   * Code: {code}\nCommand: {cmd}`, assembled from its fixed parts and tokens.
   */
  const DefaultMessage: string := Lead + ("{host}" + (CodeLine + ("{code}" + (CommandLine + "{cmd}"))))

  /** What `get_hostname` returns when the lookup raised. */
  const HostUndetermined: string := "<Host Undetermined>"

  /** `get_hostname()`: the looked-up name, or the sentinel when the lookup failed. */
  function HostnameOf(lookup: Option<string>): (name: string)
    ensures lookup.Some? ==> name == lookup.value
    ensures lookup.None? ==> name == HostUndetermined
  {
    match lookup
    case Some(name) => name
    case None => HostUndetermined
  }

  /** `args.message if args.message else default_message`: an absent or empty `-m` selects the default. */
  function Template(messageArg: Option<string>): (template: string)
    ensures template != ""
    ensures Some(template) == messageArg || template == DefaultMessage
    ensures Some(template) == messageArg <==> messageArg.Some? && messageArg.value != ""
  {
    match messageArg
    case Some(m) => if m != "" then m else DefaultMessage
    case None => DefaultMessage
  }

  /** The failure-branch substitutions: `{cmd}` first, then `{code}`. */
  function FailureMessage(template: string, cmd: seq<string>, errorCode: nat): string
  {
    Replace(Replace(template, "{cmd}", Join(cmd)), "{code}", NatToDecimal(errorCode))
  }

  /** The send-branch steps: `{host}`, then newline expansion last. */
  function FinalText(message: string, host: string): string
  {
    ExpandNewlines(Replace(message, "{host}", host))
  }

  /** How a run ends: rejected by the argument check, or finished with `error_code` and the text, if any. */
  datatype Run = Rejected | Finished(errorCode: nat, text: Option<string>)
  {
    /** The runner's own exit status. */
    function ExitCode(): int
    {
      if Rejected? then UsageErrorStatus else errorCode
    }
  }

  /** The decision of one run, in the order the script takes it. */
  function Decide(cmd: seq<string>, always: bool, messageArg: Option<string>,
                  childStatus: int, hostLookup: Option<string>): (run: Run)
    ensures run.Rejected? <==> (cmd == [] || always)
    ensures run.Finished? ==> run.errorCode == (if childStatus > 0 then childStatus else 0)
    ensures run.Finished? ==> (run.text.Some? <==> childStatus > 0) && run.ExitCode() == run.errorCode
  {
    if cmd == [] || always then Rejected
    else
      var errorCode: nat := if childStatus > 0 then childStatus else 0;
      var message := if childStatus > 0 then FailureMessage(Template(messageArg), cmd, errorCode)
                     else Template(messageArg);
      if always || errorCode > 0 then Finished(errorCode, Some(FinalText(message, HostnameOf(hostLookup))))
      else Finished(errorCode, None)
  }

  /** The messages created: one per recipient when there is a text and pretend mode is off. */
  function Deliveries(run: Run, pretend: bool, creds: Credentials): seq<Sms>
  {
    if run.Finished? && run.text.Some? && !pretend then Fanout(creds.toPhones, creds.fromPhone, run.text.value)
    else []
  }

  /** What pretend mode prints in place of sending (`print` adds the final newline). */
  function PretendOutput(run: Run, pretend: bool): Option<string>
  {
    if run.Finished? && run.text.Some? && pretend then Some(PretendBanner + run.text.value + "\n") else None
  }

  /**
   * The script's flow: reject, take the exit status, substitute on failure,
   * then finish the text and print or send it; exit with `error_code`.
   */
  method RunGuarded(client: Client, creds: Credentials, cmd: seq<string>, pretend: bool, always: bool,
                    messageArg: Option<string>, childStatus: int, hostLookup: Option<string>)
    returns (exitCode: int, printed: Option<string>)
    requires creds.Valid()
    modifies client
    ensures exitCode == Decide(cmd, always, messageArg, childStatus, hostLookup).ExitCode()
    ensures printed == PretendOutput(Decide(cmd, always, messageArg, childStatus, hostLookup), pretend)
    ensures client.outbox
         == old(client.outbox) + Deliveries(Decide(cmd, always, messageArg, childStatus, hostLookup), pretend, creds)
  {
    var message := Template(messageArg);
    if cmd == [] || always {
      exitCode, printed := UsageErrorStatus, None;
      return;
    }
    var errorCode: nat := 0;
    if cmd != [] {
      if childStatus > 0 {
        errorCode := childStatus;
        message := Replace(message, "{cmd}", Join(cmd));
        message := Replace(message, "{code}", NatToDecimal(errorCode));
      }
    }
    printed := None;
    if always || errorCode > 0 {
      message := Replace(message, "{host}", HostnameOf(hostLookup));
      message := ExpandNewlines(message);
      if pretend {
        printed := Some(PretendBanner + message + "\n");
      } else {
        SendToAll(client, creds, message);
      }
    }
    exitCode := errorCode;
  }

  /* ---------------------------------------------------------------------- */
  /* Properties of the decision                                             */
  /* ---------------------------------------------------------------------- */

  /** The run is rejected exactly when there is no command or `--always` is set; then nothing is printed or sent. */
  lemma RejectedIff(cmd: seq<string>, always: bool, messageArg: Option<string>, childStatus: int,
                    hostLookup: Option<string>, pretend: bool, creds: Credentials)
    ensures Decide(cmd, always, messageArg, childStatus, hostLookup).Rejected? <==> (cmd == [] || always)
    ensures Decide(cmd, always, messageArg, childStatus, hostLookup).Rejected? ==>
              Decide(cmd, always, messageArg, childStatus, hostLookup).ExitCode() == UsageErrorStatus
              && Deliveries(Decide(cmd, always, messageArg, childStatus, hostLookup), pretend, creds) == []
              && PretendOutput(Decide(cmd, always, messageArg, childStatus, hostLookup), pretend) == None
  {
  }

  /** As written, `--always` never leads to a text: its send path cannot be reached. */
  lemma AlwaysNeverSends(cmd: seq<string>, messageArg: Option<string>, childStatus: int,
                         hostLookup: Option<string>, pretend: bool, creds: Credentials)
    ensures Deliveries(Decide(cmd, true, messageArg, childStatus, hostLookup), pretend, creds) == []
    ensures PretendOutput(Decide(cmd, true, messageArg, childStatus, hostLookup), pretend) == None
  {
  }

  /**
   * `error_code` is the child's status only when that is positive; zero or a
   * negative (signal) status leaves it 0, and then there is no text and the
   * exit status is 0. The exit status is `error_code`.
   */
  lemma ErrorCodeFromStatus(cmd: seq<string>, messageArg: Option<string>, childStatus: int,
                            hostLookup: Option<string>)
    requires cmd != []
    ensures var run := Decide(cmd, false, messageArg, childStatus, hostLookup);
            run.Finished?
            && run.errorCode == (if childStatus > 0 then childStatus else 0)
            && run.ExitCode() == run.errorCode
            && (run.text.Some? <==> childStatus > 0)
  {
  }

  /** A message is created exactly when the run is accepted, the child failed and pretend mode is off. */
  lemma SendsIff(cmd: seq<string>, always: bool, messageArg: Option<string>, childStatus: int,
                 hostLookup: Option<string>, pretend: bool, creds: Credentials)
    requires creds.Valid()
    ensures Deliveries(Decide(cmd, always, messageArg, childStatus, hostLookup), pretend, creds) != []
            <==> (cmd != [] && !always && childStatus > 0 && !pretend)
  {
    var run := Decide(cmd, always, messageArg, childStatus, hostLookup);
    if run.Finished? && run.text.Some? && !pretend {
      FanoutEntries(creds.toPhones, creds.fromPhone, run.text.value);
    }
  }

  /**
   * When a text goes out it goes to every recipient in list order, from the
   * configured sender, with the same body.
   */
  lemma DeliveriesPerRecipient(run: Run, pretend: bool, creds: Credentials)
    requires run.Finished? && run.text.Some? && !pretend
    ensures |Deliveries(run, pretend, creds)| == |creds.toPhones|
    ensures forall k :: 0 <= k < |creds.toPhones| ==>
              Deliveries(run, pretend, creds)[k] == Sms(creds.toPhones[k], creds.fromPhone, run.text.value)
  {
    FanoutEntries(creds.toPhones, creds.fromPhone, run.text.value);
  }

  /**
   * After the failure-branch substitutions no `{code}` token is left, not
   * even one that the command text brought in: `{code}` runs after `{cmd}`.
   */
  lemma NoCodeTokenLeft(template: string, cmd: seq<string>, errorCode: nat)
    ensures !Occurs(FailureMessage(template, cmd, errorCode), "{code}")
  {
    var c := NatToDecimal(errorCode);
    forall ch | ch in c ensures ch !in "{code}" {
      var i :| 0 <= i < |c| && c[i] == ch;
      assert IsDigit(c[i]);
    }
    ReplaceLeavesNoOccurrence(Replace(template, "{cmd}", Join(cmd)), "{code}", c);
  }

  /** Pretend mode creates no message and prints the text instead. */
  lemma PretendPrintsOnly(run: Run, creds: Credentials)
    ensures Deliveries(run, true, creds) == []
    ensures run.Finished? && run.text.Some? ==>
              PretendOutput(run, true) == Some(PretendBanner + run.text.value + "\n")
  {
  }

  /* ---------------------------------------------------------------------- */
  /* The default template                                                   */
  /* ---------------------------------------------------------------------- */

  /** The `{cmd}` step on a template laid out like the default one. */
  lemma CmdStep(l1: string, l2: string, l3: string, x: string)
    requires '{' !in l1 && '{' !in l2 && '{' !in l3
    ensures Replace(l1 + ("{host}" + (l2 + ("{code}" + (l3 + "{cmd}")))), "{cmd}", x)
         == l1 + ("{host}" + (l2 + ("{code}" + (l3 + x))))
  {
    var p := "{cmd}";
    assert "{host}"[..5][1] != p[1] && "{code}"[..5][2] != p[2];
    ReplaceAtStart("", p, x);
    assert p + "" == p;
    ReplaceKeepsLeading(l3, p, p, x);
    ReplaceSkipsToken("{code}", l3 + p, p, x);
    ReplaceKeepsLeading(l2, "{code}" + (l3 + p), p, x);
    ReplaceSkipsToken("{host}", l2 + ("{code}" + (l3 + p)), p, x);
    ReplaceKeepsLeading(l1, "{host}" + (l2 + ("{code}" + (l3 + p))), p, x);
  }

  /** The `{code}` step, after `{cmd}`. */
  lemma CodeStep(l1: string, l2: string, l3: string, x: string, c: string)
    requires '{' !in l1 && '{' !in l2 && '{' !in l3
    requires !Occurs(x, "{code}")
    ensures Replace(l1 + ("{host}" + (l2 + ("{code}" + (l3 + x)))), "{code}", c)
         == l1 + ("{host}" + (l2 + (c + (l3 + x))))
  {
    var p := "{code}";
    assert "{host}"[..6][1] != p[1];
    ReplaceAbsent(x, p, c);
    ReplaceKeepsLeading(l3, x, p, c);
    ReplaceAtStart(l3 + x, p, c);
    ReplaceKeepsLeading(l2, p + (l3 + x), p, c);
    ReplaceSkipsToken("{host}", l2 + (p + (l3 + x)), p, c);
    ReplaceKeepsLeading(l1, "{host}" + (l2 + (p + (l3 + x))), p, c);
  }

  /** The `{host}` step, after `{cmd}` and `{code}`. */
  lemma HostStep(l1: string, l2: string, l3: string, x: string, c: string, h: string)
    requires '{' !in l1 && '{' !in l2 && '{' !in l3 && '{' !in c
    requires !Occurs(x, "{host}")
    ensures Replace(l1 + ("{host}" + (l2 + (c + (l3 + x)))), "{host}", h)
         == l1 + (h + (l2 + (c + (l3 + x))))
  {
    var p := "{host}";
    ReplaceAbsent(x, p, h);
    ReplaceKeepsLeading(l3, x, p, h);
    ReplaceKeepsLeading(c, l3 + x, p, h);
    ReplaceKeepsLeading(l2, c + (l3 + x), p, h);
    ReplaceAtStart(l2 + (c + (l3 + x)), p, h);
    ReplaceKeepsLeading(l1, p + (l2 + (c + (l3 + x))), p, h);
  }

  /** Newline expansion, last: each of the two escapes becomes a newline. */
  lemma ExpandStep(l1: string, h: string, p1: string, p2: string, c: string, p3: string, x: string)
    requires |l1| > 0 && |c| > 0
    requires '\\' !in l1 && '\\' !in h && '\\' !in p1 && '\\' !in p2 && '\\' !in c && '\\' !in p3 && '\\' !in x
    ensures ExpandNewlines(l1 + (h + ((p1 + ("\\n" + p2)) + (c + (("\\n" + p3) + x)))))
         == l1 + (h + (p1 + ("\n" + (p2 + (c + ("\n" + (p3 + x)))))))
  {
    var a, b, d := l1 + (h + p1), p2 + c, p3 + x;
    var s := l1 + (h + ((p1 + ("\\n" + p2)) + (c + (("\\n" + p3) + x))));
    assert s == a + ("\\n" + (b + ("\\n" + d)));
    assert !EscapeAt(s, 0) by {
      assert s[0] == l1[0];
    }
    assert '\\' !in a && '\\' !in b && '\\' !in d;
    ScanBreaksAfter(a, b + ("\\n" + d));
    ScanBreaksAfter(b, d);
    ScanWithoutBackslash(d);
  }

  lemma DefaultLayout()
    ensures Lead == "There was a failure on "
    ensures CodeLine == "." + ("\\n" + "Exit Code: ")
    ensures CommandLine == "\\n" + "Command: "
    ensures "." + "\n" + "Exit Code: " == ".\nExit Code: " && "\n" + "Command: " == "\nCommand: "
    ensures '{' !in Lead && '{' !in CodeLine && '{' !in CommandLine
    ensures '\\' !in Lead && '\\' !in "." && '\\' !in "Exit Code: " && '\\' !in "Command: "
  {
  }

  /**
   * With the default template, a failing command, and a hostname and command
   * text that carry no backslash (and no `{code}` or `{host}` in the command),
   * the text is the three-line failure notice.
   */
  lemma DefaultTemplateText(cmd: seq<string>, messageArg: Option<string>, childStatus: int,
                            hostLookup: Option<string>)
    requires cmd != [] && childStatus > 0
    requires messageArg.None? || messageArg.value == ""
    requires !Occurs(Join(cmd), "{code}") && !Occurs(Join(cmd), "{host}") && '\\' !in Join(cmd)
    requires '\\' !in HostnameOf(hostLookup)
    ensures Decide(cmd, false, messageArg, childStatus, hostLookup).text
         == Some("There was a failure on " + HostnameOf(hostLookup) + ".\nExit Code: " + NatToDecimal(childStatus)
                 + "\nCommand: " + Join(cmd))
  {
    var x, c, h := Join(cmd), NatToDecimal(childStatus), HostnameOf(hostLookup);
    DecimalHasNoMarkup(childStatus);
    DefaultLayout();
    var m1 := Replace(DefaultMessage, "{cmd}", x);
    assert m1 == Lead + ("{host}" + (CodeLine + ("{code}" + (CommandLine + x)))) by {
      CmdStep(Lead, CodeLine, CommandLine, x);
    }
    var m2 := Replace(m1, "{code}", c);
    assert m2 == Lead + ("{host}" + (CodeLine + (c + (CommandLine + x)))) by {
      CodeStep(Lead, CodeLine, CommandLine, x, c);
    }
    var m3 := Replace(m2, "{host}", h);
    assert m3 == Lead + (h + (CodeLine + (c + (CommandLine + x)))) by {
      HostStep(Lead, CodeLine, CommandLine, x, c, h);
    }
    var m4 := ExpandNewlines(m3);
    assert m4 == Lead + (h + ("." + ("\n" + ("Exit Code: " + (c + ("\n" + ("Command: " + x))))))) by {
      ExpandStep(Lead, h, ".", "Exit Code: ", c, "Command: ", x);
    }
    assert Template(messageArg) == DefaultMessage;
    assert Decide(cmd, false, messageArg, childStatus, hostLookup).text == Some(m4);
    Regroup(Lead, h, ".", "\n", "Exit Code: ", c, "\n", "Command: ", x);
  }

  lemma Regroup(l: string, h: string, a1: string, a2: string, a3: string, c: string, b1: string, b2: string, x: string)
    ensures l + (h + (a1 + (a2 + (a3 + (c + (b1 + (b2 + x)))))))
         == l + h + (a1 + a2 + a3) + c + (b1 + b2) + x
  {
  }

  /** A failed hostname lookup puts the sentinel into the default notice. */
  lemma UndeterminedHostText(cmd: seq<string>, childStatus: int)
    requires cmd != [] && childStatus > 0
    requires !Occurs(Join(cmd), "{code}") && !Occurs(Join(cmd), "{host}") && '\\' !in Join(cmd)
    ensures Decide(cmd, false, None, childStatus, None).text
         == Some("There was a failure on " + HostUndetermined + ".\nExit Code: " + NatToDecimal(childStatus)
                 + "\nCommand: " + Join(cmd))
  {
    assert '\\' !in HostUndetermined;
    DefaultTemplateText(cmd, None, childStatus, None);
  }

  /** When the hostname lookup succeeds, the looked-up name itself stands in the notice. */
  lemma LookedUpHostText(cmd: seq<string>, childStatus: int, host: string)
    requires cmd != [] && childStatus > 0
    requires !Occurs(Join(cmd), "{code}") && !Occurs(Join(cmd), "{host}") && '\\' !in Join(cmd)
    requires '\\' !in host
    ensures Decide(cmd, false, None, childStatus, Some(host)).text
         == Some("There was a failure on " + host + ".\nExit Code: " + NatToDecimal(childStatus)
                 + "\nCommand: " + Join(cmd))
  {
    DefaultTemplateText(cmd, None, childStatus, Some(host));
  }

  /* ---------------------------------------------------------------------- */
  /* Concrete runs                                                          */
  /* ---------------------------------------------------------------------- */

  /** A command that exits with 0 sends nothing and the runner exits with 0. */
  lemma SuccessSendsNothing(creds: Credentials, messageArg: Option<string>, hostLookup: Option<string>)
    ensures var run := Decide(["true"], false, messageArg, 0, hostLookup);
            run.ExitCode() == 0 && Deliveries(run, false, creds) == [] && PretendOutput(run, true) == None
  {
  }

  /**
   * A command that exits with 3 notifies the one recipient once, with the
   * code in the default notice, and the runner exits with 3.
   */
  lemma FailureThreeNotifiesOnce(from: string, to: string)
    ensures var run := Decide(["make"], false, None, 3, Some("pi"));
            run.ExitCode() == 3
            && Deliveries(run, false, Credentials(from, [to]))
               == [Sms(to, from, "There was a failure on " + "pi" + ".\nExit Code: " + "3" + "\nCommand: " + "make")]
  {
    var body := "There was a failure on " + "pi" + ".\nExit Code: " + "3" + "\nCommand: " + "make";
    assert Decide(["make"], false, None, 3, Some("pi")).text == Some(body) by {
      assert Join(["make"]) == "make";
      assert NatToDecimal(3) == "3";
      AbsentWithoutFirstChar("make", "{code}");
      AbsentWithoutFirstChar("make", "{host}");
      DefaultTemplateText(["make"], None, 3, Some("pi"));
    }
    FanoutEntries([to], from, body);
  }

  /** `{code}` introduced by the command text is replaced too, since `{cmd}` goes first. */
  lemma CodeInsideCommandReplaced()
    ensures Decide(["echo", "{code}"], false, Some("{cmd}"), 7, Some("pi")).text == Some("echo " + "7")
  {
    var x := "echo " + "{code}";
    assert Join(["echo", "{code}"]) == x by {
      assert Join(["echo", "{code}"]) == "echo" + " " + Join(["{code}"]);
    }
    assert NatToDecimal(7) == "7";
    assert Replace("{cmd}", "{cmd}", x) == x by {
      ReplaceAtStart("", "{cmd}", x);
      assert "{cmd}" + "" == "{cmd}";
    }
    assert Replace(x, "{code}", "7") == "echo " + "7" by {
      ReplaceKeepsLeading("echo ", "{code}", "{code}", "7");
      ReplaceAtStart("", "{code}", "7");
      assert "{code}" + "" == "{code}";
    }
    assert Replace("echo " + "7", "{host}", "pi") == "echo " + "7" by {
      ReplaceKeepsLeading("echo " + "7", "", "{host}", "pi");
      assert "echo " + "7" + "" == "echo " + "7";
    }
    ScanWithoutBackslash("echo " + "7");
  }

  /** `{code}` in the hostname is left alone, since `{host}` goes after `{code}`. */
  lemma CodeInsideHostKept()
    ensures Decide(["x"], false, Some("{host}"), 1, Some("{code}")).text == Some("{code}")
  {
    assert NatToDecimal(1) == "1";
    assert Replace("{host}", "{cmd}", "x") == "{host}";
    assert Replace("{host}", "{code}", "1") == "{host}";
    assert Replace("{host}", "{host}", "{code}") == "{code}";
    assert ExpandNewlines("{code}") == "{code}";
  }
}
