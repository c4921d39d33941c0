/**
 * The command-line notifier (SendText.py): the remaining arguments are joined
 * into one message, an empty message is rejected, escaped newlines are
 * expanded, and the text is then printed (pretend mode) or sent to every
 * configured recipient.
 */
module SendText {
  import opened Wrappers
  import opened Strings
  import opened Newlines
  import opened Messaging
  import opened Cli

  /**
   * The text to send, or `None` when the script rejects its arguments: no
   * argument words, or words that join to the empty string.
   */
  function MessageText(words: seq<string>): (text: Option<string>)
    ensures text.None? <==> (words == [] || words == [""])
  {
    JoinEmptyIff(words);
    if words == [] then None
    else
      var message := Join(words);
      if message == "" then None else Some(ExpandNewlines(message))
  }

  /** The script's exit status: the usage error on rejection, 0 otherwise. */
  function ExitStatus(words: seq<string>): (status: int)
    ensures status == 0 || status == UsageErrorStatus
    ensures status == UsageErrorStatus <==> (words == [] || words == [""])
  {
    if MessageText(words).None? then UsageErrorStatus else 0
  }

  /** The messages created: one per recipient, unless the message was rejected or pretend mode is on. */
  function Deliveries(text: Option<string>, pretend: bool, creds: Credentials): seq<Sms>
  {
    if text.Some? && !pretend then Fanout(creds.toPhones, creds.fromPhone, text.value) else []
  }

  /** What pretend mode prints (`print` ends it with a newline). */
  function PretendOutput(text: Option<string>, pretend: bool): Option<string>
  {
    if text.Some? && pretend then Some(PretendBanner + text.value + "\n") else None
  }

  /**
   * The script from the message assembly on: join, reject an empty message,
   * expand newlines, then print or send.
   */
  method Notify(client: Client, creds: Credentials, words: seq<string>, pretend: bool)
    returns (exitCode: int, printed: Option<string>)
    requires creds.Valid()
    modifies client
    ensures exitCode == ExitStatus(words)
    ensures printed == PretendOutput(MessageText(words), pretend)
    ensures client.outbox == old(client.outbox) + Deliveries(MessageText(words), pretend, creds)
  {
    var message: Option<string> := if words != [] then Some(Join(words)) else None;
    if message.None? || message.value == "" {
      exitCode, printed := UsageErrorStatus, None;
      return;
    }
    var text := ExpandNewlines(message.value);
    printed := None;
    if pretend {
      printed := Some(PretendBanner + text + "\n");
    } else {
      SendToAll(client, creds, text);
    }
    exitCode := 0;
  }

  /* ---------------------------------------------------------------------- */
  /* Properties                                                             */
  /* ---------------------------------------------------------------------- */

  /**
   * The message is rejected exactly when there are no words or the only word
   * is empty; a rejected run exits with the usage error and creates and
   * prints nothing.
   */
  lemma RejectedIff(words: seq<string>, pretend: bool, creds: Credentials)
    ensures MessageText(words).None? <==> (words == [] || words == [""])
    ensures MessageText(words).None? ==>
              ExitStatus(words) == UsageErrorStatus
              && Deliveries(MessageText(words), pretend, creds) == []
              && PretendOutput(MessageText(words), pretend) == None
  {
  }

  /**
   * Words without spaces and backslashes come through unchanged, single
   * spaces apart: splitting the text at spaces gives the words back.
   */
  lemma PlainWordsRoundTrip(words: seq<string>)
    requires |words| >= 1 && words != [""]
    requires forall k :: 0 <= k < |words| ==> ' ' !in words[k] && '\\' !in words[k]
    ensures MessageText(words).Some?
    ensures MessageText(words).value == Join(words)
    ensures Split(MessageText(words).value) == words
  {
    JoinEmptyIff(words);
    NoBackslashInJoin(words);
    ScanWithoutBackslash(Join(words));
    SplitJoin(words);
  }

  /** Joining backslash-free words adds no backslash. */
  lemma {:induction false} NoBackslashInJoin(words: seq<string>)
    requires forall k :: 0 <= k < |words| ==> '\\' !in words[k]
    ensures '\\' !in Join(words)
    decreases |words|
  {
    if |words| > 1 {
      NoBackslashInJoin(words[1..]);
    }
  }

  /**
   * The sent text is the joined message with each converted escape shortened
   * to one newline; every other character is kept.
   */
  lemma TextLength(words: seq<string>)
    requires MessageText(words).Some?
    ensures |MessageText(words).value| == |Join(words)| - ConvertedFrom(Join(words), 0)
  {
    ExpandLength(Join(words));
  }

  /**
   * A `\n` after a backslash-free start is a line break: the text is the
   * start, a newline, and the backslash-free rest.
   */
  lemma BreakAfterPlainStart(a: string, b: string, words: seq<string>)
    requires |a| > 0 && '\\' !in a && '\\' !in b
    requires words != [] && Join(words) == a + ("\\n" + b)
    ensures MessageText(words) == Some(a + ("\n" + b))
  {
    var s := a + ("\\n" + b);
    assert s[0] == a[0];
    ScanBreaksAfter(a, b);
    ScanWithoutBackslash(b);
  }

  /** A `\n` inside a word is a line break. */
  lemma BreakInWord()
    ensures MessageText(["Hello\\nWorld"]) == Some("Hello" + ("\n" + "World"))
  {
    assert "Hello\\nWorld" == "Hello" + ("\\n" + "World");
    BreakAfterPlainStart("Hello", "World", ["Hello\\nWorld"]);
  }

  /** A `\n` at the start of a later word follows the joining space, so it is a line break too. */
  lemma BreakStartingWord()
    ensures MessageText(["Motion", "\\nat", "door"]) == Some("Motion " + ("\n" + "at door"))
  {
    var words := ["Motion", "\\nat", "door"];
    assert Join(words) == "Motion " + ("\\n" + "at door") by {
      assert Join(words[1..]) == "\\nat" + " " + "door";
    }
    BreakAfterPlainStart("Motion ", "at door", words);
  }

  /** No words, or one empty word, is rejected: the two concrete instances of `RejectedIff`. */
  lemma EmptyRejected()
    ensures MessageText([]) == None && MessageText([""]) == None
    ensures ExitStatus([]) == UsageErrorStatus
  {
  }

  /** With pretend mode off, entry `k` of the created messages goes to recipient `k` with the text. */
  lemma DeliveriesPerRecipient(words: seq<string>, creds: Credentials)
    requires MessageText(words).Some?
    ensures |Deliveries(MessageText(words), false, creds)| == |creds.toPhones|
    ensures forall k :: 0 <= k < |creds.toPhones| ==>
              Deliveries(MessageText(words), false, creds)[k]
              == Sms(creds.toPhones[k], creds.fromPhone, MessageText(words).value)
  {
    FanoutEntries(creds.toPhones, creds.fromPhone, MessageText(words).value);
  }

  /** Pretend mode creates no message and prints the text after the banner. */
  lemma PretendPrintsOnly(words: seq<string>, creds: Credentials)
    ensures Deliveries(MessageText(words), true, creds) == []
    ensures MessageText(words).Some? ==>
              PretendOutput(MessageText(words), true) == Some(PretendBanner + MessageText(words).value + "\n")
  {
  }
}
