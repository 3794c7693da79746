/**
 * The reaction engine: it fingerprints the captured screen text, skips a screen
 * whose fingerprint it saw last, sends one request to the language model, parses
 * the reply as `BUDDY_ID: message`, drops a message identical to the last one
 * delivered, and otherwise hands `(buddyID, message)` to its completion callback.
 *
 * The request and its reply are inputs: `setupOk` says whether the request URL
 * and the JSON request body could be built, and the reply is the text found at
 * `candidates[0].content.parts[0].text` of the response envelope, or `None`
 * when there is no response data, the data is not a JSON object, or the
 * envelope has no such text.
 */
module Reaction {

  import opened Options
  import opened Text

  /** How many characters of the screen text the fingerprint inspects. */
  const FingerprintLength: nat := 350

  /**
   * The signature of a screen: its first 350 characters, lower-cased, with all
   * whitespace removed.
   */
  function Fingerprint(text: string): (r: string)
    ensures |r| <= FingerprintLength
    ensures forall i :: 0 <= i < |r| ==> !IsWhitespace(r[i]) && !IsUpper(r[i])
  {
    var lowered := Lower(Prefix(text, FingerprintLength));
    var r := RemoveWhitespace(lowered);
    assert forall i :: 0 <= i < |r| ==> r[i] in lowered;
    r
  }

  /** Whatever follows the first 350 characters does not change the fingerprint. */
  lemma FingerprintIgnoresTail(text: string, tail: string)
    requires |text| >= FingerprintLength
    ensures Fingerprint(text + tail) == Fingerprint(text)
  {
    assert Prefix(text + tail, FingerprintLength) == Prefix(text, FingerprintLength);
  }

  /** Texts that agree on their first 350 characters have the same fingerprint. */
  lemma FingerprintSamePrefix(a: string, b: string)
    requires |a| >= FingerprintLength && |b| >= FingerprintLength
    requires a[..FingerprintLength] == b[..FingerprintLength]
    ensures Fingerprint(a) == Fingerprint(b)
  {
  }

  /** The fingerprint does not depend on letter case. */
  lemma FingerprintIgnoresCase(text: string)
    ensures Fingerprint(Lower(text)) == Fingerprint(text)
  {
    var n := FingerprintLength;
    assert Lower(Prefix(Lower(text), n)) == Lower(Prefix(text, n));
  }

  /** Within the first 350 characters, a run of whitespace makes no difference, wherever it is. */
  lemma FingerprintIgnoresWhitespace(a: string, w: string, b: string)
    requires AllWhitespace(w) && |a + w + b| <= FingerprintLength
    ensures Fingerprint(a + w + b) == Fingerprint(a + b)
  {
    assert Prefix(a + w + b, FingerprintLength) == a + w + b;
    assert Prefix(a + b, FingerprintLength) == a + b;
    LowerAppend(a + w, b);
    LowerAppend(a, w);
    LowerAppend(a, b);
    LowerOfWhitespace(w);
    RemoveWhitespaceDropsBlank(Lower(a), w, Lower(b));
  }

  /** A short text without whitespace keeps every character: its fingerprint is the text lower-cased. */
  lemma FingerprintKeeps(t: string)
    requires |t| <= FingerprintLength
    requires forall i :: 0 <= i < |t| ==> !IsWhitespace(t[i])
    ensures Fingerprint(t) == Lower(t)
  {
    assert Prefix(t, FingerprintLength) == t;
    forall i | 0 <= i < |t| ensures !IsWhitespace(Lower(t)[i]) {
      if IsUpper(t[i]) {
        assert 'a' <= Lower(t)[i] <= 'z';
      }
    }
  }

  /** A fingerprint is its own fingerprint. */
  lemma FingerprintIdempotent(text: string)
    ensures Fingerprint(Fingerprint(text)) == Fingerprint(text)
  {
    var r := Fingerprint(text);
    assert Prefix(r, FingerprintLength) == r;
    assert Lower(r) == r;
  }

  /** Upper case makes no difference: "Hello World" reads as "helloworld". */
  lemma FingerprintExampleCase()
    ensures Fingerprint("Hello World") == "helloworld"
  {
    assert Prefix("Hello World", FingerprintLength) == "Hello World";
    assert Lower("Hello World") == "hello" + " " + "world" + "";
    RemoveWhitespaceOfWords("hello", " ", "world", "");
  }

  /** Runs of whitespace make no difference: "hello   world   " reads as "helloworld". */
  lemma FingerprintExampleSpacing()
    ensures Fingerprint("hello   world   ") == "helloworld"
  {
    assert Prefix("hello   world   ", FingerprintLength) == "hello   world   ";
    assert Lower("hello   world   ") == "hello" + "   " + "world" + "   ";
    RemoveWhitespaceOfWords("hello", "   ", "world", "   ");
  }

  /** `(buddyID, message)` as handed to the completion callback. */
  datatype ReactionEvent = ReactionEvent(buddyID: string, message: string)

  /** The split pieces of the reply, each trimmed. */
  function Components(text: string): (c: seq<string>)
    ensures |c| == |SplitOnce(text)| <= 2
    ensures forall i :: 0 <= i < |c| ==> c[i] == Trim(SplitOnce(text)[i])
    ensures forall i :: 0 <= i < |c| ==> IsTrimmed(c[i]) && |c[i]| <= |SplitOnce(text)[i]|
    ensures |c| >= 1 ==> Separator !in c[0]
  {
    var parts := SplitOnce(text);
    seq(|parts|, i requires 0 <= i < |parts| => Trim(parts[i]))
  }

  /**
   * Reads a reply as `BUDDY_ID: message`: one split at `:` with empty pieces
   * omitted, both pieces trimmed; anything that gives fewer than two pieces is
   * malformed. The buddy id is not checked against the known buddies.
   */
  function ParseReply(text: string): (r: Option<ReactionEvent>)
    ensures r.Some? <==> |SplitOnce(text)| == 2
    ensures r.Some? ==> r.value == ReactionEvent(Trim(SplitOnce(text)[0]), Trim(SplitOnce(text)[1]))
    ensures r.Some? ==> IsTrimmed(r.value.buddyID) && IsTrimmed(r.value.message)
    ensures r.Some? ==> Separator !in r.value.buddyID
  {
    var components := Components(text);
    if |components| == 2 then Some(ReactionEvent(components[0], components[1])) else None
  }

  /**
   * A reply made of leading separators, a padded id, a separator and a padded
   * message parses back to that id and message; the padding may be empty
   * only where the piece it surrounds is not.
   */
  lemma ParseReplyWellFormed(n: nat, ws1: string, id: string, ws2: string, ws3: string, msg: string, ws4: string)
    requires AllSpaceOrNewline(ws1) && AllSpaceOrNewline(ws2) && AllSpaceOrNewline(ws3) && AllSpaceOrNewline(ws4)
    requires IsTrimmed(id) && Separator !in id && IsTrimmed(msg)
    requires ws1 + id + ws2 != [] && ws3 + msg + ws4 != []
    ensures ParseReply(Separators(n) + (ws1 + id + ws2) + [Separator] + (ws3 + msg + ws4)) == Some(ReactionEvent(id, msg))
  {
    var head, rest := ws1 + id + ws2, ws3 + msg + ws4;
    assert Separator !in head by {
      assert forall i :: 0 <= i < |head| ==> head[i] != Separator by {
        forall i | 0 <= i < |head| ensures head[i] != Separator {
          if i < |ws1| { assert head[i] == ws1[i]; }
          else if i < |ws1| + |id| { assert head[i] == id[i - |ws1|]; }
          else { assert head[i] == ws2[i - |ws1| - |id|]; }
        }
      }
    }
    SplitOnceJoined(n, head, rest);
    TrimPadded(ws1, id, ws2);
    TrimPadded(ws3, msg, ws4);
  }

  /** The reply format the prompt asks for. */
  lemma ParseReplyFocused()
    ensures ParseReply("leo: Great focus today!") == Some(ReactionEvent("leo", "Great focus today!"))
  {
    assert "leo: Great focus today!" == Separators(0) + ("" + "leo" + "") + [Separator] + (" " + "Great focus today!" + "");
    ParseReplyWellFormed(0, "", "leo", "", " ", "Great focus today!", "");
  }

  /** A leading separator ends an empty piece and does not use up the split. */
  lemma ParseReplyLeadingSeparator()
    ensures ParseReply(":leo: hi") == Some(ReactionEvent("leo", "hi"))
  {
    assert ":leo: hi" == Separators(1) + ("" + "leo" + "") + [Separator] + (" " + "hi" + "");
    ParseReplyWellFormed(1, "", "leo", "", " ", "hi", "");
  }

  /** Only the first separator after the id splits; later ones stay in the message. */
  lemma ParseReplySecondSeparator()
    ensures ParseReply("leo::hi") == Some(ReactionEvent("leo", ":hi"))
  {
    assert "leo::hi" == Separators(0) + ("" + "leo" + "") + [Separator] + ("" + ":hi" + "");
    ParseReplyWellFormed(0, "", "leo", "", "", ":hi", "");
  }

  /** A rest made only of whitespace is a piece; it trims to an empty message. */
  lemma ParseReplyBlankMessage()
    ensures ParseReply("leo:   ") == Some(ReactionEvent("leo", ""))
  {
    assert "leo:   " == Separators(0) + ("" + "leo" + "") + [Separator] + ("   " + "" + "");
    ParseReplyWellFormed(0, "", "leo", "", "   ", "", "");
  }

  /** Trimming drops U+200B ZERO WIDTH SPACE, which `Character.isWhitespace` does not count as whitespace. */
  lemma ParseReplyZeroWidthSpace()
    ensures ParseReply("leo:\U{200B}hi") == Some(ReactionEvent("leo", "hi"))
  {
    assert "leo:\U{200B}hi" == Separators(0) + ("" + "leo" + "") + [Separator] + ("\U{200B}" + "hi" + "");
    ParseReplyWellFormed(0, "", "leo", "", "\U{200B}", "hi", "");
  }

  /**
   * A reply with a single piece is malformed: leading separators, then a piece
   * without separator, then at most one separator.
   */
  lemma {:induction false} ParseReplyOnePiece(n: nat, head: string, end: string)
    requires Separator !in head
    requires end == [] || end == [Separator]
    ensures ParseReply(Separators(n) + head + end) == None
  {
    var s := Separators(n) + head + end;
    if head == [] {
      assert s == Separators(n + |end|);
    } else {
      var t := head + end;
      assert s == Separators(n) + t;
      LeadingSeparatorsOf(n, t);
      assert s[n..] == t;
      if end == [] {
        assert t == head;
      } else {
        FirstSeparatorOf(head, end);
      }
      assert |SplitAtFirst(t)| == 1;
    }
  }

  /** A trailing separator leaves one piece. */
  lemma ParseReplyTrailingSeparator()
    ensures ParseReply("leo:") == None
  {
    assert "leo:" == Separators(0) + "leo" + [Separator];
    ParseReplyOnePiece(0, "leo", [Separator]);
  }

  /** A leading separator leaves one piece. */
  lemma ParseReplyLonePiece()
    ensures ParseReply(":x") == None
  {
    assert ":x" == Separators(1) + "x" + [];
    ParseReplyOnePiece(1, "x", []);
  }

  /** A reply without separator is malformed. */
  lemma ParseReplyNoSeparator(text: string)
    requires Separator !in text
    ensures ParseReply(text) == None
  {
    assert text == Separators(0) + text + [];
    ParseReplyOnePiece(0, text, []);
  }

  /** A text without colon, and the empty text, are malformed. */
  lemma ParseReplyNoSeparatorExamples()
    ensures ParseReply("malformed text") == None
    ensures ParseReply("") == None
  {
    var plain := "malformed text";
    assert forall i :: 0 <= i < |plain| ==> plain[i] != Separator;
    ParseReplyNoSeparator(plain);
    ParseReplyNoSeparator("");
  }

  /** The two fields the engine keeps between calls. */
  datatype EngineState = EngineState(lastFingerprint: Option<string>, lastResponse: Option<string>)

  /** What one call or one reply amounts to: a log line, a request in flight, or the completion call. */
  datatype Outcome =
    | SkippedSameScreen
    | InvalidRequestSetup
    | Requested
    | FailedToParse
    | UnexpectedFormat
    | SkippedDuplicate
    | Delivered(event: ReactionEvent)

  /**
   * The synchronous part of `analyze`: skip an unchanged screen, otherwise
   * record its fingerprint before the request is set up.
   */
  function Begin(st: EngineState, screenText: string, setupOk: bool): (r: (EngineState, Outcome))
    ensures r.0.lastFingerprint == Some(Fingerprint(screenText))
    ensures r.0.lastResponse == st.lastResponse
    ensures r.1 == SkippedSameScreen <==> st.lastFingerprint == Some(Fingerprint(screenText))
    ensures r.1 == SkippedSameScreen ==> r.0 == st
    ensures r.1 == Requested <==> st.lastFingerprint != Some(Fingerprint(screenText)) && setupOk
    ensures r.1 == SkippedSameScreen || r.1 == InvalidRequestSetup || r.1 == Requested
  {
    var fp := Fingerprint(screenText);
    if st.lastFingerprint == Some(fp) then (st, SkippedSameScreen)
    else
      var st' := st.(lastFingerprint := Some(fp));
      if setupOk then (st', Requested) else (st', InvalidRequestSetup)
  }

  /**
   * The reply handler: no text in the envelope, a reply that does not split
   * in two, and a repeat of the last message produce no event and leave the
   * state alone; any other reply is delivered and remembered.
   */
  function Complete(st: EngineState, replyText: Option<string>): (r: (EngineState, Outcome))
    ensures r.0.lastFingerprint == st.lastFingerprint
    ensures !r.1.Delivered? ==> r.0 == st
    ensures r.1 == FailedToParse <==> replyText.None?
    ensures r.1 == UnexpectedFormat <==> replyText.Some? && ParseReply(replyText.value).None?
    ensures r.1 == SkippedDuplicate <==>
      replyText.Some? && ParseReply(replyText.value).Some? && st.lastResponse == Some(ParseReply(replyText.value).value.message)
    ensures r.1.Delivered? ==>
      && replyText.Some?
      && ParseReply(replyText.value) == Some(r.1.event)
      && st.lastResponse != Some(r.1.event.message)
      && r.0.lastResponse == Some(r.1.event.message)
    ensures r.1 == FailedToParse || r.1 == UnexpectedFormat || r.1 == SkippedDuplicate || r.1.Delivered?
  {
    match replyText
    case None => (st, FailedToParse)
    case Some(text) =>
      match ParseReply(text)
      case None => (st, UnexpectedFormat)
      case Some(event) =>
        if st.lastResponse == Some(event.message) then (st, SkippedDuplicate)
        else (st.(lastResponse := Some(event.message)), Delivered(event))
  }

  /** The state after a sequence of synchronous calls, each a screen and whether its setup succeeds. */
  function BeginAll(st: EngineState, calls: seq<(string, bool)>): (r: EngineState)
    ensures r.lastResponse == st.lastResponse
    ensures calls != [] ==> r.lastFingerprint == Some(Fingerprint(calls[|calls| - 1].0))
    ensures calls == [] ==> r == st
    decreases |calls|
  {
    if calls == [] then st
    else
      var last := calls[|calls| - 1];
      Begin(BeginAll(st, calls[..|calls| - 1]), last.0, last.1).0
  }

  /**
   * Two requests in flight that get the same reply deliver it at most once,
   * whatever sequence of synchronous calls came in between.
   */
  lemma CompleteSameReplyTwice(st: EngineState, replyText: Option<string>, between: seq<(string, bool)>)
    ensures var first := Complete(st, replyText);
      var later := BeginAll(first.0, between);
      !Complete(later, replyText).1.Delivered? || !first.1.Delivered?
  {
  }

  /** One whole cycle, with the reply arriving before the next call. */
  function Step(st: EngineState, screenText: string, setupOk: bool, replyText: Option<string>): (r: (EngineState, Outcome))
    ensures r.0.lastFingerprint == Some(Fingerprint(screenText))
    ensures !r.1.Delivered? ==> r.0.lastResponse == st.lastResponse
    ensures r.1.Delivered? <==>
      && st.lastFingerprint != Some(Fingerprint(screenText))
      && setupOk
      && replyText.Some?
      && ParseReply(replyText.value).Some?
      && st.lastResponse != Some(ParseReply(replyText.value).value.message)
    ensures r.1.Delivered? ==>
      Some(r.1.event) == ParseReply(replyText.value) && r.0.lastResponse == Some(r.1.event.message)
    ensures r.1 != Requested
  {
    var begun := Begin(st, screenText, setupOk);
    if begun.1 == Requested then Complete(begun.0, replyText) else begun
  }

  /** Calling again with the same screen is a no-op, whatever happened to the first request. */
  lemma StepRepeatIsNoOp(st: EngineState, screenText: string, setupOk: bool, replyText: Option<string>,
                         setupOk': bool, replyText': Option<string>)
    ensures var first := Step(st, screenText, setupOk, replyText);
      Step(first.0, screenText, setupOk', replyText') == (first.0, SkippedSameScreen)
  {
  }

  /** A delivered message is not delivered again for a new screen while the model repeats it. */
  lemma StepRepeatedReplySuppressed(st: EngineState, screenText: string, screenText': string, replyText: Option<string>)
    requires Fingerprint(screenText) != Fingerprint(screenText')
    ensures var first := Step(st, screenText, true, replyText);
      first.1.Delivered? ==> Step(first.0, screenText', true, replyText) == (first.0.(lastFingerprint := Some(Fingerprint(screenText'))), SkippedDuplicate)
  {
  }

  /** From a fresh engine, the reply "leo: Great focus today!" is delivered once, then suppressed for another screen. */
  lemma StepExampleFocus(screen1: string, screen2: string)
    requires Fingerprint(screen1) != Fingerprint(screen2)
    ensures var first := Step(EngineState(None, None), screen1, true, Some("leo: Great focus today!"));
      && first.1 == Delivered(ReactionEvent("leo", "Great focus today!"))
      && Step(first.0, screen2, true, Some("leo: Great focus today!")).1 == SkippedDuplicate
  {
    var reply := "leo: Great focus today!";
    var event := ReactionEvent("leo", "Great focus today!");
    ParseReplyFocused();
    var first := Step(EngineState(None, None), screen1, true, Some(reply));
    assert first.1 == Delivered(event);
    assert first.0.lastResponse == Some(event.message);
    var second := Step(first.0, screen2, true, Some(reply));
    assert Begin(first.0, screen2, true).1 == Requested;
  }

  /** A reply without colon produces no event and leaves the last message as it was. */
  lemma StepExampleMalformed(st: EngineState, screenText: string)
    ensures var r := Step(st, screenText, true, Some("malformed text"));
      !r.1.Delivered? && r.0.lastResponse == st.lastResponse
  {
    ParseReplyNoSeparatorExamples();
  }

  /** The buddy id is not checked: an id no buddy has is delivered all the same. */
  lemma StepUnknownBuddyDelivered(screenText: string)
    ensures Step(EngineState(None, None), screenText, true, Some("rex:woof")).1 == Delivered(ReactionEvent("rex", "woof"))
  {
    assert "rex:woof" == Separators(0) + ("" + "rex" + "") + [Separator] + ("" + "woof" + "");
    ParseReplyWellFormed(0, "", "rex", "", "", "woof", "");
  }

  /**
   * The engine object. `Analyze` is the part of `analyze` that runs in the
   * caller; `HandleResponse` is the network callback, which may run after
   * later calls of `Analyze` and then sees the fields as they are by then.
   */
  class ReactionEngine {
    var lastFingerprint: Option<string>
    var lastResponse: Option<string>

    function State(): EngineState
      reads this
    {
      EngineState(lastFingerprint, lastResponse)
    }

    constructor ()
      ensures State() == EngineState(None, None)
    {
      lastFingerprint := None;
      lastResponse := None;
    }

    /** Returns `Requested` when a request is now in flight. */
    method Analyze(screenText: string, setupOk: bool) returns (outcome: Outcome)
      modifies this`lastFingerprint
      ensures (State(), outcome) == Begin(old(State()), screenText, setupOk)
    {
      var currentFingerprint := Fingerprint(screenText);
      if lastFingerprint == Some(currentFingerprint) {
        return SkippedSameScreen;
      }
      lastFingerprint := Some(currentFingerprint);
      if !setupOk {
        return InvalidRequestSetup;
      }
      return Requested;
    }

    /** Handles the text of a response envelope; `Delivered` is the one call of the completion. */
    method HandleResponse(replyText: Option<string>) returns (outcome: Outcome)
      modifies this`lastResponse
      ensures (State(), outcome) == Complete(old(State()), replyText)
    {
      if replyText.None? {
        return FailedToParse;
      }
      var components := Components(replyText.value);
      if |components| == 2 {
        var buddyID, message := components[0], components[1];
        if lastResponse == Some(message) {
          return SkippedDuplicate;
        }
        lastResponse := Some(message);
        return Delivered(ReactionEvent(buddyID, message));
      } else {
        return UnexpectedFormat;
      }
    }

    /** `analyze` with its reply handled before anything else happens. */
    method AnalyzeAndHandle(screenText: string, setupOk: bool, replyText: Option<string>) returns (outcome: Outcome)
      modifies this
      ensures (State(), outcome) == Step(old(State()), screenText, setupOk, replyText)
    {
      outcome := Analyze(screenText, setupOk);
      if outcome == Requested {
        outcome := HandleResponse(replyText);
      }
    }
  }
}
