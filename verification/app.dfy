/** The conversation state of App.tsx and its transitions: `handleSend` as one
    sequential turn over immutable snapshots, `startNewChat`, choosing a history
    item, resetting the preview, and the prompt the preview's verify control
    sends. The random id and the clock of a new creation are parameters. */
module App {

  import opened Options
  import opened Text
  import opened HtmlExtract
  import opened Gemini

  /** A saved HTML artifact; `timestamp` stands for the `Date` it was made. */
  datatype Creation = Creation(id: string, name: string, html: string, timestamp: int)

  /** The component state `handleSend` reads and writes. */
  datatype Session = Session(
    messages: seq<Message>,
    input: string,
    activeModel: string,
    isGenerating: bool,
    pendingImage: Option<InlineData>,
    activeCreation: Option<Creation>,
    creationHistory: seq<Creation>)

  /** What the turn takes from the environment: `crypto.randomUUID()` and
      `new Date()`. */
  datatype TurnEnv = TurnEnv(id: string, timestamp: int)

  /** The outcome of `handleSend`: the early return, or a turn with the request
      sent, the snapshot once the user message and placeholder are in, one
      snapshot per streamed increment, and the settled state. */
  datatype Turn =
    | Ignored
    | Ran(request: Request, sent: Session, streamed: seq<Session>, final: Session)

  const ErrorText := "System error. Please retry."
  const NameLength := 30
  const Ellipsis := "..."
  const TempId := "temp"
  const PreviewName := "Preview"
  const VerifyPreamble := "Verify and fix this code for any potential issues:\n\n"

  /** The state the component starts in. */
  function InitialSession(): Session
  {
    Session([], "", CodemaxPro, false, None, None, [])
  }

  /** `overridePrompt || input`: an absent or empty override falls back to the
      input field. */
  function EffectivePrompt(overridePrompt: Option<string>, input: string): (p: string)
    ensures overridePrompt.Some? && overridePrompt.value != "" ==> p == overridePrompt.value
    ensures overridePrompt.None? || overridePrompt == Some("") ==> p == input
  {
    if overridePrompt.Some? && overridePrompt.value != "" then overridePrompt.value else input
  }

  /** The user's message: the prompt as the first part, then the pending
      attachment as a second part when there is one. */
  function UserMessage(promptText: string, image: Option<InlineData>): (m: Message)
    ensures m.role == User && m.modelName == None
    ensures 1 <= |m.parts| <= 2 && m.parts[0] == Part(Some(promptText), None)
    ensures |m.parts| == 2 <==> image.Some?
    ensures image.Some? ==> m.parts[1] == Part(None, image)
  {
    Message(User, [Part(Some(promptText), None)] + (if image.Some? then [Part(None, image)] else []), None)
  }

  /** The empty model message the stream writes into. */
  function Placeholder(model: string): Message
  {
    Message(Model, [Part(Some(""), None)], Some(model))
  }

  /** The fallback message of a failed turn; it carries no model name. */
  function ErrorMessage(): Message
  {
    Message(Model, [Part(Some(ErrorText), None)], None)
  }

  function Min(a: int, b: int): int
  {
    if a <= b then a else b
  }

  /** `promptText.slice(0, 30) + '...'`: at most the first thirty characters,
      then an ellipsis. */
  function CreationName(promptText: string): (name: string)
    ensures |name| == Min(NameLength, |promptText|) + |Ellipsis|
    ensures name[..|name| - |Ellipsis|] <= promptText
    ensures name[|name| - |Ellipsis|..] == Ellipsis
    ensures |promptText| <= NameLength ==> name == promptText + Ellipsis
  {
    promptText[..Min(NameLength, |promptText|)] + Ellipsis
  }

  /** The last message exists and has a first part to write into. */
  predicate HasOpenMessage(s: Session)
  {
    |s.messages| > 0 && |s.messages[|s.messages| - 1].parts| > 0
  }

  /** One streaming increment: the text of the last message's first part is
      replaced by `text`; the list keeps its length, every earlier message and
      every other field of the last one and of the session stay as they were. */
  function ApplyIncrement(s: Session, text: string): (r: Session)
    requires HasOpenMessage(s)
    ensures HasOpenMessage(r) && |r.messages| == |s.messages|
    ensures r.messages[..|s.messages| - 1] == s.messages[..|s.messages| - 1]
    ensures var before := s.messages[|s.messages| - 1];
      var after := r.messages[|r.messages| - 1];
      && after.role == before.role && after.modelName == before.modelName
      && |after.parts| == |before.parts| && after.parts[1..] == before.parts[1..]
      && after.parts[0].text == Some(text) && after.parts[0].inlineData == before.parts[0].inlineData
    ensures r.(messages := s.messages) == s
  {
    var i := |s.messages| - 1;
    var last := s.messages[i];
    var first := last.parts[0].(text := Some(text));
    s.(messages := s.messages[i := last.(parts := last.parts[0 := first])])
  }

  /** Overwriting forgets the previous increment. */
  lemma IncrementOverwrites(s: Session, a: string)
    requires HasOpenMessage(s)
    ensures forall b :: ApplyIncrement(ApplyIncrement(s, a), b) == ApplyIncrement(s, b)
  {
    forall b
      ensures ApplyIncrement(ApplyIncrement(s, a), b) == ApplyIncrement(s, b)
    {
      var i := |s.messages| - 1;
      var last := s.messages[i];
      assert ApplyIncrement(s, a).messages[i].parts[0 := last.parts[0].(text := Some(b))]
        == last.parts[0 := last.parts[0].(text := Some(b))];
    }
  }

  /** The state after each increment's `setMessages` updater runs, one per
      increment (React may batch several into one render). Each depends on
      its own increment alone: the message is overwritten, never appended
      to. */
  function StreamInto(s: Session, texts: seq<string>): (r: seq<Session>)
    requires HasOpenMessage(s)
    ensures |r| == |texts|
    ensures forall k :: 0 <= k < |texts| ==> r[k] == ApplyIncrement(s, texts[k])
    decreases |texts|
  {
    if texts == [] then []
    else
      var next := ApplyIncrement(s, texts[0]);
      IncrementOverwrites(s, texts[0]);
      [next] + StreamInto(next, texts[1..])
  }

  /** The success branch: when the final text holds an HTML document, a new
      creation named after the prompt is put in front of the history and made
      active. */
  function Settle(s: Session, promptText: string, aiText: string, env: TurnEnv): (r: Session)
    ensures r.(creationHistory := s.creationHistory, activeCreation := s.activeCreation) == s
    ensures ExtractHtml(aiText).None? ==> r == s
    ensures ExtractHtml(aiText).Some? ==>
      && |r.creationHistory| == |s.creationHistory| + 1
      && r.creationHistory[1..] == s.creationHistory
      && r.creationHistory[0] == Creation(env.id, CreationName(promptText), ExtractHtml(aiText).value, env.timestamp)
      && r.activeCreation == Some(r.creationHistory[0])
  {
    match ExtractHtml(aiText)
    case Some(html) =>
      var creation := Creation(env.id, CreationName(promptText), html, env.timestamp);
      s.(creationHistory := [creation] + s.creationHistory, activeCreation := Some(creation))
    case None => s
  }

  /** The state once the user message and the placeholder are appended: the
      input and the attachment are cleared and the generating flag is up. */
  function OpenTurn(s: Session, userMessage: Message): (r: Session)
    ensures |r.messages| == |s.messages| + 2 && r.messages[..|s.messages|] == s.messages
    ensures r.messages[|s.messages|] == userMessage
    ensures r.messages[|s.messages| + 1] == Message(Model, [Part(Some(""), None)], Some(s.activeModel))
    ensures r.input == "" && r.pendingImage == None && r.isGenerating
    ensures r.(messages := s.messages, input := s.input, pendingImage := s.pendingImage,
               isGenerating := s.isGenerating) == s
  {
    s.(messages := s.messages + [userMessage, Placeholder(s.activeModel)],
       input := "", pendingImage := None, isGenerating := true)
  }

  /** The end of the `try` or the `catch`, then the `finally`. */
  function Conclude(current: Session, result: StreamResult, promptText: string, aiText: string, env: TurnEnv): (r: Session)
    ensures !r.isGenerating
    ensures r.(isGenerating := current.isGenerating, messages := current.messages,
               creationHistory := current.creationHistory, activeCreation := current.activeCreation) == current
    ensures result.Failed? ==>
      && r.messages == current.messages + [Message(Model, [Part(Some("System error. Please retry."), None)], None)]
      && r.creationHistory == current.creationHistory && r.activeCreation == current.activeCreation
    ensures result.Completed? ==>
      r.messages == current.messages && r.(isGenerating := current.isGenerating) == Settle(current, promptText, aiText, env)
  {
    var settled :=
      match result
      case Completed(_) => Settle(current, promptText, aiText, env)
      case Failed => current.(messages := current.messages + [ErrorMessage()]);
    settled.(isGenerating := false)
  }

  /** After streaming, the last snapshot (or the opened turn, when nothing was
      published) is the opened turn with the placeholder holding the last
      published text, provided the placeholder starts out empty. */
  lemma LastSnapshot(sent: Session, published: seq<string>, received: string)
    requires HasOpenMessage(sent)
    requires sent.messages[|sent.messages| - 1].parts[0].text == Some("")
    requires received == if |published| == 0 then "" else published[|published| - 1]
    ensures var streamed := StreamInto(sent, published);
      (if |streamed| == 0 then sent else streamed[|streamed| - 1]) == ApplyIncrement(sent, received)
  {
    if |published| == 0 {
      var n := |sent.messages| - 1;
      assert sent.messages[n].parts[0 := sent.messages[n].parts[0]] == sent.messages[n].parts;
      assert sent.messages[n := sent.messages[n]] == sent.messages;
    }
  }

  /** The part of `handleSend` after the early return: open the turn, relay
      the history through the stream, write every increment into the
      placeholder, then settle. The placeholder ends up holding everything
      received, and the outcome follows the stream's. */
  function RunTurn(s: Session, promptText: string, env: TurnEnv, reply: Reply): (t: Turn)
    ensures var userMessage := UserMessage(promptText, s.pendingImage);
      && t.Ran?
      && t.sent == OpenTurn(s, userMessage)
      && t.request == Request(s.activeModel, SystemInstruction(s.activeModel), userMessage.parts)
      && |t.streamed| == |reply.chunks|
      && (forall k :: 0 <= k < |reply.chunks| ==>
            t.streamed[k] == ApplyIncrement(t.sent, Received(reply.chunks[..k + 1])))
  {
    var userMessage := UserMessage(promptText, s.pendingImage);
    var sent := OpenTurn(s, userMessage);
    var run := ChatStream(s.activeModel, s.messages + [userMessage], reply);
    var streamed := StreamInto(sent, run.published);
    var current := if |streamed| == 0 then sent else streamed[|streamed| - 1];
    var aiText := if |run.published| == 0 then "" else run.published[|run.published| - 1];
    Ran(run.request, sent, streamed, Conclude(current, run.result, promptText, aiText, env))
  }

  /** A turn concludes from the state holding everything received (the
      placeholder's empty text if nothing arrived), which is also the text
      searched for HTML; it settles when the stream completed and appends
      the fallback message when it failed. */
  lemma RunTurnConcludes(s: Session, promptText: string, env: TurnEnv, reply: Reply)
    ensures var t := RunTurn(s, promptText, env, reply);
      var received := Received(reply.chunks);
      t.final == Conclude(ApplyIncrement(t.sent, received),
                          if reply.failed then Failed else Completed(received),
                          promptText, received, env)
  {
    var userMessage := UserMessage(promptText, s.pendingImage);
    var sent := OpenTurn(s, userMessage);
    var run := ChatStream(s.activeModel, s.messages + [userMessage], reply);
    assert reply.chunks[..|reply.chunks|] == reply.chunks;
    LastSnapshot(sent, run.published, Received(reply.chunks));
  }

  /** `handleSend(overridePrompt)` against a provider that answers with
      `reply`. */
  function HandleSend(s: Session, overridePrompt: Option<string>, env: TurnEnv, reply: Reply): (t: Turn)
    ensures overridePrompt.None? || overridePrompt == Some("") ==>
      (t.Ignored? <==> AllWhitespace(s.input) && s.pendingImage.None?)
    ensures overridePrompt.Some? && overridePrompt.value != "" ==>
      (t.Ignored? <==> AllWhitespace(overridePrompt.value) && s.pendingImage.None?)
  {
    var promptText := EffectivePrompt(overridePrompt, s.input);
    if IsBlank(promptText) && s.pendingImage.None? then Ignored
    else RunTurn(s, promptText, env, reply)
  }

  /** `startNewChat`: the conversation and the active creation are cleared;
      the history and everything else stay. */
  function StartNewChat(s: Session): (r: Session)
    ensures r.messages == [] && r.activeCreation == None
    ensures r.(messages := s.messages, activeCreation := s.activeCreation) == s
  {
    s.(messages := [], activeCreation := None)
  }

  /** Clicking the `i`-th history entry: that creation becomes active and
      nothing else changes, the history order included. */
  function SelectCreation(s: Session, i: nat): (r: Session)
    requires i < |s.creationHistory|
    ensures r.activeCreation == Some(s.creationHistory[i])
    ensures r.(activeCreation := s.activeCreation) == s
  {
    s.(activeCreation := Some(s.creationHistory[i]))
  }

  /** The preview's reset control: no creation is active any more. */
  function ResetPreview(s: Session): (r: Session)
    ensures r.activeCreation == None
    ensures r.(activeCreation := s.activeCreation) == s
  {
    s.(activeCreation := None)
  }

  /** A message's preview button: the HTML found in that part's text becomes
      active as a temporary creation that is not put in the history. */
  function PreviewPart(s: Session, text: string, timestamp: int): (r: Session)
    ensures r.(activeCreation := s.activeCreation) == s
    ensures ExtractHtml(text).None? ==> r.activeCreation == s.activeCreation
    ensures ExtractHtml(text).Some? ==>
      r.activeCreation == Some(Creation(TempId, PreviewName, ExtractHtml(text).value, timestamp))
  {
    match ExtractHtml(text)
    case Some(h) => s.(activeCreation := Some(Creation(TempId, PreviewName, h, timestamp)))
    case None => s
  }

  /** The prompt the preview's verify control sends. With no active creation
      the template interpolates `undefined`, which becomes that word. */
  function VerifyPrompt(active: Option<Creation>): (p: string)
    ensures |p| >= |VerifyPreamble| && p[..|VerifyPreamble|] == VerifyPreamble
    ensures active.Some? ==> p[|VerifyPreamble|..] == active.value.html
    ensures active.None? ==> p[|VerifyPreamble|..] == "undefined"
  {
    VerifyPreamble + match active
      case Some(c) => c.html
      case None => "undefined"
  }

  /** Whether the send button is enabled (the Enter key does not consult
      this). */
  predicate SendButtonEnabled(s: Session)
  {
    !s.isGenerating && !IsBlank(s.input)
  }

  /** Opening a turn appends the user message and an empty placeholder tagged
      with the active model, clears the input and the attachment, raises the
      generating flag, and touches nothing else; the request carries exactly
      the user message's parts. */
  lemma HandleSendOpensTurn(s: Session, overridePrompt: Option<string>, env: TurnEnv, reply: Reply)
    ensures var t := HandleSend(s, overridePrompt, env, reply);
      var n := |s.messages|;
      t.Ran? ==>
        && |t.sent.messages| == n + 2
        && t.sent.messages[..n] == s.messages
        && t.sent.messages[n] == UserMessage(EffectivePrompt(overridePrompt, s.input), s.pendingImage)
        && t.sent.messages[n + 1] == Message(Model, [Part(Some(""), None)], Some(s.activeModel))
        && t.sent.input == "" && t.sent.pendingImage == None && t.sent.isGenerating
        && t.sent.(messages := s.messages, input := s.input, pendingImage := s.pendingImage,
                   isGenerating := s.isGenerating) == s
        && t.request == Request(s.activeModel, SystemInstruction(s.activeModel), t.sent.messages[n].parts)
  {
    var t := HandleSend(s, overridePrompt, env, reply);
    if t.Ran? {
      assert t.sent.messages[..|s.messages|] == s.messages;
    }
  }

  /** A turn that completes keeps the streamed messages as they are. If the
      received text holds an HTML document, exactly one creation is put in
      front of the history, named after the prompt, carrying the extracted
      document, the given id and time, and it becomes active; otherwise the
      history and the active creation are unchanged. */
  lemma HandleSendCompleted(s: Session, overridePrompt: Option<string>, env: TurnEnv, reply: Reply)
    requires !reply.failed
    ensures var t := HandleSend(s, overridePrompt, env, reply);
      var promptText := EffectivePrompt(overridePrompt, s.input);
      t.Ran? ==>
        && t.final.messages == ApplyIncrement(t.sent, Received(reply.chunks)).messages
        && match ExtractHtml(Received(reply.chunks))
           case Some(html) =>
             && t.final.creationHistory
                  == [Creation(env.id, CreationName(promptText), html, env.timestamp)] + s.creationHistory
             && t.final.activeCreation == Some(t.final.creationHistory[0])
           case None =>
             t.final.creationHistory == s.creationHistory && t.final.activeCreation == s.activeCreation
  {
    RunTurnConcludes(s, EffectivePrompt(overridePrompt, s.input), env, reply);
  }

  /** A turn whose exchange fails keeps whatever was streamed, appends the
      fallback message after it, and leaves the history and the active
      creation alone. */
  lemma HandleSendFailed(s: Session, overridePrompt: Option<string>, env: TurnEnv, reply: Reply)
    requires reply.failed
    ensures var t := HandleSend(s, overridePrompt, env, reply);
      t.Ran? ==>
        && t.final.messages == ApplyIncrement(t.sent, Received(reply.chunks)).messages + [ErrorMessage()]
        && t.final.messages[|t.final.messages| - 1].parts[0].text == Some("System error. Please retry.")
        && t.final.creationHistory == s.creationHistory
        && t.final.activeCreation == s.activeCreation
  {
    RunTurnConcludes(s, EffectivePrompt(overridePrompt, s.input), env, reply);
  }

  /** Every turn that runs ends with the generating flag down, the input and
      attachment cleared and the model unchanged; the earlier messages, the
      user message and the placeholder holding all received text are there,
      followed by the fallback message exactly when the exchange failed. */
  lemma HandleSendSettles(s: Session, overridePrompt: Option<string>, env: TurnEnv, reply: Reply)
    ensures var t := HandleSend(s, overridePrompt, env, reply);
      var n := |s.messages|;
      t.Ran? ==>
        && !t.final.isGenerating && t.final.input == "" && t.final.pendingImage == None
        && t.final.activeModel == s.activeModel
        && |t.final.messages| == n + (if reply.failed then 3 else 2)
        && t.final.messages[..n] == s.messages
        && t.final.messages[n + 1].parts[0].text == Some(Received(reply.chunks))
  {
    var t := HandleSend(s, overridePrompt, env, reply);
    if t.Ran? {
      var n := |s.messages|;
      HandleSendOpensTurn(s, overridePrompt, env, reply);
      RunTurnConcludes(s, EffectivePrompt(overridePrompt, s.input), env, reply);
      var streamedLast := ApplyIncrement(t.sent, Received(reply.chunks));
      assert streamedLast.messages[..n] == t.sent.messages[..n];
      if reply.failed {
        HandleSendFailed(s, overridePrompt, env, reply);
        assert t.final.messages[..n] == streamedLast.messages[..n];
      } else {
        HandleSendCompleted(s, overridePrompt, env, reply);
      }
    }
  }

  /** `handleSend` never reads the generating flag: the transition a send
      runs is the same whatever the flag. Only the send button is disabled
      during generation; the Enter key calls `handleSend` anyway. */
  lemma HandleSendIgnoresGeneratingFlag(s: Session, overridePrompt: Option<string>, env: TurnEnv, reply: Reply)
    ensures HandleSend(s.(isGenerating := true), overridePrompt, env, reply)
         == HandleSend(s.(isGenerating := false), overridePrompt, env, reply)
  {
  }

  /** The send button only fires when the input has text, so its sends always
      run. */
  lemma ButtonSendRuns(s: Session, env: TurnEnv, reply: Reply)
    requires SendButtonEnabled(s)
    ensures HandleSend(s, None, env, reply).Ran?
  {
  }

  /** The verify control's prompt is never blank, so verifying always starts a
      turn; the prompt ends with the active creation's HTML, or with
      `undefined` when none is active. */
  lemma VerifyAlwaysSends(s: Session, env: TurnEnv, reply: Reply)
    ensures HandleSend(s, Some(VerifyPrompt(s.activeCreation)), env, reply).Ran?
    ensures var p := VerifyPrompt(s.activeCreation);
      p[..|VerifyPreamble|] == VerifyPreamble
      && p[|VerifyPreamble|..] == (if s.activeCreation.Some? then s.activeCreation.value.html else "undefined")
  {
    var p := VerifyPrompt(s.activeCreation);
    assert p[49] == VerifyPreamble[49] == ':';
    assert !AllWhitespace(p);
  }

  /** Every creation holds an HTML document, and the active one is either an
      entry of the history or a temporary preview. */
  ghost predicate CreationsWellFormed(s: Session)
  {
    && (forall c :: c in s.creationHistory ==> IsHtmlDocument(c.html))
    && (s.activeCreation.Some? ==>
          && IsHtmlDocument(s.activeCreation.value.html)
          && (s.activeCreation.value in s.creationHistory || s.activeCreation.value.id == TempId))
  }

  /** The initial state and every transition keep the creations well formed,
      and a send only ever adds to the front of the history. */
  lemma TransitionsKeepCreationsWellFormed(s: Session, overridePrompt: Option<string>, env: TurnEnv,
                                           reply: Reply, i: nat, text: string, timestamp: int)
    requires CreationsWellFormed(s)
    ensures CreationsWellFormed(InitialSession())
    ensures var t := HandleSend(s, overridePrompt, env, reply);
      t.Ran? ==>
        && CreationsWellFormed(t.final)
        && |s.creationHistory| <= |t.final.creationHistory|
        && t.final.creationHistory[|t.final.creationHistory| - |s.creationHistory|..] == s.creationHistory
    ensures CreationsWellFormed(StartNewChat(s))
    ensures CreationsWellFormed(ResetPreview(s))
    ensures CreationsWellFormed(PreviewPart(s, text, timestamp))
    ensures i < |s.creationHistory| ==> CreationsWellFormed(SelectCreation(s, i))
  {
    var t := HandleSend(s, overridePrompt, env, reply);
    if t.Ran? {
      if reply.failed {
        HandleSendFailed(s, overridePrompt, env, reply);
      } else {
        HandleSendCompleted(s, overridePrompt, env, reply);
      }
    }
  }

}
