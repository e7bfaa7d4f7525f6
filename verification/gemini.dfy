/** services/gemini.ts: the message shape, the model table, the system
    instruction chosen per model, and the `chatStream` relay. The provider's
    client is not modelled; what it does in one exchange is the input `Reply`. */
module Gemini {

  import opened Options

  /** The three entries of `MODELS`. Two of them name the same model. */
  const Codemax13 := "gemini-3-flash-preview"
  const CodemaxPro := "gemini-3-pro-preview"
  const CodemaxBeta := "gemini-3-pro-preview"

  /** A base64 payload with its MIME type. */
  datatype InlineData = InlineData(data: string, mimeType: string)

  /** One part of a message; either field may be absent. */
  datatype Part = Part(text: Option<string>, inlineData: Option<InlineData>)

  datatype Role = User | Model

  datatype Message = Message(role: Role, parts: seq<Part>, modelName: Option<string>)

  const BaseInstruction :=
    "You are Eburon CodeMax, a world-class software engineer. You provide complete, production-ready source code in a single HTML block (CSS and JS included)."

  const VerificationProtocol :=
    "\nCRITICAL VERIFICATION PROTOCOL:\n"
    + "1. Every code output must be self-documenting.\n"
    + "2. Include a hidden 'Verification Block' in comments at the start of the code summarizing the architecture.\n"
    + "3. If the user reports an error or asks for verification, perform a 'Step-by-Step' logic audit before recreating the code.\n"
    + "4. Ensure all JS handles errors gracefully to facilitate easier debugging.\n"

  const StableVariant := "v1.3 stable"
  const ProVariant := "PRO Architect"
  const BetaVariant := "BETA Experimental"

  /** The variant label. The source starts from the stable label and then
      runs the PRO test and the BETA test, in that order; the BETA test coming
      last wins. Because PRO and BETA share one model id, the pro model gets
      the BETA label, every other id the stable one, and the PRO label is
      never produced. */
  function Variant(model: string): (v: string)
    ensures model == "gemini-3-pro-preview" ==> v == "BETA Experimental"
    ensures model != "gemini-3-pro-preview" ==> v == "v1.3 stable"
    ensures v != "PRO Architect"
  {
    if model == CodemaxBeta then BetaVariant
    else if model == CodemaxPro then ProVariant
    else StableVariant
  }

  /** `getSystemInstruction`: the base text, the variant sentence, then the
      verification protocol. Its layout is stated by `SystemInstructionLayout`
      rather than as a postcondition, so that the long literals stay out of
      every proof that only passes the instruction along. */
  function SystemInstruction(model: string): string
  {
    BaseInstruction + " You are the " + Variant(model) + " variant. " + VerificationProtocol
  }

  /** Five strings joined can be cut back apart at their lengths. */
  lemma JoinedPieces(a: string, b: string, c: string, d: string, e: string)
    ensures var s := a + b + c + d + e;
      && s[..|a|] == a
      && s[|a|..|a| + |b|] == b
      && s[|a| + |b|..|a| + |b| + |c|] == c
      && s[|s| - |e|..] == e
  {
  }

  /** The instruction is laid out as base, variant sentence, protocol, and the
      variant can be read back from a fixed position. */
  lemma SystemInstructionLayout(model: string)
    ensures var si := SystemInstruction(model);
      && si[..|BaseInstruction|] == BaseInstruction
      && si[|BaseInstruction| + 13..|BaseInstruction| + 13 + |Variant(model)|] == Variant(model)
      && si[|si| - |VerificationProtocol|..] == VerificationProtocol
  {
    JoinedPieces(BaseInstruction, " You are the ", Variant(model), " variant. ", VerificationProtocol);
  }

  /** Exactly two distinct instructions exist: two models get the same
      instruction exactly when both or neither are the pro model. */
  lemma SystemInstructionDistinguishesOnlyPro(m1: string, m2: string)
    ensures SystemInstruction(m1) == SystemInstruction(m2) <==> (m1 == CodemaxPro <==> m2 == CodemaxPro)
  {
  }

  /** The request the chat session sends: model, system instruction, and the
      parts of the message. */
  datatype Request = Request(model: string, systemInstruction: string, message: seq<Part>)

  /** What the provider does during one exchange: it delivers these chunks
      (`None` where a chunk has no `text`), then completes, or fails after them. */
  datatype Reply = Reply(chunks: seq<Option<string>>, failed: bool)

  datatype StreamResult = Completed(fullText: string) | Failed

  /** One call of `chatStream`: the request it sends, the argument of each
      `onChunk` call in order, and how the returned promise settles. */
  datatype StreamRun = StreamRun(request: Request, published: seq<string>, result: StreamResult)

  /** `chunk.text || ""`. */
  function ChunkText(chunk: Option<string>): string
  {
    match chunk
    case Some(t) => t
    case None => ""
  }

  /** Reference definition: all chunk texts concatenated. */
  ghost function Received(chunks: seq<Option<string>>): string
  {
    if chunks == [] then "" else ChunkText(chunks[0]) + Received(chunks[1..])
  }

  /** A non-empty prefix of the chunks is received as the first chunk's text
      followed by the matching prefix of the rest. */
  lemma ReceivedPrefixes(chunks: seq<Option<string>>)
    requires chunks != []
    ensures forall k :: 0 < k <= |chunks| ==>
      Received(chunks[..k]) == ChunkText(chunks[0]) + Received(chunks[1..][..k - 1])
  {
    forall k | 0 < k <= |chunks|
      ensures Received(chunks[..k]) == ChunkText(chunks[0]) + Received(chunks[1..][..k - 1])
    {
      assert chunks[..k][1..] == chunks[1..][..k - 1];
    }
  }

  /** The relay loop's state after the chunks: what was published and the
      final `fullText`. */
  datatype Relay = Relay(published: seq<string>, fullText: string)

  /** The `for await` loop started with `fullText`: each chunk's text is
      appended and the running total is published. */
  function Accumulate(fullText: string, chunks: seq<Option<string>>): (r: Relay)
    ensures |r.published| == |chunks|
    ensures forall k :: 0 <= k < |chunks| ==> r.published[k] == fullText + Received(chunks[..k + 1])
    ensures r.fullText == fullText + Received(chunks)
    decreases |chunks|
  {
    if chunks == [] then Relay([], fullText)
    else
      var next := fullText + ChunkText(chunks[0]);
      var rest := Accumulate(next, chunks[1..]);
      ReceivedPrefixes(chunks);
      Relay([next] + rest.published, rest.fullText)
  }

  /** `chatStream`: only the last message of the history is sent; every chunk
      publishes the cumulative text once; the promise resolves with the total
      or rejects if the exchange fails. */
  function ChatStream(model: string, history: seq<Message>, reply: Reply): (r: StreamRun)
    requires |history| > 0
    ensures r.request.model == model && r.request.systemInstruction == SystemInstruction(model)
    ensures r.request.message == history[|history| - 1].parts
    ensures |r.published| == |reply.chunks|
    ensures forall k :: 0 <= k < |reply.chunks| ==> r.published[k] == Received(reply.chunks[..k + 1])
    ensures r.result.Failed? <==> reply.failed
    ensures r.result.Completed? ==> r.result.fullText == Received(reply.chunks)
  {
    var lastMessage := history[|history| - 1];
    var request := Request(model, SystemInstruction(model), lastMessage.parts);
    var relay := Accumulate("", reply.chunks);
    StreamRun(request, relay.published, if reply.failed then Failed else Completed(relay.fullText))
  }

  lemma {:induction false} ReceivedAppend(a: seq<Option<string>>, b: seq<Option<string>>)
    ensures Received(a + b) == Received(a) + Received(b)
    decreases |a|
  {
    if a != [] {
      assert (a + b)[1..] == a[1..] + b;
      ReceivedAppend(a[1..], b);
    } else {
      assert a + b == b;
    }
  }

  /** Successive `onChunk` arguments extend one another: each published text is
      a prefix of every later one, so a listener that overwrites never loses
      text. */
  lemma PublishedArePrefixOrdered(model: string, history: seq<Message>, reply: Reply)
    requires |history| > 0
    ensures var p := ChatStream(model, history, reply).published;
      forall k, l :: 0 <= k <= l < |p| ==> p[k] <= p[l]
  {
    var p := ChatStream(model, history, reply).published;
    var chunks := reply.chunks;
    forall k, l | 0 <= k <= l < |p|
      ensures p[k] <= p[l]
    {
      assert chunks[..l + 1] == chunks[..k + 1] + chunks[k + 1..l + 1];
      ReceivedAppend(chunks[..k + 1], chunks[k + 1..l + 1]);
    }
  }

  /** A completed stream resolves with the last published text, or with the
      empty string when no chunk arrived. */
  lemma CompletedIsLastPublished(model: string, history: seq<Message>, reply: Reply)
    requires |history| > 0
    ensures var run := ChatStream(model, history, reply);
      run.result.Completed? ==>
        run.result.fullText == if |run.published| == 0 then "" else run.published[|run.published| - 1]
  {
    assert reply.chunks[..|reply.chunks|] == reply.chunks;
  }

  /** Earlier history never reaches the provider: two histories that end in
      the same message give the same run. */
  lemma OnlyLastMessageSent(model: string, h1: seq<Message>, h2: seq<Message>, last: Message, reply: Reply)
    ensures ChatStream(model, h1 + [last], reply) == ChatStream(model, h2 + [last], reply)
  {
  }

}
