/** The decide-then-generate protocol with the language model: a forced yes/no function call,
    at most one corrective retry, then a streamed replacement text whose growing diff is
    published chunk by chunk. The model, the stream and `htmlDiff` are oracles. */
module Llm {
  import opened Wrappers
  import opened Docs

  datatype FunctionCall = FunctionCall(name: string, arguments: string)

  /** `choices[0].message` of a completion: optional text and an optional function call. */
  datatype AssistantMessage = AssistantMessage(content: Option<string>, functionCall: Option<FunctionCall>)

  /** The fixed system instructions of the four prompts, named rather than spelled out. */
  datatype Instruction =
    | DecideOnTrackedChanges
    | MergeTrackedChanges
    | DecideSimilarity
    | MergeDocuments

  datatype Message =
    | Instruct(instruction: Instruction)
    | System(content: string)
    | User(content: string)
    | Assistant(content: string)
    | Function(name: string, arguments: string)

  /** What the decision call yields: `response?.choices[0]?.message`, possibly absent. */
  type Reply = Option<AssistantMessage>

  /** The model's reply to a decision request: `ask(attempt, conversation)`, where attempt 0 is
      the first request and 1 the retry. Replies are sampled, so a retry of the very same
      conversation may be answered differently. */
  type Chat = (nat, seq<Message>) -> Reply

  /** One streamed chunk's `choices[0]?.delta.content`, possibly absent. */
  type Chunk = Option<string>

  const AnswerYes: string := "answer_yes"
  const AnswerNo: string := "answer_no"
  const NoCallCorrection: string :=
    "You did not call any function. Please call a function. Possible functions are: answer_no or answer_yes"
  const EmptyResponseMessage: string := "Failed to get response from OpenAI"

  function InvalidCallCorrection(name: string): string {
    "Invalid function call. Function " + name + " is not recognized. Possible functions are: \"answer_no\" or \"answer_yes\""
  }

  predicate Recognized(name: string) {
    name == AnswerYes || name == AnswerNo
  }

  predicate HasCall(reply: Reply) {
    reply.Some? && reply.value.functionCall.Some?
  }

  /** The final answer is yes: a call of `answer_yes`. */
  predicate SaysYes(reply: Reply) {
    HasCall(reply) && reply.value.functionCall.value.name == AnswerYes
  }

  /** The current protocol retries on no call and on a call of an unknown function. */
  predicate Malformed(reply: Reply) {
    !HasCall(reply) || !Recognized(reply.value.functionCall.value.name)
  }

  /** The messages appended before the retry: the model's own text with a reminder to call a
      function, then the unknown call with a message naming it. */
  function Corrections(reply: Reply): (r: seq<Message>)
    ensures |r| == 0 <==> !(reply.Some? && Truthy(reply.value.content)) && !HasCall(reply)
    ensures |r| in {0, 2, 4}
    ensures forall i :: 0 <= i < |r| && i % 2 == 1 ==> r[i].System?
  {
    (if reply.Some? && Truthy(reply.value.content)
     then [Assistant(reply.value.content.value), System(NoCallCorrection)] else [])
    + (if HasCall(reply)
       then [Function(reply.value.functionCall.value.name, reply.value.functionCall.value.arguments),
             System(InvalidCallCorrection(reply.value.functionCall.value.name))]
       else [])
  }

  /** The decision phase: every conversation sent to the model, and the answer that counts. */
  datatype Decision = Decision(asked: seq<seq<Message>>, final: Reply)

  /** At most one retry: the model first sees the history, a retry extends that history, and
      the answer that counts is the reply to the last conversation sent. */
  function Decide(history: seq<Message>, ask: Chat): (r: Decision)
    ensures 1 <= |r.asked| <= 2 && r.asked[0] == history
    ensures |r.asked| == 2 ==> history <= r.asked[1]
    ensures r.final == ask(|r.asked| - 1, r.asked[|r.asked| - 1])
  {
    var first := ask(0, history);
    if Malformed(first) then
      var retried := history + Corrections(first);
      Decision([history, retried], ask(1, retried))
    else Decision([history], first)
  }

  /** The older protocol retries only when no function was called, with one reminder. */
  function DecideLegacy(history: seq<Message>, ask: Chat): (r: Decision)
    ensures 1 <= |r.asked| <= 2 && r.asked[0] == history
    ensures |r.asked| == 2 ==> r.asked[1] == history + [System(NoCallCorrection)]
    ensures r.final == ask(|r.asked| - 1, r.asked[|r.asked| - 1])
  {
    var first := ask(0, history);
    if !HasCall(first) then
      var retried := history + [System(NoCallCorrection)];
      Decision([history, retried], ask(1, retried))
    else Decision([history], first)
  }

  // ---------------------------------------------------------------------------
  // The streamed generation

  /** The text a chunk adds: its content when it is a non-empty string. */
  function Piece(c: Chunk): string {
    if Truthy(c) then c.value else ""
  }

  /** The response after reading every chunk, accumulated from the left as the loop does. */
  function Accumulated(chunks: seq<Chunk>): string {
    if |chunks| == 0 then "" else Accumulated(chunks[..|chunks| - 1]) + Piece(chunks[|chunks| - 1])
  }

  /** The response after each non-empty chunk, in order: what every emitted diff is taken of. */
  function Snapshots(chunks: seq<Chunk>): seq<string> {
    if |chunks| == 0 then []
    else Snapshots(chunks[..|chunks| - 1]) + (if Truthy(chunks[|chunks| - 1]) then [Accumulated(chunks)] else [])
  }

  /** The non-empty contents of the stream, in order. */
  function Contents(chunks: seq<Chunk>): seq<string> {
    if |chunks| == 0 then [] else (if Truthy(chunks[0]) then [chunks[0].value] else []) + Contents(chunks[1..])
  }

  function Concat(parts: seq<string>): string {
    if |parts| == 0 then "" else parts[0] + Concat(parts[1..])
  }

  /** The streaming loop: append every non-empty chunk and remember the response after it. */
  method StreamResponse(chunks: seq<Chunk>) returns (response: string, snapshots: seq<string>)
    ensures response == Accumulated(chunks)
    ensures snapshots == Snapshots(chunks)
  {
    response := "";
    snapshots := [];
    var i := 0;
    while i < |chunks|
      invariant 0 <= i <= |chunks|
      invariant response == Accumulated(chunks[..i])
      invariant snapshots == Snapshots(chunks[..i])
    {
      assert chunks[..i + 1][..i] == chunks[..i];
      if Truthy(chunks[i]) {
        response := response + chunks[i].value;
        snapshots := snapshots + [response];
      }
      i := i + 1;
    }
    assert chunks[..|chunks|] == chunks;
  }

  lemma {:induction false} ConcatAppend(a: seq<string>, b: seq<string>)
    ensures Concat(a + b) == Concat(a) + Concat(b)
  {
    if |a| == 0 {
      assert a + b == b;
    } else {
      assert (a + b)[1..] == a[1..] + b;
      ConcatAppend(a[1..], b);
    }
  }

  lemma {:induction false} ContentsAppendLast(chunks: seq<Chunk>)
    requires |chunks| > 0
    ensures Contents(chunks) == Contents(chunks[..|chunks| - 1])
                                + (if Truthy(chunks[|chunks| - 1]) then [chunks[|chunks| - 1].value] else [])
  {
    if |chunks| > 1 {
      assert chunks[1..][..|chunks[1..]| - 1] == chunks[..|chunks| - 1][1..];
      assert chunks[1..][|chunks[1..]| - 1] == chunks[|chunks| - 1];
      ContentsAppendLast(chunks[1..]);
    } else {
      assert chunks[..0] == [];
      assert chunks[1..] == [];
    }
  }

  /** The response is the in-order concatenation of the non-empty chunk contents, and the diff
      emitted after the k-th of them is taken of the first k+1 of them joined. */
  lemma {:induction false} StreamIsConcatenation(chunks: seq<Chunk>)
    ensures Accumulated(chunks) == Concat(Contents(chunks))
    ensures |Snapshots(chunks)| == |Contents(chunks)|
    ensures forall k :: 0 <= k < |Snapshots(chunks)| ==> Snapshots(chunks)[k] == Concat(Contents(chunks)[..k + 1])
  {
    if |chunks| > 0 {
      var init := chunks[..|chunks| - 1];
      var last := chunks[|chunks| - 1];
      StreamIsConcatenation(init);
      ContentsAppendLast(chunks);
      var tail := if Truthy(last) then [last.value] else [];
      ConcatAppend(Contents(init), tail);
      assert Concat(tail) == Piece(last) by {
        if Truthy(last) { assert tail[1..] == []; }
      }
      forall k | 0 <= k < |Snapshots(chunks)|
        ensures Snapshots(chunks)[k] == Concat(Contents(chunks)[..k + 1])
      {
        if k < |Snapshots(init)| {
          assert Contents(chunks)[..k + 1] == Contents(init)[..k + 1];
        } else {
          assert Contents(chunks)[..k + 1] == Contents(chunks);
        }
      }
    }
  }

  /** The response is empty exactly when no chunk carried text. */
  lemma {:induction false} EmptyIffNoContent(chunks: seq<Chunk>)
    ensures Accumulated(chunks) == "" <==> forall i :: 0 <= i < |chunks| ==> !Truthy(chunks[i])
  {
    if |chunks| > 0 {
      var init := chunks[..|chunks| - 1];
      EmptyIffNoContent(init);
      assert forall i :: 0 <= i < |init| ==> init[i] == chunks[i];
      if Truthy(chunks[|chunks| - 1]) {
        assert |Accumulated(chunks)| >= |Piece(chunks[|chunks| - 1])| > 0;
      }
    }
  }

  // ---------------------------------------------------------------------------
  // The current protocol (`checkIfDocumentNeedsUpdate` over SharePoint files)

  /** A `newTokenV2` event: the change being reconciled, the candidate, the running diff. */
  datatype TokenEventV2 = TokenEventV2(changeId: string, document: SharepointFile, changes: string)

  /** A `newToken` event of the older flow. */
  datatype TokenEvent = TokenEvent(document: Document, changes: string)

  /** One evaluation: the decision, the generation prompt when one was sent, the events emitted
      and the verdict or the error. */
  datatype Run<D, E> = Run(decision: Decision, generation: seq<seq<Message>>, events: seq<E>, result: Result<UpdateResponse<D>>)

  function PlanningMessages(base: SharepointFile, doc: SharepointFile, diff: string): seq<Message> {
    [ Instruct(DecideOnTrackedChanges),
      User("DocumentA with title \"" + base.name + "\":  " + diff),
      User("DocumentB with title \"" + doc.name + "\": " + doc.content) ]
  }

  function ActionMessages(diff: string, doc: SharepointFile): seq<Message> {
    [ Instruct(MergeTrackedChanges),
      User("DocumentB: " + diff),
      User("DocumentA: " + doc.content) ]
  }

  function EventsV2(changeId: string, doc: SharepointFile, snapshots: seq<string>, htmlDiff: (string, string) -> string): (r: seq<TokenEventV2>)
    ensures |r| == |snapshots|
    ensures forall k :: 0 <= k < |r| ==> r[k] == TokenEventV2(changeId, doc, htmlDiff(doc.content, snapshots[k]))
  {
    if |snapshots| == 0 then []
    else [TokenEventV2(changeId, doc, htmlDiff(doc.content, snapshots[0]))] + EventsV2(changeId, doc, snapshots[1..], htmlDiff)
  }

  /** The verdict once the decision is known: Skipped unless it says yes, otherwise Updated with
      the whole stream, which must not be empty. */
  function Verdict<D>(yes: bool, doc: D, chunks: seq<Chunk>): (r: Result<UpdateResponse<D>>)
    ensures r.Err? <==> yes && Accumulated(chunks) == ""
    ensures r.Ok? ==> r.value.document == doc && (r.value.Skipped? <==> !yes)
    ensures r.Ok? && r.value.Updated? ==> r.value.newContent == Accumulated(chunks) && r.value.newContent != ""
  {
    if !yes then Ok(Skipped(doc))
    else if Accumulated(chunks) == "" then Err(Thrown(EmptyResponseMessage))
    else Ok(Updated(doc, Accumulated(chunks)))
  }

  function CheckIfDocumentNeedsUpdate(
    base: SharepointFile, doc: SharepointFile, changeId: string, diff: string,
    ask: Chat, generate: seq<Message> -> seq<Chunk>, htmlDiff: (string, string) -> string
  ): (r: Run<SharepointFile, TokenEventV2>)
    ensures r.result.Ok? ==> r.result.value.document == doc
    ensures r.result.Err? ==> r.result.error == Thrown(EmptyResponseMessage)
  {
    var decision := Decide(PlanningMessages(base, doc, diff), ask);
    if !SaysYes(decision.final) then Run(decision, [], [], Ok(Skipped(doc)))
    else
      var chunks := generate(ActionMessages(diff, doc));
      Run(decision, [ActionMessages(diff, doc)],
          EventsV2(changeId, doc, Snapshots(chunks), htmlDiff), Verdict(true, doc, chunks))
  }

  // ---------------------------------------------------------------------------
  // The older protocol (`checkIfDocumentNeedsUpdate` over documents, and the deprecated copy)

  /** The first argument of the older protocol. The documents flow passes the base text where a
      document is expected, so its title and text read as `undefined`. */
  datatype BaseArg = BaseDocument(document: Document) | BaseText(text: string)

  function BaseTitle(b: BaseArg): string {
    if b.BaseDocument? then b.document.title else "undefined"
  }

  function BaseBody(b: BaseArg): string {
    if b.BaseDocument? then b.document.text else "undefined"
  }

  function LegacyPlanningMessages(base: BaseArg, doc: Document): seq<Message> {
    [ Instruct(DecideSimilarity),
      User("Are these two documents similar?"),
      User("Document1 with title \"" + BaseTitle(base) + "\":  " + BaseBody(base)),
      User("Document2 with title \"" + doc.title + "\": " + doc.text) ]
  }

  function LegacyActionMessages(base: BaseArg, doc: Document): seq<Message> {
    [ Instruct(MergeDocuments),
      User("DocumentB: " + BaseBody(base)),
      User("DocumentA: " + doc.text) ]
  }

  function Events(doc: Document, snapshots: seq<string>, htmlDiff: (string, string) -> string): (r: seq<TokenEvent>)
    ensures |r| == |snapshots|
    ensures forall k :: 0 <= k < |r| ==> r[k] == TokenEvent(doc, htmlDiff(doc.text, snapshots[k]))
  {
    if |snapshots| == 0 then []
    else [TokenEvent(doc, htmlDiff(doc.text, snapshots[0]))] + Events(doc, snapshots[1..], htmlDiff)
  }

  function CheckIfDocumentNeedsUpdateLegacy(
    base: BaseArg, doc: Document,
    ask: Chat, generate: seq<Message> -> seq<Chunk>, htmlDiff: (string, string) -> string
  ): (r: Run<Document, TokenEvent>)
    ensures r.result.Ok? ==> r.result.value.document == doc
    ensures r.result.Err? ==> r.result.error == Thrown(EmptyResponseMessage)
  {
    var decision := DecideLegacy(LegacyPlanningMessages(base, doc), ask);
    if !SaysYes(decision.final) then Run(decision, [], [], Ok(Skipped(doc)))
    else
      var chunks := generate(LegacyActionMessages(base, doc));
      Run(decision, [LegacyActionMessages(base, doc)],
          Events(doc, Snapshots(chunks), htmlDiff), Verdict(true, doc, chunks))
  }

  // ---------------------------------------------------------------------------
  // Properties of the decision phase

  /** The current protocol asks a second time exactly when the first answer has no function
      call or calls an unknown function; the retry's answer replaces the first, and there is
      never a third question. */
  lemma RetryIffMalformed(history: seq<Message>, ask: Chat)
    ensures var d := Decide(history, ask);
            && 1 <= |d.asked| <= 2
            && d.asked[0] == history
            && (|d.asked| == 2 <==> Malformed(ask(0, history)))
            && d.final == ask(|d.asked| - 1, d.asked[|d.asked| - 1])
  {
  }

  /** How the conversation grows before the retry: text without a call adds the text and the
      reminder; an unknown call without text adds the call and a message naming it. */
  lemma RetryHistory(history: seq<Message>, ask: Chat)
    requires Malformed(ask(0, history))
    ensures var first := ask(0, history);
            var d := Decide(history, ask);
            && (first.Some? && Truthy(first.value.content) && !HasCall(first) ==>
                  d.asked[1] == history + [Assistant(first.value.content.value), System(NoCallCorrection)])
            && (HasCall(first) && !Truthy(first.value.content) ==>
                  var call := first.value.functionCall.value;
                  !Recognized(call.name)
                  && d.asked[1] == history + [Function(call.name, call.arguments), System(InvalidCallCorrection(call.name))])
            && (first.Some? && Truthy(first.value.content) && HasCall(first) ==> |d.asked[1]| == |history| + 4)
            && (!(first.Some? && Truthy(first.value.content)) && !HasCall(first) ==> d.asked[1] == history)
  {
  }

  /** The older protocol retries exactly when no function was called, appending one reminder;
      an unknown function is taken as the final answer. */
  lemma LegacyRetryOnlyWithoutCall(history: seq<Message>, ask: Chat)
    ensures var d := DecideLegacy(history, ask);
            && (|d.asked| == 2 <==> !HasCall(ask(0, history)))
            && (|d.asked| == 2 ==> d.asked[1] == history + [System(NoCallCorrection)])
            && (|d.asked| == 1 ==> d.final == ask(0, history))
  {
  }

  /** A first call of an unknown function is retried by the current protocol and not by the
      older one, which then skips. */
  lemma HallucinatedCallHandledDifferently(history: seq<Message>, ask: Chat)
    requires HasCall(ask(0, history)) && !Recognized(ask(0, history).value.functionCall.value.name)
    ensures |Decide(history, ask).asked| == 2
    ensures |DecideLegacy(history, ask).asked| == 1 && !SaysYes(DecideLegacy(history, ask).final)
  {
  }

  /** A first reply with neither text nor a call adds no correction, so the retry sends the same
      conversation again; its answer is the retry's own, not a copy of the first. */
  lemma SilentReplyRetriedAsIs(history: seq<Message>, ask: Chat)
    requires ask(0, history).None? || ask(0, history) == Some(AssistantMessage(None, None))
    ensures Decide(history, ask).asked == [history, history]
    ensures Decide(history, ask).final == ask(1, history)
  {
    assert Corrections(ask(0, history)) == [];
    assert history + [] == history;
  }

  /** A model that stays silent at first and calls `answer_yes` on the retry gets a yes. */
  lemma SilentThenYes(history: seq<Message>)
    ensures var ask: Chat := (n: nat, m: seq<Message>) =>
              if n == 0 then None else Some(AssistantMessage(None, Some(FunctionCall(AnswerYes, "{}"))));
            SaysYes(Decide(history, ask).final)
  {
    var ask: Chat := (n: nat, m: seq<Message>) =>
      if n == 0 then None else Some(AssistantMessage(None, Some(FunctionCall(AnswerYes, "{}"))));
    SilentReplyRetriedAsIs(history, ask);
  }

  // ---------------------------------------------------------------------------
  // Properties of a whole evaluation

  /** Unless the final answer calls `answer_yes` the candidate is Skipped and nothing is
      generated or emitted; in particular a second malformed answer skips rather than fails. */
  lemma SkippedUnlessYes(
    base: SharepointFile, doc: SharepointFile, changeId: string, diff: string,
    ask: Chat, generate: seq<Message> -> seq<Chunk>, htmlDiff: (string, string) -> string)
    ensures var r := CheckIfDocumentNeedsUpdate(base, doc, changeId, diff, ask, generate, htmlDiff);
            !SaysYes(r.decision.final) <==> (r.result == Ok(Skipped(doc)) && r.generation == [] && r.events == [])
    ensures var r := CheckIfDocumentNeedsUpdate(base, doc, changeId, diff, ask, generate, htmlDiff);
            Malformed(r.decision.final) ==> r.result == Ok(Skipped(doc))
  {
    var r := CheckIfDocumentNeedsUpdate(base, doc, changeId, diff, ask, generate, htmlDiff);
    if SaysYes(r.decision.final) {
      var chunks := generate(ActionMessages(diff, doc));
      if Accumulated(chunks) != "" {
        assert r.result == Ok(Updated(doc, Accumulated(chunks)));
      }
    }
  }

  /** After a yes: the response is the concatenation of the non-empty chunks, one event per
      non-empty chunk carries the diff of the candidate's content against the text so far, an
      empty response is an error, and otherwise the verdict is Updated with the whole text. */
  lemma GeneratedAfterYes(
    base: SharepointFile, doc: SharepointFile, changeId: string, diff: string,
    ask: Chat, generate: seq<Message> -> seq<Chunk>, htmlDiff: (string, string) -> string)
    requires SaysYes(Decide(PlanningMessages(base, doc, diff), ask).final)
    ensures var r := CheckIfDocumentNeedsUpdate(base, doc, changeId, diff, ask, generate, htmlDiff);
            var chunks := generate(ActionMessages(diff, doc));
            var parts := Contents(chunks);
            && r.generation == [ActionMessages(diff, doc)]
            && |r.events| == |parts|
            && (forall k :: 0 <= k < |r.events| ==>
                  r.events[k] == TokenEventV2(changeId, doc, htmlDiff(doc.content, Concat(parts[..k + 1]))))
            && (Concat(parts) == "" ==> r.result == Err(Thrown(EmptyResponseMessage)))
            && (Concat(parts) != "" ==> r.result == Ok(Updated(doc, Concat(parts))))
  {
    StreamIsConcatenation(generate(ActionMessages(diff, doc)));
  }

  /** The same for the older protocol, whose events carry the diff against the document's text. */
  lemma LegacyGeneratedAfterYes(
    base: BaseArg, doc: Document,
    ask: Chat, generate: seq<Message> -> seq<Chunk>, htmlDiff: (string, string) -> string)
    ensures var r := CheckIfDocumentNeedsUpdateLegacy(base, doc, ask, generate, htmlDiff);
            var chunks := generate(LegacyActionMessages(base, doc));
            var parts := Contents(chunks);
            && (!SaysYes(r.decision.final) <==> r.result == Ok(Skipped(doc)))
            && (SaysYes(r.decision.final) ==>
                  && |r.events| == |parts|
                  && (forall k :: 0 <= k < |r.events| ==>
                        r.events[k] == TokenEvent(doc, htmlDiff(doc.text, Concat(parts[..k + 1]))))
                  && (Concat(parts) == "" ==> r.result == Err(Thrown(EmptyResponseMessage)))
                  && (Concat(parts) != "" ==> r.result == Ok(Updated(doc, Concat(parts)))))
  {
    var chunks := generate(LegacyActionMessages(base, doc));
    StreamIsConcatenation(chunks);
    var r := CheckIfDocumentNeedsUpdateLegacy(base, doc, ask, generate, htmlDiff);
    if SaysYes(r.decision.final) && Accumulated(chunks) != "" {
      assert r.result == Ok(Updated(doc, Accumulated(chunks)));
    }
  }

  /** An evaluation fails only after a yes followed by a stream without text. */
  lemma FailsOnlyOnEmptyStream(
    base: SharepointFile, doc: SharepointFile, changeId: string, diff: string,
    ask: Chat, generate: seq<Message> -> seq<Chunk>, htmlDiff: (string, string) -> string)
    ensures var r := CheckIfDocumentNeedsUpdate(base, doc, changeId, diff, ask, generate, htmlDiff);
            r.result.Err? <==>
              SaysYes(r.decision.final)
              && forall i :: 0 <= i < |generate(ActionMessages(diff, doc))| ==> !Truthy(generate(ActionMessages(diff, doc))[i])
  {
    EmptyIffNoContent(generate(ActionMessages(diff, doc)));
  }

  /** The stream `["Hello", " world"]` yields two events, the last one the diff against
      "Hello world", and the verdict Updated with that text. */
  lemma HelloWorldStream(
    base: SharepointFile, doc: SharepointFile, changeId: string, diff: string,
    ask: Chat, generate: seq<Message> -> seq<Chunk>, htmlDiff: (string, string) -> string)
    requires SaysYes(Decide(PlanningMessages(base, doc, diff), ask).final)
    requires generate(ActionMessages(diff, doc)) == [Some("Hello"), Some(" world")]
    ensures var r := CheckIfDocumentNeedsUpdate(base, doc, changeId, diff, ask, generate, htmlDiff);
            && |r.events| == 2
            && r.events[1] == TokenEventV2(changeId, doc, htmlDiff(doc.content, "Hello world"))
            && r.result == Ok(Updated(doc, "Hello world"))
  {
    var chunks := generate(ActionMessages(diff, doc));
    assert chunks[..1] == [Some("Hello")];
    assert chunks[..1][..0] == [];
    assert Accumulated(chunks[..1]) == "Hello";
    assert Snapshots(chunks[..1]) == ["Hello"];
    assert Accumulated(chunks) == "Hello world";
    assert Snapshots(chunks) == ["Hello", "Hello world"];
  }
}
