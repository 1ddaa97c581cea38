/**
 * The chat view's state: the message history, the input box, the loading flag and the request
 * controller reference, with the handlers that send a question and the callback that writes the
 * streamed answer into the bot message created for it.
 */
module ChatMain {
  import opened Wrappers
  import opened Text
  import opened ChatApi

  datatype Sender = User | Bot

  /** One entry of the chat history. */
  datatype Message = Message(id: string, content: string, sender: Sender, timestamp: string)

  /** `msg-${n}`: the id a message created at clock reading `n` receives. */
  function MessageId(n: nat): string {
    "msg-" + DecimalString(n)
  }

  /** Different clock readings give different ids; in particular a question and its answer slot never share one. */
  lemma MessageIdInjective(a: nat, b: nat)
    requires MessageId(a) == MessageId(b)
    ensures a == b
  {
    assert DecimalString(a) == MessageId(a)[4..];
    assert DecimalString(b) == MessageId(b)[4..];
    DecimalStringInjective(a, b);
  }

  /** The question keeps its own id: its answer slot is stamped no earlier, so with a larger id. */
  lemma QuestionAndAnswerIdsDiffer(now: nat, later: nat)
    requires now <= later
    ensures MessageId(now) != MessageId(later + 1)
  {
    if MessageId(now) == MessageId(later + 1) {
      MessageIdInjective(now, later + 1);
    }
  }

  /** The canned reply `handleSendMessage` schedules. */
  const CannedReply: string := "抱歉，该知识我仍在学习中！"

  /** The handle `requestControllerRef.current` may hold. */
  datatype Controller = Controller(handle: nat)

  // ------------------------------------------------------------------ the history update

  /**
   * `prev.map(...)`: every message with id `id` gets `content`; nothing else changes, not the
   * length, not the order, not any other field.
   */
  function SetContent(history: seq<Message>, id: string, content: string): (h: seq<Message>)
    ensures |h| == |history|
    ensures forall k :: 0 <= k < |h| ==>
      (if history[k].id == id then h[k] == history[k].(content := content) else h[k] == history[k])
  {
    if history == [] then []
    else
      var rest := SetContent(history[1..], id, content);
      assert forall k :: 0 < k < |history| ==> history[1..][k - 1] == history[k];
      [if history[0].id == id then history[0].(content := content) else history[0]] + rest
  }

  /** A later write to the same message supersedes an earlier one. */
  lemma SetContentTwice(history: seq<Message>, id: string, a: string, b: string)
    ensures SetContent(SetContent(history, id, a), id, b) == SetContent(history, id, b)
  {
    var h1, h2, h3 := SetContent(history, id, a), SetContent(SetContent(history, id, a), id, b), SetContent(history, id, b);
    assert forall k :: 0 <= k < |history| ==> h1[k].id == history[k].id;
    assert forall k :: 0 <= k < |history| ==> h2[k] == h3[k];
  }

  /** Writing to an id no message carries changes nothing. */
  lemma SetContentAbsent(history: seq<Message>, id: string, content: string)
    requires forall k :: 0 <= k < |history| ==> history[k].id != id
    ensures SetContent(history, id, content) == history
  {
  }

  /**
   * The history change of one `updateAiResponse(content, isComplete, error)` call: a completing
   * call with empty content keeps the history (its error text is dropped); any other call writes
   * its content into the answer message.
   */
  function Respond(history: seq<Message>, id: string, cb: Callback): seq<Message> {
    if cb.isComplete && cb.content == "" then history else SetContent(history, id, cb.content)
  }

  /** The history after a sequence of callbacks. */
  function RespondAll(history: seq<Message>, id: string, cbs: seq<Callback>): seq<Message>
    decreases |cbs|
  {
    if cbs == [] then history else RespondAll(Respond(history, id, cbs[0]), id, cbs[1..])
  }

  /** A callback that writes into the answer message. */
  predicate Writes(cb: Callback) {
    !(cb.isComplete && cb.content == "")
  }

  /** The content of the last callback that writes, if any. */
  function LastWritten(cbs: seq<Callback>): (r: Option<string>)
    ensures r.None? <==> forall k :: 0 <= k < |cbs| ==> !Writes(cbs[k])
  {
    if cbs == [] then None
    else if Writes(cbs[|cbs| - 1]) then Some(cbs[|cbs| - 1].content)
    else
      var init := cbs[..|cbs| - 1];
      assert forall k :: 0 <= k < |init| ==> init[k] == cbs[k];
      LastWritten(init)
  }

  lemma {:induction false} RespondAllSnoc(history: seq<Message>, id: string, cbs: seq<Callback>, cb: Callback)
    ensures RespondAll(history, id, cbs + [cb]) == Respond(RespondAll(history, id, cbs), id, cb)
    decreases |cbs|
  {
    if cbs == [] {
      assert [] + [cb] == [cb];
      assert [cb][1..] == [];
    } else {
      assert (cbs + [cb])[0] == cbs[0];
      assert (cbs + [cb])[1..] == cbs[1..] + [cb];
      RespondAllSnoc(Respond(history, id, cbs[0]), id, cbs[1..], cb);
    }
  }

  /**
   * However many callbacks arrive, the answer message ends with the content of the last one
   * that writes, and the history is untouched when none writes.
   */
  lemma {:induction false} RespondAllLastWins(history: seq<Message>, id: string, cbs: seq<Callback>)
    ensures RespondAll(history, id, cbs)
         == match LastWritten(cbs)
            case None => history
            case Some(c) => SetContent(history, id, c)
    decreases |cbs|
  {
    if cbs != [] {
      var init, last := cbs[..|cbs| - 1], cbs[|cbs| - 1];
      assert cbs == init + [last];
      RespondAllSnoc(history, id, init, last);
      RespondAllLastWins(history, id, init);
      if !Writes(last) {
        assert LastWritten(cbs) == LastWritten(init);
      } else {
        match LastWritten(init)
        case None =>
        case Some(c) => SetContentTwice(history, id, c, last.content);
      }
    }
  }

  /**
   * A request that fails before streaming reports `("", true, message)`, which writes nothing:
   * the answer slot stays empty and the message text is not shown.
   */
  lemma FailedRequestShowsNoError(history: seq<Message>, id: string, message: string)
    ensures RespondAll(history, id, [Callback("", true, Some(message))]) == history
  {
    assert [Callback("", true, Some(message))][1..] == [];
  }

  // ------------------------------------------------------------------ the view

  /** The state `ChatMain` works on, owned by its parent and passed down with its setters. */
  class ChatView {
    var chatHistory: seq<Message>
    var inputValue: string
    var isRequestLoading: bool
    /** `requestControllerRef.current`. */
    var controller: Option<Controller>
    /** How often `requestControllerRef.current.cancel()` has been called. */
    var cancelCalls: nat

    constructor(history: seq<Message>)
      ensures chatHistory == history && inputValue == "" && !isRequestLoading
      ensures controller == None && cancelCalls == 0
    {
      chatHistory := history;
      inputValue := "";
      isRequestLoading := false;
      controller := None;
      cancelCalls := 0;
    }

    /**
     * `updateAiResponse`: the history change of `Respond`; a completing call also clears the
     * loading flag and the controller reference, any other call leaves them.
     */
    method UpdateAiResponse(aiMessageId: string, newContent: string, isComplete: bool, error: Option<string>)
      modifies this
      ensures chatHistory == Respond(old(chatHistory), aiMessageId, Callback(newContent, isComplete, error))
      ensures isComplete ==> !isRequestLoading && controller == None
      ensures !isComplete ==> isRequestLoading == old(isRequestLoading) && controller == old(controller)
      ensures inputValue == old(inputValue) && cancelCalls == old(cancelCalls)
    {
      if isComplete && newContent == "" {
        isRequestLoading := false;
        controller := None;
        return;
      }
      chatHistory := SetContent(chatHistory, aiMessageId, newContent);
      if isComplete {
        isRequestLoading := false;
        controller := None;
      }
    }

    /**
     * The synchronous part of `handleApiRequest`; the clock reads `now` when the question is
     * stamped and `later` when the answer slot is. With a request in
     * flight and a controller, the request is cancelled and nothing is appended. Otherwise, with
     * blank input nothing changes. Otherwise the question and an empty answer slot are appended,
     * the input is cleared, loading is set, and the answer slot's id is returned.
     */
    method HandleApiRequest(now: nat, later: nat, timeString: string) returns (aiMessageId: Option<string>)
      modifies this
      ensures old(isRequestLoading) && old(controller).Some? ==>
        && aiMessageId == None && cancelCalls == old(cancelCalls) + 1
        && !isRequestLoading && controller == None
        && chatHistory == old(chatHistory) && inputValue == old(inputValue)
      ensures !(old(isRequestLoading) && old(controller).Some?) && Trim(old(inputValue)) == "" ==>
        && aiMessageId == None
        && chatHistory == old(chatHistory) && inputValue == old(inputValue)
        && isRequestLoading == old(isRequestLoading) && controller == old(controller) && cancelCalls == old(cancelCalls)
      ensures !(old(isRequestLoading) && old(controller).Some?) && Trim(old(inputValue)) != "" ==>
        && aiMessageId == Some(MessageId(later + 1))
        && chatHistory == old(chatHistory) + [Message(MessageId(now), old(inputValue), User, timeString),
                                              Message(MessageId(later + 1), "", Bot, timeString)]
        && inputValue == "" && isRequestLoading
        && controller == old(controller) && cancelCalls == old(cancelCalls)
    {
      if isRequestLoading && controller.Some? {
        cancelCalls := cancelCalls + 1;
        isRequestLoading := false;
        controller := None;
        return None;
      }
      if Trim(inputValue) == "" {
        return None;
      }
      var userMessage := Message(MessageId(now), inputValue, User, timeString);
      chatHistory := chatHistory + [userMessage];
      inputValue := "";
      isRequestLoading := true;
      var id := MessageId(later + 1);
      chatHistory := chatHistory + [Message(id, "", Bot, timeString)];
      aiMessageId := Some(id);
    }

    /**
     * The end of `handleApiRequest`: `sendChatRequest` resolves to nothing, so the controller
     * reference is set to no controller.
     */
    method StoreController()
      modifies this
      ensures controller == None
      ensures chatHistory == old(chatHistory) && inputValue == old(inputValue)
      ensures isRequestLoading == old(isRequestLoading) && cancelCalls == old(cancelCalls)
    {
      controller := None;
    }

    /**
     * `handleSendMessage` at clock reading `now`: with blank input nothing changes; otherwise the
     * question is appended and the input cleared. The canned reply follows in `DeliverCannedReply`.
     */
    method HandleSendMessage(now: nat, timeString: string) returns (sent: bool)
      modifies this
      ensures sent <==> Trim(old(inputValue)) != ""
      ensures !sent ==> chatHistory == old(chatHistory) && inputValue == old(inputValue)
      ensures sent ==> chatHistory == old(chatHistory) + [Message(MessageId(now), old(inputValue), User, timeString)]
                       && inputValue == ""
      ensures isRequestLoading == old(isRequestLoading) && controller == old(controller)
      ensures cancelCalls == old(cancelCalls)
    {
      if Trim(inputValue) == "" {
        return false;
      }
      chatHistory := chatHistory + [Message(MessageId(now), inputValue, User, timeString)];
      inputValue := "";
      sent := true;
    }

    /** The timer of `handleSendMessage`, firing at clock reading `now`: appends the canned reply. */
    method DeliverCannedReply(now: nat, timeString: string)
      modifies this
      ensures chatHistory == old(chatHistory) + [Message(MessageId(now + 1), CannedReply, Bot, timeString)]
      ensures inputValue == old(inputValue) && isRequestLoading == old(isRequestLoading)
      ensures controller == old(controller) && cancelCalls == old(cancelCalls)
    {
      chatHistory := chatHistory + [Message(MessageId(now + 1), CannedReply, Bot, timeString)];
    }
  }

  /**
   * A whole exchange: from a view without a controller (as every view is, since no handler ever
   * stores one), a question is sent, the callbacks arrive, and the request resolves. The cancel
   * branch is never taken, the question and the answer slot are the only messages added, the
   * answer slot holds the last content written, and no controller is left behind.
   */
  method Exchange(view: ChatView, now: nat, later: nat, timeString: string, cbs: seq<Callback>)
    requires view.controller == None && Trim(view.inputValue) != ""
    modifies view
    ensures view.cancelCalls == old(view.cancelCalls) && view.controller == None
    ensures view.chatHistory == RespondAll(old(view.chatHistory) + [Message(MessageId(now), old(view.inputValue), User, timeString),
                                                                   Message(MessageId(later + 1), "", Bot, timeString)],
                                           MessageId(later + 1), cbs)
    ensures |view.chatHistory| == |old(view.chatHistory)| + 2
  {
    var id := view.HandleApiRequest(now, later, timeString);
    ghost var start := view.chatHistory;
    for i := 0 to |cbs|
      invariant view.chatHistory == RespondAll(start, MessageId(later + 1), cbs[..i])
      invariant view.controller == None && view.cancelCalls == old(view.cancelCalls)
    {
      assert cbs[..i + 1] == cbs[..i] + [cbs[i]];
      RespondAllSnoc(start, MessageId(later + 1), cbs[..i], cbs[i]);
      view.UpdateAiResponse(MessageId(later + 1), cbs[i].content, cbs[i].isComplete, cbs[i].error);
    }
    assert cbs[..|cbs|] == cbs;
    view.StoreController();
    RespondAllLastWins(start, MessageId(later + 1), cbs);
  }
}
