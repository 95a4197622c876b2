/**
 * The conversation controller, `handleSubmit` of the chat screen
 * (src/components/ChatInterface.tsx): it guards a submission, appends the user
 * message and an empty assistant placeholder, streams the reply into the
 * placeholder, removes the placeholder on failure, and resets the loading state.
 *
 * The asynchronous flow is a sequence of discrete steps: BeginSubmit runs the
 * code up to the awaited call, ReceiveChunk is the stream callback, Settle is
 * the catch and finally clauses, and HandleSubmit runs them in that order.
 * Fresh identifiers (uuid) and instants (Date.now) are parameters.
 */
module Chat {
  import opened Types
  import opened Text
  import Api

  /** No message of `ms` has identifier `id`. */
  predicate NoId(ms: seq<Message>, id: string) {
    forall i :: 0 <= i < |ms| ==> ms[i].id != id
  }

  /** The stream callback's update: append `chunk` to the content of every message whose id is `id`. */
  function AppendChunk(ms: seq<Message>, id: string, chunk: string): (r: seq<Message>)
    ensures |r| == |ms|
    ensures forall i :: 0 <= i < |ms| && ms[i].id == id ==> r[i] == ms[i].(content := ms[i].content + chunk)
    ensures forall i :: 0 <= i < |ms| && ms[i].id != id ==> r[i] == ms[i]
  {
    if ms == [] then []
    else [if ms[0].id == id then ms[0].(content := ms[0].content + chunk) else ms[0]] + AppendChunk(ms[1..], id, chunk)
  }

  /** The chunks of one stream applied in order. */
  function AppendChunks(ms: seq<Message>, id: string, chunks: seq<string>): seq<Message>
    decreases |chunks|
  {
    if chunks == [] then ms else AppendChunk(AppendChunks(ms, id, DropLast(chunks)), id, Last(chunks))
  }

  /** The failure cleanup: keep exactly the messages whose id is not `id`, in order. */
  function RemoveById(ms: seq<Message>, id: string): (r: seq<Message>)
    ensures |r| <= |ms|
  {
    if ms == [] then []
    else (if ms[0].id != id then [ms[0]] else []) + RemoveById(ms[1..], id)
  }

  /** The cleanup keeps exactly the messages of another id. */
  lemma {:induction false} RemoveByIdMembers(ms: seq<Message>, id: string, m: Message)
    ensures m in RemoveById(ms, id) <==> m in ms && m.id != id
    decreases |ms|
  {
    if ms != [] {
      RemoveByIdMembers(ms[1..], id, m);
      assert ms == [ms[0]] + ms[1..];
    }
  }

  /** After the cleanup no message carries the id. */
  lemma RemoveByIdClears(ms: seq<Message>, id: string)
    ensures NoId(RemoveById(ms, id), id)
  {
    var r := RemoveById(ms, id);
    forall i | 0 <= i < |r| ensures r[i].id != id {
      RemoveByIdMembers(ms, id, r[i]);
    }
  }

  lemma {:induction false} RemoveByIdAppend(a: seq<Message>, b: seq<Message>, id: string)
    ensures RemoveById(a + b, id) == RemoveById(a, id) + RemoveById(b, id)
    decreases |a|
  {
    if a == [] {
      assert a + b == b;
    } else {
      var head := if a[0].id != id then [a[0]] else [];
      assert (a + b)[0] == a[0] && (a + b)[1..] == a[1..] + b;
      assert RemoveById(a + b, id) == head + RemoveById(a[1..] + b, id);
      RemoveByIdAppend(a[1..], b, id);
    }
  }

  /** Removing an id no message carries changes nothing. */
  lemma {:induction false} RemoveAbsentId(ms: seq<Message>, id: string)
    requires NoId(ms, id)
    ensures RemoveById(ms, id) == ms
    decreases |ms|
  {
    if ms != [] {
      RemoveAbsentId(ms[1..], id);
      assert ms == [ms[0]] + ms[1..];
    }
  }

  /** When exactly one message carries `id`, the cleanup removes that one and keeps the rest in order. */
  lemma RemoveUniqueId(ms: seq<Message>, k: nat, id: string)
    requires k < |ms| && ms[k].id == id
    requires forall i :: 0 <= i < |ms| && i != k ==> ms[i].id != id
    ensures RemoveById(ms, id) == ms[..k] + ms[k + 1..]
  {
    var pre, post := ms[..k], ms[k + 1..];
    assert ms == pre + ([ms[k]] + post);
    assert NoId(pre, id) by {
      forall i | 0 <= i < |pre| ensures pre[i].id != id { assert pre[i] == ms[i]; }
    }
    assert NoId(post, id) by {
      forall i | 0 <= i < |post| ensures post[i].id != id { assert post[i] == ms[k + 1 + i]; }
    }
    RemoveByIdAppend(pre, [ms[k]] + post, id);
    RemoveByIdAppend([ms[k]], post, id);
    RemoveAbsentId(pre, id);
    RemoveAbsentId(post, id);
    assert RemoveById([ms[k]], id) == [] by {
      assert [ms[k]][1..] == [];
    }
    assert [] + post == post;
  }

  /**
   * The whole stream lands in the placeholder and nowhere else: after the chunks,
   * the placeholder's content is the old one followed by their concatenation, and
   * every other message, the length and the order are unchanged.
   */
  lemma {:induction false} StreamFillsPlaceholder(before: seq<Message>, user: Message, placeholder: Message, chunks: seq<string>)
    requires NoId(before, placeholder.id) && user.id != placeholder.id
    ensures AppendChunks(before + [user, placeholder], placeholder.id, chunks)
         == before + [user, placeholder.(content := placeholder.content + Concat(chunks))]
    decreases |chunks|
  {
    var id := placeholder.id;
    if chunks == [] {
      assert placeholder.content + "" == placeholder.content;
    } else {
      var front, chunk := DropLast(chunks), Last(chunks);
      var ms := before + [user, placeholder];
      StreamFillsPlaceholder(before, user, placeholder, front);
      var filled := placeholder.(content := placeholder.content + Concat(front));
      assert AppendChunks(ms, id, chunks) == AppendChunk(before + [user, filled], id, chunk);
      AppendChunkToLast(before, user, filled, chunk);
      assert Concat(chunks) == Concat(front) + chunk;
      assert placeholder.content + Concat(chunks) == filled.content + chunk;
    }
  }

  /** One callback on a conversation ending in the user message and the placeholder. */
  lemma AppendChunkToLast(before: seq<Message>, user: Message, placeholder: Message, chunk: string)
    requires NoId(before, placeholder.id) && user.id != placeholder.id
    ensures AppendChunk(before + [user, placeholder], placeholder.id, chunk)
         == before + [user, placeholder.(content := placeholder.content + chunk)]
  {
    var ms := before + [user, placeholder];
    var r := AppendChunk(ms, placeholder.id, chunk);
    var want := before + [user, placeholder.(content := placeholder.content + chunk)];
    forall i | 0 <= i < |r| ensures r[i] == want[i] {
      if i < |before| {
        assert ms[i] == before[i];
      } else if i == |before| {
        assert ms[i] == user;
      } else {
        assert ms[i] == placeholder;
      }
    }
  }

  /** On failure the placeholder, whatever it received, is removed, leaving the earlier messages and the user message. */
  lemma FailureRemovesPlaceholder(before: seq<Message>, user: Message, placeholder: Message, chunks: seq<string>)
    requires NoId(before, placeholder.id) && user.id != placeholder.id
    ensures RemoveById(AppendChunks(before + [user, placeholder], placeholder.id, chunks), placeholder.id) == before + [user]
  {
    StreamFillsPlaceholder(before, user, placeholder, chunks);
    var filled := placeholder.(content := placeholder.content + Concat(chunks));
    var ms := before + [user, filled];
    RemoveUniqueId(ms, |before| + 1, placeholder.id);
    assert ms[..|before| + 1] == before + [user];
    assert ms[|before| + 2..] == [];
  }

  const MissingKeyMessage: string := "Please set your API key in the settings first"
  const UnknownErrorMessage: string := "An unknown error occurred"

  /** The text shown for a caught value: an Error's message, or a fixed text for anything else. */
  function ErrorText(e: Thrown): (r: string)
    ensures e.JsError? ==> r == e.message
    ensures e.NonError? ==> r == UnknownErrorMessage
  {
    match e
    case JsError(_, message) => message
    case NonError => UnknownErrorMessage
  }

  /** An abort controller; only whether `abort()` was called is kept. */
  class AbortController {
    var aborted: bool

    constructor ()
      ensures !aborted
    {
      aborted := false;
    }

    method Abort()
      modifies this
      ensures aborted
    {
      aborted := true;
    }
  }

  /** What the synchronous part of a submission did. */
  datatype SubmitOutcome = Ignored | MissingKey | Sent(request: seq<Message>)

  /** What a whole submission did. */
  datatype Turn =
    | NotSent(outcome: SubmitOutcome)
    | Completed(request: Api.Request, content: string)
    | Failed(request: Api.Request, err: Thrown)

  /** The chat screen's state. */
  class ChatInterface {
    var messages: seq<Message>
    var input: string
    var isLoading: bool
    var error: Option<string>
    var streamingMessageId: Option<string>
    var abortController: AbortController?

    constructor ()
      ensures messages == [] && input == "" && !isLoading
      ensures error == None && streamingMessageId == None && abortController == null
    {
      messages, input, isLoading := [], "", false;
      error, streamingMessageId, abortController := None, None, null;
    }

    /** The text area's change handler. */
    method SetInput(value: string)
      modifies this
      ensures input == value
      ensures messages == old(messages) && isLoading == old(isLoading) && error == old(error)
      ensures streamingMessageId == old(streamingMessageId) && abortController == old(abortController)
    {
      input := value;
    }

    /**
     * `handleSubmit` up to the awaited request. A blank input or a pending
     * request changes nothing; a missing API key only sets the error; otherwise
     * the user message and the empty placeholder are appended together, the
     * input and error are cleared, loading starts, the placeholder is marked as
     * streaming, a live controller is aborted and a new one installed.
     */
    method BeginSubmit(settings: ChatSettings, userId: string, assistantId: string, userTime: int, assistantTime: int)
      returns (outcome: SubmitOutcome)
      modifies this, abortController
      ensures Trim(old(input)) == "" || old(isLoading) ==>
                && outcome == Ignored
                && messages == old(messages) && input == old(input) && isLoading == old(isLoading)
                && error == old(error) && streamingMessageId == old(streamingMessageId)
                && abortController == old(abortController)
                && (old(abortController) != null ==> old(abortController).aborted == old(abortController.aborted))
      ensures Trim(old(input)) != "" && !old(isLoading) && settings.apiKey == "" ==>
                && outcome == MissingKey
                && error == Some(MissingKeyMessage)
                && messages == old(messages) && input == old(input) && isLoading == old(isLoading)
                && streamingMessageId == old(streamingMessageId) && abortController == old(abortController)
                && (old(abortController) != null ==> old(abortController).aborted == old(abortController.aborted))
      ensures Trim(old(input)) != "" && !old(isLoading) && settings.apiKey != "" ==>
                var user := Message(userId, Role.User, old(input), userTime);
                var placeholder := Message(assistantId, Role.Assistant, "", assistantTime);
                && outcome == Sent(old(messages) + [user])
                && messages == old(messages) + [user, placeholder]
                && streamingMessageId == Some(assistantId)
                && input == "" && error == None && isLoading
                && (old(abortController) != null ==> old(abortController).aborted)
                && abortController != null && fresh(abortController) && !abortController.aborted
      ensures outcome.Sent? <==> Trim(old(input)) != "" && !old(isLoading) && settings.apiKey != ""
    {
      if Trim(input) == "" || isLoading {
        return Ignored;
      }
      if settings.apiKey == "" {
        error := Some(MissingKeyMessage);
        return MissingKey;
      }
      var user := Message(userId, Role.User, input, userTime);
      var placeholder := Message(assistantId, Role.Assistant, "", assistantTime);
      var previous := messages;
      messages := previous + [user, placeholder];
      streamingMessageId := Some(assistantId);
      input := "";
      error := None;
      isLoading := true;
      if abortController != null {
        abortController.Abort();
      }
      abortController := new AbortController();
      outcome := Sent(previous + [user]);
    }

    /** The stream callback for the placeholder `placeholderId`. */
    method ReceiveChunk(placeholderId: string, chunk: string)
      modifies this
      ensures messages == AppendChunk(old(messages), placeholderId, chunk)
      ensures input == old(input) && isLoading == old(isLoading) && error == old(error)
      ensures streamingMessageId == old(streamingMessageId) && abortController == old(abortController)
    {
      messages := AppendChunk(messages, placeholderId, chunk);
    }

    /** The stream callback, called once for each chunk in order. */
    method ApplyChunks(placeholderId: string, chunks: seq<string>)
      modifies this
      ensures messages == AppendChunks(old(messages), placeholderId, chunks)
      ensures input == old(input) && isLoading == old(isLoading) && error == old(error)
      ensures streamingMessageId == old(streamingMessageId) && abortController == old(abortController)
    {
      var k := 0;
      while k < |chunks|
        invariant 0 <= k <= |chunks|
        invariant messages == AppendChunks(old(messages), placeholderId, chunks[..k])
        invariant input == old(input) && isLoading == old(isLoading) && error == old(error)
        invariant streamingMessageId == old(streamingMessageId) && abortController == old(abortController)
      {
        ReceiveChunk(placeholderId, chunks[k]);
        assert DropLast(chunks[..k + 1]) == chunks[..k];
        k := k + 1;
      }
      assert chunks[..k] == chunks;
    }

    /**
     * The catch and finally clauses: on failure show the error and remove the
     * placeholder; in every case stop loading, clear the streaming mark and drop
     * the controller.
     */
    method Settle(placeholderId: string, failure: Option<Thrown>)
      modifies this
      ensures failure.Some? ==> error == Some(ErrorText(failure.value)) && messages == RemoveById(old(messages), placeholderId)
      ensures failure.None? ==> error == old(error) && messages == old(messages)
      ensures !isLoading && streamingMessageId == None && abortController == null
      ensures input == old(input)
    {
      if failure.Some? {
        error := Some(ErrorText(failure.value));
        messages := RemoveById(messages, placeholderId);
      }
      isLoading := false;
      streamingMessageId := None;
      abortController := null;
    }

    /**
     * A whole submission. The request carries the earlier messages and the user
     * message, never the placeholder; on success the placeholder holds the whole
     * streamed reply; on failure it is gone and the error is shown; afterwards
     * nothing is loading or streaming and no controller is held.
     */
    method HandleSubmit(settings: ChatSettings, userId: string, assistantId: string, userTime: int, assistantTime: int,
                        exchange: Api.Exchange, parse: string -> Api.Payload)
      returns (turn: Turn)
      requires userId != assistantId && NoId(messages, assistantId)
      modifies this, abortController
      ensures turn.NotSent? ==>
                && !turn.outcome.Sent?
                && messages == old(messages) && input == old(input) && isLoading == old(isLoading)
                && streamingMessageId == old(streamingMessageId) && abortController == old(abortController)
                && (old(abortController) != null ==> old(abortController).aborted == old(abortController.aborted))
      ensures turn == NotSent(Ignored) <==> Trim(old(input)) == "" || old(isLoading)
      ensures turn == NotSent(MissingKey) <==> Trim(old(input)) != "" && !old(isLoading) && settings.apiKey == ""
      ensures turn == NotSent(Ignored) ==> error == old(error)
      ensures turn == NotSent(MissingKey) ==> error == Some(MissingKeyMessage)
      ensures !turn.NotSent? ==>
                var user := Message(userId, Role.User, old(input), userTime);
                && turn.request == Api.BuildRequest(old(messages) + [user], settings, true)
                && input == "" && !isLoading && streamingMessageId == None && abortController == null
                && (old(abortController) != null ==> old(abortController).aborted)
      ensures !turn.NotSent? ==> (turn.Completed? <==> exchange.Responded? && exchange.ok && exchange.end.Done?)
      ensures !turn.NotSent? ==>
                Api.Outcome(exchange, true, Api.StreamTrace(exchange, true, parse))
                == if turn.Completed? then Success(turn.content) else Failure(turn.err)
      ensures turn.Completed? ==> turn.content == Concat(Api.ReadsTexts(exchange.chunks, parse))
      ensures turn.Completed? ==>
                && messages == old(messages) + [Message(userId, Role.User, old(input), userTime),
                                                Message(assistantId, Role.Assistant, turn.content, assistantTime)]
                && error == None
      ensures turn.Failed? ==>
                && messages == old(messages) + [Message(userId, Role.User, old(input), userTime)]
                && error == Some(ErrorText(turn.err))
    {
      ghost var before := messages;
      ghost var text := input;
      var outcome := BeginSubmit(settings, userId, assistantId, userTime, assistantTime);
      if !outcome.Sent? {
        return NotSent(outcome);
      }
      var user := Message(userId, Role.User, text, userTime);
      var placeholder := Message(assistantId, Role.Assistant, "", assistantTime);
      var request, result, emitted := Api.SendMessage(outcome.request, settings, true, exchange, parse);
      ApplyChunks(assistantId, emitted);
      StreamFillsPlaceholder(before, user, placeholder, emitted);
      match result
      case Success(content) =>
        Settle(assistantId, None);
        assert "" + content == content;
        turn := Completed(request, content);
      case Failure(err) =>
        FailureRemovesPlaceholder(before, user, placeholder, emitted);
        Settle(assistantId, Some(err));
        turn := Failed(request, err);
    }
  }

  /**
   * A rejected key: a 401 response whose body says "invalid key" shows exactly
   * that text, and the conversation keeps only the user's message.
   */
  method InvalidKeyShown(settings: ChatSettings, parse: string -> Api.Payload)
    returns (shown: Option<string>, conversation: seq<Message>)
    requires settings.apiKey != ""
    ensures shown == Some("invalid key")
    ensures conversation == [Message("u", Role.User, "hi", 0)]
  {
    var ui := new ChatInterface();
    ui.SetInput("hi");
    assert Trim("hi") != "" by {
      TrimEmptyIffBlank("hi");
      assert !IsJsWhitespace("hi"[0]);
    }
    var exchange := Api.Responded(false, 401, Api.StringMessage("invalid key"), [], Api.Done, Failure(NonError));
    var turn := ui.HandleSubmit(settings, "u", "a", 0, 1, exchange, parse);
    shown, conversation := ui.error, ui.messages;
  }
}
