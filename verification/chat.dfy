/** The client's conversation screen (ChatScreen in App.tsx): a greeting
    on mount, then turns of "user message, assistant reply", ending when
    the assistant calls the hand-off function.

    Each asynchronous step is split in two: the part that runs when the
    user acts, and the part that runs when the assistant's answer arrives,
    with the answer as a parameter. */
module Chat {
  import opened Wrappers
  import opened Text
  import opened Types

  const Fallback: string := "Olá!" + " Sou o assistente virtual da ATX Contadores. Como posso te ajudar hoje?"
  const StartFailure: string := "Desculpe, não foi possível iniciar o assistente. Tente novamente mais tarde."
  const ReplyFailure: string :=
    "Desculpe, ocorreu um erro ao processar sua solicitação. Por favor, tente novamente mais tarde."

  /** The first message shown: the trimmed greeting, or the fallback when
      the reply is blank, has no text or the request failed (`None`). */
  function GreetingText(reply: Option<string>): (r: string)
    ensures !IsBlank(r)
    ensures reply.Some? && !IsBlank(reply.value) ==> r == Trim(reply.value)
    ensures reply.None? || IsBlank(reply.value) ==> r == Fallback
  {
    assert Fallback[0] == 'O';
    match reply
    case None => Fallback
    case Some(text) => if Trim(text) != [] then Trim(text) else Fallback
  }

  /** The arguments of a `transferToSpecialist` function call. */
  datatype HandoffCall = HandoffCall(department: Department, summary: string)

  /** What `chat.sendMessage` resolves to, or `Rejected` when it throws. */
  datatype Response = Response(text: Option<string>, calls: seq<HandoffCall>) | Rejected

  const ConfirmationHead: string := "Entendido. Sua solicitação sobre \""
  const ConfirmationMiddle: string := "\" foi encaminhada para o departamento "
  const ConfirmationTail: string :=
    ". Um de nossos especialistas entrará em contato em breve. Este atendimento será encerrado. Obrigado por contatar a ATX Contadores!"

  /** The message confirming a hand-off to the client. */
  function ConfirmationText(call: HandoffCall): string {
    ConfirmationHead + call.summary + ConfirmationMiddle + DepartmentLabel(call.department) + ConfirmationTail
  }

  /** Each middle piece of a five-piece text occurs in it. */
  lemma FivePieces(a: string, b: string, c: string, d: string, e: string)
    ensures Contains(a + b + c + d + e, b)
    ensures Contains(a + b + c + d + e, d)
  {
    ContainsMiddle(a, b, c + d + e);
    assert a + b + c + d + e == a + b + (c + d + e);
    ContainsMiddle(a + b + c, d, e);
  }

  /** The confirmation tells the client both the summary and the department. */
  lemma ConfirmationMentions(call: HandoffCall)
    ensures Contains(ConfirmationText(call), call.summary)
    ensures Contains(ConfirmationText(call), DepartmentLabel(call.department))
  {
    var deptLabel := DepartmentLabel(call.department);
    FivePieces(ConfirmationHead, call.summary, ConfirmationMiddle, deptLabel, ConfirmationTail);
    assert ConfirmationText(call) == ConfirmationHead + call.summary + ConfirmationMiddle + deptLabel + ConfirmationTail;
  }

  const NotificationHead: string := "*Nova Solicitação de Cliente*\n\n*Cliente:* "
  const NotificationDepartment: string := "\n*Departamento:* "
  const NotificationSummary: string := "\n*Resumo:* "

  /** The Telegram text announcing a hand-off. */
  function NotificationText(companyName: string, call: HandoffCall): string {
    NotificationHead + companyName + NotificationDepartment + DepartmentLabel(call.department)
      + NotificationSummary + call.summary
  }

  /** The notification names the company, the department and the summary. */
  lemma NotificationMentions(companyName: string, call: HandoffCall)
    ensures Contains(NotificationText(companyName, call), companyName)
    ensures Contains(NotificationText(companyName, call), DepartmentLabel(call.department))
    ensures Contains(NotificationText(companyName, call), call.summary)
  {
    var deptLabel := DepartmentLabel(call.department);
    FivePieces(NotificationHead, companyName, NotificationDepartment, deptLabel, NotificationSummary + call.summary);
    assert NotificationText(companyName, call)
      == NotificationHead + companyName + NotificationDepartment + deptLabel + (NotificationSummary + call.summary);
    ContainsMiddle(NotificationHead + companyName + NotificationDepartment + deptLabel + NotificationSummary, call.summary, []);
    assert NotificationText(companyName, call)
      == (NotificationHead + companyName + NotificationDepartment + deptLabel + NotificationSummary) + call.summary + [];
  }

  /** The notification sent on a hand-off: only when both the bot token and
      the chat id are configured. */
  function Notification(companyName: string, call: HandoffCall, botToken: Option<string>, chatId: Option<string>): (r: Option<string>)
    ensures r.Some? <==> Truthy(botToken) && Truthy(chatId)
    ensures r.Some? ==>
      && Contains(r.value, companyName)
      && Contains(r.value, DepartmentLabel(call.department))
      && Contains(r.value, call.summary)
  {
    NotificationMentions(companyName, call);
    if Truthy(botToken) && Truthy(chatId) then Some(NotificationText(companyName, call)) else None
  }

  /** The deferred `onEndChat(...)` call the hand-off schedules. */
  datatype EndChatRequest = EndChatRequest(transcript: seq<Message>, department: Department, summary: string, startTime: int)

  /** What a reply asks of the outside world. */
  datatype Effects = Effects(notification: Option<string>, endChat: Option<EndChatRequest>)

  /** The request in flight: the greeting, or a user turn together with the
      message list its handler captured (the earlier messages and the new
      user message). */
  datatype Pending = Idle | AwaitingGreeting | AwaitingReply(captured: seq<Message>)

  class ChatScreen {
    const client: ClientInfo
    const startTime: int
    var messages: seq<Message>
    var input: string
    var isLoading: bool
    /** Whether `chatSessionRef.current` holds a session. */
    var hasSession: bool
    var pending: Pending

    /** The spinner shows exactly while a request is in flight, and only a
        live session can have a user turn in flight. */
    ghost predicate Valid()
      reads this
    {
      && (isLoading <==> pending != Idle)
      && (pending.AwaitingReply? ==> hasSession)
    }

    /** Mounting: `startTimeRef` is read and the greeting effect runs.
        `sessionCreated` is false when `createChatSession()` throws. */
    constructor (client: ClientInfo, now: int, sessionCreated: bool)
      ensures Valid()
      ensures this.client == client && startTime == now && input == []
      ensures sessionCreated ==> messages == [] && hasSession && pending == AwaitingGreeting
      ensures !sessionCreated ==> messages == [Message(Model, StartFailure, Some(now))] && !hasSession && pending == Idle
    {
      this.client := client;
      startTime := now;
      input := [];
      if sessionCreated {
        messages := [];
        hasSession := true;
        isLoading := true;
        pending := AwaitingGreeting;
      } else {
        messages := [Message(Model, StartFailure, Some(now))];
        hasSession := false;
        isLoading := false;
        pending := Idle;
      }
    }

    /** The greeting request settles (`None`: rejected, or no text). */
    method GreetingArrives(reply: Option<string>, now: int)
      requires Valid()
      modifies this
      ensures Valid()
      ensures old(pending) == AwaitingGreeting ==>
        messages == [Message(Model, GreetingText(reply), Some(now))] && pending == Idle
      ensures old(pending) != AwaitingGreeting ==> messages == old(messages) && pending == old(pending)
      ensures input == old(input) && hasSession == old(hasSession)
    {
      if pending == AwaitingGreeting {
        messages := [Message(Model, GreetingText(reply), Some(now))];
        pending := Idle;
        isLoading := false;
      }
    }

    /** Typing in the input field. */
    method SetInput(text: string)
      requires Valid()
      modifies this
      ensures Valid()
      ensures input == text
      ensures messages == old(messages) && pending == old(pending) && isLoading == old(isLoading) && hasSession == old(hasSession)
    {
      input := text;
    }

    /** The form may be submitted: the input is not blank and nothing is in flight. */
    predicate CanSend()
      reads this
    {
      !IsBlank(input) && !isLoading
    }

    /** `handleSendMessage` up to the `await`: the user message keeps the
        input as typed; without a session the turn fails at once. */
    method Submit(now: int)
      requires Valid()
      modifies this
      ensures Valid()
      ensures !old(CanSend()) ==>
        messages == old(messages) && input == old(input) && pending == old(pending) && isLoading == old(isLoading)
      ensures old(CanSend()) ==>
        (input == [] && |messages| > |old(messages)| && messages[|old(messages)|] == Message(User, old(input), Some(now)))
      ensures old(CanSend()) && old(hasSession) ==>
        var sent := old(messages) + [Message(User, old(input), Some(now))];
        messages == sent && pending == AwaitingReply(sent)
      ensures old(CanSend()) && !old(hasSession) ==>
        messages == old(messages) + [Message(User, old(input), Some(now)), Message(Model, ReplyFailure, None)]
        && pending == Idle
      ensures hasSession == old(hasSession)
    {
      if IsBlank(input) || isLoading {
        return;
      }
      var userMessage := Message(User, input, Some(now));
      var sent := messages + [userMessage];
      messages := sent;
      input := [];
      if !hasSession {
        messages := messages + [Message(Model, ReplyFailure, None)];
        return;
      }
      isLoading := true;
      pending := AwaitingReply(sent);
    }

    /** `handleSendMessage` after the `await`. A hand-off (the first
        function call is used) shows the confirmation, asks for the
        notification and schedules the end of the chat with the captured
        transcript; a text reply is shown trimmed; a failure, or a reply
        without text, shows the error message. */
    method ReplyArrives(response: Response, now: int, botToken: Option<string>, chatId: Option<string>)
      returns (effects: Effects)
      requires Valid()
      modifies this
      ensures Valid()
      ensures !old(pending).AwaitingReply? ==>
        messages == old(messages) && pending == old(pending) && effects == Effects(None, None)
      ensures old(pending).AwaitingReply? ==> pending == Idle
      ensures old(pending).AwaitingReply? && response.Response? && response.calls != [] ==>
        var call := response.calls[0];
        var transcript := old(pending).captured + [Message(Model, ConfirmationText(call), None)];
        && messages == transcript
        && effects.notification == Notification(client.companyName, call, botToken, chatId)
        && effects.endChat == Some(EndChatRequest(transcript, call.department, call.summary, startTime))
      ensures old(pending).AwaitingReply? && response.Response? && response.calls == [] && response.text.Some? ==>
        messages == old(messages) + [Message(Model, Trim(response.text.value), Some(now))]
        && effects == Effects(None, None)
      ensures old(pending).AwaitingReply? && (response.Rejected? || (response.calls == [] && response.text.None?)) ==>
        messages == old(messages) + [Message(Model, ReplyFailure, None)]
        && effects == Effects(None, None)
      ensures input == old(input) && hasSession == old(hasSession)
    {
      effects := Effects(None, None);
      if !pending.AwaitingReply? {
        return;
      }
      var captured := pending.captured;
      pending := Idle;
      isLoading := false;
      if response.Rejected? {
        messages := messages + [Message(Model, ReplyFailure, None)];
      } else if response.calls != [] {
        var call := response.calls[0];
        var transcript := captured + [Message(Model, ConfirmationText(call), None)];
        messages := transcript;
        effects := Effects(Notification(client.companyName, call, botToken, chatId),
                           Some(EndChatRequest(transcript, call.department, call.summary, startTime)));
      } else if response.text.None? {
        messages := messages + [Message(Model, ReplyFailure, None)];
      } else {
        messages := messages + [Message(Model, Trim(response.text.value), Some(now))];
      }
    }
  }

  /** The transcript handed to `onEndChat` keeps the whole conversation:
      everything shown before the turn, the user's request, and the
      confirmation naming the department and the summary. */
  lemma HandoffTranscript(before: seq<Message>, request: Message, call: HandoffCall, startTime: int)
    ensures var t := (before + [request]) + [Message(Model, ConfirmationText(call), None)];
      && |t| == |before| + 2
      && t[..|before|] == before
      && t[|before|] == request
      && Contains(t[|t| - 1].content, call.summary)
      && Contains(t[|t| - 1].content, DepartmentLabel(call.department))
  {
    ConfirmationMentions(call);
  }

  /** A text reply is shown trimmed: showing it again changes nothing, and
      it neither starts nor ends with white space. */
  lemma ReplyShownTrimmed(text: string)
    ensures Trim(Trim(text)) == Trim(text)
    ensures Trim(text) != [] ==> !IsJsWhitespace(Trim(text)[0]) && !IsJsWhitespace(Trim(text)[|Trim(text)| - 1])
  {
    TrimIdempotent(text);
  }
}
