/**
 * The queue client (`SQSClient`) with the queue service left abstract: each
 * operation is split into the request it builds and the way it reads the
 * service's answer, and the answer is an input.
 */
module SqsClient {

  import opened Wrappers
  import opened Models

  /** The message attribute that names a message's command class. */
  const MessageTypeAttribute := "MessageType"

  /** Message of the out-of-range error for a visibility timeout of 0 or less. */
  const TimeoutMessage := "Parameter cannot be lower or equal to 0."

  datatype QueueSettings = QueueSettings(queueUrl: string, visibilityTimeout: int)

  /** `string.IsNullOrEmpty`, with `None` for null. */
  predicate IsNullOrEmpty(s: Option<string>) {
    s.None? || s.value == []
  }

  // ---------------------------------------------------------------------------
  // Change visibility and single delete: argument validation

  datatype ChangeVisibilityRequest = ChangeVisibilityRequest(queueUrl: string, receiptHandle: string, visibilityTimeout: int)

  /**
   * `ChangeMessageVisibilityAsync` as written: the out-of-range exception is
   * built as `new ArgumentOutOfRangeException(message, name)`, but that
   * constructor takes the parameter name first.
   */
  function ChangeMessageVisibilityAsWritten(settings: QueueSettings, receiptHandle: Option<string>, timeoutInSeconds: int): (r: Result<ChangeVisibilityRequest, Fault>)
    ensures !IsNullOrEmpty(receiptHandle) && timeoutInSeconds <= 0 ==>
              r == Failure(ArgumentOutOfRange(TimeoutMessage, "timeoutInSeconds"))
  {
    if IsNullOrEmpty(receiptHandle) then Failure(ArgumentNull("receiptHandle"))
    else if timeoutInSeconds <= 0 then Failure(ArgumentOutOfRange(TimeoutMessage, "timeoutInSeconds"))
    else Success(ChangeVisibilityRequest(settings.queueUrl, receiptHandle.value, timeoutInSeconds))
  }

  /** The as-written error names the message text as the offending parameter. */
  lemma AsWrittenMisnamesParameter(settings: QueueSettings)
    ensures var r := ChangeMessageVisibilityAsWritten(settings, Some("handle"), 0);
            r.Failure? && r.error.ArgumentOutOfRange? && r.error.paramName != "timeoutInSeconds"
  {
    var r := ChangeMessageVisibilityAsWritten(settings, Some("handle"), 0);
    assert r.error.paramName == TimeoutMessage;
    assert TimeoutMessage[0] != "timeoutInSeconds"[0];
  }

  /**
   * `ChangeMessageVisibilityAsync` with the exception's arguments in the
   * intended order: a null or empty handle and a timeout of 0 or less are
   * rejected, in that order of precedence; otherwise the request carries the
   * queue URL, the handle and the timeout unchanged.
   */
  function ChangeMessageVisibility(settings: QueueSettings, receiptHandle: Option<string>, timeoutInSeconds: int): (r: Result<ChangeVisibilityRequest, Fault>)
    ensures r.Success? <==> !IsNullOrEmpty(receiptHandle) && timeoutInSeconds > 0
    ensures IsNullOrEmpty(receiptHandle) ==> r == Failure(ArgumentNull("receiptHandle"))
    ensures !IsNullOrEmpty(receiptHandle) && timeoutInSeconds <= 0 ==>
              r.Failure? && r.error.ArgumentOutOfRange? && r.error.paramName == "timeoutInSeconds"
    ensures r.Success? ==> r.value.queueUrl == settings.queueUrl && Some(r.value.receiptHandle) == receiptHandle
                           && r.value.visibilityTimeout == timeoutInSeconds
  {
    if IsNullOrEmpty(receiptHandle) then Failure(ArgumentNull("receiptHandle"))
    else if timeoutInSeconds <= 0 then Failure(ArgumentOutOfRange("timeoutInSeconds", TimeoutMessage))
    else Success(ChangeVisibilityRequest(settings.queueUrl, receiptHandle.value, timeoutInSeconds))
  }

  /** The two agree everywhere except on the parameter name of the out-of-range error. */
  lemma CorrectionOnlySwapsArguments(settings: QueueSettings, receiptHandle: Option<string>, timeoutInSeconds: int)
    ensures var w := ChangeMessageVisibilityAsWritten(settings, receiptHandle, timeoutInSeconds);
            var c := ChangeMessageVisibility(settings, receiptHandle, timeoutInSeconds);
            (w.Success? <==> c.Success?) &&
            (w.Success? ==> w == c) &&
            (w.Failure? && !w.error.ArgumentOutOfRange? ==> w == c) &&
            (w.Failure? && w.error.ArgumentOutOfRange? ==>
               c.error == ArgumentOutOfRange(w.error.message, w.error.paramName))
  {
  }

  datatype DeleteRequest = DeleteRequest(queueUrl: string, receiptHandle: string)

  /** `DeleteMessageAsync`: a null or empty handle is rejected; otherwise the request names the queue and the handle. */
  function DeleteMessage(settings: QueueSettings, receiptHandle: Option<string>): (r: Result<DeleteRequest, Fault>)
    ensures r.Success? <==> !IsNullOrEmpty(receiptHandle)
    ensures r.Failure? ==> r.error == ArgumentNull("receiptHandle")
    ensures r.Success? ==> r.value.queueUrl == settings.queueUrl && Some(r.value.receiptHandle) == receiptHandle
  {
    if IsNullOrEmpty(receiptHandle) then Failure(ArgumentNull("receiptHandle"))
    else Success(DeleteRequest(settings.queueUrl, receiptHandle.value))
  }

  // ---------------------------------------------------------------------------
  // Batch delete

  datatype BatchEntry = BatchEntry(id: string, receiptHandle: string)

  datatype DeleteBatchRequest = DeleteBatchRequest(queueUrl: string, entries: seq<BatchEntry>)

  /** The ids the service reports as deleted and as failed; a null response is `None`. */
  datatype ServiceDeleteBatchResponse = ServiceDeleteBatchResponse(successfulIds: seq<string>, failedIds: seq<string>)

  /** The `(Successful, Failed)` pair the client returns. */
  datatype DeleteBatchResult = DeleteBatchResult(successful: seq<string>, failed: seq<string>)

  function EntryIds(entries: seq<BatchEntry>): (ids: seq<string>)
    ensures |ids| == |entries|
    ensures forall i :: 0 <= i < |entries| ==> ids[i] == entries[i].id
  {
    seq(|entries|, i requires 0 <= i < |entries| => entries[i].id)
  }

  /** One entry per handle, in order, each using the handle as its id. */
  function BatchEntries(handles: seq<string>): (entries: seq<BatchEntry>)
    ensures |entries| == |handles|
    ensures forall i :: 0 <= i < |handles| ==> entries[i].id == handles[i] && entries[i].receiptHandle == handles[i]
  {
    seq(|handles|, i requires 0 <= i < |handles| => BatchEntry(handles[i], handles[i]))
  }

  /** Reading back the ids of the entries gives the handles: a reported id names the handle it came from. */
  lemma EntryIdsRoundTrip(handles: seq<string>)
    ensures EntryIds(BatchEntries(handles)) == handles
  {
  }

  /** The request `DeleteMessageBatchAsync` sends; a null handle list is rejected. */
  function DeleteMessageBatchRequest(settings: QueueSettings, receiptHandles: Option<seq<string>>): (r: Result<DeleteBatchRequest, Fault>)
    ensures r.Failure? <==> receiptHandles.None?
    ensures r.Failure? ==> r.error == ArgumentNull("receiptHandles")
    ensures r.Success? ==> r.value.queueUrl == settings.queueUrl && EntryIds(r.value.entries) == receiptHandles.value
                           && forall e :: e in r.value.entries ==> e.id == e.receiptHandle
  {
    match receiptHandles
    case None => Failure(ArgumentNull("receiptHandles"))
    case Some(handles) =>
      EntryIdsRoundTrip(handles);
      Success(DeleteBatchRequest(settings.queueUrl, BatchEntries(handles)))
  }

  /** How the client reads the service's answer: a null response means nothing was deleted and every handle failed. */
  function DeleteMessageBatchResult(receiptHandles: seq<string>, response: Option<ServiceDeleteBatchResponse>): (r: DeleteBatchResult)
    ensures response.None? ==> r.successful == [] && r.failed == receiptHandles
    ensures response.Some? ==> r.successful == response.value.successfulIds && r.failed == response.value.failedIds
  {
    match response
    case None => DeleteBatchResult([], receiptHandles)
    case Some(resp) => DeleteBatchResult(resp.successfulIds, resp.failedIds)
  }

  /**
   * `DeleteMessageBatchAsync` over an abstract service call `service`, which
   * answers a request with a response, a null response, or an exception.
   */
  function DeleteMessageBatch(settings: QueueSettings, receiptHandles: Option<seq<string>>,
                              service: DeleteBatchRequest -> Result<Option<ServiceDeleteBatchResponse>, Fault>): (r: Result<DeleteBatchResult, Fault>)
    ensures receiptHandles.None? ==> r == Failure(ArgumentNull("receiptHandles"))
    ensures receiptHandles.Some? && r.Success? ==>
              var answer := service(DeleteBatchRequest(settings.queueUrl, BatchEntries(receiptHandles.value)));
              answer.Success? && r.value == DeleteMessageBatchResult(receiptHandles.value, answer.value)
    ensures receiptHandles.Some? ==>
              var answer := service(DeleteBatchRequest(settings.queueUrl, BatchEntries(receiptHandles.value)));
              (r.Success? <==> answer.Success?) && (answer.Failure? ==> r == Failure(answer.error))
  {
    match DeleteMessageBatchRequest(settings, receiptHandles)
    case Failure(e) => Failure(e)
    case Success(request) =>
      match service(request)
      case Failure(e) => Failure(e)
      case Success(response) => Success(DeleteMessageBatchResult(receiptHandles.value, response))
  }

  /**
   * If the service only reports ids of the entries it was sent, every handle
   * the client reports as successful was one of the handles it was given, and
   * with a null response every handle is reported failed and none successful.
   */
  lemma ReportedSuccessesWereRequested(settings: QueueSettings, handles: seq<string>,
                                       service: DeleteBatchRequest -> Result<Option<ServiceDeleteBatchResponse>, Fault>)
    requires forall request :: service(request).Success? && service(request).value.Some? ==>
               forall id :: id in service(request).value.value.successfulIds ==> id in EntryIds(request.entries)
    ensures var r := DeleteMessageBatch(settings, Some(handles), service);
            r.Success? ==> forall h :: h in r.value.successful ==> h in handles
  {
    var request := DeleteBatchRequest(settings.queueUrl, BatchEntries(handles));
    EntryIdsRoundTrip(handles);
    assert EntryIds(request.entries) == handles;
  }

  // ---------------------------------------------------------------------------
  // Receive

  /** A received message: its `MessageType` attribute value (null is `None`), body and receipt handle. */
  datatype QueueMessage = QueueMessage(messageType: Option<string>, body: string, receiptHandle: string)

  datatype ReceiveRequest = ReceiveRequest(queueUrl: string, maxNumberOfMessages: int, visibilityTimeout: int,
                                           messageAttributeNames: seq<string>)

  /** The request of a receive for up to `maxNumberOfMessages` messages. */
  function ReceiveRequestFor(settings: QueueSettings, maxNumberOfMessages: int): (r: ReceiveRequest)
    ensures r.queueUrl == settings.queueUrl && r.visibilityTimeout == settings.visibilityTimeout
    ensures r.maxNumberOfMessages == maxNumberOfMessages
    ensures r.messageAttributeNames == [MessageTypeAttribute]
  {
    ReceiveRequest(settings.queueUrl, maxNumberOfMessages, settings.visibilityTimeout, [MessageTypeAttribute])
  }

  /** The request of `ReceiveMessageAsync`, which asks for a single message. */
  function SingleReceiveRequest(settings: QueueSettings): (r: ReceiveRequest)
    ensures r.maxNumberOfMessages == 1 && r.messageAttributeNames == [MessageTypeAttribute]
    ensures r.queueUrl == settings.queueUrl && r.visibilityTimeout == settings.visibilityTimeout
  {
    ReceiveRequestFor(settings, 1)
  }

  /** ASCII case folding: the part of `OrdinalIgnoreCase` this model keeps. */
  function FoldCase(c: char): (d: char)
    ensures 'A' <= c <= 'Z' ==> 'a' <= d <= 'z' && d as int - c as int == 32
    ensures !('A' <= c <= 'Z') ==> d == c
  {
    if 'A' <= c <= 'Z' then (c as int + 32) as char else c
  }

  /** A string with every character case-folded. */
  function FoldString(s: string): (r: string)
    ensures |r| == |s|
  {
    seq(|s|, i requires 0 <= i < |s| => FoldCase(s[i]))
  }

  /** `OrdinalIgnoreCase` equality, over ASCII: equal once both sides are case-folded. */
  predicate EqualsIgnoreCase(a: string, b: string) {
    FoldString(a) == FoldString(b)
  }

  /** The class `k` is the one a message with attribute value `messageType` asks for; a null value matches nothing. */
  predicate Names(k: CommandKind, messageType: Option<string>) {
    messageType.Some? && EqualsIgnoreCase(FullName(k), messageType.value)
  }

  /**
   * The `FirstOrDefault` lookup: the first registered class whose full name
   * equals the attribute value ignoring case, or a `NotSupportedException`.
   */
  function ResolveType(registered: seq<CommandKind>, messageType: Option<string>): (r: Result<CommandKind, Fault>)
    ensures r.Failure? <==> forall i :: 0 <= i < |registered| ==> !Names(registered[i], messageType)
    ensures r.Failure? ==> r.error == TypeNotFound(messageType)
    ensures r.Success? ==> r.value in registered && Names(r.value, messageType)
  {
    if registered == [] then Failure(TypeNotFound(messageType))
    else if Names(registered[0], messageType) then Success(registered[0])
    else
      var r := ResolveType(registered[1..], messageType);
      assert forall i :: 1 <= i < |registered| ==> registered[i] == registered[1..][i - 1];
      r
  }

  /** The lookup picks the first match: a class that matches, with none registered before it matching, is the answer. */
  lemma {:induction false} ResolveTypeIsFirstMatch(registered: seq<CommandKind>, messageType: Option<string>, i: nat)
    requires i < |registered| && Names(registered[i], messageType)
    requires forall j :: 0 <= j < i ==> !Names(registered[j], messageType)
    ensures ResolveType(registered, messageType) == Success(registered[i])
    decreases i
  {
    if i > 0 {
      var tail := registered[1..];
      assert !Names(registered[0], messageType);
      assert forall j :: 0 <= j < i - 1 ==> tail[j] == registered[j + 1];
      ResolveTypeIsFirstMatch(tail, messageType, i - 1);
    }
  }

  /** The class names differ, so a message carrying a class's own full name, in any ASCII case, resolves to that class. */
  lemma OwnNameResolves(registered: seq<CommandKind>, k: CommandKind, messageType: string)
    requires k in registered
    requires EqualsIgnoreCase(FullName(k), messageType)
    ensures ResolveType(registered, Some(messageType)) == Success(k)
  {
    var other := if k == WebhookKind then EmailKind else WebhookKind;
    assert |FullName(other)| != |FullName(k)|;
    assert !Names(other, Some(messageType));
    var i :| 0 <= i < |registered| && registered[i] == k;
    assert Names(registered[i], Some(messageType));
    var r := ResolveType(registered, Some(messageType));
    assert r.Success?;
    assert r.value == k || r.value == other;
  }

  /** The fields a JSON body sets on the class it is read into. */
  datatype JsonFields = JsonFields(commandId: string, url: string, email: string, receiptHandle: string)

  /**
   * `JsonConvert.DeserializeObject` on a body, left abstract: the fields it
   * reads, `None` for a body that deserialises to null (the literal `null`),
   * or the exception it throws on a body it cannot read.
   */
  type Json = string -> Result<Option<JsonFields>, Fault>

  /** An instance of `kind` filled from the fields read from a body. */
  function Deserialize(kind: CommandKind, f: JsonFields): (c: Command)
    ensures c.Kind() == kind
    ensures c.CommandId() == f.commandId
    ensures c.Webhook? ==> c.webhook.url == f.url
    ensures c.Email? ==> c.emailCommand.email == f.email
  {
    match kind
    case WebhookKind => Webhook(WebhookCommand(f.commandId, f.url, f.receiptHandle))
    case EmailKind => Email(EmailCommand(f.commandId, f.receiptHandle, f.email))
  }

  /** The body of `m` reads as a non-null instance. */
  predicate Readable(m: QueueMessage, json: Json) {
    json(m.body).Success? && json(m.body).value.Some?
  }

  /**
   * One message: resolve its class, read its body into it, then overwrite its
   * receipt handle. An unresolved class throws before the body is read; a
   * body that cannot be read throws; a null instance throws on the assignment.
   */
  function DecodeMessage(registered: seq<CommandKind>, m: QueueMessage, json: Json): (r: Result<Command, Fault>)
    ensures r.Success? <==> ResolveType(registered, m.messageType).Success? && Readable(m, json)
    ensures ResolveType(registered, m.messageType).Failure? ==> r == Failure(TypeNotFound(m.messageType))
    ensures ResolveType(registered, m.messageType).Success? && json(m.body).Failure? ==> r == Failure(json(m.body).error)
    ensures ResolveType(registered, m.messageType).Success? && json(m.body) == Success(None) ==> r == Failure(NullReference)
    ensures r.Success? ==>
              var f := json(m.body).value.value;
              r.value.Kind() == ResolveType(registered, m.messageType).value
              && r.value.ReceiptHandle() == m.receiptHandle
              && r.value.CommandId() == f.commandId
              && (r.value.Webhook? ==> r.value.webhook.url == f.url)
              && (r.value.Email? ==> r.value.emailCommand.email == f.email)
  {
    match ResolveType(registered, m.messageType)
    case Failure(e) => Failure(e)
    case Success(kind) =>
      match json(m.body)
      case Failure(e) => Failure(e)
      case Success(None) => Failure(NullReference)
      case Success(Some(f)) => Success(Deserialize(kind, f).WithReceiptHandle(m.receiptHandle))
  }

  /** A message that decodes: its class resolves and its body reads as a non-null instance. */
  predicate Decodable(registered: seq<CommandKind>, m: QueueMessage, json: Json) {
    ResolveType(registered, m.messageType).Success? && Readable(m, json)
  }

  // ---------------------------------------------------------------------------
  // Decoding a batch: every item in order, stopping at the first failure

  /** Puts `done` in front of a successful remainder; a failure stays the failure. */
  function Prepend<T>(done: seq<T>, rest: Result<seq<T>, Fault>): (r: Result<seq<T>, Fault>)
    ensures r.Success? <==> rest.Success?
    ensures r.Success? ==> r.value == done + rest.value
    ensures r.Failure? ==> r == rest
    ensures done == [] ==> r == rest
  {
    match rest
    case Success(cs) =>
      assert done == [] ==> done + cs == cs;
      Success(done + cs)
    case Failure(e) => Failure(e)
  }

  lemma PrependTwice<T>(a: seq<T>, b: seq<T>, rest: Result<seq<T>, Fault>)
    ensures Prepend(a, Prepend(b, rest)) == Prepend(a + b, rest)
  {
    if rest.Success? {
      assert a + (b + rest.value) == (a + b) + rest.value;
    }
  }

  /** Decodes every item in order; the first failure is the result, and nothing decoded before it is kept. */
  function DecodeEach<A, B>(decode: A -> Result<B, Fault>, items: seq<A>): (r: Result<seq<B>, Fault>)
    ensures r.Success? ==> |r.value| == |items|
    decreases |items|
  {
    if items == [] then Success([])
    else
      match decode(items[0])
      case Failure(e) => Failure(e)
      case Success(c) => Prepend([c], DecodeEach(decode, items[1..]))
  }

  /** A successful batch holds at position `i` what the item there decodes to. */
  lemma {:induction false} DecodeEachAt<A, B>(decode: A -> Result<B, Fault>, items: seq<A>, i: nat)
    requires i < |items| && DecodeEach(decode, items).Success?
    ensures decode(items[i]).Success? && DecodeEach(decode, items).value[i] == decode(items[i]).value
    decreases i
  {
    var rest := DecodeEach(decode, items[1..]);
    assert decode(items[0]).Success?;
    assert DecodeEach(decode, items).value == [decode(items[0]).value] + rest.value;
    if i > 0 {
      DecodeEachAt(decode, items[1..], i - 1);
      assert items[1..][i - 1] == items[i];
    }
  }

  /** When every item decodes, the batch succeeds. */
  lemma {:induction false} DecodeEachSucceeds<A, B>(decode: A -> Result<B, Fault>, items: seq<A>)
    requires forall i :: 0 <= i < |items| ==> decode(items[i]).Success?
    ensures DecodeEach(decode, items).Success?
    decreases |items|
  {
    if items != [] {
      var tail := items[1..];
      assert forall i :: 0 <= i < |tail| ==> tail[i] == items[i + 1];
      DecodeEachSucceeds(decode, tail);
    }
  }

  /** When item `k` is the first that fails, the batch fails with its error. */
  lemma {:induction false} DecodeEachFailsAtFirst<A, B>(decode: A -> Result<B, Fault>, items: seq<A>, k: nat)
    requires k < |items| && decode(items[k]).Failure?
    requires forall i :: 0 <= i < k ==> decode(items[i]).Success?
    ensures DecodeEach(decode, items) == Failure(decode(items[k]).error)
    decreases k
  {
    if k > 0 {
      var tail := items[1..];
      assert forall i :: 0 <= i < k ==> tail[i] == items[i + 1];
      DecodeEachFailsAtFirst(decode, tail, k - 1);
    }
  }

  /** A batch of one item decodes to that item's result. */
  lemma DecodeEachSingle<A, B>(decode: A -> Result<B, Fault>, x: A)
    ensures DecodeEach(decode, [x]) == if decode(x).Success? then Success([decode(x).value]) else Failure(decode(x).error)
  {
    assert [x][1..] == [];
    assert DecodeEach(decode, [x][1..]) == Success([]);
    if decode(x).Success? {
      assert [decode(x).value] + [] == [decode(x).value];
    }
  }

  /** The per-message step of the batch receive. */
  function Decoder(registered: seq<CommandKind>, json: Json): QueueMessage -> Result<Command, Fault> {
    m => DecodeMessage(registered, m, json)
  }

  /**
   * The batch mapping: one command per message, in response order, or the
   * error of the first message that does not decode (its class does not
   * resolve, or its body does not read as a non-null instance).
   */
  function DecodeAll(registered: seq<CommandKind>, messages: seq<QueueMessage>, json: Json): (r: Result<seq<Command>, Fault>)
    ensures r.Success? ==> |r.value| == |messages|
  {
    DecodeEach(Decoder(registered, json), messages)
  }

  /** If every message decodes (its class resolves and its body reads as a non-null instance), the batch succeeds. */
  lemma DecodeAllSucceedsWhenDecodable(registered: seq<CommandKind>, messages: seq<QueueMessage>, json: Json)
    requires forall i :: 0 <= i < |messages| ==> Decodable(registered, messages[i], json)
    ensures DecodeAll(registered, messages, json).Success?
  {
    var decode := Decoder(registered, json);
    assert forall i :: 0 <= i < |messages| ==> decode(messages[i]) == DecodeMessage(registered, messages[i], json);
    DecodeEachSucceeds(decode, messages);
  }

  /**
   * In a successful batch, the message at position `i` resolved, and the
   * batch holds there the command decoded from it, carrying its receipt
   * handle.
   */
  lemma DecodeAllAt(registered: seq<CommandKind>, messages: seq<QueueMessage>, json: Json, i: nat)
    requires i < |messages| && DecodeAll(registered, messages, json).Success?
    ensures Decodable(registered, messages[i], json)
    ensures DecodeAll(registered, messages, json).value[i] == DecodeMessage(registered, messages[i], json).value
    ensures DecodeAll(registered, messages, json).value[i].ReceiptHandle() == messages[i].receiptHandle
  {
    var decode := Decoder(registered, json);
    DecodeEachAt(decode, messages, i);
    assert decode(messages[i]) == DecodeMessage(registered, messages[i], json);
  }

  /**
   * A batch with an undecodable message fails with the error of the first
   * one (`TypeNotFound`, the deserialiser's exception, or `NullReference`):
   * none of the batch is returned.
   */
  lemma DecodeAllFailsAtFirst(registered: seq<CommandKind>, messages: seq<QueueMessage>, json: Json, k: nat)
    requires k < |messages| && !Decodable(registered, messages[k], json)
    requires forall i :: 0 <= i < k ==> Decodable(registered, messages[i], json)
    ensures DecodeAll(registered, messages, json) == Failure(DecodeMessage(registered, messages[k], json).error)
  {
    var decode := Decoder(registered, json);
    assert forall i :: 0 <= i <= k ==> decode(messages[i]) == DecodeMessage(registered, messages[i], json);
    DecodeEachFailsAtFirst(decode, messages, k);
  }

  /**
   * `ReceiveMessageBatchAsync` after the service answered with `response`
   * (`None` for a null response or a null message list): no message gives an
   * empty sequence; otherwise the loop decodes the messages in order.
   */
  method ReceiveMessageBatch(registered: seq<CommandKind>, response: Option<seq<QueueMessage>>, json: Json)
    returns (r: Result<seq<Command>, Fault>)
    ensures response.None? || response.value == [] ==> r == Success([])
    ensures response.Some? ==> r == DecodeAll(registered, response.value, json)
  {
    if response.None? || response.value == [] {
      assert response.Some? ==> DecodeAll(registered, response.value, json) == Success([]);
      return Success([]);
    }
    var messages := response.value;
    ghost var decode := Decoder(registered, json);
    var commands: seq<Command> := [];
    var i := 0;
    assert messages[i..] == messages;
    while i < |messages|
      invariant 0 <= i <= |messages|
      invariant DecodeEach(decode, messages) == Prepend(commands, DecodeEach(decode, messages[i..]))
    {
      ghost var rest := messages[i..];
      assert rest[0] == messages[i] && rest[1..] == messages[i + 1..];
      var decoded := DecodeMessage(registered, messages[i], json);
      assert decode(rest[0]) == decoded;
      if decoded.Failure? {
        return Failure(decoded.error);
      }
      PrependTwice(commands, [decoded.value], DecodeEach(decode, messages[i + 1..]));
      commands := commands + [decoded.value];
      i := i + 1;
    }
    assert messages[i..] == [] && commands + [] == commands;
    r := Success(commands);
  }

  /**
   * `ReceiveMessageAsync` after the service answered: no message gives null
   * (`Success(None)`); otherwise the first message is decoded, and the others
   * are not looked at.
   */
  function ReceiveMessage(registered: seq<CommandKind>, response: Option<seq<QueueMessage>>, json: Json)
    : (r: Result<Option<Command>, Fault>)
    ensures response.None? || response.value == [] ==> r == Success(None)
    ensures response.Some? && response.value != [] ==>
              var first := DecodeMessage(registered, response.value[0], json);
              (r.Success? <==> Decodable(registered, response.value[0], json))
              && (r.Success? ==> r.value == Some(first.value) && r.value.value.ReceiptHandle() == response.value[0].receiptHandle)
              && (r.Failure? ==> r.error == first.error)
  {
    if response.None? || response.value == [] then Success(None)
    else
      match DecodeMessage(registered, response.value[0], json)
      case Failure(e) => Failure(e)
      case Success(c) => Success(Some(c))
  }

  /**
   * On any non-empty answer, the single receive behaves as the batch receive
   * of the answer's first message: the same command, or the same error.
   */
  lemma SingleReceiveIsBatchOfFirst(registered: seq<CommandKind>, messages: seq<QueueMessage>, json: Json)
    requires messages != []
    ensures var batch := DecodeAll(registered, messages[..1], json);
            ReceiveMessage(registered, Some(messages), json)
            == (if batch.Success? then Success(Some(batch.value[0])) else Failure(batch.error))
  {
    var decode := Decoder(registered, json);
    assert messages[..1] == [messages[0]];
    DecodeEachSingle(decode, messages[0]);
    assert decode(messages[0]) == DecodeMessage(registered, messages[0], json);
  }

  /** When both succeed, the single receive returns the first command of the batch receive on the same answer. */
  lemma SingleReceiveIsFirstOfBatch(registered: seq<CommandKind>, messages: seq<QueueMessage>, json: Json)
    requires messages != []
    requires DecodeAll(registered, messages, json).Success?
    ensures ReceiveMessage(registered, Some(messages), json) == Success(Some(DecodeAll(registered, messages, json).value[0]))
  {
    DecodeAllAt(registered, messages, json, 0);
  }
}
