# SQS consumer pipeline, modelled in Dafny

This project models the message-handling core of a .NET queue consumer. The consumer is built on the Proto.Actor actor framework and reads commands from Amazon SQS. It has five parts:

- **Dequeuer.** A poller actor that messages itself. It fetches a batch of commands from the queue, hands each one to a handler actor, and backs off when the queue is empty.
- **Command router.** `CommandActorFactory.GetHandler` picks the handler for each command. A webhook command goes to the actor `Dispatcher_<CommandId>`. Every other kind of command is rejected.
- **Dispatcher.** An actor that, on a `SendRequest` (built from the webhook command), POSTs a fixed JSON payload to the request's URL. Whatever the HTTP answer is, it then asks the Deleter to delete the message. It stops after 5 seconds without a message.
- **Deleter.** An actor that keeps the receipt handles waiting to be deleted. On a timer tick it deletes them from the queue in batches of ten. It then drops from its list only the handles the queue reports as deleted. So a handle leaves the list only after the queue confirms its deletion, and no message is lost before that (at-least-once delivery).
- **Queue client** (`SQSClient`). It validates arguments, builds the batch-delete request and its result (including a null answer from the service), and turns received messages into commands. To do that it resolves each message's class by a case-insensitive match on its full name.

One module per source file:

| module | file | form |
|---|---|---|
| `Wrappers` | (none) | `Option` and `Result`, which stand for null and for a thrown exception |
| `Models` | `Command`, `WebhookCommand`, `EmailCommand`, and `Fault` (the exceptions the core throws) | values |
| `Shared` | `ChunkBy`, which splits a list into consecutive chunks | functions |
| `Messages` | `SendRequest`, `DeleteMessage` | values |
| `CommandActorFactory` | `GetHandler` | a function |
| `DispatcherActor` | `Dispatcher` | a transition function over `Alive` / `Stopped`, emitting effects |
| `DequeuerActor` | `Dequeuer` | a transition function, plus the handler as a method whose `foreach` loop is proved equal to it |
| `DeleterActor` | `Deleter` | a class whose `receiptHandles: seq<string>` field the methods update in place, with the list operations as functions |
| `SqsClient` | `SQSClient` | functions for validation, requests and decoding, and a method for the batch receive loop |

Calls the core makes into code it does not own are parameters of the model:
- the batch-delete backend;
- the SQS service;
- the JSON reader;
- the message mapper;
- the outcome of the HTTP POST.

Actor messages sent (`Tell`), timers and delays are *effects* in an ordered outbox, or constants in a tick schedule.

## Model

| member | source | states |
|---|---|---|
| `Models.Command.WithReceiptHandle` | src/Queueing/SQSClient.cs:105 | overwriting a decoded command's receipt handle sets exactly that handle and keeps its class, command id, and its URL or e-mail address |
| `Shared.ChunkBy` | src/Consumer/Actors/Deleter.cs:56 | the chunks, concatenated in order, are the list; each holds 1 to `size` elements; every chunk but the last is full |
| `Shared.ChunkByEmpty` | src/Consumer/Actors/Deleter.cs:52-56 | a list has no chunks if and only if it is empty |
| `Messages.FromWebhook` | src/Consumer/Messages/SendRequest.cs:8-14 | the request's `MessageId`, `ReceiptHandle` and `Url` are the command's `CommandId`, `ReceiptHandle` and `Url`; `Data` is always `"This is data"` |
| `Messages.FromWebhookKeepsIdentity` | src/Consumer/Messages/SendRequest.cs:10-12 | two webhook commands give the same request if and only if they are the same command: no field is lost |
| `CommandActorFactory.GetHandler` | src/Consumer/Factories/CommandActorFactory.cs:17-26 | routing succeeds exactly for webhook commands; the name is `Dispatcher_` followed by the command id; any other command fails with "not supported" for its class |
| `CommandActorFactory.SameHandlerIffSameId` | src/Consumer/Factories/CommandActorFactory.cs:22 | two webhook commands with non-null ids share a dispatcher if and only if their command ids are equal |
| `DispatcherActor.Acknowledgement` | src/Consumer/Actors/Dispatcher.cs:46-51 | the delete message carries the request's message id and receipt handle |
| `DispatcherActor.Step` | src/Consumer/Actors/Dispatcher.cs:25-61 | `Started` arms a 5 s receive timeout. A `SendRequest` posts to the request's URL and then emits exactly one delete, for this request, if the POST returned; if the POST threw, the second effect is the crash and nothing is deleted. `ReceiveTimeout` stops the actor and is the only way to stop it. Any other message changes nothing. A stopped actor does nothing |
| `DispatcherActor.StatusCodeIgnored` | src/Consumer/Actors/Dispatcher.cs:41-51 | the step after a POST is the same whatever status code came back |
| `DispatcherActor.AcknowledgesTheCommand` | src/Consumer/Actors/Dispatcher.cs:44-51 | dispatching a webhook command deletes exactly that command's message, by its id and receipt handle |
| `DispatcherActor.StoppedIsFinal` | src/Consumer/Actors/Dispatcher.cs:55-58 | once stopped, no sequence of messages has any effect |
| `DispatcherActor.RunAcknowledgesEachCompletedRequest` | src/Consumer/Actors/Dispatcher.cs:35-53 | over any run, the deletes emitted are exactly one per request whose POST returned before the actor stopped, in order |
| `DispatcherActor.TimeoutStops` | src/Consumer/Actors/Dispatcher.cs:55-58 | a run that ends in a receive timeout leaves the actor stopped |
| `DequeuerActor.Transition` | src/Consumer/Actors/Dequeuer.cs:36-74 | every receive begins with exactly one fetch of the requested size, is followed by at least one more effect, and fetches nothing else; a failed receive is exactly the fetch followed by raising the receive's exception; a message the handler has no case for does nothing. The lemmas below state the rest: `Started` polls, an empty batch backs off, a full batch is routed and polls again, `BackOff` waits and polls |
| `DequeuerActor.RoutablePrefix` | src/Consumer/Actors/Dequeuer.cs:51-55 | counts the leading commands that have a handler; the next command, if any, has none |
| `DequeuerActor.RouteAll` | src/Consumer/Actors/Dequeuer.cs:51-56 | routing a batch emits at most one effect per command, at least one for a non-empty batch, and only tells to handlers and raised errors: never a self-message or a fetch |
| `DequeuerActor.RouteAllRoutesThePrefix` | src/Consumer/Actors/Dequeuer.cs:51-56 | each leading routable command, in order, is told, after mapping, to its handler. The first command without a handler raises the router's error and ends the loop |
| `DequeuerActor.RouteBatch` | src/Consumer/Actors/Dequeuer.cs:51-56 | the `foreach` loop emits exactly what `RouteAll` specifies, and reports whether it ran to the end, which happens if and only if every command has a handler |
| `DequeuerActor.Receive` | src/Consumer/Actors/Dequeuer.cs:36-74 | the handler emits exactly the outbox of the transition function |
| `DequeuerActor.OnePollOutstanding` | src/Consumer/Actors/Dequeuer.cs:40-72 | every step that does not halt sends itself exactly one message: a back-off after an empty batch, a poll otherwise. A step that halts sends none |
| `DequeuerActor.NonEmptyBatchRoutesEveryCommand` | src/Consumer/Actors/Dequeuer.cs:48-58 | a non-empty batch of webhooks does these things in order: one fetch of `NumberOfMessages`; every command, in receipt order, told to `Dispatcher_<CommandId>`; then exactly one poll. There is no back-off |
| `DequeuerActor.UnsupportedCommandEndsTheStep` | src/Consumer/Actors/Dequeuer.cs:51-58 | the commands before the first one without a handler are dispatched. The step raises "not supported". Later commands and the next poll are not sent |
| `DequeuerActor.EmptyBatchBacksOff` | src/Consumer/Actors/Dequeuer.cs:60-63 | an empty batch tells no handler and sends exactly one back-off |
| `DequeuerActor.StartAndBackOffPoll` | src/Consumer/Actors/Dequeuer.cs:40-71 | `Started` sends exactly one poll; `BackOff` waits its own delay, then sends exactly one poll |
| `SqsClient.ChangeMessageVisibilityAsWritten` | src/Queueing/SQSClient.cs:37-53 | as written: a valid handle with a timeout of 0 or less fails with an out-of-range error whose parameter name is the message text |
| `SqsClient.AsWrittenMisnamesParameter` | src/Queueing/SQSClient.cs:42-43 | for handle `"handle"` and timeout 0, the error's parameter name is not `timeoutInSeconds` |
| `SqsClient.ChangeMessageVisibility` | src/Queueing/SQSClient.cs:37-53 | succeeds if and only if the handle is neither null nor empty and the timeout is positive. A bad handle is reported first, as a null argument. A bad timeout is reported as out of range for `timeoutInSeconds`. The request carries the queue URL, handle and timeout unchanged |
| `SqsClient.CorrectionOnlySwapsArguments` | src/Queueing/SQSClient.cs:42-43 | the corrected and as-written versions agree on every input, except that the out-of-range error's two fields are swapped |
| `SqsClient.DeleteMessage` | src/Queueing/SQSClient.cs:55-67 | succeeds if and only if the handle is neither null nor empty, and otherwise fails as a null `receiptHandle`; the request carries the queue URL and the handle |
| `SqsClient.BatchEntries` | src/Queueing/SQSClient.cs:74-78 | one entry per handle, in order, whose id and receipt handle are both that handle |
| `SqsClient.EntryIdsRoundTrip` | src/Queueing/SQSClient.cs:74-78 | reading the ids back from the entries gives the handles |
| `SqsClient.DeleteMessageBatchRequest` | src/Queueing/SQSClient.cs:71-80 | fails if and only if the list is null, as a null `receiptHandles`; otherwise the request names the queue and its entry ids are the handles |
| `SqsClient.DeleteMessageBatchResult` | src/Queueing/SQSClient.cs:81 | a null response gives no successes, with every handle failed; otherwise the successes and failures are the ids the response lists |
| `SqsClient.DeleteMessageBatch` | src/Queueing/SQSClient.cs:69-82 | a null list is rejected. Otherwise the call succeeds if and only if the service answers the request for those handles, and a success is the result mapping of that answer; an exception from the service comes back unchanged |
| `SqsClient.ReportedSuccessesWereRequested` | src/Queueing/SQSClient.cs:74-81 | if the service reports only ids it was sent, every handle reported successful was among those given |
| `SqsClient.ReceiveRequestFor` | src/Queueing/SQSClient.cs:111-117 | the request names the queue, asks for the given number of messages with the configured visibility timeout, and asks for the `MessageType` attribute |
| `SqsClient.SingleReceiveRequest` | src/Queueing/SQSClient.cs:86-92 | the single receive names the queue, asks for at most one message with the configured visibility timeout, and asks for the `MessageType` attribute |
| `SqsClient.FoldCase` | src/Queueing/SQSClient.cs:128 | upper-case ASCII letters map to their lower-case letter; every other character is unchanged |
| `SqsClient.ResolveType` | src/Queueing/SQSClient.cs:127-130 | the result is a registered class whose full name matches the attribute ignoring case. Resolution fails, as "type not found" for that value, exactly when no registered class matches |
| `SqsClient.ResolveTypeIsFirstMatch` | src/Queueing/SQSClient.cs:128 | `FirstOrDefault`: a registered class that matches, with no class registered before it matching, is the one resolved |
| `SqsClient.OwnNameResolves` | src/Queueing/SQSClient.cs:128 | a message naming a registered class, in any ASCII case, resolves to that class |
| `SqsClient.Deserialize` | src/Queueing/SQSClient.cs:132 | the fields read from the body fill an instance of the resolved class: its command id, and its URL or e-mail address |
| `SqsClient.DecodeMessage` | src/Queueing/SQSClient.cs:127-133 | a message decodes if and only if its class resolves and its body reads as a non-null instance. An unresolved class fails as "type not found" before the body is read; an unreadable body fails with the reader's exception; a null instance fails with a null reference. The command has the resolved class, the body's command id and URL or e-mail address, and the message's receipt handle |
| `SqsClient.DecodeEach` | src/Queueing/SQSClient.cs:124-137 | decoding a batch item by item gives, on success, one result per item |
| `SqsClient.DecodeEachAt` | src/Queueing/SQSClient.cs:125-135 | a successful batch holds at position `i` what item `i` decodes to, and item `i` decoded successfully |
| `SqsClient.DecodeEachSucceeds` | src/Queueing/SQSClient.cs:125-135 | when every item decodes, the batch succeeds |
| `SqsClient.DecodeEachFailsAtFirst` | src/Queueing/SQSClient.cs:128-130 | when item `k` is the first that fails, the batch fails with its error |
| `SqsClient.Prepend` | src/Queueing/SQSClient.cs:126-135 | putting decoded commands in front of a remainder keeps its success or failure, and on success concatenates |
| `SqsClient.PrependTwice` | src/Queueing/SQSClient.cs:126-135 | adding commands to the list one after another is the same as adding them together |
| `SqsClient.DecodeAll` | src/Queueing/SQSClient.cs:124-137 | a successful batch mapping has one command per message |
| `SqsClient.DecodeAllSucceedsWhenDecodable` | src/Queueing/SQSClient.cs:125-135 | if every message decodes (its class resolves and its body reads as a non-null instance), the batch succeeds |
| `SqsClient.DecodeAllAt` | src/Queueing/SQSClient.cs:125-135 | in a successful batch, every message decoded, and position `i` holds the command decoded from message `i`, carrying that message's receipt handle |
| `SqsClient.DecodeAllFailsAtFirst` | src/Queueing/SQSClient.cs:128-130 | if message `k` is the first that does not decode, the whole batch fails with that message's error and returns no commands |
| `SqsClient.ReceiveMessageBatch` | src/Queueing/SQSClient.cs:119-137 | no answer or no messages gives an empty batch; otherwise the `foreach` loop returns exactly the batch mapping of the messages |
| `SqsClient.ReceiveMessage` | src/Queueing/SQSClient.cs:94-106 | no answer or no messages gives null. Otherwise the result succeeds if and only if the first message decodes; a success is that message's command, carrying its receipt handle, and a failure is its decoding error |
| `SqsClient.SingleReceiveIsBatchOfFirst` | src/Queueing/SQSClient.cs:94-137 | on any non-empty answer, the single receive gives the same command, or the same error, as the batch receive of the answer's first message |
| `SqsClient.SingleReceiveIsFirstOfBatch` | src/Queueing/SQSClient.cs:95-106 | on the same answer, the single receive returns the first command of the batch receive |
| `DeleterActor.RemoveFirst` | src/Consumer/Actors/Deleter.cs:71 | `List.Remove`: a present handle loses exactly one occurrence and the list shrinks by one; an absent handle leaves the list unchanged |
| `DeleterActor.FirstIndex` | src/Consumer/Actors/Deleter.cs:71 | the position of a present handle's first occurrence: the handle is there and at no earlier position |
| `DeleterActor.RemoveFirstDropsFirstOccurrence` | src/Consumer/Actors/Deleter.cs:71 | `List.Remove` drops the first occurrence: the result is the list without position `FirstIndex`, everything before and after it kept in order |
| `DeleterActor.RemoveAll` | src/Consumer/Actors/Deleter.cs:69-72 | removing the reported ids one at a time leaves the multiset difference of the list and the reported ids |
| `DeleterActor.Unconfirmed` | src/Consumer/Actors/Deleter.cs:69-72 | the reference result: a handle is kept if and only if it is pending and not reported |
| `DeleterActor.SendChunks` | src/Consumer/Actors/Deleter.cs:54-60 | the chunks are sent in order, stopping at the first call that throws, whose exception is returned. When none throws, every chunk was sent and the successes gathered are all those reported, in call order |
| `DeleterActor.Deleter.constructor` | src/Consumer/Actors/Deleter.cs:21 | the pending list starts empty |
| `DeleterActor.Deleter.AddToBatch` | src/Consumer/Actors/Deleter.cs:74-77 | the handle is appended at the end; earlier entries are unchanged |
| `DeleterActor.Deleter.RemoveFromBatch` | src/Consumer/Actors/Deleter.cs:69-72 | the loop of `Remove` calls leaves the list that `RemoveAll` specifies |
| `DeleterActor.Deleter.FlushBatch` | src/Consumer/Actors/Deleter.cs:50-65 | an empty list makes no call and stays as it is. Otherwise the list's chunks of ten are sent in order up to the first throw, and a throw leaves the list unchanged. When every call returns, the list loses one occurrence of each reported id, and only after the last chunk |
| `DeleterActor.Deleter.Receive` | src/Consumer/Actors/Deleter.cs:29-67 | `Started` schedules the tick (first after 1 s, then every 2 s) and leaves the list alone; `DeleteMessage` appends its handle; the tick flushes as above; any other message changes nothing |
| `DeleterActor.RemoveAllKeepsOrder` | src/Consumer/Actors/Deleter.cs:69-72 | the handles that stay keep their original relative order |
| `DeleterActor.RemoveAllRemovesExactlyConfirmed` | src/Consumer/Actors/Deleter.cs:62 | exactly the handles both pending and reported leave the list, none that was not reported; the list shrinks by the number of reported ids that were present |
| `DeleterActor.UnknownIdsAreNoOps` | src/Consumer/Actors/Deleter.cs:71 | reported ids that are not pending change nothing |
| `DeleterActor.DistinctHandlesKeepExactlyUnconfirmed` | src/Consumer/Actors/Deleter.cs:69-72 | when the pending handles are distinct, a flush leaves exactly the unreported handles, in their order |
| `DeleterActor.ConfirmingEverythingEmpties` | src/Consumer/Actors/Deleter.cs:69-72 | when every pending handle is reported, the list becomes empty |
| `DeleterActor.FlushRemovesOnlyConfirmed` | src/Consumer/Actors/Deleter.cs:54-62 | at least once: a flush removes only handles its own calls reported deleted. The list never grows, and the remaining handles keep their order. A flush that threw, or that made no call, changes nothing |
| `DeleterActor.FlushSendsBoundedChunks` | src/Consumer/Actors/Deleter.cs:56-58 | every chunk sent holds 1 to 10 handles; the chunks sent, in order, are a prefix of the list, and all of it when the flush completes |

## Left out

- Process start-up: `Program.cs` and `AppRegistry.cs` are not part of this model. They hold configuration, logging, dependency injection and AWS client construction.
- The actor runtime is not modelled: mailboxes, message delivery, supervision and restarts after an exception. A thrown exception is an effect in the model: `Raise` in the Dequeuer, `Crash` in the Dispatcher, `Aborted` in the Deleter. What the supervisor does next is not modelled.
- Timers and delays are not modelled. The Deleter's scheduler becomes a `TickSchedule` value (1 s, 2 s). The Dequeuer's `Task.Delay` becomes a `Wait` effect, and the Dispatcher's receive timeout a `SetReceiveTimeout(5)` effect. The ticks and timeouts themselves arrive as ordinary messages.
- Concurrency between actors is not modelled. Each actor is a sequential handler, since the runtime delivers one message at a time.
- The HTTP POST and its hard-coded JSON payload (`GetJsonData`) are left out. The POST's outcome is a parameter: a status code, or a throw.
- The AWS SDK is left out. Its answers are parameters: the batch-delete backend, the service's delete response and the list of received messages.
- `JsonConvert` is a function parameter from body text to the fields it sets, to null, or to the exception it throws. Which exception it throws, and on which bodies, is not modelled. The message mapper (`IMessageMapper.Map`) is a function parameter too.
- `SqsClient.Deserialize`: the fields read from a body are never null in the model, but `JsonConvert` leaves a property that is missing or `null` in the body as a null string. A null `CommandId` is formatted as empty text, so it routes to `Dispatcher_` just as an empty id does. A null `Url` makes the POST throw, which the model can express only as a `Threw` outcome.
- `SendMessageBatchAsync` is left out. It is not used by the core, and it depends on fresh GUIDs and JSON serialisation.
- `FoldCase`: models ASCII case folding only, because the full Unicode `OrdinalIgnoreCase` table is outside the model.
- `DequeuerActor.Receive`: the default `NumberOfMessages` and `DelayInSeconds` of a new `ReceiveMessages` or `BackOff` are parameters. Those message classes are not part of this model.
- `SqsClient.ReceiveMessage`: a message's type is the value of its first message attribute, taken as `None` when that is null. Attributes are not modelled as a dictionary.
- `SqsClient.DeleteMessageBatchResult`: a non-null response whose `Successful` or `Failed` list is itself null is not modelled (the source would throw).
- `DeleterActor.Deleter.FlushBatch`: the batch-delete call is a function of the chunk, so two calls with equal chunks get the same answer. The Deleter calls its client as `DeleteCommandBatchAsync` and reads `.Successful`. The model treats this as the client's batch delete with its successful list.
- The constructors' null-argument checks on injected services are left out. Those services are not values in the model.

## Findings

| source | as written | input that shows it | evidently intended | confidence | as-written member | corrected member |
|---|---|---|---|---|---|---|
| src/Queueing/SQSClient.cs:43 | the out-of-range exception gets the message text as its first argument and the parameter name as its second, but that constructor takes the parameter name first | receipt handle `"handle"` with `timeoutInSeconds` 0: the error names `"Parameter cannot be lower or equal to 0."` as the parameter | the error names `timeoutInSeconds` as the parameter, with the text as its message | high, not executed | `SqsClient.AsWrittenMisnamesParameter` | `SqsClient.ChangeMessageVisibility` |
