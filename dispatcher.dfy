/**
 * The dispatch task (`Dispatcher`): one actor per webhook command. Its steps
 * are pure: each incoming message gives the next lifecycle state and the
 * effects the step performs, in order. The POST itself is an effect whose
 * outcome is an input of the step.
 */
module DispatcherActor {

  import opened Messages

  /** The receive timeout armed when the actor starts, in seconds. */
  const ReceiveTimeoutSeconds := 5

  datatype State = Alive | Stopped

  datatype Message =
    | Started
    | Send(request: SendRequest)
    | ReceiveTimeout
    /** Any message the handler has no case for. */
    | Other

  /** What the awaited POST did: it completed with some status code, or it threw. */
  datatype PostOutcome = Responded(statusCode: int) | Threw

  datatype Effect =
    | SetReceiveTimeout(seconds: nat)
    | Post(url: string)
    | TellDeleter(delete: DeleteMessage)
    | StopSelf
    /** The handler ended with the exception the POST threw. */
    | Crash

  datatype Transition = Transition(next: State, effects: seq<Effect>)

  /** The `DeleteMessage` that acknowledges a request: its id and receipt handle. */
  function Acknowledgement(request: SendRequest): (d: DeleteMessage)
    ensures d.messageId == request.messageId && d.receiptHandle == request.receiptHandle
  {
    DeleteMessage(request.messageId, request.receiptHandle)
  }

  function DeleteOf(e: Effect): seq<DeleteMessage> {
    if e.TellDeleter? then [e.delete] else []
  }

  /** The `DeleteMessage`s among some effects, in order. */
  function Deletes(effects: seq<Effect>): seq<DeleteMessage> {
    if effects == [] then [] else DeleteOf(effects[0]) + Deletes(effects[1..])
  }

  lemma {:induction false} DeletesAppend(a: seq<Effect>, b: seq<Effect>)
    ensures Deletes(a + b) == Deletes(a) + Deletes(b)
    decreases |a|
  {
    if a == [] {
      assert a + b == b;
    } else {
      assert (a + b)[0] == a[0] && (a + b)[1..] == a[1..] + b;
      DeletesAppend(a[1..], b);
      assert Deletes(a + b) == DeleteOf(a[0]) + Deletes(a[1..] + b);
    }
  }

  /**
   * One message. `Started` arms the 5 s receive timeout; a request is POSTed
   * to its URL and then acknowledged to the deleter with one `DeleteMessage`,
   * whatever the status code, unless the POST throws; the receive timeout
   * stops the actor; any other message does nothing. A stopped actor takes no
   * more steps.
   */
  function Step(state: State, msg: Message, post: PostOutcome): (t: Transition)
    ensures state.Stopped? ==> t == Transition(Stopped, [])
    ensures t.next.Stopped? <==> state.Stopped? || msg.ReceiveTimeout?
    ensures Deletes(t.effects) == if state.Alive? && msg.Send? && post.Responded? then [Acknowledgement(msg.request)] else []
    ensures state.Alive? && msg.Send? ==> |t.effects| == 2 && t.effects[0] == Post(msg.request.url)
    ensures state.Alive? && msg.Send? && post.Threw? ==> t.effects[1] == Crash
    ensures state.Alive? && msg.Started? ==> t.effects == [SetReceiveTimeout(ReceiveTimeoutSeconds)]
    ensures state.Alive? && msg.ReceiveTimeout? ==> t.effects == [StopSelf]
    ensures msg.Other? ==> t == Transition(state, [])
  {
    match state
    case Stopped => Transition(Stopped, [])
    case Alive =>
      match msg
      case Started => Transition(Alive, [SetReceiveTimeout(ReceiveTimeoutSeconds)])
      case Send(request) =>
        var effects := [Post(request.url), if post.Threw? then Crash else TellDeleter(Acknowledgement(request))];
        assert effects[1..][1..] == [];
        assert Deletes(effects) == DeleteOf(effects[1]) + Deletes(effects[1..][1..]);
        Transition(Alive, effects)
      case ReceiveTimeout => Transition(Stopped, [StopSelf])
      case Other => Transition(Alive, [])
  }

  /** The status code of the response is never read: any two completed POSTs lead to the same step. */
  lemma StatusCodeIgnored(state: State, request: SendRequest, a: int, b: int)
    ensures Step(state, Send(request), Responded(a)) == Step(state, Send(request), Responded(b))
  {
  }

  /** The request built from a webhook command is acknowledged with that command's id and receipt handle. */
  lemma AcknowledgesTheCommand(w: Models.WebhookCommand, status: int)
    ensures Step(Alive, Send(FromWebhook(w)), Responded(status)).effects
            == [Post(w.url), TellDeleter(DeleteMessage(w.commandId, w.receiptHandle))]
  {
  }

  /** One incoming message and, when it is a request, the outcome of its POST. */
  datatype Event = Event(message: Message, post: PostOutcome)

  /** The actor's life over a sequence of events: the final state and every effect, in order. */
  function Run(state: State, events: seq<Event>): (t: Transition)
    decreases |events|
  {
    if events == [] then Transition(state, [])
    else
      var first := Step(state, events[0].message, events[0].post);
      var rest := Run(first.next, events[1..]);
      Transition(rest.next, first.effects + rest.effects)
  }

  /** The acknowledgements owed for some events: one per request whose POST completed, up to the first receive timeout. */
  function Acknowledged(events: seq<Event>): seq<DeleteMessage> {
    if events == [] then []
    else
      match events[0].message
      case ReceiveTimeout => []
      case Send(request) =>
        (if events[0].post.Responded? then [Acknowledgement(request)] else []) + Acknowledged(events[1..])
      case _ => Acknowledged(events[1..])
  }

  /** Once stopped, the actor does nothing more. */
  lemma {:induction false} StoppedIsFinal(events: seq<Event>)
    ensures Run(Stopped, events) == Transition(Stopped, [])
    decreases |events|
  {
    if events != [] {
      StoppedIsFinal(events[1..]);
    }
  }

  /**
   * Over a whole life, the deleter is told exactly the acknowledgements owed:
   * one per completed request before the timeout, in order, none after.
   */
  lemma {:induction false} RunAcknowledgesEachCompletedRequest(events: seq<Event>)
    ensures Deletes(Run(Alive, events).effects) == Acknowledged(events)
    decreases |events|
  {
    if events != [] {
      var first := Step(Alive, events[0].message, events[0].post);
      var rest := Run(first.next, events[1..]);
      DeletesAppend(first.effects, rest.effects);
      if events[0].message.ReceiveTimeout? {
        StoppedIsFinal(events[1..]);
      } else {
        RunAcknowledgesEachCompletedRequest(events[1..]);
      }
    }
  }

  /** A life that ends in the receive timeout leaves the actor stopped, whatever came before. */
  lemma {:induction false} TimeoutStops(events: seq<Event>, post: PostOutcome)
    ensures Run(Alive, events + [Event(ReceiveTimeout, post)]).next == Stopped
    decreases |events|
  {
    if events == [] {
      assert events + [Event(ReceiveTimeout, post)] == [Event(ReceiveTimeout, post)];
    } else {
      assert (events + [Event(ReceiveTimeout, post)])[1..] == events[1..] + [Event(ReceiveTimeout, post)];
      var first := Step(Alive, events[0].message, events[0].post);
      if first.next.Stopped? {
        StoppedIsFinal(events[1..] + [Event(ReceiveTimeout, post)]);
      } else {
        TimeoutStops(events[1..], post);
      }
    }
  }
}
