/**
 * The poller (`Dequeuer`): an actor that messages itself. Each step takes
 * the incoming message and, for a receive, the queue client's answer, and
 * produces an ordered outbox of effects.
 */
module DequeuerActor {

  import opened Wrappers
  import opened Models
  import CommandActorFactory

  /**
   * The field values of a freshly built `ReceiveMessages` and `BackOff`
   * (their classes are not part of this model, so the values are parameters).
   */
  datatype Defaults = Defaults(numberOfMessages: int, delayInSeconds: int)

  datatype Message =
    | Started
    | ReceiveMessages(numberOfMessages: int)
    | BackOff(delayInSeconds: int)
    /** Any message the handler has no case for. */
    | Other

  /** The effects of a step; `M` is the type of what the message mapper produces. */
  datatype Effect<M> =
    /** Ask the queue client for a batch of at most this many messages. */
    | Fetch(maxNumberOfMessages: int)
    | Wait(seconds: int)
    | Tell(handler: string, payload: M)
    | TellSelf(next: Message)
    /** The step ends with this exception. */
    | Raise(fault: Fault)

  predicate Routable(c: Command) {
    CommandActorFactory.GetHandler(c).Success?
  }

  function HandlerOf(c: Command): string
    requires Routable(c)
  {
    CommandActorFactory.GetHandler(c).value
  }

  /** The number of leading commands that have a handler. */
  function RoutablePrefix(commands: seq<Command>): (k: nat)
    ensures k <= |commands|
    ensures forall i :: 0 <= i < k ==> Routable(commands[i])
    ensures k < |commands| ==> !Routable(commands[k])
  {
    if commands == [] || !Routable(commands[0]) then 0
    else
      var k := RoutablePrefix(commands[1..]);
      assert forall i :: 1 <= i < k + 1 ==> commands[i] == commands[1..][i - 1];
      k + 1
  }

  /**
   * The `foreach` over a batch: every command, in order, is told to its
   * handler after mapping, until one has no handler; that one raises the
   * router's error and the rest are not dispatched.
   */
  function RouteAll<M>(commands: seq<Command>, mapper: Command -> M): (effects: seq<Effect<M>>)
    ensures |effects| <= |commands| && (commands != [] ==> |effects| >= 1)
    ensures forall i :: 0 <= i < |effects| ==> effects[i].Tell? || effects[i].Raise?
  {
    if commands == [] then []
    else
      match CommandActorFactory.GetHandler(commands[0])
      case Failure(e) => [Raise(e)]
      case Success(h) => [Tell(h, mapper(commands[0]))] + RouteAll(commands[1..], mapper)
  }

  /** Within the leading routable run, a command has a handler exactly when the run goes past it. */
  lemma RoutablePrefixAt(commands: seq<Command>, i: nat)
    requires i < |commands| && i <= RoutablePrefix(commands)
    ensures Routable(commands[i]) <==> i < RoutablePrefix(commands)
  {
    var k := RoutablePrefix(commands);
    if i == k {
      assert !Routable(commands[k]);
    } else {
      assert Routable(commands[i]);
    }
  }

  /**
   * What the loop emits: each leading command that has a handler, in order,
   * told to it after mapping; then, if a command has none, that command's
   * "not supported" error, and nothing after it.
   */
  lemma {:induction false} RouteAllRoutesThePrefix<M>(commands: seq<Command>, mapper: Command -> M)
    ensures var k := RoutablePrefix(commands);
            var effects := RouteAll(commands, mapper);
            && |effects| == (if k < |commands| then k + 1 else k)
            && (forall i :: 0 <= i < k ==> effects[i] == Tell(HandlerOf(commands[i]), mapper(commands[i])))
            && (k < |commands| ==> effects[k] == Raise(CommandNotSupported(commands[k].Kind())))
    decreases |commands|
  {
    if commands != [] && Routable(commands[0]) {
      var tail := commands[1..];
      RouteAllRoutesThePrefix(tail, mapper);
      assert forall i :: 1 <= i < |commands| ==> commands[i] == tail[i - 1];
    }
  }

  /**
   * One step. `Started` polls; a receive fetches up to its
   * `NumberOfMessages`: a failed receive raises, an empty batch backs off,
   * a non-empty batch is routed and, if every command had a handler, polls
   * again at once; `BackOff` waits its delay and then polls.
   */
  function Transition<M>(defaults: Defaults, msg: Message, received: Result<seq<Command>, Fault>,
                         mapper: Command -> M): (effects: seq<Effect<M>>)
    ensures msg.ReceiveMessages? ==> |effects| >= 2 && effects[0] == Fetch(msg.numberOfMessages)
                                     && forall i :: 1 <= i < |effects| ==> !effects[i].Fetch?
    ensures msg.ReceiveMessages? && received.Failure? ==> effects == [Fetch(msg.numberOfMessages), Raise(received.error)]
    ensures msg.Other? ==> effects == []
  {
    match msg
    case Started => [TellSelf(ReceiveMessages(defaults.numberOfMessages))]
    case ReceiveMessages(n) =>
      (match received
       case Failure(f) => [Fetch(n), Raise(f)]
       case Success(commands) =>
         if |commands| > 0 then
           [Fetch(n)] + RouteAll(commands, mapper)
           + (if RoutablePrefix(commands) == |commands| then [TellSelf(ReceiveMessages(defaults.numberOfMessages))] else [])
         else [Fetch(n), TellSelf(BackOff(defaults.delayInSeconds))])
    case BackOff(d) => [Wait(d), TellSelf(ReceiveMessages(defaults.numberOfMessages))]
    case Other => []
  }

  /**
   * The `foreach` over a non-empty batch: tells each command, mapped, to its
   * handler until one has no handler, which raises. `complete` says whether
   * the loop ran to the end.
   */
  method RouteBatch<M>(commands: seq<Command>, mapper: Command -> M) returns (routed: seq<Effect<M>>, complete: bool)
    ensures routed == RouteAll(commands, mapper)
    ensures complete <==> RoutablePrefix(commands) == |commands|
  {
    routed := [];
    var i := 0;
    assert commands[i..] == commands;
    while i < |commands|
      invariant 0 <= i <= RoutablePrefix(commands)
      invariant routed + RouteAll(commands[i..], mapper) == RouteAll(commands, mapper)
    {
      ghost var rest := commands[i..];
      assert rest[0] == commands[i] && rest[1..] == commands[i + 1..];
      RoutablePrefixAt(commands, i);
      var handler := CommandActorFactory.GetHandler(commands[i]);
      if handler.Failure? {
        assert RouteAll(rest, mapper) == [Raise(handler.error)];
        routed := routed + [Raise(handler.error)];
        return routed, false;
      }
      var told := Tell(handler.value, mapper(commands[i]));
      assert RouteAll(rest, mapper) == [told] + RouteAll(commands[i + 1..], mapper);
      assert (routed + [told]) + RouteAll(commands[i + 1..], mapper) == routed + RouteAll(rest, mapper);
      routed := routed + [told];
      i := i + 1;
    }
    assert commands[i..] == [];
    complete := true;
  }

  /** The handler of `Dequeuer`. */
  method Receive<M>(defaults: Defaults, msg: Message, received: Result<seq<Command>, Fault>, mapper: Command -> M)
    returns (outbox: seq<Effect<M>>)
    ensures outbox == Transition(defaults, msg, received, mapper)
  {
    match msg
    case Started =>
      outbox := [TellSelf(ReceiveMessages(defaults.numberOfMessages))];
    case ReceiveMessages(n) =>
      outbox := [Fetch(n)];
      if received.Failure? {
        outbox := outbox + [Raise(received.error)];
        return;
      }
      var commands := received.value;
      if |commands| > 0 {
        var routed, complete := RouteBatch(commands, mapper);
        outbox := outbox + routed;
        if complete {
          outbox := outbox + [TellSelf(ReceiveMessages(defaults.numberOfMessages))];
        }
      } else {
        outbox := outbox + [TellSelf(BackOff(defaults.delayInSeconds))];
      }
    case BackOff(d) =>
      outbox := [Wait(d), TellSelf(ReceiveMessages(defaults.numberOfMessages))];
    case Other =>
      outbox := [];
  }

  /** The self-messages among some effects, in order. */
  function SelfMessages<M>(effects: seq<Effect<M>>): seq<Message> {
    if effects == [] then []
    else (if effects[0].TellSelf? then [effects[0].next] else []) + SelfMessages(effects[1..])
  }

  lemma {:induction false} NoSelfMessages<M>(effects: seq<Effect<M>>)
    requires forall i :: 0 <= i < |effects| ==> !effects[i].TellSelf?
    ensures SelfMessages(effects) == []
    decreases |effects|
  {
    if effects != [] {
      NoSelfMessages(effects[1..]);
    }
  }

  lemma {:induction false} SelfMessagesAppend<M>(a: seq<Effect<M>>, b: seq<Effect<M>>)
    ensures SelfMessages(a + b) == SelfMessages(a) + SelfMessages(b)
    decreases |a|
  {
    if a == [] {
      assert a + b == b;
    } else {
      assert (a + b)[0] == a[0] && (a + b)[1..] == a[1..] + b;
      SelfMessagesAppend(a[1..], b);
    }
  }

  /** The step ends without a next poll: an unknown message, a failed receive, or a command without a handler. */
  predicate Halts(msg: Message, received: Result<seq<Command>, Fault>) {
    || msg.Other?
    || (msg.ReceiveMessages? && received.Failure?)
    || (msg.ReceiveMessages? && received.Success? && RoutablePrefix(received.value) < |received.value|)
  }

  /**
   * Every step sends itself exactly one message (a poll, or a back-off after
   * an empty batch) unless it halts, and then none: at most one poll step is
   * ever pending.
   */
  lemma OnePollOutstanding<M>(defaults: Defaults, msg: Message, received: Result<seq<Command>, Fault>, mapper: Command -> M)
    ensures var next := SelfMessages(Transition(defaults, msg, received, mapper));
            && (Halts(msg, received) ==> next == [])
            && (!Halts(msg, received) && msg.ReceiveMessages? && received.value == [] ==>
                  next == [BackOff(defaults.delayInSeconds)])
            && (!Halts(msg, received) && !(msg.ReceiveMessages? && received.value == []) ==>
                  next == [ReceiveMessages(defaults.numberOfMessages)])
  {
    match msg
    case ReceiveMessages(n) =>
      if received.Failure? {
        SelfMessagesPair<M>(Fetch(n), Raise(received.error));
      } else if received.value == [] {
        SelfMessagesPair<M>(Fetch(n), TellSelf(BackOff(defaults.delayInSeconds)));
      } else {
        var commands := received.value;
        var routed := RouteAll(commands, mapper);
        var tail: seq<Effect<M>> := if RoutablePrefix(commands) == |commands| then [TellSelf(ReceiveMessages(defaults.numberOfMessages))] else [];
        NoSelfMessages(routed);
        SelfMessagesAppend([Fetch(n)], routed);
        SelfMessagesAppend([Fetch(n)] + routed, tail);
        SelfMessagesSingle<M>(Fetch(n));
        if tail != [] {
          SelfMessagesSingle(tail[0]);
        }
      }
    case Started =>
      SelfMessagesSingle<M>(TellSelf(ReceiveMessages(defaults.numberOfMessages)));
    case BackOff(d) =>
      SelfMessagesPair<M>(Wait(d), TellSelf(ReceiveMessages(defaults.numberOfMessages)));
    case Other =>
  }

  lemma SelfMessagesSingle<M>(e: Effect<M>)
    ensures SelfMessages([e]) == if e.TellSelf? then [e.next] else []
  {
    assert [e][1..] == [];
  }

  lemma SelfMessagesPair<M>(a: Effect<M>, b: Effect<M>)
    ensures SelfMessages([a, b]) == (if a.TellSelf? then [a.next] else []) + (if b.TellSelf? then [b.next] else [])
  {
    assert [a, b][1..] == [b];
    SelfMessagesSingle(b);
  }

  /**
   * A non-empty batch whose commands all have handlers: one fetch of the
   * requested size, then each command in receipt order told, mapped, to its
   * dispatcher, then exactly one poll and no back-off.
   */
  lemma NonEmptyBatchRoutesEveryCommand<M>(defaults: Defaults, n: int, commands: seq<Command>, mapper: Command -> M)
    requires |commands| > 0
    requires forall i :: 0 <= i < |commands| ==> commands[i].Webhook?
    ensures var effects := Transition(defaults, ReceiveMessages(n), Success(commands), mapper);
            && |effects| == |commands| + 2
            && effects[0] == Fetch(n)
            && (forall i :: 0 <= i < |commands| ==>
                  effects[i + 1] == Tell(CommandActorFactory.DispatcherPrefix + commands[i].CommandId(), mapper(commands[i])))
            && effects[|commands| + 1] == TellSelf(ReceiveMessages(defaults.numberOfMessages))
            && forall i :: 0 <= i < |effects| ==> effects[i] != TellSelf(BackOff(defaults.delayInSeconds))
  {
    var k := RoutablePrefix(commands);
    assert forall i :: 0 <= i < |commands| ==> Routable(commands[i]);
    assert k == |commands|;
    var routed := RouteAll(commands, mapper);
    RouteAllRoutesThePrefix(commands, mapper);
    var effects := Transition(defaults, ReceiveMessages(n), Success(commands), mapper);
    assert effects == [Fetch(n)] + routed + [TellSelf(ReceiveMessages(defaults.numberOfMessages))];
    forall i | 0 <= i < |commands|
      ensures effects[i + 1] == Tell(CommandActorFactory.DispatcherPrefix + commands[i].CommandId(), mapper(commands[i]))
    {
      assert effects[i + 1] == routed[i];
      var name := HandlerOf(commands[i]);
      assert name == CommandActorFactory.DispatcherPrefix + name[|CommandActorFactory.DispatcherPrefix|..];
    }
  }

  /**
   * A batch whose command at position `k` is the first without a handler:
   * the commands before it are told, the step raises the router's error, and
   * neither the later commands nor a next poll are sent.
   */
  lemma UnsupportedCommandEndsTheStep<M>(defaults: Defaults, n: int, commands: seq<Command>, mapper: Command -> M, k: nat)
    requires k < |commands| && !commands[k].Webhook?
    requires forall i :: 0 <= i < k ==> commands[i].Webhook?
    ensures var effects := Transition(defaults, ReceiveMessages(n), Success(commands), mapper);
            && |effects| == k + 2
            && (forall i :: 0 <= i < k ==> effects[i + 1] == Tell(HandlerOf(commands[i]), mapper(commands[i])))
            && effects[k + 1] == Raise(CommandNotSupported(commands[k].Kind()))
            && SelfMessages(effects) == []
  {
    var routed := RouteAll(commands, mapper);
    RoutedUpToUnsupported(commands, mapper, k);
    var effects := Transition(defaults, ReceiveMessages(n), Success(commands), mapper);
    assert effects == [Fetch(n)] + routed;
    forall i | 0 <= i < k
      ensures effects[i + 1] == Tell(HandlerOf(commands[i]), mapper(commands[i]))
    {
      assert effects[i + 1] == routed[i];
    }
    assert effects[k + 1] == routed[k];
    forall i | 0 <= i < |effects| ensures !effects[i].TellSelf? {
      if i > 0 { assert effects[i] == routed[i - 1]; }
    }
    NoSelfMessages(effects);
  }

  /** `RouteAll` on a batch whose first command without a handler is at position `k`. */
  lemma RoutedUpToUnsupported<M>(commands: seq<Command>, mapper: Command -> M, k: nat)
    requires k < |commands| && !commands[k].Webhook?
    requires forall i :: 0 <= i < k ==> commands[i].Webhook?
    ensures RoutablePrefix(commands) == k
    ensures var routed := RouteAll(commands, mapper);
            && |routed| == k + 1
            && (forall i :: 0 <= i < k ==> routed[i] == Tell(HandlerOf(commands[i]), mapper(commands[i])))
            && routed[k] == Raise(CommandNotSupported(commands[k].Kind()))
  {
    assert !Routable(commands[k]);
    assert forall i :: 0 <= i < k ==> Routable(commands[i]);
    RouteAllRoutesThePrefix(commands, mapper);
  }

  /** An empty batch tells no handler and sends exactly one back-off. */
  lemma EmptyBatchBacksOff<M>(defaults: Defaults, n: int, mapper: Command -> M)
    ensures Transition(defaults, ReceiveMessages(n), Success([]), mapper)
            == [Fetch(n), TellSelf(BackOff(defaults.delayInSeconds))]
  {
  }

  /** `Started` sends exactly one poll; `BackOff` waits its own delay and then sends exactly one poll. */
  lemma StartAndBackOffPoll<M>(defaults: Defaults, d: int, received: Result<seq<Command>, Fault>, mapper: Command -> M)
    ensures Transition(defaults, Started, received, mapper) == [TellSelf(ReceiveMessages(defaults.numberOfMessages))]
    ensures Transition(defaults, BackOff(d), received, mapper)
            == [Wait(d), TellSelf(ReceiveMessages(defaults.numberOfMessages))]
  {
  }
}
