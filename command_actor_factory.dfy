/**
 * The command router (`CommandActorFactory.GetHandler`): picks the actor that
 * handles a command. An actor is identified by its name; creating or
 * reusing the named actor belongs to the actor runtime and is not modelled.
 */
module CommandActorFactory {

  import opened Wrappers
  import opened Models

  const DispatcherPrefix := "Dispatcher_"

  /**
   * A webhook command goes to the dispatcher named after its id, that is
   * `Dispatcher_` followed by the id; any other command is not supported.
   */
  function GetHandler(command: Command): (r: Result<string, Fault>)
    ensures r.Success? <==> command.Webhook?
    ensures r.Failure? ==> r.error == CommandNotSupported(command.Kind())
    ensures r.Success? ==> |r.value| == |DispatcherPrefix| + |command.CommandId()|
                           && r.value[..|DispatcherPrefix|] == DispatcherPrefix
                           && r.value[|DispatcherPrefix|..] == command.CommandId()
  {
    match command
    case Webhook(w) => Success(DispatcherPrefix + w.commandId)
    case Email(_) => Failure(CommandNotSupported(EmailKind))
  }

  /** Two webhook commands share a dispatcher if and only if they have the same id. */
  lemma {:induction false} SameHandlerIffSameId(a: WebhookCommand, b: WebhookCommand)
    ensures GetHandler(Webhook(a)) == GetHandler(Webhook(b)) <==> a.commandId == b.commandId
  {
    var ra, rb := GetHandler(Webhook(a)), GetHandler(Webhook(b));
    if ra == rb {
      assert a.commandId == ra.value[|DispatcherPrefix|..] == rb.value[|DispatcherPrefix|..] == b.commandId;
    }
  }
}
