/**
 * The commands carried by queue messages (the classes registered as
 * `ISQSCommand`) and the faults that the pipeline raises.
 */
module Models {

  import opened Wrappers

  /** A command asking for an outbound POST to `url`. */
  datatype WebhookCommand = WebhookCommand(commandId: string, url: string, receiptHandle: string)

  /** A command asking for an e-mail; no handler is registered for it. */
  datatype EmailCommand = EmailCommand(commandId: string, receiptHandle: string, email: string)

  /** The classes a command can be an instance of. */
  datatype CommandKind = WebhookKind | EmailKind

  /** An `ISQSCommand`: an instance of one of the command classes. */
  datatype Command = Webhook(webhook: WebhookCommand) | Email(emailCommand: EmailCommand)
  {
    function Kind(): CommandKind {
      match this
      case Webhook(_) => WebhookKind
      case Email(_) => EmailKind
    }

    function CommandId(): string {
      match this
      case Webhook(w) => w.commandId
      case Email(e) => e.commandId
    }

    function ReceiptHandle(): string {
      match this
      case Webhook(w) => w.receiptHandle
      case Email(e) => e.receiptHandle
    }

    /** The assignment `command.ReceiptHandle = ...` on a decoded command. */
    function WithReceiptHandle(handle: string): (c: Command)
      ensures c.ReceiptHandle() == handle
      ensures c.Kind() == Kind() && c.CommandId() == CommandId()
      ensures Webhook? ==> c.Webhook? && c.webhook.url == webhook.url
      ensures Email? ==> c.Email? && c.emailCommand.email == emailCommand.email
    {
      match this
      case Webhook(w) => Webhook(w.(receiptHandle := handle))
      case Email(e) => Email(e.(receiptHandle := handle))
    }
  }

  /** The full name of a command class, the value senders put in the `MessageType` attribute. */
  function FullName(k: CommandKind): string {
    match k
    case WebhookKind => "Queueing.Queueing.Models.WebhookCommand"
    case EmailKind => "Queueing.Queueing.Models.EmailCommand"
  }

  /** The exceptions the modelled code throws, and the ones it lets through from its collaborators. */
  datatype Fault =
    | ArgumentNull(paramName: string)
    | ArgumentOutOfRange(paramName: string, message: string)
    /** `NotSupportedException` from the queue client: no registered class has this full name. */
    | TypeNotFound(messageType: Option<string>)
    /** `NotSupportedException` from the command router: no handler for this class. */
    | CommandNotSupported(kind: CommandKind)
    /** An exception raised inside a collaborator (the queue service, the network). */
    | Transport(description: string)
    /** `NullReferenceException`: a member set on a null reference (a body that deserialises to null). */
    | NullReference
}
