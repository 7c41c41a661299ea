/** The messages the actors exchange: `SendRequest` (to a dispatcher) and `DeleteMessage` (to the deleter). */
module Messages {

  import opened Models

  /** The fixed `Data` every request carries. */
  const RequestData := "This is data"

  datatype SendRequest = SendRequest(messageId: string, receiptHandle: string, url: string, data: string)

  datatype DeleteMessage = DeleteMessage(messageId: string, receiptHandle: string)

  /**
   * The `SendRequest(WebhookCommand)` constructor: the request's id is the
   * command's id, handle and URL are copied, and the data is the constant
   * whatever the command.
   */
  function FromWebhook(command: WebhookCommand): (r: SendRequest)
    ensures r.messageId == command.commandId
    ensures r.receiptHandle == command.receiptHandle
    ensures r.url == command.url
    ensures r.data == RequestData
  {
    SendRequest(command.commandId, command.receiptHandle, command.url, RequestData)
  }

  /** Everything the request keeps of a command is its id, handle and URL: nothing else can tell two requests apart. */
  lemma FromWebhookKeepsIdentity(a: WebhookCommand, b: WebhookCommand)
    ensures FromWebhook(a) == FromWebhook(b) <==> a == b
  {
  }
}
