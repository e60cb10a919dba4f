/** Request shapes of the chat API. */
module Schemas {

  /** One turn of the client-supplied history: a role string ("user", "ai",
      or anything else the client sends) and its text. */
  datatype ChatMessage = ChatMessage(role: string, content: string)
}
