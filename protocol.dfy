/** Values exchanged between a client and the server: requests, responses
    and the message records that are pushed or queued. Sockets are opaque
    ids and logins are strings; the JSON framing itself is not modelled. */
module Protocol {

  datatype Option<+T> = None | Some(value: T)

  type Login = string

  /** A connected client socket, identified only by an opaque id. */
  type Socket = nat

  /** The record `{action: 'message', from: <sender>, message: <text>}`
      that is pushed to an online recipient or queued for an offline one. */
  datatype Message = Message(sender: Login, text: string)

  /** The `response` field of every reply: `Ok` is 200, `BadRequest` is 400
      and `Forbidden` is 403 on the wire. */
  datatype Status = Ok | BadRequest | Forbidden

  /** The `error` field, reduced to a tag (the human-readable text is dropped). */
  datatype ErrorTag =
    | NoError
    | AccessDenied
    | NoSuchClient
    | LoginTaken
    | AlreadyInContacts
    | NotInContacts

  /** The action-specific field a reply carries besides `response` and `error`. */
  datatype Payload =
    | NoPayload
    | OnlineFlag(online: Option<bool>)
    | ContactList(contacts: seq<Login>)
    | MessageList(messages: seq<Message>)

  datatype Response = Response(status: Status, error: ErrorTag, payload: Payload)

  /** A decoded request. A field the client left out is `None`; reading it
      in the server raises, which tears the connection down. */
  datatype Request = Request(
    action: string,
    account: Option<Login>,    // user.account_name
    password: Option<string>,  // user.password
    userId: Option<Login>,     // user_id
    to: Option<Login>,         // to
    message: Option<string>)   // message

  /** The actions the dispatcher recognises; anything else is fatal. */
  const Actions: set<string> := {
    "check_online", "authorize", "register", "add_contact",
    "del_contact", "get_contacts", "send_message", "get_messages"
  }
}
