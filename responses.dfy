/** ActionResult values returned by the controllers, and the e-mails they hand
    to the notifier. */
module Responses {
  import opened Wrappers
  import opened Models

  /** Forbidden is the framework's answer when a role requirement fails. */
  datatype Status = Ok | Unauthorized | Forbidden | NotFound | BadRequest | Conflict | Accepted | ServerError

  /** Message is an anonymous object with a single text property; its
      property name is not modelled. Plain is a bare string body. */
  datatype Body =
    | Message(text: string)
    | Plain(text: string)
    | NoBody
    | LoginCreds(creds: NormalLoginCreds)
    | SetupCodes(manualCode: Option<string>, qrCode: Option<string>)
    | TokenPair(accessToken: string, refreshToken: string)
    | AccessTokenOnly(accessToken: string)
    | OneUser(dto: UserDto)
    | ManyUsers(dtos: seq<UserDto>)
    | Emails(emails: seq<string>)

  datatype Response = Response(status: Status, body: Body)

  /** The catch block of every handler: StatusCode(500, ...). */
  const Error500 := Response(ServerError, Message("Encountered an error"))

  /** A templated e-mail: the template file itself is not modelled, only the
      values substituted into it. */
  datatype Mail = Mail(recipient: string, subject: string, name: string, link: string)
}
