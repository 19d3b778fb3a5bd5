/** Outcome types shared by the model: the exceptions the service raises, the
    replies its upstream employee API can give, and the requests it sends. */
module Outcomes {

  /** The exceptions that can end an operation. */
  datatype Error =
    | NotFound(message: string)   // ResourceNotFoundException, rendered as HTTP 400
    | IOFailure                    // IOException from the transport or from parsing a reply
    | NumberFormat(text: string)   // NumberFormatException from Integer.parseInt / Long.parseLong
    | NullStatus                   // NullPointerException: the reply has no textual `status`
    | NoSuchStatus(name: string)   // IllegalArgumentException from ResponseStatus.valueOf

  datatype Result<+T> = Ok(value: T) | Err(error: Error)

  datatype Option<+T> = None | Some(value: T)

  /** What one upstream HTTP call produced: the transport threw, the server
      answered with a non-2xx status, or it answered 2xx with a parsed body. */
  datatype Reply<+T> = TransportFailure | Unsuccessful | Successful(body: T)

  /** A value of the untyped request map that the JSON layer hands over. */
  datatype Value = Null | Str(s: string) | Int(n: int) | Bool(b: bool)

  /** A request sent to the upstream API. */
  datatype Request =
    | Get(url: string)
    | Post(url: string, body: map<string, Value>)
    | Delete(url: string)
}
