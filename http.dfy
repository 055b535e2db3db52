/** The JSON responses the handlers and the middleware send. */
module Http {

  /** The JSON body of a response. */
  datatype Body =
      /** `{ message, error: true, success: false }` */
    | Failure(message: string)
      /** `{ message, name, email, success: true }`: the registration echo, with no password in it */
    | Registered(message: string, name: string, email: string)
  {
    predicate Error() { Failure? }
    predicate Success() { Registered? }
  }

  datatype Response = Response(status: nat, body: Body)

  /** The catch-all of a handler: status 500 with `error.message || 'Internal Server Error'`. */
  function ServerError(message: string): (r: Response)
    ensures r.status == 500 && r.body.Error() && !r.body.Success()
    ensures r.body.message != ""
    ensures message != "" ==> r.body.message == message
    ensures message == "" ==> r.body.message == "Internal Server Error"
  {
    Response(500, Failure(if message != "" then message else "Internal Server Error"))
  }
}
