/** The access guard `ensureAuthenticated` (middleware/auth.js). */
module Auth {
  import opened Http

  const NotAuthenticated := "Not authenticated"

  /** What a middleware does with a request: pass it on to the next handler, or end it
      with a response of its own. */
  datatype Gate = Next | Halt(response: Response)

  /** An authenticated request passes on with no response of the guard's own; any
      other request ends here with 401 `{error: "Not authenticated"}`. */
  function EnsureAuthenticated(authenticated: bool): (g: Gate)
    ensures g.Next? <==> authenticated
    ensures g.Halt? ==> g.response.status == 401 && g.response.payload == ErrorMessage("Not authenticated")
  {
    if authenticated then Next else Halt(Error(401, NotAuthenticated))
  }
}
