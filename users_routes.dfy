/**
 * The /api/v1/users routes: the route table, which handler and middleware a
 * request meets, and the status decision of user registration.
 *
 * Body parsing, the users controller's Create, the authentication middleware
 * and response writing are not modelled; their outcomes are inputs.
 */
module UsersRoutes {
  import opened Optional

  const StatusOK := 200
  const StatusCreated := 201
  const StatusBadRequest := 400
  const StatusConflict := 409
  const StatusUnprocessableEntity := 422

  const InvalidBodyMessage := "The request body is not valid"
  const MissingFieldsMessage := "email and password are required to create user"
  const DuplicateUserMessage := "User with this email already exists"

  /** The fields of a create-user request. */
  datatype Credentials = Credentials(email: string, password: string)

  /** The outcome of parsing the request body. */
  datatype ParsedBody = BodyInvalid | BodyParsed(request: Credentials)

  /** What the users controller's Create reports. */
  datatype CreateOutcome = CreateSucceeded | DuplicatedKey | CreateFailed

  /** A response body: an error response, a user response built from Create's result, or plain text. */
  datatype ResponseBody =
    | ErrorResponse(code: int, message: string)
    | UserResponse(createResult: CreateOutcome)
    | Text(text: string)

  datatype Response = Response(status: int, body: ResponseBody)

  /** A registration: whether Create was called, with which credentials, and the response. */
  datatype Registration = Registration(createCall: Option<Credentials>, response: Response)

  function ErrorReply(status: int, message: string): Response {
    Response(status, ErrorResponse(status, message))
  }

  predicate HasEmptyField(c: Credentials) {
    c.email == "" || c.password == ""
  }

  /**
   * registerUser: an unparseable body is refused with 400, a missing email
   * or password with 422, both before Create is called; otherwise Create is
   * called with the request's credentials, a duplicate key is refused with
   * 409, and every other outcome answers 201 with a user response built from
   * Create's result, a failed Create included. `create` is what Create would
   * report if called.
   */
  function RegisterUser(body: ParsedBody, create: CreateOutcome): (r: Registration)
    ensures body.BodyInvalid? ==>
      r == Registration(None, ErrorReply(StatusBadRequest, InvalidBodyMessage))
    ensures body.BodyParsed? && HasEmptyField(body.request) ==>
      r == Registration(None, ErrorReply(StatusUnprocessableEntity, MissingFieldsMessage))
    ensures r.createCall.Some? <==> body.BodyParsed? && !HasEmptyField(body.request)
    ensures r.createCall.Some? ==> r.createCall.value == body.request
    ensures r.response.status == StatusConflict <==> r.createCall.Some? && create == DuplicatedKey
    ensures r.response.status == StatusConflict ==> r.response == ErrorReply(StatusConflict, DuplicateUserMessage)
    ensures r.response.status == StatusCreated <==> r.createCall.Some? && create != DuplicatedKey
    ensures r.response.status == StatusCreated ==> r.response.body == UserResponse(create)
  {
    match body
    case BodyInvalid =>
      Registration(None, ErrorReply(StatusBadRequest, InvalidBodyMessage))
    case BodyParsed(u) =>
      if HasEmptyField(u) then
        Registration(None, ErrorReply(StatusUnprocessableEntity, MissingFieldsMessage))
      else
        var response :=
          if create == DuplicatedKey then ErrorReply(StatusConflict, DuplicateUserMessage)
          else Response(StatusCreated, UserResponse(create));
        Registration(Some(u), response)
  }

  /** Registration answers with one of the four documented statuses, 400 only for an unparseable body. */
  lemma RegisterStatuses(body: ParsedBody, create: CreateOutcome)
    ensures RegisterUser(body, create).response.status in {StatusCreated, StatusBadRequest, StatusConflict,
                                                           StatusUnprocessableEntity}
    ensures RegisterUser(body, create).response.status == StatusBadRequest <==> body.BodyInvalid?
    ensures RegisterUser(body, create).response.status == StatusUnprocessableEntity <==>
      body.BodyParsed? && HasEmptyField(body.request)
  {
  }

  /** A Create failure that is not a duplicate key still answers 201. */
  lemma FailedCreateAnswersCreated(c: Credentials)
    requires !HasEmptyField(c)
    ensures RegisterUser(BodyParsed(c), CreateFailed).response == Response(StatusCreated, UserResponse(CreateFailed))
  {
  }

  // ---- The route table

  datatype HttpMethod = Get | Head | Post | Put | Patch | Delete | Options

  datatype Handler = RegisterUserHandler | LoginUserHandler | GetUserInfoHandler | UpdateUserInfoHandler

  datatype Middleware = MandatoryAuthMiddleware

  datatype Route = Route(verb: HttpMethod, pattern: string, middleware: seq<Middleware>, handler: Handler)

  /** The routes UsersRoute registers, in registration order. */
  function UsersRoute(): seq<Route> {
    [ Route(Post, "/", [], RegisterUserHandler),
      Route(Post, "/login", [], LoginUserHandler),
      Route(Get, "/:id", [MandatoryAuthMiddleware], GetUserInfoHandler),
      Route(Patch, "/:id", [MandatoryAuthMiddleware], UpdateUserInfoHandler) ]
  }

  /** A path of one non-empty segment: what "/:id" matches. */
  predicate IsSingleSegment(path: string) {
    |path| >= 2 && path[0] == '/' && '/' !in path[1..]
  }

  /** Whether a route pattern matches a path: "/:name" matches one segment, anything else literally. */
  predicate Matches(pattern: string, path: string) {
    if |pattern| >= 2 && pattern[..2] == "/:" then IsSingleSegment(path) else pattern == path
  }

  /** The first registered route for the verb whose pattern matches the path. */
  function FindRoute(routes: seq<Route>, verb: HttpMethod, path: string): (r: Option<Route>)
    ensures r.Some? ==> r.value in routes && r.value.verb == verb && Matches(r.value.pattern, path)
    ensures r.None? ==> forall rt :: rt in routes ==> !(rt.verb == verb && Matches(rt.pattern, path))
    decreases |routes|
  {
    if routes == [] then None
    else if routes[0].verb == verb && Matches(routes[0].pattern, path) then Some(routes[0])
    else FindRoute(routes[1..], verb, path)
  }

  /** Where a request ends up: no route, stopped by the authentication middleware, or at a handler. */
  datatype Dispatched = NoRoute | AuthRejected | Handled(handler: Handler)

  /** Dispatch through the users routes; authOk is the verdict of MandatoryAuthMiddleware. */
  function Dispatch(verb: HttpMethod, path: string, authOk: bool): Dispatched {
    match FindRoute(UsersRoute(), verb, path)
    case None => NoRoute
    case Some(route) =>
      if MandatoryAuthMiddleware in route.middleware && !authOk then AuthRejected else Handled(route.handler)
  }

  /** POST "/" registers and POST "/login" logs in, with no authentication either way. */
  lemma OpenRoutes(authOk: bool)
    ensures Dispatch(Post, "/", authOk) == Handled(RegisterUserHandler)
    ensures Dispatch(Post, "/login", authOk) == Handled(LoginUserHandler)
  {
  }

  /** GET and PATCH on "/:id" reach the user-info handlers exactly when authentication passes. */
  lemma IdRoutes(path: string, authOk: bool)
    requires IsSingleSegment(path)
    ensures Dispatch(Get, path, authOk) == if authOk then Handled(GetUserInfoHandler) else AuthRejected
    ensures Dispatch(Patch, path, authOk) == if authOk then Handled(UpdateUserInfoHandler) else AuthRejected
  {
  }

  /** Only the two "/:id" routes carry the authentication middleware. */
  lemma OnlyIdRoutesAuthenticated()
    ensures forall rt :: rt in UsersRoute() ==>
      (MandatoryAuthMiddleware in rt.middleware <==> rt.pattern == "/:id")
  {
  }

  /** No request reaches the user-info handlers without passing authentication. */
  lemma AuthGuardsUserInfo(verb: HttpMethod, path: string)
    ensures Dispatch(verb, path, false) != Handled(GetUserInfoHandler)
    ensures Dispatch(verb, path, false) != Handled(UpdateUserInfoHandler)
  {
  }

  /**
   * Serves a request the route has reached: registration decides its status,
   * the other three handlers are stubs answering 200 with their own name.
   */
  function Handle(h: Handler, body: ParsedBody, create: CreateOutcome): (r: Response)
    ensures h == RegisterUserHandler ==> r == RegisterUser(body, create).response
    ensures h != RegisterUserHandler ==> r.status == StatusOK && r.body.Text?
    ensures h == LoginUserHandler ==> r == Response(StatusOK, Text("LoginUser"))
    ensures h == GetUserInfoHandler ==> r == Response(StatusOK, Text("GetUserInfo"))
    ensures h == UpdateUserInfoHandler ==> r == Response(StatusOK, Text("UpdateUserInfo"))
  {
    match h
    case RegisterUserHandler => RegisterUser(body, create).response
    case LoginUserHandler => Response(StatusOK, Text("LoginUser"))
    case GetUserInfoHandler => Response(StatusOK, Text("GetUserInfo"))
    case UpdateUserInfoHandler => Response(StatusOK, Text("UpdateUserInfo"))
  }

  /** The stubs ignore the request and tell each other apart by their text. */
  lemma StubsIgnoreRequest(h: Handler, b1: ParsedBody, c1: CreateOutcome, b2: ParsedBody, c2: CreateOutcome)
    requires h != RegisterUserHandler
    ensures Handle(h, b1, c1) == Handle(h, b2, c2)
    ensures forall g :: g != RegisterUserHandler && g != h ==> Handle(g, b1, c1) != Handle(h, b1, c1)
  {
  }
}
