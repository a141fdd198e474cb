/** The dashboard's environment reservations: a fixed list of environments,
    each reserved by at most one user with a free-text reason, the two
    handlers that change it and the two middlewares in front of them. The
    read/write lock around the list is left out: each operation is atomic. */
module Dashboard {
  import opened Wrappers

  datatype User = User(username: string)

  datatype Environment = Environment(name: string, user: Option<User>, reason: string)

  const StatusTemporaryRedirect: int := 307
  const StatusNotFound: int := 404

  datatype Response = Redirect(status: int, location: string) | Html(status: int, body: string)

  /** What a middleware does with a request: answer it itself, or call the next handler. */
  datatype Gate = Stop(response: Response) | Next

  /** One environment after a toggle of `name` by `me`: a free one is reserved
      by `me`, a reserved one is freed, whoever reserved it. */
  function Toggled(e: Environment, name: string, me: User): Environment
  {
    if e.name != name then e
    else if e.user.None? then e.(user := Some(me))
    else e.(user := None)
  }

  function ToggledAll(s: seq<Environment>, name: string, me: User): (r: seq<Environment>)
    ensures |r| == |s|
    ensures forall i :: 0 <= i < |s| && s[i].name == name && s[i].user.None? ==> r[i].user == Some(me)
    ensures forall i :: 0 <= i < |s| && s[i].name == name && s[i].user.Some? ==> r[i].user == None
    ensures forall i :: 0 <= i < |s| && s[i].name != name ==> r[i] == s[i]
    ensures forall i :: 0 <= i < |s| ==> r[i].name == s[i].name && r[i].reason == s[i].reason
  {
    seq(|s|, i requires 0 <= i < |s| => Toggled(s[i], name, me))
  }

  function WithReason(e: Environment, name: string, reason: string): Environment
  {
    if e.name == name then e.(reason := reason) else e
  }

  function WithReasonAll(s: seq<Environment>, name: string, reason: string): (r: seq<Environment>)
    ensures |r| == |s|
    ensures forall i :: 0 <= i < |s| && s[i].name == name ==> r[i].reason == reason
    ensures forall i :: 0 <= i < |s| && s[i].name != name ==> r[i] == s[i]
    ensures forall i :: 0 <= i < |s| ==> r[i].name == s[i].name && r[i].user == s[i].user
  {
    seq(|s|, i requires 0 <= i < |s| => WithReason(s[i], name, reason))
  }

  /** Toggling an environment that nobody holds, then toggling it again (by
      anyone), leaves the list as it was. */
  lemma ToggleTwice(s: seq<Environment>, name: string, me: User, other: User)
    requires forall i :: 0 <= i < |s| && s[i].name == name ==> s[i].user.None?
    ensures ToggledAll(ToggledAll(s, name, me), name, other) == s
  {
    var r := ToggledAll(ToggledAll(s, name, me), name, other);
    forall i | 0 <= i < |s| ensures r[i] == s[i] {
      if s[i].name == name {
        assert r[i] == s[i].(user := None);
      }
    }
  }

  /** Setting the same reason twice is setting it once. */
  lemma UpdateReasonIdempotent(s: seq<Environment>, name: string, reason: string)
    ensures WithReasonAll(WithReasonAll(s, name, reason), name, reason) == WithReasonAll(s, name, reason)
  {
  }

  class Registry {
    var envs: array<Environment>

    /** The list as `Start` fills it: one free environment per configured name, in order. */
    constructor (names: seq<string>)
      ensures fresh(envs)
      ensures envs[..] == seq(|names|, i requires 0 <= i < |names| => Environment(names[i], None, ""))
    {
      var a := new Environment[|names|];
      for i := 0 to |names|
        invariant forall k :: 0 <= k < i ==> a[k] == Environment(names[k], None, "")
      {
        a[i] := Environment(names[i], None, "");
      }
      envs := a;
    }

    /** `environmentsToggleHandler`: toggles every environment called `name`
        for the user `me` that the authentication middleware stored. */
    method Toggle(name: string, me: User) returns (response: Response)
      modifies envs
      ensures envs[..] == ToggledAll(old(envs[..]), name, me)
      ensures response == Redirect(StatusTemporaryRedirect, "/")
    {
      for i := 0 to envs.Length
        invariant forall k :: 0 <= k < i ==> envs[k] == Toggled(old(envs[k]), name, me)
        invariant forall k :: i <= k < envs.Length ==> envs[k] == old(envs[k])
      {
        if envs[i].name == name {
          if envs[i].user.None? {
            envs[i] := envs[i].(user := Some(me));
          } else {
            envs[i] := envs[i].(user := None);
          }
        }
      }
      return Redirect(StatusTemporaryRedirect, "/");
    }

    /** `environmentsUpdateReasonHandler`: sets the reason of every environment called `name`. */
    method UpdateReason(name: string, reason: string) returns (response: Response)
      modifies envs
      ensures envs[..] == WithReasonAll(old(envs[..]), name, reason)
      ensures response == Redirect(StatusTemporaryRedirect, "/")
    {
      for i := 0 to envs.Length
        invariant forall k :: 0 <= k < i ==> envs[k] == WithReason(old(envs[k]), name, reason)
        invariant forall k :: i <= k < envs.Length ==> envs[k] == old(envs[k])
      {
        if envs[i].name == name {
          envs[i] := envs[i].(reason := reason);
        }
      }
      return Redirect(StatusTemporaryRedirect, "/");
    }

    /** `environmentMiddleware`: lets the request through exactly when some
        environment is called `name`, and answers 404 with an empty body
        otherwise. It only reads the list. */
    method EnvironmentMiddleware(name: string) returns (gate: Gate)
      ensures gate.Next? <==> exists i :: 0 <= i < envs.Length && envs[i].name == name
      ensures gate.Stop? ==> gate.response == Html(StatusNotFound, "")
    {
      var found := false;
      var i := 0;
      while i < envs.Length
        invariant 0 <= i <= envs.Length
        invariant forall k :: 0 <= k < i ==> envs[k].name != name
        invariant !found
      {
        if envs[i].name == name {
          found := true;
          break;
        }
        i := i + 1;
      }
      if !found {
        return Stop(Html(StatusNotFound, ""));
      }
      return Next;
    }
  }

  /** What the current-user request of the GitLab client gives back: the user,
      an error with the server's response (e.g. 401), or an error with no
      response at all (the server could not be reached). */
  datatype UserLookup = Found(user: User) | Refused(status: int) | Unreachable(cause: string)

  /** The outcome of the authentication middleware: answered with a redirect,
      passed on with the user stored as "me", or a Go panic. */
  datatype AuthOutcome = Deny(response: Response) | Admit(me: User) | Panic

  /** `authMiddleware` as written: on a failed lookup it logs
      `res.StatusCode`, which dereferences a nil response when the server could
      not be reached. */
  function AuthMiddlewareAsWritten(token: Option<string>, currentUser: string -> UserLookup): (r: AuthOutcome)
    ensures r.Panic? <==> token.Some? && currentUser(token.value).Unreachable?
  {
    if token.None? then Deny(Redirect(StatusTemporaryRedirect, "/login"))
    else match currentUser(token.value)
      case Found(u) => Admit(u)
      case Refused(_) => Deny(Redirect(StatusTemporaryRedirect, "/login"))
      case Unreachable(_) => Panic
  }

  /** A token whose lookup cannot reach the server crashes the middleware
      instead of sending the visitor to the login page. */
  lemma AuthAsWrittenPanics()
    ensures AuthMiddlewareAsWritten(Some("t"), _ => Unreachable("connection refused")) == Panic
  {
  }

  /** `authMiddleware` with every failed lookup sent to the login page. */
  function AuthMiddleware(token: Option<string>, currentUser: string -> UserLookup): (r: AuthOutcome)
    ensures !r.Panic?
    ensures r.Admit? <==> token.Some? && currentUser(token.value).Found?
    ensures r.Admit? ==> r.me == currentUser(token.value).user
    ensures r.Deny? ==> r.response == Redirect(StatusTemporaryRedirect, "/login")
  {
    if token.None? then Deny(Redirect(StatusTemporaryRedirect, "/login"))
    else match currentUser(token.value)
      case Found(u) => Admit(u)
      case _ => Deny(Redirect(StatusTemporaryRedirect, "/login"))
  }

  /** Where the middleware as written does not crash, it agrees with the corrected one. */
  lemma AuthAgreesUnlessPanic(token: Option<string>, currentUser: string -> UserLookup)
    requires !AuthMiddlewareAsWritten(token, currentUser).Panic?
    ensures AuthMiddlewareAsWritten(token, currentUser) == AuthMiddleware(token, currentUser)
  {
  }
}
