/** A model of the scope check that `require_oauth_scopes` wraps around a
    view handler (invenio_oauth2server/decorators.py).

    The decorator fixes a set of required scopes once, when it is applied.
    On every call of the decorated handler it looks at the request's `oauth`
    attribute: with no OAuth context (attribute missing or None, the API-key
    path) the handler runs; with one, the handler runs only when every
    required scope is among the access token's scopes, and otherwise the
    request is aborted with HTTP 403. */
module Decorators {

  /** A scope identifier such as "user:email". */
  type ScopeId = string

  /** The access token of an OAuth-authenticated request; the check reads
      only its list of scopes. */
  datatype AccessToken = AccessToken(scopes: seq<ScopeId>)

  /** The `oauth` attribute of the current request, as the decorator sees it. */
  datatype OAuthAttribute =
    | Missing                             // the request has no `oauth` attribute
    | NoneValue                           // the attribute is there but is None
    | Present(accessToken: AccessToken)   // an OAuth context with its token

  /** What the check decides for one request. */
  datatype Outcome = CallHandler | Abort403

  /** The positional and keyword arguments of a call of the handler. */
  datatype CallArgs<V> = CallArgs(positional: seq<V>, keyword: map<string, V>)

  /** The response of the decorated handler: the wrapped handler's value, or
      the 403 abort. */
  datatype Response<R> = Returned(value: R) | Forbidden

  /** One call of the decorated handler: the argument bundles the wrapped
      handler was invoked with, in order, and the response. */
  datatype Call<V, R> = Call(handlerInvocations: seq<CallArgs<V>>, response: Response<R>)

  /** The scopes required by an applied decorator. */
  datatype ScopeRequirement = ScopeRequirement(required: set<ScopeId>)

  /** `set(...)` of a list of scopes: its elements, without order or repetition. */
  function ToSet(s: seq<ScopeId>): (r: set<ScopeId>)
    ensures forall x :: x in r <==> x in s
  {
    if s == [] then {} else {s[0]} + ToSet(s[1..])
  }

  /** Applying `require_oauth_scopes(*scopes)`: the arguments are collapsed
      into the required set once, before any request is seen. */
  function RequireOAuthScopes(scopes: seq<ScopeId>): (g: ScopeRequirement)
    ensures forall x :: x in g.required <==> x in scopes
  {
    ScopeRequirement(ToSet(scopes))
  }

  /** The check made on each call: abort exactly when there is an OAuth
      context whose token lacks some required scope. */
  function Decide(g: ScopeRequirement, oauth: OAuthAttribute): (o: Outcome)
    ensures o == Abort403 <==>
      oauth.Present? && exists x :: x in g.required && x !in oauth.accessToken.scopes
  {
    if oauth.Present? then
      var tokenScopes := ToSet(oauth.accessToken.scopes);
      if !(g.required <= tokenScopes) then Abort403 else CallHandler
    else
      CallHandler
  }

  /** A call of the decorated handler `f` with arguments `args`. */
  function Decorated<V, R>(g: ScopeRequirement, oauth: OAuthAttribute,
                           f: CallArgs<V> -> R, args: CallArgs<V>): (c: Call<V, R>)
    ensures c.response.Forbidden? <==>
      oauth.Present? && exists x :: x in g.required && x !in oauth.accessToken.scopes
    ensures c.response.Forbidden? ==> c.handlerInvocations == []
    ensures c.response.Returned? ==>
      c.handlerInvocations == [args] && c.response.value == f(args)
  {
    match Decide(g, oauth)
    case Abort403 => Call([], Forbidden)
    case CallHandler => Call([args], Returned(f(args)))
  }

  /** Without an OAuth context the handler is called with the original
      arguments and its value returned, whatever scopes are required. */
  lemma ApiKeyBypass<V, R>(scopes: seq<ScopeId>, oauth: OAuthAttribute,
                           f: CallArgs<V> -> R, args: CallArgs<V>)
    requires oauth == Missing || oauth == NoneValue
    ensures Decide(RequireOAuthScopes(scopes), oauth) == CallHandler
    ensures Decorated(RequireOAuthScopes(scopes), oauth, f, args) == Call([args], Returned(f(args)))
  {
  }

  /** A token holding every required scope lets the call through; the
      handler's value comes back unchanged. */
  lemma SufficientScopesCallHandler<V, R>(scopes: seq<ScopeId>, token: AccessToken,
                                          f: CallArgs<V> -> R, args: CallArgs<V>)
    requires forall x :: x in scopes ==> x in token.scopes
    ensures Decorated(RequireOAuthScopes(scopes), Present(token), f, args)
            == Call([args], Returned(f(args)))
  {
  }

  /** A token lacking one required scope gets 403 and the handler is never
      invoked. */
  lemma MissingScopeForbids<V, R>(scopes: seq<ScopeId>, token: AccessToken, missing: ScopeId,
                                  f: CallArgs<V> -> R, args: CallArgs<V>)
    requires missing in scopes && missing !in token.scopes
    ensures Decorated(RequireOAuthScopes(scopes), Present(token), f, args) == Call([], Forbidden)
  {
  }

  /** With an OAuth context, the call is allowed exactly when the required set
      is a subset of the token's scope set. */
  lemma AllowedIffSubset(scopes: seq<ScopeId>, token: AccessToken)
    ensures Decide(RequireOAuthScopes(scopes), Present(token)) == CallHandler
            <==> ToSet(scopes) <= ToSet(token.scopes)
  {
  }

  /** Two argument lists with the same elements give the same decorator, so
      order and repetition of the required scopes do not matter. */
  lemma RequiredScopesAsSet(s1: seq<ScopeId>, s2: seq<ScopeId>)
    requires forall x :: x in s1 <==> x in s2
    ensures RequireOAuthScopes(s1) == RequireOAuthScopes(s2)
  {
  }

  /** Reordering the required scopes leaves every decision unchanged. */
  lemma PermutedRequiredSameDecision(s1: seq<ScopeId>, s2: seq<ScopeId>, oauth: OAuthAttribute)
    requires multiset(s1) == multiset(s2)
    ensures Decide(RequireOAuthScopes(s1), oauth) == Decide(RequireOAuthScopes(s2), oauth)
  {
    forall x ensures x in s1 <==> x in s2 {
      assert x in s1 <==> x in multiset(s1);
      assert x in s2 <==> x in multiset(s2);
    }
    RequiredScopesAsSet(s1, s2);
  }

  /** Repeating a required scope leaves every decision unchanged. */
  lemma DuplicateRequiredSameDecision(s: seq<ScopeId>, x: ScopeId, oauth: OAuthAttribute)
    requires x in s
    ensures Decide(RequireOAuthScopes(s + [x]), oauth) == Decide(RequireOAuthScopes(s), oauth)
  {
    RequiredScopesAsSet(s + [x], s);
  }

  /** Two tokens whose scope lists have the same elements get the same
      decision, so order and repetition in the token's list do not matter. */
  lemma TokenScopesAsSet(g: ScopeRequirement, t1: AccessToken, t2: AccessToken)
    requires forall x :: x in t1.scopes <==> x in t2.scopes
    ensures Decide(g, Present(t1)) == Decide(g, Present(t2))
  {
  }

  /** An empty requirement never aborts. */
  lemma EmptyRequirementNeverForbids(oauth: OAuthAttribute)
    ensures Decide(RequireOAuthScopes([]), oauth) == CallHandler
  {
  }

  /** Giving a token more scopes never turns an allowed call into a 403. */
  lemma MoreTokenScopesKeepAllow(g: ScopeRequirement, t1: AccessToken, t2: AccessToken)
    requires forall x :: x in t1.scopes ==> x in t2.scopes
    ensures Decide(g, Present(t1)) == CallHandler ==> Decide(g, Present(t2)) == CallHandler
  {
  }

  /** Requiring more scopes never turns a 403 into an allowed call. */
  lemma MoreRequiredScopesKeepForbid(s1: seq<ScopeId>, s2: seq<ScopeId>, oauth: OAuthAttribute)
    requires forall x :: x in s1 ==> x in s2
    ensures Decide(RequireOAuthScopes(s1), oauth) == Abort403 ==>
            Decide(RequireOAuthScopes(s2), oauth) == Abort403
  {
  }
}
