# Scope check of `require_oauth_scopes` (Invenio-OAuth2Server)

This project models, in Dafny, the authorization check that the decorator
`require_oauth_scopes(*scopes)` of Invenio-OAuth2Server puts in front of a REST
view. When the decorator is applied, its arguments are collapsed into a set of
required scopes. On each request the decorated view reads the request's `oauth`
attribute:

- if the attribute is missing or `None` (a request authenticated by API key),
  the view is called whatever scopes are required;
- otherwise the view is called only when every required scope is among the
  scopes of the request's access token; if one is missing, the request is
  aborted with HTTP 403 and the view is not called.

Everything is in `decorators.dfy`, module `Decorators`, as pure functions and
lemmas:

- `OAuthAttribute` is the request's `oauth` attribute: `Missing`, `NoneValue` or
  `Present(token)`.
- `RequireOAuthScopes` applies the decorator.
- `Decide` is the per-request check. Its result is `CallHandler` or `Abort403`.
- `Decorated` is one call of the decorated view. The view is a function of its
  positional and keyword arguments (`CallArgs`). The result records each
  invocation of the view and the response, so "the view is not invoked" and
  "the view gets exactly the original arguments" can be stated.

Flask's `request` global becomes the explicit `oauth` parameter, and `abort(403)`
becomes the `Abort403` outcome (the `Forbidden` response).

## Model

| member | source | states |
|---|---|---|
| `Decorators.ToSet` | invenio_oauth2server/decorators.py:70 | `set(...)` of a scope list holds exactly the list's elements |
| `Decorators.RequireOAuthScopes` | invenio_oauth2server/decorators.py:62 | the decorator's required set holds exactly the scopes it was given |
| `Decorators.Decide` | invenio_oauth2server/decorators.py:69-72 | abort with 403 exactly when there is an OAuth context and some required scope is not in its token's scopes |
| `Decorators.Decorated` | invenio_oauth2server/decorators.py:66-73 | the call is forbidden exactly in the 403 case; then the view is never invoked; otherwise it is invoked once, with the original arguments, and its value is the response |
| `Decorators.ApiKeyBypass` | invenio_oauth2server/decorators.py:69-73 | with the `oauth` attribute missing or `None`, the view is called with the original arguments whatever scopes are required |
| `Decorators.SufficientScopesCallHandler` | invenio_oauth2server/decorators.py:70-73 | a token holding every required scope gets the view called, and the view's value is returned unchanged |
| `Decorators.MissingScopeForbids` | invenio_oauth2server/decorators.py:71-72 | a token lacking one required scope gets 403 and the view is not invoked |
| `Decorators.AllowedIffSubset` | invenio_oauth2server/decorators.py:70-71 | with an OAuth context, the call is allowed if and only if the required set is a subset of the token's scope set |
| `Decorators.RequiredScopesAsSet` | invenio_oauth2server/decorators.py:62 | decorator arguments with the same elements, in any order and with any repetition, give the same decorator |
| `Decorators.PermutedRequiredSameDecision` | invenio_oauth2server/decorators.py:62 | reordering the decorator's arguments changes no decision |
| `Decorators.DuplicateRequiredSameDecision` | invenio_oauth2server/decorators.py:62 | repeating a decorator argument changes no decision |
| `Decorators.TokenScopesAsSet` | invenio_oauth2server/decorators.py:70 | token scope lists with the same elements, in any order and with any repetition, get the same decision |
| `Decorators.EmptyRequirementNeverForbids` | invenio_oauth2server/decorators.py:62-72 | a decorator with no scopes never aborts, with or without an OAuth context |
| `Decorators.MoreTokenScopesKeepAllow` | invenio_oauth2server/decorators.py:71 | adding scopes to a token never turns an allowed call into a 403 |
| `Decorators.MoreRequiredScopesKeepForbid` | invenio_oauth2server/decorators.py:71 | adding required scopes never turns a 403 into an allowed call |

## Left out

- `require_api_auth` (invenio_oauth2server/decorators.py:37-53): it only hands the view to `oauth2.require_oauth()`, and token validation happens there. The provider module and flask-oauthlib are not part of this model.
- Flask's `request` and `abort`: the request's `oauth` attribute is an explicit input, and the abort is the `Abort403` outcome. The exception mechanism that carries the abort is not modelled.
- `functools.wraps` and the closures that build the decorator: the model keeps the required set as a value (`ScopeRequirement`), not as a wrapped function's metadata.
- The view's own side effects: the view is a pure function of its arguments.
- `invenio_oauth2server/__init__.py`: a documentation docstring and re-exports. The grant flows, token lifecycle and scope registry its prose describes have no code among the modelled files, so they are not modelled.
