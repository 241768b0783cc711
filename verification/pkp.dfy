/**
 * The host page's registry (`pkp.registry`), passed explicitly. `None`
 * stands for a `pkp` or a `registry` that is null or undefined; any field may be
 * absent.
 */
module Pkp {
  import opened Wrappers
  import opened JsValue

  /** The signed-in user. */
  datatype User = User(
    id: int,
    username: string,
    roles: seq<string>,
    email: string,
    firstName: Option<string>,
    lastName: Option<string>)

  datatype Registry = Registry(
    apiBaseUrl: Option<string>,
    csrfToken: Option<string>,
    currentLocale: Option<string>,
    user: Option<User>)

  /** A string kept only when truthy. */
  function NonEmpty(s: Option<string>): Option<string> {
    if TruthyString(s) then s else None
  }

  /** `pkp?.registry?.apiBaseUrl`, when truthy. */
  function ApiBaseUrl(reg: Option<Registry>): (r: Option<string>)
    ensures r.Some? <==> reg.Some? && reg.value.apiBaseUrl.Some? && reg.value.apiBaseUrl.value != ""
    ensures r.Some? ==> r == reg.value.apiBaseUrl
  {
    if reg.Some? then NonEmpty(reg.value.apiBaseUrl) else None
  }

  /** `pkp?.registry?.csrfToken`, when truthy. */
  function CsrfToken(reg: Option<Registry>): (r: Option<string>)
    ensures r.Some? <==> reg.Some? && reg.value.csrfToken.Some? && reg.value.csrfToken.value != ""
    ensures r.Some? ==> r == reg.value.csrfToken
  {
    if reg.Some? then NonEmpty(reg.value.csrfToken) else None
  }

  /** `pkp?.registry?.currentLocale`, when truthy. */
  function CurrentLocale(reg: Option<Registry>): (r: Option<string>)
    ensures r.Some? <==> reg.Some? && reg.value.currentLocale.Some? && reg.value.currentLocale.value != ""
    ensures r.Some? ==> r == reg.value.currentLocale
  {
    if reg.Some? then NonEmpty(reg.value.currentLocale) else None
  }
}
