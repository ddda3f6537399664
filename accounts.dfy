/** One configured mailbox, as a record of `accounts.json`, shared by the
    cleanup job and the account editor. */
module Accounts {
  import opened Wrappers

  /** The port used when a record has none (the POP3-over-TLS port). */
  const DefaultPort: int := 995

  /** Fields a record may lack are `Option`s; `email` and `server` are read
      with `account['...']` and so are always present. */
  datatype Account = Account(
    email: string,
    password: Option<string>,
    server: string,
    port: Option<int>,
    enabled: Option<bool>,
    description: Option<string>)

  /** `account.get('enabled', True)`: a record without the field is enabled. */
  predicate IsEnabled(a: Account)
    ensures IsEnabled(a) <==> a.enabled != Some(false)
  {
    a.enabled.GetOr(true)
  }

  /** `account.get('port', 995)`. */
  function PortOf(a: Account): (port: int)
    ensures a.port.Some? ==> port == a.port.value
    ensures a.port.None? ==> port == 995
  {
    a.port.GetOr(DefaultPort)
  }
}
