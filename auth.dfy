/**
  The authentication gate: the credential check of isPasswordCorrect
  (glcd.go) and its effect on the registry (HandlePlayerAuthChannel). The
  credential store is either reachable, as a map from user name to stored
  password, or unreachable, in which case every lookup fails.
 */
module Auth {
  import opened MessageTypes

  /** The credential store as one lookup finds it. */
  datatype CredentialStore = Reachable(users: map<string, string>) | Unreachable

  /** Why a lookup failed: no document for the name, or the store could not be queried. */
  datatype LookupError = NotFound | StoreFailure

  /** The (bool, error) pair the credential check returns. */
  datatype PasswordCheck = PasswordCheck(authed: bool, err: Option<LookupError>)

  /**
    A password is correct exactly when the store answers with a credential for
    the name equal to it; a failed lookup, for either reason, reports its error
    and is never correct.
   */
  function IsPasswordCorrect(store: CredentialStore, name: string, password: string): (r: PasswordCheck)
    ensures r.authed <==> store.Reachable? && name in store.users && store.users[name] == password
    ensures r.err == Some(NotFound) <==> store.Reachable? && name !in store.users
    ensures r.err == Some(StoreFailure) <==> store.Unreachable?
    ensures r.err.Some? ==> !r.authed
  {
    match store
    case Unreachable => PasswordCheck(false, Some(StoreFailure))
    case Reachable(users) =>
      if name !in users then PasswordCheck(false, Some(NotFound))
      else PasswordCheck(password == users[name], None)
  }

  /** What the gate logs for one request. */
  datatype AuthOutcome = UnknownClient | Authenticated | Rejected(err: Option<LookupError>)

  /**
    The outcome of one request: a name with no registry entry is unknown and the
    store is not consulted; otherwise the credential check decides.
   */
  function AuthOutcomeOf(clients: Registry, info: PlayerAuthInfo, store: CredentialStore): (r: AuthOutcome)
    ensures r.UnknownClient? <==> info.name !in clients
    ensures r.Authenticated? <==>
      info.name in clients && store.Reachable? && info.name in store.users && store.users[info.name] == info.password
    ensures r.Rejected? ==> (r.err.Some? <==> store.Unreachable? || info.name !in store.users)
    ensures r.Rejected? && store.Unreachable? ==> r.err == Some(StoreFailure)
  {
    if info.name !in clients then UnknownClient
    else
      var check := IsPasswordCorrect(store, info.name, info.password);
      if check.authed then Authenticated else Rejected(check.err)
  }

  /**
    The registry after one request: the entry keyed by the name gets its flag
    raised when the password is correct; no entry is added or removed, no other
    entry changes, and no flag is ever lowered.
   */
  function AfterAuth(clients: Registry, info: PlayerAuthInfo, store: CredentialStore): (r: Registry)
    ensures r.Keys == clients.Keys
    ensures forall k :: k in clients && k != info.name ==> r[k] == clients[k]
    ensures forall k :: k in clients && clients[k].authenticated ==> r[k].authenticated
    ensures info.name in clients ==>
      r[info.name] == clients[info.name].(authenticated := clients[info.name].authenticated ||
        (store.Reachable? && info.name in store.users && store.users[info.name] == info.password))
    ensures KeyedByClientId(clients) ==> KeyedByClientId(r)
    ensures NoQuitStored(clients) ==> NoQuitStored(r)
  {
    if AuthOutcomeOf(clients, info, store).Authenticated? then
      clients[info.name := clients[info.name].(authenticated := true)]
    else
      clients
  }

  /** A request for a name with no registry entry changes nothing, whatever the store holds. */
  lemma UnknownClientIgnoresStore(clients: Registry, info: PlayerAuthInfo, store1: CredentialStore, store2: CredentialStore)
    requires info.name !in clients
    ensures AfterAuth(clients, info, store1) == clients == AfterAuth(clients, info, store2)
    ensures AuthOutcomeOf(clients, info, store1) == UnknownClient == AuthOutcomeOf(clients, info, store2)
  {
  }

  /** A wrong password or a failed lookup leaves the registry as it was. */
  lemma RejectedChangesNothing(clients: Registry, info: PlayerAuthInfo, store: CredentialStore)
    requires !AuthOutcomeOf(clients, info, store).Authenticated?
    ensures AfterAuth(clients, info, store) == clients
  {
  }

  /**
    When the store cannot be queried, a registered name is rejected with the
    store's error and the registry is left as it was.
   */
  lemma StoreFailureChangesNothing(clients: Registry, info: PlayerAuthInfo)
    requires info.name in clients
    ensures AuthOutcomeOf(clients, info, Unreachable) == Rejected(Some(StoreFailure))
    ensures AfterAuth(clients, info, Unreachable) == clients
  {
  }
}
