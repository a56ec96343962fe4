/** The authenticated-session registry of the OnlyFans API facade: a map
    from account id to auth record, with lookup, deduplicating login, the
    scoped login's branch decisions, removal and the invalid-auth sweep.
    Everything the authenticator, the issue endpoint and the transport do
    enters as an oracle argument. */
module AuthRegistry {
  import opened Wrappers
  import opened Json

  /** An auth record: the remote id, whether it reports itself authed,
      whether its transport session has been closed, and the attached
      login-issues report (absent when the report carries no data). */
  datatype Auth = Auth(id: int, authed: bool, sessionClosed: bool, issues: Option<map<string, Value>>)

  type Registry = map<int, Auth>

  datatype AuthError =
    | MissingKey(key: string)   // a `KeyError` on a payload dict
    | UnhashableId              // a `TypeError`: a list or dict used as the lookup key
    | NotRegistered(id: int)    // a `KeyError` from `del` on the registry
    | CloseFailed(id: int)      // the transport session's `close()` raised
    | External(reason: string)  // raised by the authenticator or the login-issues endpoint

  /** Every entry is stored under its own id. */
  ghost predicate WellKeyed(reg: Registry) {
    forall k :: k in reg ==> reg[k].id == k
  }

  /** `find_auth(identifier)`: the entry under `identifier`, if any. */
  function FindAuth(reg: Registry, identifier: int): (r: Option<Auth>)
    ensures r.Some? <==> identifier in reg
    ensures r.Some? ==> r.value == reg[identifier]
  {
    if identifier in reg then Some(reg[identifier]) else None
  }

  /** `self.auths.get(v)` for a payload value `v`: Python compares an int
      key with `True`/`False` as 1/0, never with a string or `None`, and
      refuses lists and dicts as keys. */
  function LookupId(reg: Registry, v: Value): (r: Result<Option<Auth>, AuthError>)
    ensures v.Int? ==> r == Success(FindAuth(reg, v.n))
    ensures v.Bool? ==> r == Success(FindAuth(reg, if v.b then 1 else 0))
    ensures v.Null? || v.Str? ==> r == Success(None)
    ensures v.List? || v.Dict? ==> r == Failure(UnhashableId)
  {
    match v
    case Int(n) => Success(FindAuth(reg, n))
    case Bool(b) => Success(FindAuth(reg, if b then 1 else 0))
    case Null => Success(None)
    case Str(_) => Success(None)
    case List(_) => Failure(UnhashableId)
    case Dict(_) => Failure(UnhashableId)
  }

  /** `add_auth(auth)`: store the record under its id. */
  function AddAuth(reg: Registry, auth: Auth): (r: Registry)
    ensures r.Keys == reg.Keys + {auth.id}
    ensures r[auth.id] == auth
    ensures forall k :: k in reg && k != auth.id ==> r[k] == reg[k]
    ensures WellKeyed(reg) ==> WellKeyed(r)
  {
    reg[auth.id := auth]
  }

  /** The issue report attached to a freshly authed record: kept when its
      "data" entry is truthy, dropped otherwise; a report without "data"
      raises. */
  function AttachIssues(auth: Auth, report: map<string, Value>): (r: Result<Auth, AuthError>)
    ensures "data" !in report ==> r == Failure(MissingKey("data"))
    ensures "data" in report ==>
      && r.Success?
      && r.value.id == auth.id
      && r.value.authed == auth.authed
      && r.value.sessionClosed == auth.sessionClosed
    ensures "data" in report && Truthy(report["data"]) ==> r.Success? && r.value.issues == Some(report)
    ensures "data" in report && !Truthy(report["data"]) ==> r.Success? && r.value.issues.None?
  {
    if "data" !in report then Failure(MissingKey("data"))
    else Success(auth.(issues := if Truthy(report["data"]) then Some(report) else None))
  }

  // ---------------------------------------------------------------------
  // login
  // ---------------------------------------------------------------------

  /** The last steps both login forms take for an authed record: fetch the
      login-issues report (`report`, which may have raised), attach it and
      register the record. An exception on the way propagates before
      `add_auth` runs, so it leaves the registry as it was. */
  function RegisterAuthed(reg: Registry, auth: Auth, report: Result<map<string, Value>, AuthError>)
    : (r: (Registry, Result<Auth, AuthError>))
    ensures report.Failure? ==> r == (reg, Failure(report.error))
    ensures report.Success? ==> r.1 == AttachIssues(auth, report.value)
    ensures r.1.Success? ==> r.1.value.id == auth.id && r.0 == reg[auth.id := r.1.value]
    ensures r.1.Failure? ==> r.0 == reg
    ensures WellKeyed(reg) ==> WellKeyed(r.0)
  {
    match report
    case Failure(e) => (reg, Failure(e))
    case Success(issues) =>
      match AttachIssues(auth, issues)
      case Success(withIssues) => (AddAuth(reg, withIssues), Success(withIssues))
      case Failure(e) => (reg, Failure(e))
  }

  /** What the outside world answers on the uncached path: the result of
      `authenticator.login(guest)` or the exception it raised, the
      authenticator's `is_authed()`, and the report of `get_login_issues()`
      or the exception it raised. */
  datatype LoginOracle = LoginOracle(
    result: Result<Option<Auth>, AuthError>,
    authenticatorAuthed: bool,
    report: Result<map<string, Value>, AuthError>)

  /** The registry after the call, the returned value (`None` included) or
      the raised error, and whether an authenticator was constructed. */
  datatype LoginStep = LoginStep(registry: Registry, outcome: Result<Option<Auth>, AuthError>, authenticatorBuilt: bool)

  /** `login(auth_json, guest)`. */
  function Login(reg: Registry, authJson: map<string, Value>, oracle: LoginOracle): (s: LoginStep)
    // Empty credentials never reach the registry lookup.
    ensures |authJson| == 0 ==> s.authenticatorBuilt
    // Credentials without an id raise before anything happens.
    ensures |authJson| > 0 && "id" !in authJson ==>
      s == LoginStep(reg, Failure(MissingKey("id")), false)
    // An id already registered returns that entry; nothing else happens.
    ensures (|authJson| > 0 && "id" in authJson && LookupId(reg, authJson["id"]).Success? &&
             LookupId(reg, authJson["id"]).value.Some?) ==>
      s == LoginStep(reg, LookupId(reg, authJson["id"]), false)
    ensures |authJson| > 0 && "id" in authJson && LookupId(reg, authJson["id"]).Failure? ==>
      s == LoginStep(reg, Failure(UnhashableId), false)
    ensures |authJson| > 0 && "id" in authJson && LookupId(reg, authJson["id"]) == Success(None) ==>
      s.authenticatorBuilt
    // Without an authenticator the registry is untouched.
    ensures !s.authenticatorBuilt ==> s.registry == reg
    // Uncached, and the authenticator raised, found nothing or is not
    // authed: its result (or exception) comes back, registry unchanged.
    ensures s.authenticatorBuilt &&
            !(oracle.result.Success? && oracle.result.value.Some? && oracle.authenticatorAuthed) ==>
      s.registry == reg && s.outcome == oracle.result
    // Uncached and authed: a raising issue request propagates; otherwise
    // the record, with issues attached, is returned and registered.
    ensures s.authenticatorBuilt &&
            oracle.result.Success? && oracle.result.value.Some? && oracle.authenticatorAuthed ==>
      match oracle.report
      case Failure(e) => s.outcome == Failure(e) && s.registry == reg
      case Success(report) =>
        match AttachIssues(oracle.result.value.value, report)
        case Success(a) => s.outcome == Success(Some(a)) && s.registry == reg[a.id := a]
        case Failure(e) => s.outcome == Failure(e) && s.registry == reg
    // The registry only ever gains the record that is returned.
    ensures s.registry != reg ==>
      s.outcome.Success? && s.outcome.value.Some? &&
      s.registry == reg[s.outcome.value.value.id := s.outcome.value.value]
    ensures WellKeyed(reg) ==> WellKeyed(s.registry)
  {
    var cached: Result<Option<Auth>, AuthError> :=
      if |authJson| == 0 then Success(None)
      else if "id" !in authJson then Failure(MissingKey("id"))
      else LookupId(reg, authJson["id"]);
    match cached
    case Failure(e) => LoginStep(reg, Failure(e), false)
    case Success(Some(a)) => LoginStep(reg, Success(Some(a)), false)
    case Success(None) =>
      match oracle.result
      case Failure(e) => LoginStep(reg, Failure(e), true)
      case Success(None) => LoginStep(reg, Success(None), true)
      case Success(Some(a)) =>
        if oracle.authenticatorAuthed then
          var (after, registered) := RegisterAuthed(reg, a, oracle.report);
          match registered
          case Success(withIssues) => LoginStep(after, Success(Some(withIssues)), true)
          case Failure(e) => LoginStep(after, Failure(e), true)
        else LoginStep(reg, Success(Some(a)), true)
  }

  /** Logging in twice with the same id converges: once the first login
      registered the account, the second returns that very entry, builds no
      authenticator and leaves exactly one entry for the id. The
      authenticator must report the id the credentials carry. */
  lemma LoginTwiceConverges(reg: Registry, authJson: map<string, Value>, id: int,
                            first: LoginOracle, second: LoginOracle)
    requires WellKeyed(reg)
    requires "id" in authJson && authJson["id"] == Int(id)
    requires first.result.Success? && first.result.value.Some? && first.result.value.value.id == id
    requires first.authenticatorAuthed
    requires first.report.Success? && "data" in first.report.value
    ensures var s1 := Login(reg, authJson, first);
      var s2 := Login(s1.registry, authJson, second);
      && s1.outcome.Success? && s1.outcome.value.Some?
      && s2 == LoginStep(s1.registry, s1.outcome, false)
      && id in s2.registry && s2.registry[id] == s1.outcome.value.value
      && (forall k :: k in s2.registry && s2.registry[k].id == id ==> k == id)
  {
  }

  // ---------------------------------------------------------------------
  // login_context
  // ---------------------------------------------------------------------

  /** How the scoped login's generator ends up: it yields a record, it
      returns without yielding (the context manager then raises), or it
      raises. */
  datatype ScopeOutcome = Yields(auth: Auth) | NeverYields | Raises(error: AuthError)

  datatype ScopeStep = ScopeStep(registry: Registry, outcome: ScopeOutcome, authenticatorBuilt: bool)

  /** What the outside world answers inside `async with authenticator`:
      the entered record (if any) or the exception entering raised, and the
      login-issues report or the exception its request raised. */
  datatype ScopeOracle = ScopeOracle(
    entered: Result<Option<Auth>, AuthError>,
    report: Result<map<string, Value>, AuthError>)

  /** `login_context(auth_json, guest)`: its branch decisions. */
  function LoginContext(reg: Registry, authJson: map<string, Value>, oracle: ScopeOracle): (s: ScopeStep)
    // The id is read unconditionally, so empty credentials raise too.
    ensures "id" !in authJson ==> s == ScopeStep(reg, Raises(MissingKey("id")), false)
    ensures "id" in authJson && LookupId(reg, authJson["id"]).Failure? ==>
      s == ScopeStep(reg, Raises(UnhashableId), false)
    // A registered id is yielded as is; nothing is acquired or changed.
    ensures ("id" in authJson && LookupId(reg, authJson["id"]).Success? &&
             LookupId(reg, authJson["id"]).value.Some?) ==>
      s == ScopeStep(reg, Yields(LookupId(reg, authJson["id"]).value.value), false)
    ensures "id" in authJson && LookupId(reg, authJson["id"]) == Success(None) ==> s.authenticatorBuilt
    ensures !s.authenticatorBuilt ==> s.registry == reg
    // Uncached, and entering raised: the exception propagates.
    ensures s.authenticatorBuilt && oracle.entered.Failure? ==>
      s == ScopeStep(reg, Raises(oracle.entered.error), true)
    // Uncached, and nothing authed was entered: no yield, registry unchanged.
    ensures s.authenticatorBuilt && oracle.entered.Success? &&
            !(oracle.entered.value.Some? && oracle.entered.value.value.authed) ==>
      s == ScopeStep(reg, NeverYields, true)
    // Uncached and authed: a raising issue request propagates; otherwise
    // the record, with issues attached, is registered and yielded.
    ensures s.authenticatorBuilt && oracle.entered.Success? &&
            oracle.entered.value.Some? && oracle.entered.value.value.authed ==>
      match oracle.report
      case Failure(e) => s.outcome == Raises(e) && s.registry == reg
      case Success(report) =>
        match AttachIssues(oracle.entered.value.value, report)
        case Success(a) => s.outcome == Yields(a) && s.registry == reg[a.id := a]
        case Failure(e) => s.outcome == Raises(e) && s.registry == reg
    ensures WellKeyed(reg) && s.outcome.Yields? ==>
      s.outcome.auth.id in s.registry && s.registry[s.outcome.auth.id] == s.outcome.auth
    ensures WellKeyed(reg) ==> WellKeyed(s.registry)
  {
    if "id" !in authJson then ScopeStep(reg, Raises(MissingKey("id")), false)
    else
      match LookupId(reg, authJson["id"])
      case Failure(e) => ScopeStep(reg, Raises(e), false)
      case Success(Some(a)) =>
        assert WellKeyed(reg) ==> a.id in reg;
        ScopeStep(reg, Yields(a), false)
      case Success(None) =>
        match oracle.entered
        case Failure(e) => ScopeStep(reg, Raises(e), true)
        case Success(None) => ScopeStep(reg, NeverYields, true)
        case Success(Some(a)) =>
          if a.authed then
            var (after, registered) := RegisterAuthed(reg, a, oracle.report);
            match registered
            case Success(withIssues) => ScopeStep(after, Yields(withIssues), true)
            case Failure(e) => ScopeStep(after, Raises(e), true)
          else ScopeStep(reg, NeverYields, true)
  }

  /** For non-empty credentials the two login forms make the same
      decisions: given the same authenticator answers they register the
      same record and build an authenticator in the same cases; a yield is
      `login`'s returned record, a raise its raised error, and a scope
      that never yields is one where `login` returned nothing authed. */
  lemma LoginAndScopeAgree(reg: Registry, authJson: map<string, Value>,
                           plain: LoginOracle, scoped: ScopeOracle)
    requires |authJson| > 0
    requires plain.result == scoped.entered && plain.report == scoped.report
    requires plain.result.Success? && plain.result.value.Some? ==>
      plain.authenticatorAuthed == plain.result.value.value.authed
    ensures var s1 := Login(reg, authJson, plain);
      var s2 := LoginContext(reg, authJson, scoped);
      && s1.registry == s2.registry
      && s1.authenticatorBuilt == s2.authenticatorBuilt
      && (s2.outcome.Yields? ==> s1.outcome == Success(Some(s2.outcome.auth)))
      && (s2.outcome.Raises? ==> s1.outcome == Failure(s2.outcome.error))
      && (s2.outcome.NeverYields? ==>
            s1.outcome.Success? && (s1.outcome.value.None? || !s1.outcome.value.value.authed))
  {
  }

  // ---------------------------------------------------------------------
  // remove_auth and remove_invalid_auths
  // ---------------------------------------------------------------------

  /** The registry after a removal, the record whose session was closed
      (if the close returned), and the error raised (if any). */
  datatype RemoveStep = RemoveStep(registry: Registry, closed: Option<Auth>, error: Option<AuthError>)

  /** `remove_auth(auth)`: close the session, then delete the entry under
      the record's id. `closeFails` is whether `close()` raises. */
  function RemoveAuth(reg: Registry, auth: Auth, closeFails: bool): (s: RemoveStep)
    // A failing close aborts before the entry is touched.
    ensures closeFails ==> s == RemoveStep(reg, None, Some(CloseFailed(auth.id)))
    // Otherwise the session is closed first ...
    ensures !closeFails ==> s.closed == Some(auth.(sessionClosed := true))
    // ... and the entry goes, or `del` raises when there is none.
    ensures !closeFails && auth.id in reg ==> s.registry == reg - {auth.id} && s.error.None?
    ensures !closeFails && auth.id !in reg ==> s.registry == reg && s.error == Some(NotRegistered(auth.id))
    // The entry is deleted only after the close returned; when the passed
    // record is the registered one, that entry's session is what was closed.
    ensures auth.id in reg && auth.id !in s.registry ==> !closeFails && s.closed.Some?
    ensures !closeFails && auth.id in reg && reg[auth.id] == auth ==>
      s.closed == Some(reg[auth.id].(sessionClosed := true))
    ensures forall k :: k in s.registry ==> k in reg && s.registry[k] == reg[k]
  {
    if closeFails then RemoveStep(reg, None, Some(CloseFailed(auth.id)))
    else
      var closed := auth.(sessionClosed := true);
      if auth.id in reg then RemoveStep(reg - {auth.id}, Some(closed), None)
      else RemoveStep(reg, Some(closed), Some(NotRegistered(auth.id)))
  }

  /** A non-empty set has a member; this only justifies the `:|` pick in
      `RemoveInvalidAuths`. */
  lemma NonEmptyHasMember(s: set<int>)
    requires s != {}
    ensures exists x :: x in s
  {
    if forall x :: x !in s {
      assert false;
    }
  }

  /** `remove_invalid_auths()`: walk a copy of the registry and remove every
      record that is not authed; `closeFailures` holds the ids whose
      `close()` raises. The copy's order is not part of the model, so the
      entries are taken in an arbitrary order. Returns the registry after
      the sweep, the records closed on the way (by id) and the error that
      aborted it. */
  method RemoveInvalidAuths(reg: Registry, closeFailures: set<int>)
    returns (after: Registry, closed: map<int, Auth>, error: Option<AuthError>)
    ensures forall k :: k in after ==> k in reg && after[k] == reg[k]
    ensures WellKeyed(reg) ==> WellKeyed(after)
    // Authed records always stay.
    ensures WellKeyed(reg) ==> forall k :: k in reg && reg[k].authed ==> k in after
    // Exactly the removed records were closed, each one not authed and
    // none whose close raises.
    ensures forall k :: k in closed ==> k !in closeFailures
    ensures WellKeyed(reg) ==> closed.Keys == reg.Keys - after.Keys
    ensures WellKeyed(reg) ==> forall k :: k in closed ==>
      !reg[k].authed && closed[k] == reg[k].(sessionClosed := true)
    // The sweep completes exactly when no invalid record's close fails ...
    ensures WellKeyed(reg) ==>
      (error.None? <==> forall k :: k in reg && !reg[k].authed ==> k !in closeFailures)
    // ... and then leaves exactly the authed records.
    ensures WellKeyed(reg) && error.None? ==> after == map k | k in reg && reg[k].authed :: reg[k]
    // An abort names an invalid record whose close failed; it stays registered.
    ensures WellKeyed(reg) && error.Some? ==>
      exists k :: k in after && !reg[k].authed && k in closeFailures && error == Some(CloseFailed(k))
  {
    var snapshot := reg;
    var pending := snapshot.Keys;
    after := reg;
    closed := map[];
    error := None;
    while pending != {}
      invariant forall k :: k in pending ==> k in reg
      invariant forall k :: k in after ==> k in reg && after[k] == reg[k]
      invariant WellKeyed(reg) ==> forall k :: k in reg ==> (k in after <==> k in pending || reg[k].authed)
      invariant WellKeyed(reg) ==> closed.Keys == reg.Keys - after.Keys
      invariant forall k :: k in closed ==> k !in closeFailures
      invariant WellKeyed(reg) ==> forall k :: k in closed ==>
        !reg[k].authed && closed[k] == reg[k].(sessionClosed := true)
      invariant WellKeyed(reg) ==>
        forall k :: k in reg && k !in pending && !reg[k].authed ==> k !in closeFailures
      decreases pending
    {
      NonEmptyHasMember(pending);
      var key :| key in pending;
      pending := pending - {key};
      var auth := snapshot[key];
      if !auth.authed {
        var step := RemoveAuth(after, auth, auth.id in closeFailures);
        after := step.registry;
        if step.closed.Some? {
          closed := closed[auth.id := step.closed.value];
        }
        if step.error.Some? {
          error := step.error;
          return;
        }
      }
    }
    if WellKeyed(reg) {
      var authed := map k | k in reg && reg[k].authed :: reg[k];
      assert forall k :: k in after <==> k in authed;
      assert forall k :: k in after ==> after[k] == authed[k];
      assert after == authed;
    }
  }
}
