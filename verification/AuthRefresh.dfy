/**
 Refreshing the authentication of a connected client: the cookie jar and page state of the backend,
 the saved secrets and the client's own copy are changed together or not at all.  Also the client's
 lock sections, in any interleaving.
 */
module AuthRefresh {
  import opened Basics
  import opened Storage
  import opened Profiles
  import Cookies

  /** What a page load yields about the logged-in account. */
  datatype PageState = PageState(fbid: string, tokens: Secret)

  datatype AuthState = AuthState(cookies: Cookies.Cookies, fbid: string, tokens: Secret)

  datatype AuthError =
    | ClientClosed | NotConnected | PageLoad | AccountMismatch | SourceInvalid | ValidationFailed
    | Persist(error: ProfileError)

  /** Whether a failed refresh had anything to undo, and whether undoing it reported an error. */
  datatype Undo = NotNeeded | Undone | UndoFailed(error: AuthError)

  datatype RefreshError = RefreshError(cause: AuthError, undo: Undo)

  /**
   One page load: what its responses make of the cookies it was sent, and the page state, if it is
   complete.  Cookies may change whether or not the load succeeds.
   */
  datatype Load = Load(jar: Cookies.Cookies -> Cookies.Cookies, page: Option<PageState>)

  /** A backend's jar, its kept page state and its page loads to come, after which they fail. */
  datatype BackendState = BackendState(jar: Cookies.Cookies, page: Option<PageState>, loads: seq<Load>)

  const FAILING: Load := Load(c => c, None)

  function NextLoad(b: BackendState): Load { if b.loads == [] then FAILING else b.loads[0] }

  function RestOf(loads: seq<Load>): seq<Load> { if loads == [] then [] else loads[1..] }

  /** The backend after its state was read, which loads a page unless one is kept. */
  function AfterRead(b: BackendState): BackendState {
    if b.page.Some? then b
    else BackendState(NextLoad(b).jar(b.jar), NextLoad(b).page, RestOf(b.loads))
  }

  /** The backend after a refresh with the given cookies, whose page load may fail. */
  function AfterRefresh(b: BackendState, values: Cookies.Cookies): BackendState {
    if NextLoad(b).page.Some?
    then BackendState(NextLoad(b).jar(values), NextLoad(b).page, RestOf(b.loads))
    else b.(loads := RestOf(b.loads))
  }

  /** The messagix backend. */
  class Backend {
    var jar: Cookies.Cookies
    var page: Option<PageState>
    var loads: seq<Load>

    constructor (jar: Cookies.Cookies, loads: seq<Load>)
      ensures View() == BackendState(jar, None, loads)
    {
      this.jar, this.page, this.loads := jar, None, loads;
    }

    function View(): BackendState
      reads this
    {
      BackendState(jar, page, loads)
    }

    /** Reads the state of the account; the jar is read after the page load, if there has to be one. */
    method ReadAuthState() returns (r: Result<AuthState, AuthError>)
      modifies this
      ensures View() == AfterRead(old(View()))
      ensures r == if page.Some? then Ok(AuthState(jar, page.value.fbid, page.value.tokens)) else Err(PageLoad)
      ensures old(page).Some? || old(loads) == [] ==> View() == old(View())
      ensures old(page).None? && old(loads) != [] ==>
        jar == old(loads)[0].jar(old(jar)) && page == old(loads)[0].page && loads == old(loads)[1..]
    {
      if page.None? {
        if loads == [] { return Err(PageLoad); }
        var load := loads[0];
        loads := loads[1..];
        jar := load.jar(jar);
        if load.page.None? { return Err(PageLoad); }
        page := load.page;
      }
      r := Ok(AuthState(jar, page.value.fbid, page.value.tokens));
    }

    /** Tries new cookies; if the page does not load with them, the jar and page state go back. */
    method RefreshAuth(values: Cookies.Cookies) returns (r: Result<AuthState, AuthError>)
      modifies this
      ensures View() == AfterRefresh(old(View()), values)
      ensures r.Ok? <==> NextLoad(old(View())).page.Some?
      ensures r.Ok? ==> page.Some? && r.value == AuthState(jar, page.value.fbid, page.value.tokens)
      ensures r.Err? ==> r == Err(PageLoad) && jar == old(jar) && page == old(page)
      ensures r.Ok? <==> old(loads) != [] && old(loads)[0].page.Some?
      ensures r.Ok? ==> jar == old(loads)[0].jar(values) && page == old(loads)[0].page
    {
      var previousCookies, previousState := jar, page;
      page := None;
      jar := values;
      r := ReadAuthState();
      if r.Ok? { return; }
      jar := previousCookies;
      page := previousState;
    }
  }

  datatype AuthSource = SourceNone | SourceCookies | SourceAppState | SourceCredentials

  /** The part of a client its lock guards; `app` and `credentials` stand for the material they hold. */
  datatype ClientState = ClientState(
    closed: bool, connected: bool, cookies: Cookies.Cookies,
    app: Option<Secret>, credentials: Option<Secret>, source: AuthSource)

  /** The client after its cookies have become its only authentication material. */
  function WithCookies(c: ClientState, cookies: Cookies.Cookies): ClientState {
    c.(cookies := cookies, app := None, credentials := None, source := SourceCookies)
  }

  /** The lock sections of a client's operations, each atomic. */
  datatype Section =
    | CloseSection
    | ConnectCommit(cookies: Cookies.Cookies)
    | CredentialCommit(cookies: Cookies.Cookies)
    | RefreshCommit(cookies: Cookies.Cookies)
    | SnapshotCommit(cookies: Cookies.Cookies)

  function RunSection(c: ClientState, s: Section): ClientState {
    match s
    case CloseSection => if c.closed then c else ClientState(true, false, map[], None, None, SourceNone)
    case ConnectCommit(cookies) =>
      if c.closed then c
      else if c.source == SourceNone then c.(connected := true)
      else WithCookies(c.(connected := true), cookies)
    case CredentialCommit(cookies) =>
      if c.closed || c.source != SourceCredentials then c
      else c.(cookies := cookies, credentials := None, source := SourceCookies)
    case RefreshCommit(cookies) => if c.closed then c else WithCookies(c, cookies)
    case SnapshotCommit(cookies) => if c.closed then c else WithCookies(c, cookies)
  }

  function RunSections(c: ClientState, sections: seq<Section>): ClientState
    decreases |sections|
  {
    if sections == [] then c else RunSections(RunSection(c, sections[0]), sections[1..])
  }

  /** Nothing a closed client could authenticate with. */
  predicate Emptied(c: ClientState) {
    c.closed ==> !c.connected && c.cookies == map[] && c.app == None && c.credentials == None && c.source == SourceNone
  }

  /**
   Whatever sections of other operations run before or after it, once a client's close section has
   run the client is closed and holds no authentication material, for good.
   */
  lemma {:induction false} ClosedClientStaysEmpty(c: ClientState, before: seq<Section>, after: seq<Section>)
    requires Emptied(c)
    ensures RunSections(c, before + [CloseSection] + after) == ClientState(true, false, map[], None, None, SourceNone)
    decreases |before|, |after|
  {
    var all := before + [CloseSection] + after;
    if before != [] {
      assert all[0] == before[0] && all[1..] == before[1..] + [CloseSection] + after;
      ClosedClientStaysEmpty(RunSection(c, before[0]), before[1..], after);
    } else {
      assert all[0] == CloseSection && all[1..] == after;
      var emptied := ClientState(true, false, map[], None, None, SourceNone);
      if after != [] {
        assert ([] + [CloseSection] + after[1..])[1..] == after[1..];
        ClosedClientStaysEmpty(emptied, [], after[1..]);
        assert RunSections(emptied, [CloseSection] + after[1..]) == RunSections(emptied, after[1..]);
        assert [] + [CloseSection] + after[1..] == [CloseSection] + after[1..];
      }
    }
  }

  /** A client never holds both cookies it authenticates with and the credentials they came from. */
  lemma {:induction false} CredentialsAreDropped(c: ClientState, sections: seq<Section>)
    requires c.source == SourceCookies ==> c.credentials == None && c.app == None
    requires c.source == SourceCredentials ==> c.app == None
    ensures var d := RunSections(c, sections); d.source == SourceCookies ==> d.credentials == None && d.app == None
    decreases |sections|
  {
    if sections != [] { CredentialsAreDropped(RunSection(c, sections[0]), sections[1..]); }
  }

  lemma {:induction false} RunOneSectionMore(c: ClientState, sections: seq<Section>, s: Section)
    ensures RunSections(c, sections + [s]) == RunSection(RunSections(c, sections), s)
    decreases |sections|
  {
    if sections == [] {
      assert [s][1..] == [];
    } else {
      assert (sections + [s])[1..] == sections[1..] + [s];
      RunOneSectionMore(RunSection(c, sections[0]), sections[1..], s);
    }
  }

  /** A client is closed exactly when a close section has run, and connected when a connect did before any. */
  lemma {:induction false} ConnectedUntilClosed(c: ClientState, sections: seq<Section>)
    requires !c.closed
    ensures var d := RunSections(c, sections);
      && (d.closed <==> CloseSection in sections)
      && (CloseSection !in sections ==>
            (d.connected <==> c.connected || exists i :: 0 <= i < |sections| && sections[i].ConnectCommit?))
    decreases |sections|
  {
    if sections != [] {
      var front, last := sections[..|sections| - 1], sections[|sections| - 1];
      assert sections == front + [last];
      ConnectedUntilClosed(c, front);
      RunOneSectionMore(c, front, last);
    }
  }

  /**
   The latest commit before a close decides: whatever ran before it, the client then has its cookies as
   the only authentication material.
   */
  lemma CommitInstallsCookies(c: ClientState, before: seq<Section>, commit: Section)
    requires !c.closed && CloseSection !in before
    requires || commit.RefreshCommit? || commit.SnapshotCommit?
             || (commit.ConnectCommit? && RunSections(c, before).source != SourceNone)
             || (commit.CredentialCommit? && RunSections(c, before).source == SourceCredentials)
    ensures var d := RunSections(c, before + [commit]);
      && d.cookies == commit.cookies && d.source == SourceCookies && d.credentials.None? && !d.closed
      && (!commit.CredentialCommit? ==> d.app.None?)
      && d.connected == (commit.ConnectCommit? || RunSections(c, before).connected)
  {
    ConnectedUntilClosed(c, before);
    RunOneSectionMore(c, before, commit);
  }

  /** New cookies to refresh with, when a source is given, and what validating them says. */
  datatype Source = Source(resolved: Option<Cookies.Cookies>, validated: Option<string>)

  /** A source resolves to cookies of the connected account, and validating them agrees. */
  predicate SourceAccepted(source: Option<Source>, account: string) {
    source.Some? ==>
      && account != "" && source.value.validated == Some(account)
      && source.value.resolved.Some?
      && "c_user" in source.value.resolved.value && source.value.resolved.value["c_user"] == account
  }

  class Client {
    var closed: bool
    var connected: bool
    const backend: Backend
    const account: string
    const profile: string                  // empty when the client has no profile
    const manager: ProfileManager
    var cookies: Cookies.Cookies
    var app: Option<Secret>
    var credentials: Option<Secret>
    var source: AuthSource

    constructor (backend: Backend, account: string, profile: string, manager: ProfileManager)
      ensures this.backend == backend && this.account == account && this.profile == profile && this.manager == manager
      ensures View() == ClientState(false, true, map[], None, None, SourceNone)
    {
      this.backend, this.account, this.profile, this.manager := backend, account, profile, manager;
      closed, connected := false, true;
      cookies, app, credentials, source := map[], None, None, SourceNone;
    }

    function View(): ClientState
      reads this
    {
      ClientState(closed, connected, cookies, app, credentials, source)
    }

    method Close()
      modifies this
      ensures View() == RunSection(old(View()), CloseSection)
    {
      if closed { return; }
      closed, connected := true, false;
      cookies, app, credentials, source := map[], None, None, SourceNone;
    }

    /** The checks on a source before anything is changed. */
    method NewCookies(source: Option<Source>, previous: Cookies.Cookies) returns (r: Result<Cookies.Cookies, AuthError>)
      ensures r.Ok? <==> SourceAccepted(source, account)
      ensures r.Ok? ==> r.value == Wanted(source, previous)
      ensures r.Ok? && source.Some? ==>
        && source.value.resolved == Some(r.value) && source.value.validated == Some(account)
        && "c_user" in r.value && r.value["c_user"] == account
      ensures r.Err? ==>
        && source.Some?
        && match source.value.resolved
           case Some(c) =>
             || account == "" || "c_user" !in c || c["c_user"] != account
             || source.value.validated != Some(account)
           case None => true
      ensures r.Ok? && source.None? ==> r.value == previous
      ensures r.Err? ==> r.error in {SourceInvalid, AccountMismatch, ValidationFailed}
    {
      if source.None? { return Ok(previous); }
      if source.value.resolved.None? { return Err(SourceInvalid); }
      var candidate := source.value.resolved.value;
      var user := if "c_user" in candidate then candidate["c_user"] else "";
      if account == "" || user == "" || account != user { return Err(AccountMismatch); }
      if source.value.validated.None? { return Err(ValidationFailed); }
      if source.value.validated.value != account { return Err(AccountMismatch); }
      r := Ok(candidate);
    }

    /** Undoes a refresh by refreshing with the cookies from before, which loads a page once more. */
    method UndoRefresh(previous: Cookies.Cookies) returns (undo: Undo)
      modifies backend
      ensures backend.View() == AfterRefresh(old(backend.View()), previous)
      ensures undo == if NextLoad(old(backend.View())).page.Some? then Undone else UndoFailed(PageLoad)
    {
      var r := backend.RefreshAuth(previous);
      undo := if r.Ok? then Undone else UndoFailed(r.error);
    }

    /** Saves a refreshed state under the client's profile, if it has one. */
    method SaveState(ctx: Context, state: AuthState) returns (r: Outcome<AuthError>)
      modifies ctx, manager.secrets
      ensures r.Done? ==> Saved(old(manager.secrets.secrets), manager.secrets.secrets, state)
      ensures r.Failed? ==> manager.secrets.secrets == old(manager.secrets.secrets) && r.error != ClientClosed
      ensures old(ctx.script) == [] ==> (r.Done? <==> profile == "" || CanSave(state.cookies))
    {
      if profile == "" { return Done; }
      var stored := manager.SaveAuthSnapshot(ctx, profile, state.cookies, state.tokens);
      r := match stored case Done => Done case Failed(e) => Failed(Persist(e));
    }

    /**
     Installs cookies in the jar and saves what their page load makes of them, or undoes both.  On an
     error the jar is what it was, what the load of the undoing makes of that, or, when undoing fails,
     still the new one.
     */
    method Install(ctx: Context, next: Cookies.Cookies) returns (r: Result<AuthState, RefreshError>)
      modifies backend, ctx, manager.secrets
      ensures var b := old(backend.View());
        r.Ok? ==> r.value.fbid == account && backend.jar == r.value.cookies == NextLoad(b).jar(next)
      ensures r.Ok? ==>
        old(backend.loads) != [] && old(backend.loads)[0].page == Some(PageState(account, r.value.tokens))
      ensures r.Ok? ==> Saved(old(manager.secrets.secrets), manager.secrets.secrets, r.value)
      ensures r.Err? ==> r.error.cause != ClientClosed && manager.secrets.secrets == old(manager.secrets.secrets)
      ensures r.Err? ==> backend.jar == JarAfterFailure(old(backend.View()), next, r.error.undo)
      ensures r.Err? ==>
        r.error.undo == if NextLoad(old(backend.View())).page.None? then NotNeeded else UndoOf(old(backend.View()))
      ensures NamesOther(old(backend.View())) ==> r == Err(RefreshError(AccountMismatch, UndoOf(old(backend.View()))))
      ensures old(ctx.script) == [] ==> (r.Ok? <==> Installs(old(backend.View()), next))
    {
      var previous := backend.jar;
      var state := backend.RefreshAuth(next);
      if state.Err? { return Err(RefreshError(state.error, NotNeeded)); }
      if state.value.fbid != account {
        var undo := UndoRefresh(previous);
        return Err(RefreshError(AccountMismatch, undo));
      }
      var stored := SaveState(ctx, state.value);
      if stored.Failed? {
        var undo := UndoRefresh(previous);
        return Err(RefreshError(stored.error, undo));
      }
      r := Ok(state.value);
    }

    /** The next page load names an account that is not the client's. */
    predicate NamesOther(b: BackendState) {
      NextLoad(b).page.Some? && NextLoad(b).page.value.fbid != account
    }

    /** Refreshing with these cookies loads a page of the client's account, and the result can be saved. */
    predicate Installs(b: BackendState, next: Cookies.Cookies) {
      && NextLoad(b).page.Some? && NextLoad(b).page.value.fbid == account
      && (profile == "" || CanSave(NextLoad(b).jar(next)))
    }

    /** The last lock section of a refresh, after which the client has the new cookies or is closed. */
    method CommitRefresh(state: AuthState, closing: bool) returns (done: bool)
      requires !closed
      modifies this
      ensures done == !closing
      ensures View() == RunSection(old(View()), if closing then CloseSection else RefreshCommit(state.cookies))
    {
      if closing { Close(); }
      if closed { return false; }
      cookies := state.cookies;
      app, credentials := None, None;
      source := SourceCookies;
      done := true;
    }

    /**
     Refreshes the connected account's authentication.  `closing` tells whether another goroutine
     closes the client just before the last lock section.
     */
    method RefreshAuth(ctx: Context, source: Option<Source>, closing: bool) returns (r: Result<AuthState, RefreshError>)
      modifies this, backend, ctx, manager.secrets
      // committed together
      ensures r.Ok? ==> !closing && r.value.fbid == account && backend.jar == cookies == r.value.cookies
      ensures r.Ok? ==> View() == RunSection(old(View()), RefreshCommit(r.value.cookies))
      ensures r.Ok? ==> r.value.cookies == Refreshed(old(backend.View()), source)
      ensures r.Ok? ==> Saved(old(manager.secrets.secrets), manager.secrets.secrets, r.value)
      // with the cookies of the source, or those of the first read without one, as the refresh's load changed them
      ensures r.Ok? ==>
        var loads, i := old(backend.loads), if old(backend.page).Some? then 0 else 1;
        && i < |loads| && loads[i].page == Some(PageState(account, r.value.tokens))
        && (source.None? ==>
              cookies == loads[i].jar(if i == 0 then old(backend.jar) else loads[0].jar(old(backend.jar))))
        && (source.Some? ==> source.value.resolved.Some? && cookies == loads[i].jar(source.value.resolved.value))
      ensures r.Ok? ==>
        && this.source == SourceCookies && app.None? && credentials.None?
        && connected == old(connected) && !closed && !old(closed)
      // or left alone, as far as the page loads leave the jar alone
      ensures r.Err? && r.error.cause != ClientClosed ==>
        View() == old(View()) && manager.secrets.secrets == old(manager.secrets.secrets)
      ensures r.Err? && r.error.cause != ClientClosed && old(connected) ==>
        var b := AfterRead(old(backend.View()));
        backend.jar == JarAfterFailure(b, Wanted(source, b.jar), r.error.undo)
      ensures r.Err? && !old(connected) ==> backend.View() == old(backend.View())
      ensures r.Err? && r.error.cause != ClientClosed && !r.error.undo.UndoFailed? && Harmless(old(backend.View())) ==>
        backend.jar == old(backend.jar)
      ensures !old(closed) && old(connected) && SourceAccepted(source, account) ==>
        var b := AfterRead(old(backend.View()));
        && (b.page.Some? && NamesOther(b) ==> r == Err(RefreshError(AccountMismatch, UndoOf(b))))
        && (b.page.Some? && r.Err? && r.error.cause != ClientClosed ==>
              r.error.undo == if NextLoad(b).page.None? then NotNeeded else UndoOf(b))
      // or overtaken by a close, after the new state has been saved
      ensures r.Err? && r.error.cause == ClientClosed && !old(closed) ==>
        && closing && View() == RunSection(old(View()), CloseSection)
        && backend.jar == Refreshed(old(backend.View()), source)
        && exists state: AuthState :: (state.cookies == backend.jar && state.fbid == account
             && Saved(old(manager.secrets.secrets), manager.secrets.secrets, state))
      // and it does succeed when nothing it calls fails
      ensures !old(closed) && !closing && old(connected) && SourceAccepted(source, account) && old(ctx.script) == [] ==>
        var b := AfterRead(old(backend.View()));
        (r.Ok? <==> b.page.Some? && Installs(b, Wanted(source, b.jar)))
      ensures !old(closed) && !closing && old(connected) && source.None? && old(ctx.script) == [] && r.Err? ==>
        var loads, i := old(backend.loads), if old(backend.page).Some? then 0 else 1;
        || |loads| <= i || (i == 1 && loads[0].page.None?)
        || loads[i].page.None? || loads[i].page.value.fbid != account
        || (profile != "" &&
            !CanSave(loads[i].jar(if i == 0 then old(backend.jar) else loads[0].jar(old(backend.jar)))))
      ensures old(closed) ==>
        && r == Err(RefreshError(ClientClosed, NotNeeded)) && View() == old(View())
        && backend.View() == old(backend.View()) && manager.secrets.secrets == old(manager.secrets.secrets)
    {
      if closed { return Err(RefreshError(ClientClosed, NotNeeded)); }
      if !connected { return Err(RefreshError(NotConnected, NotNeeded)); }
      var previous := backend.ReadAuthState();
      if previous.Err? { return Err(RefreshError(previous.error, NotNeeded)); }
      var next := NewCookies(source, previous.value.cookies);
      if next.Err? { return Err(RefreshError(next.error, NotNeeded)); }
      r := Install(ctx, next.value);
      if r.Err? { return; }
      var done := CommitRefresh(r.value, closing);
      if !done { return Err(RefreshError(ClientClosed, NotNeeded)); }
    }

    /** The snapshot store accepts these cookies for the client's profile. */
    predicate CanSave(cookies: Cookies.Cookies) {
      && Cookies.RegularCookies(cookies)
      && ValidSecretKey(profile, "cookies") && ValidSecretKey(profile, "session")
    }

    /** The secrets after a refresh: a client with a profile has saved the new state there. */
    ghost predicate Saved(before: SecretMap, after: SecretMap, state: AuthState) {
      if profile == "" then after == before
      else
        exists text :: Cookies.Prints(state.cookies, text) && after ==
          before[SecretKey(profile, "cookies") := text][SecretKey(profile, "session") := state.tokens]
    }
  }

  /** The cookies a refresh sets out to install. */
  function Wanted(source: Option<Source>, current: Cookies.Cookies): Cookies.Cookies {
    if source.Some? && source.value.resolved.Some? then source.value.resolved.value else current
  }

  /** The cookies a successful refresh ends up with: what its page load makes of the wanted ones. */
  function Refreshed(b: BackendState, source: Option<Source>): Cookies.Cookies {
    NextLoad(AfterRead(b)).jar(Wanted(source, AfterRead(b).jar))
  }

  // ---------------------------------------------------------------------------------------------
  // The jar after a failed refresh

  /** The load that undoing a refresh makes, after the refresh's own. */
  function UndoLoad(b: BackendState): Load { NextLoad(b.(loads := RestOf(b.loads))) }

  /** How undoing a refresh will go. */
  function UndoOf(b: BackendState): Undo {
    if UndoLoad(b).page.Some? then Undone else UndoFailed(PageLoad)
  }

  /** The jar after a failed attempt to install cookies. */
  function JarAfterFailure(b: BackendState, next: Cookies.Cookies, undo: Undo): Cookies.Cookies {
    match undo
    case NotNeeded => b.jar
    case Undone => UndoLoad(b).jar(b.jar)
    case UndoFailed(_) => NextLoad(b).jar(next)
  }

  /** The first read, if it has to load a page, and the load of the undoing leave the cookies alone. */
  predicate Harmless(b: BackendState) {
    (b.page.None? ==> NextLoad(b).jar(b.jar) == b.jar) && UndoLoad(AfterRead(b)).jar(b.jar) == b.jar
  }

  /**
   The jar is what it was before the call both after a failure with nothing to undo and after one that
   was undone, exactly when the first read's page load and that of the undoing leave the cookies alone.
   */
  lemma JarIsKeptExactlyWhenLoadsAreHarmless(b: BackendState, source: Option<Source>)
    ensures var read := AfterRead(b);
      (forall undo: Undo :: !undo.UndoFailed? ==> JarAfterFailure(read, Wanted(source, read.jar), undo) == b.jar)
      <==> Harmless(b)
  {
    var read := AfterRead(b);
    var wanted := Wanted(source, read.jar);
    if forall undo: Undo :: !undo.UndoFailed? ==> JarAfterFailure(read, wanted, undo) == b.jar {
      assert JarAfterFailure(read, wanted, NotNeeded) == b.jar && JarAfterFailure(read, wanted, Undone) == b.jar;
    }
  }

  const STARTING: Cookies.Cookies := map["c_user" := "1", "xs" := "a"]

  const ROTATED: Cookies.Cookies := map["c_user" := "1", "xs" := "b"]

  /**
   A refresh whose page load names another account is undone without an error, and yet the jar is not
   what it was: the responses of the undoing's own page load have changed a cookie.
   */
  method UndoneWithOtherCookies() returns (client: Client, r: Result<AuthState, RefreshError>)
    ensures fresh(client) && fresh(client.backend)
    ensures r == Err(RefreshError(AccountMismatch, Undone))
    ensures client.backend.jar == ROTATED != STARTING
  {
    var same, other := Some(PageState("1", "")), Some(PageState("2", ""));
    var backend := new Backend(STARTING, [Load(c => c, same), Load(c => c, other), Load(c => ROTATED, same)]);
    var profiles := new MemoryProfileStore();
    var secrets := new MemorySecretStore();
    var manager := new ProfileManager(profiles, secrets);
    client := new Client(backend, "1", "", manager);
    var ctx := new Context([]);
    r := client.RefreshAuth(ctx, None, false);
    assert STARTING["xs"] == "a" && ROTATED["xs"] == "b";
  }
}
