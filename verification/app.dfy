/** The top-level controller (App in App.tsx): which screen is shown, who
    is logged in, and the handlers the screens call back. */
module App {
  import opened Wrappers
  import opened Text
  import opened Types
  import opened Storage
  import opened Analytics
  import opened Chat

  datatype View =
    | LoginView | SetPasswordView | WelcomeView | ChatView | SpecialistDashboardView
    | AdminLoginView | AdminDashboardView | DevLoginView | DevPanelView | OwnerLoginView | OwnerPanelView

  datatype UserKind = ClientKind | SpecialistKind

  /** `currentUser`: a client or a specialist record. */
  datatype User = ClientUser(client: ClientInfo) | SpecialistUser(specialist: Specialist)

  function KindOf(u: User): UserKind {
    if u.ClientUser? then ClientKind else SpecialistKind
  }

  /** The partial record handed to the password screen. */
  datatype PasswordSetTarget = PasswordSetTarget(id: string, username: string)

  /** The component the dispatch renders. */
  datatype Screen =
    | LoginScreen
    | SetPasswordScreen(target: PasswordSetTarget, kind: UserKind)
    | WelcomeScreen(client: ClientInfo)
    | ChatScreen(client: ClientInfo)
    | SpecialistDashboardScreen(specialist: Specialist)
    | AdminLoginScreen | AdminDashboardScreen
    | DevLoginScreen | DevPanelScreen
    | OwnerLoginScreen | OwnerPanelScreen

  class AppState {
    var view: View
    var currentUser: Option<User>
    var userType: Option<UserKind>
    var userForPasswordSet: Option<PasswordSetTarget>
    var isAdminLoggedIn: bool
    var isDevLoggedIn: bool
    var isOwnerLoggedIn: bool

    /** A logged-in record always carries its own kind. */
    ghost predicate Valid()
      reads this
    {
      currentUser.Some? ==> userType == Some(KindOf(currentUser.value))
    }

    constructor ()
      ensures Valid()
      ensures view == LoginView && currentUser.None? && userType.None? && userForPasswordSet.None?
      ensures !isAdminLoggedIn && !isDevLoggedIn && !isOwnerLoggedIn
    {
      view := LoginView;
      currentUser := None;
      userType := None;
      userForPasswordSet := None;
      isAdminLoggedIn := false;
      isDevLoggedIn := false;
      isOwnerLoggedIn := false;
    }

    /** The render dispatch, branch by branch in source order. The panels
        re-show their login screen while their flag is off; a logged-in
        record is shown only on the screens of its own kind. App.tsx
        switches on `userType` alone and casts the record to that kind;
        the extra `ClientUser?`/`SpecialistUser?` tests stand in for the
        cast, and under `Valid()` (which ties `userType` to the record's
        kind) they never decide a branch. */
    function Render(): (s: Screen)
      reads this
      ensures s == AdminDashboardScreen ==> isAdminLoggedIn && view == AdminDashboardView
      ensures s == DevPanelScreen ==> isDevLoggedIn && view == DevPanelView
      ensures s == OwnerPanelScreen ==> isOwnerLoggedIn && view == OwnerPanelView
      ensures s.ChatScreen? ==> view == ChatView && currentUser == Some(ClientUser(s.client)) && userType == Some(ClientKind)
      ensures s.WelcomeScreen? ==> view == WelcomeView && currentUser == Some(ClientUser(s.client)) && userType == Some(ClientKind)
      ensures s.SpecialistDashboardScreen? ==>
        view == SpecialistDashboardView && currentUser == Some(SpecialistUser(s.specialist)) && userType == Some(SpecialistKind)
      ensures s.SetPasswordScreen? ==>
        view == SetPasswordView && userForPasswordSet == Some(s.target) && userType == Some(s.kind)
    {
      if view == DevLoginView then DevLoginScreen
      else if view == DevPanelView then (if isDevLoggedIn then DevPanelScreen else DevLoginScreen)
      else if view == OwnerLoginView then OwnerLoginScreen
      else if view == OwnerPanelView then (if isOwnerLoggedIn then OwnerPanelScreen else OwnerLoginScreen)
      else if view == AdminLoginView then AdminLoginScreen
      else if view == AdminDashboardView then (if isAdminLoggedIn then AdminDashboardScreen else AdminLoginScreen)
      else if view == SetPasswordView && userForPasswordSet.Some? && userType.Some? then
        SetPasswordScreen(userForPasswordSet.value, userType.value)
      else if currentUser.None? || userType.None? then LoginScreen
      else if userType.value == ClientKind && currentUser.value.ClientUser? then
        (if view == WelcomeView then WelcomeScreen(currentUser.value.client)
         else if view == ChatView then ChatScreen(currentUser.value.client)
         else LoginScreen)
      else if userType.value == SpecialistKind && currentUser.value.SpecialistUser? && view == SpecialistDashboardView then
        SpecialistDashboardScreen(currentUser.value.specialist)
      else LoginScreen
    }

    /** `handleLogin(user, type)`; the type is the kind of the record. */
    method HandleLogin(user: User)
      modifies this
      ensures Valid()
      ensures currentUser == Some(user) && userType == Some(KindOf(user))
      ensures view == (if user.ClientUser? then WelcomeView else SpecialistDashboardView)
      ensures userForPasswordSet == old(userForPasswordSet)
      ensures isAdminLoggedIn == old(isAdminLoggedIn) && isDevLoggedIn == old(isDevLoggedIn) && isOwnerLoggedIn == old(isOwnerLoggedIn)
      ensures user.ClientUser? ==> Render() == WelcomeScreen(user.client)
      ensures user.SpecialistUser? ==> Render() == SpecialistDashboardScreen(user.specialist)
    {
      currentUser := Some(user);
      userType := Some(KindOf(user));
      view := if user.ClientUser? then WelcomeView else SpecialistDashboardView;
    }

    /** `handleNeedsPasswordSet(user, type)`. */
    method HandleNeedsPasswordSet(target: PasswordSetTarget, kind: UserKind)
      modifies this
      ensures old(currentUser).None? ==> Valid()
      ensures userForPasswordSet == Some(target) && userType == Some(kind) && view == SetPasswordView
      ensures currentUser == old(currentUser)
      ensures isAdminLoggedIn == old(isAdminLoggedIn) && isDevLoggedIn == old(isDevLoggedIn) && isOwnerLoggedIn == old(isOwnerLoggedIn)
      ensures Render() == SetPasswordScreen(target, kind)
    {
      userForPasswordSet := Some(target);
      userType := Some(kind);
      view := SetPasswordView;
    }

    /** `handlePasswordSet()`: back to the login screen, nobody logged in. */
    method HandlePasswordSet()
      modifies this
      ensures Valid()
      ensures userForPasswordSet.None? && currentUser.None? && userType.None? && view == LoginView
      ensures isAdminLoggedIn == old(isAdminLoggedIn) && isDevLoggedIn == old(isDevLoggedIn) && isOwnerLoggedIn == old(isOwnerLoggedIn)
      ensures Render() == LoginScreen
    {
      userForPasswordSet := None;
      currentUser := None;
      userType := None;
      view := LoginView;
    }

    /** `handleLogout()`: clears every principal; the pending password-set
        record is left as it was. */
    method HandleLogout()
      modifies this
      ensures Valid()
      ensures currentUser.None? && userType.None? && view == LoginView
      ensures !isAdminLoggedIn && !isDevLoggedIn && !isOwnerLoggedIn
      ensures userForPasswordSet == old(userForPasswordSet)
      ensures Render() == LoginScreen
    {
      currentUser := None;
      userType := None;
      isAdminLoggedIn := false;
      isDevLoggedIn := false;
      isOwnerLoggedIn := false;
      view := LoginView;
    }

    /** `handleStartChat()`. */
    method HandleStartChat()
      requires Valid()
      modifies this
      ensures Valid()
      ensures view == ChatView
      ensures currentUser == old(currentUser) && userType == old(userType) && userForPasswordSet == old(userForPasswordSet)
      ensures isAdminLoggedIn == old(isAdminLoggedIn) && isDevLoggedIn == old(isDevLoggedIn) && isOwnerLoggedIn == old(isOwnerLoggedIn)
      ensures old(currentUser).Some? && old(currentUser).value.ClientUser? ==>
        Render() == ChatScreen(old(currentUser).value.client)
    {
      view := ChatView;
    }

    /** `handleEndChat(transcript, department, summary, startTime)`: a
        logged-in client's conversation is saved as a forwarded session whose
        id is built from `idClock` and whose end time is `endClock` (the two
        `Date.now()` reads); `writeFails` is a full storage quota. */
    method HandleEndChat(store: BrowserStore, request: EndChatRequest, idClock: nat, endClock: int, writeFails: bool)
      requires Valid()
      modifies this, store
      ensures Valid()
      ensures view == WelcomeView
      ensures currentUser == old(currentUser) && userType == old(userType) && userForPasswordSet == old(userForPasswordSet)
      ensures isAdminLoggedIn == old(isAdminLoggedIn) && isDevLoggedIn == old(isDevLoggedIn) && isOwnerLoggedIn == old(isOwnerLoggedIn)
      ensures old(currentUser).Some? && old(currentUser).value.ClientUser? && !writeFails ==>
        GetChatSessions(store) == old(GetChatSessions(store)) + [SessionFor(old(currentUser).value.client, request, idClock, endClock)]
      ensures old(currentUser).None? || old(currentUser).value.SpecialistUser? || writeFails ==>
        store.analyticsKey == old(store.analyticsKey)
      ensures store.clientsKey == old(store.clientsKey) && store.specialistsKey == old(store.specialistsKey)
    {
      if currentUser.Some? && userType == Some(ClientKind) {
        var session := SessionFor(currentUser.value.client, request, idClock, endClock);
        SaveChatSession(store, session, writeFails);
      }
      view := WelcomeView;
    }

    method HandleAdminLoginSuccess()
      requires Valid()
      modifies this
      ensures Valid()
      ensures isAdminLoggedIn && view == AdminDashboardView && Render() == AdminDashboardScreen
      ensures currentUser == old(currentUser) && userType == old(userType) && userForPasswordSet == old(userForPasswordSet)
      ensures isDevLoggedIn == old(isDevLoggedIn) && isOwnerLoggedIn == old(isOwnerLoggedIn)
    {
      isAdminLoggedIn := true;
      view := AdminDashboardView;
    }

    method HandleDevLoginSuccess()
      requires Valid()
      modifies this
      ensures Valid()
      ensures isDevLoggedIn && view == DevPanelView && Render() == DevPanelScreen
      ensures currentUser == old(currentUser) && userType == old(userType) && userForPasswordSet == old(userForPasswordSet)
      ensures isAdminLoggedIn == old(isAdminLoggedIn) && isOwnerLoggedIn == old(isOwnerLoggedIn)
    {
      isDevLoggedIn := true;
      view := DevPanelView;
    }

    method HandleOwnerLoginSuccess()
      requires Valid()
      modifies this
      ensures Valid()
      ensures isOwnerLoggedIn && view == OwnerPanelView && Render() == OwnerPanelScreen
      ensures currentUser == old(currentUser) && userType == old(userType) && userForPasswordSet == old(userForPasswordSet)
      ensures isAdminLoggedIn == old(isAdminLoggedIn) && isDevLoggedIn == old(isDevLoggedIn)
    {
      isOwnerLoggedIn := true;
      view := OwnerPanelView;
    }

    /** The navigation handlers (`handleGoToAdminLogin`, `handleGoToDevLogin`,
        `handleGoToOwnerLogin`, and the panels' exit buttons): only the
        view changes. */
    method GoTo(target: View)
      requires Valid()
      requires target in {AdminLoginView, DevLoginView, OwnerLoginView, LoginView}
      modifies this
      ensures Valid()
      ensures view == target
      ensures currentUser == old(currentUser) && userType == old(userType) && userForPasswordSet == old(userForPasswordSet)
      ensures isAdminLoggedIn == old(isAdminLoggedIn) && isDevLoggedIn == old(isDevLoggedIn) && isOwnerLoggedIn == old(isOwnerLoggedIn)
      ensures target != LoginView ==> Render() == (match target
        case AdminLoginView => AdminLoginScreen
        case DevLoginView => DevLoginScreen
        case _ => OwnerLoginScreen)
    {
      view := target;
    }
  }

  /** The session record `handleEndChat` saves. */
  function SessionFor(client: ClientInfo, request: EndChatRequest, idClock: nat, endClock: int): (s: ChatSession)
    ensures s.resolution == Forwarded && s.specialist.None?
    ensures s.client == client && s.transcript == request.transcript
    ensures s.department == request.department && s.summary == request.summary
    ensures s.startTime == request.startTime && s.endTime == endClock
  {
    ChatSession("session_" + NatToString(idClock), client, None, request.department, request.startTime, endClock,
                request.transcript, Forwarded, request.summary)
  }

  /** Session ids are `session_` followed by the clock reading, so two
      sessions saved at different milliseconds get different ids. */
  lemma SessionIdsDistinct(client: ClientInfo, request: EndChatRequest, t1: nat, t2: nat, endClock: int)
    requires t1 != t2
    ensures SessionFor(client, request, t1, endClock).id != SessionFor(client, request, t2, endClock).id
  {
    var p := "session_";
    var a, b := NatToString(t1), NatToString(t2);
    ParseNatToString(t1);
    ParseNatToString(t2);
    assert (p + a)[|p|..] == a && (p + b)[|p|..] == b;
  }
}
