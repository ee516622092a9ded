/** The client / specialist login form (components/LoginScreen.tsx). */
module LoginForm {
  import opened Wrappers
  import opened Types
  import opened Storage
  import opened UserService
  import opened App

  const InvalidCredentials: string := "ID de usuário ou senha inválidos."

  /** What `handleLogin` does with the service's answer. */
  datatype Outcome = LoggedIn(user: User) | PasswordNeeded(target: PasswordSetTarget) | Invalid

  /** Client mode asks `loginClient`, specialist mode `loginSpecialist`.
      A record logs in with the mode as its kind; `'needs_password'` hands
      the typed identifier on as both id and username; null is rejected. */
  function LoginOutcome(clients: seq<ClientInfo>, specialists: seq<Specialist>, kind: UserKind,
                        identifier: string, password: string): (o: Outcome)
    ensures o.LoggedIn? ==> KindOf(o.user) == kind
    ensures o.PasswordNeeded? ==> o.target == PasswordSetTarget(identifier, identifier)
    ensures kind == ClientKind ==>
      && (o.LoggedIn? <==> FindClientById(clients, identifier).Some? && FindClientById(clients, identifier).value.password == Some(password))
      && (o.LoggedIn? ==> o.user.client.id == identifier && o.user.client in clients)
      && (o.LoggedIn? ==> o.user == ClientUser(FindClientById(clients, identifier).value))
      && (o.PasswordNeeded? <==> FindClientById(clients, identifier).Some? && FindClientById(clients, identifier).value.password.None?)
    ensures kind == SpecialistKind ==>
      && (o.LoggedIn? <==> UsernameIndex(specialists, identifier).Some?
                           && specialists[UsernameIndex(specialists, identifier).value].password == Some(password))
      && (o.LoggedIn? ==> o.user.specialist.username == identifier && o.user.specialist in specialists)
      && (o.LoggedIn? ==> o.user == SpecialistUser(specialists[UsernameIndex(specialists, identifier).value]))
      && (o.PasswordNeeded? <==> UsernameIndex(specialists, identifier).Some?
                                 && specialists[UsernameIndex(specialists, identifier).value].password.None?)
  {
    match kind
    case ClientKind =>
      (match LoginClient(clients, identifier, password)
       case Authenticated(c) => LoggedIn(ClientUser(c))
       case NeedsPassword => PasswordNeeded(PasswordSetTarget(identifier, identifier))
       case Rejected => Invalid)
    case SpecialistKind =>
      (match LoginSpecialist(specialists, identifier, password)
       case Authenticated(s) => LoggedIn(SpecialistUser(s))
       case NeedsPassword => PasswordNeeded(PasswordSetTarget(identifier, identifier))
       case Rejected => Invalid)
  }

  class LoginScreen {
    var kind: UserKind
    var identifier: string
    var password: string
    var error: string
    var isLoading: bool

    constructor ()
      ensures kind == ClientKind && identifier == [] && password == [] && error == [] && !isLoading
    {
      kind := ClientKind;
      identifier := [];
      password := [];
      error := [];
      isLoading := false;
    }

    /** `handleLogin`: dispatches on the outcome to the App's handlers;
        the spinner is off again afterwards in every case. */
    method HandleLogin(store: BrowserStore, app: AppState)
      modifies this, app
      ensures !isLoading && kind == old(kind) && identifier == old(identifier) && password == old(password)
      ensures var o := LoginOutcome(GetClients(store), GetSpecialists(store), old(kind), old(identifier), old(password));
        && (o.Invalid? ==> error == InvalidCredentials && unchanged(app))
        && (!o.Invalid? ==> error == [])
        && (o.LoggedIn? ==>
              (app.currentUser == Some(o.user) && app.userType == Some(old(kind))
               && app.view == (if old(kind) == ClientKind then WelcomeView else SpecialistDashboardView)
               && app.userForPasswordSet == old(app.userForPasswordSet) && app.Valid()))
        && (o.PasswordNeeded? ==>
              (app.userForPasswordSet == Some(PasswordSetTarget(old(identifier), old(identifier)))
               && app.userType == Some(old(kind)) && app.view == SetPasswordView
               && app.currentUser == old(app.currentUser)
               && app.Render() == SetPasswordScreen(PasswordSetTarget(old(identifier), old(identifier)), old(kind))))
      ensures app.isAdminLoggedIn == old(app.isAdminLoggedIn) && app.isDevLoggedIn == old(app.isDevLoggedIn)
        && app.isOwnerLoggedIn == old(app.isOwnerLoggedIn)
    {
      error := [];
      isLoading := true;
      var outcome := LoginOutcome(GetClients(store), GetSpecialists(store), kind, identifier, password);
      match outcome {
        case LoggedIn(user) =>
          app.HandleLogin(user);
        case PasswordNeeded(target) =>
          app.HandleNeedsPasswordSet(target, kind);
        case Invalid =>
          error := InvalidCredentials;
      }
      isLoading := false;
    }
  }
}
