/** The first-access password form (components/SetPasswordScreen.tsx):
    the greeting name, the two-field validation, the password write and the
    delayed hand-back to the login screen. */
module PasswordForm {
  import opened Wrappers
  import opened Seqs
  import opened Types
  import opened Storage
  import opened UserService
  import opened App
  import opened LoginForm

  const Mismatch: string := "As senhas não coincidem."
  const TooShort: string := "A senha deve ter pelo menos 3 caracteres."
  const NotFound: string := "Não foi possível definir a senha. ID de usuário não encontrado."
    + " Por favor, contate o suporte."
  const PasswordSetNotice: string := "Senha definida com sucesso! Por favor, faça o login novamente."

  /** The minimum password length the form accepts. */
  const MinLength: nat := 3

  /** The checks `handleSubmit` makes before writing, in order: the two
      fields must agree, then the password must be long enough. */
  function Validate(password: string, confirm: string): (r: Option<string>)
    ensures r.None? <==> password == confirm && |password| >= MinLength
    ensures password != confirm ==> r == Some(Mismatch)
    ensures password == confirm && |password| < MinLength ==> r == Some(TooShort)
  {
    if password != confirm then Some(Mismatch)
    else if |password| < MinLength then Some(TooShort)
    else None
  }

  /** The name the mount effect greets with: a client is looked up by id, a
      specialist by username; a missing record, or a falsy key, leaves ''. */
  function DisplayName(clients: seq<ClientInfo>, specialists: seq<Specialist>,
                       target: PasswordSetTarget, kind: UserKind): (r: string)
    ensures kind == ClientKind && target.id != [] && FindClientById(clients, target.id).Some? ==>
      r == FindClientById(clients, target.id).value.contactName
    ensures kind == SpecialistKind && target.username != [] && UsernameIndex(specialists, target.username).Some? ==>
      r == specialists[UsernameIndex(specialists, target.username).value].name
    ensures r != [] ==>
      || (kind == ClientKind && FindClientById(clients, target.id).Some?)
      || (kind == SpecialistKind && UsernameIndex(specialists, target.username).Some?)
  {
    if kind == ClientKind && target.id != [] then
      match FindClientById(clients, target.id)
      case Some(c) => c.contactName
      case None => []
    else if kind == SpecialistKind && target.username != [] then
      match UsernameIndex(specialists, target.username)
      case Some(i) => specialists[i].name
      case None => []
    else []
  }

  /** The form greets by name exactly the record whose login asked for a
      password: the login form's target leads the name lookup back to it. */
  lemma GreetsTheRecordLoginFound(clients: seq<ClientInfo>, specialists: seq<Specialist>, kind: UserKind,
                                  identifier: string, attempt: string)
    requires identifier != []
    requires LoginOutcome(clients, specialists, kind, identifier, attempt).PasswordNeeded?
    ensures var name := DisplayName(clients, specialists, LoginOutcome(clients, specialists, kind, identifier, attempt).target, kind);
      && (kind == ClientKind ==>
            FindClientById(clients, identifier).value.password.None?
            && name == FindClientById(clients, identifier).value.contactName)
      && (kind == SpecialistKind ==>
            specialists[UsernameIndex(specialists, identifier).value].password.None?
            && name == specialists[UsernameIndex(specialists, identifier).value].name)
  {
  }

  // ---------------------------------------------------------------------
  // Writing a specialist's password

  /** `setSpecialistPassword(id, p)` on values: the new list when a
      specialist has that id, nothing otherwise. */
  function WithSpecialistPassword(specialists: seq<Specialist>, id: string, password: string): (r: Option<seq<Specialist>>)
    ensures r.Some? <==> SpecialistIndex(specialists, id).Some?
    ensures r.Some? ==>
      var i := SpecialistIndex(specialists, id).value;
      && |r.value| == |specialists|
      && (forall k :: 0 <= k < |specialists| && k != i ==> r.value[k] == specialists[k])
      && r.value[i] == specialists[i].(password := Some(password))
  {
    match SpecialistIndex(specialists, id)
    case None => None
    case Some(i) => Some(specialists[i := specialists[i].(password := Some(password))])
  }

  /** The two directory rules that tie a specialist's id to its username. */
  predicate SpecialistRules(specialists: seq<Specialist>) {
    && (forall i, j :: 0 <= i < j < |specialists| ==> specialists[i].username != specialists[j].username)
    && (forall i :: 0 <= i < |specialists| ==> specialists[i].id == "spec_" + specialists[i].username)
  }

  lemma DirectoryHasSpecialistRules(clients: seq<ClientInfo>, specialists: seq<Specialist>)
    requires DirectoryInvariant(clients, specialists)
    ensures SpecialistRules(specialists)
  {
  }

  /** A password write that leaves every username in place leaves the
      username lookup where it was. */
  lemma UsernameIndexAfterWrite(specialists: seq<Specialist>, id: string, password: string, username: string)
    requires WithSpecialistPassword(specialists, id, password).Some?
    ensures UsernameIndex(WithSpecialistPassword(specialists, id, password).value, username) == UsernameIndex(specialists, username)
  {
    var after := WithSpecialistPassword(specialists, id, password).value;
    FirstIndexSameShape(specialists, after, (s: Specialist) => s.username == username);
  }

  /** The write as `handleSubmit` performs it: `setSpecialistPassword(user.id, …)`
      guarded by `user.id` being truthy, where the login form put the typed
      username into `user.id`. The flag is the `success` it records. */
  function SpecialistWriteAsWritten(specialists: seq<Specialist>, target: PasswordSetTarget, password: string): (r: (bool, seq<Specialist>))
    ensures r.0 <==> target.id != [] && SpecialistIndex(specialists, target.id).Some?
    ensures r.0 ==> Some(r.1) == WithSpecialistPassword(specialists, target.id, password)
    ensures !r.0 ==> r.1 == specialists
  {
    if target.id == [] then (false, specialists)
    else
      match WithSpecialistPassword(specialists, target.id, password)
      case None => (false, specialists)
      case Some(after) => (true, after)
  }

  /** As written, a specialist who is asked for a first password never gets
      one: no record has their username as its id (ids carry the `spec_`
      prefix), so the write either fails or lands on another record, and
      their next login still asks for a password. */
  lemma AsWrittenSpecialistStaysLocked(specialists: seq<Specialist>, username: string, password: string, attempt: string)
    requires SpecialistRules(specialists)
    requires LoginSpecialist(specialists, username, attempt) == NeedsPassword
    ensures var w := SpecialistWriteAsWritten(specialists, PasswordSetTarget(username, username), password);
      LoginSpecialist(w.1, username, password) == NeedsPassword
  {
    var i := UsernameIndex(specialists, username).value;
    var w := SpecialistWriteAsWritten(specialists, PasswordSetTarget(username, username), password);
    if w.0 {
      var j := SpecialistIndex(specialists, username).value;
      assert specialists[j].id == "spec_" + specialists[j].username;
      assert |specialists[j].username| != |username|;
      assert j != i;
      UsernameIndexAfterWrite(specialists, username, password, username);
      assert w.1[i] == specialists[i];
    }
  }

  /** The seeded specialist `bruno.f` has no password yet; on the form the
      write finds no record with id `bruno.f`, so the form can only show the
      not-found error. */
  lemma AsWrittenSeedSpecialistNotFound()
    ensures LoginSpecialist(SeedSpecialists(), "bruno.f", "abc") == NeedsPassword
    ensures !SpecialistWriteAsWritten(SeedSpecialists(), PasswordSetTarget("bruno.f", "bruno.f"), "abc").0
  {
    var specs := SeedSpecialists();
    assert specs[0].username != "bruno.f";
    assert UsernameIndex(specs, "bruno.f") == Some(1);
    assert specs[0].id != "bruno.f" && specs[1].id != "bruno.f";
    assert SpecialistIndex(specs, "bruno.f").None?;
  }

  /** As written, the specialist `spec_bob` setting a first password
      overwrites the password of the specialist `bob`, whose id is `spec_bob`. */
  lemma AsWrittenOverwritesAnother()
    ensures var specs := [Specialist("spec_bob", "bob", "Bob", Fiscal, Some("old")),
                          Specialist("spec_spec_bob", "spec_bob", "Outro", Fiscal, None)];
      var w := SpecialistWriteAsWritten(specs, PasswordSetTarget("spec_bob", "spec_bob"), "new");
      && SpecialistRules(specs)
      && w.0
      && LoginSpecialist(w.1, "bob", "new").Authenticated?
      && LoginSpecialist(w.1, "bob", "old") == Rejected
      && LoginSpecialist(w.1, "spec_bob", "new") == NeedsPassword
  {
    var specs := [Specialist("spec_bob", "bob", "Bob", Fiscal, Some("old")),
                  Specialist("spec_spec_bob", "spec_bob", "Outro", Fiscal, None)];
    assert SpecialistIndex(specs, "spec_bob") == Some(0);
    var after := SpecialistWriteAsWritten(specs, PasswordSetTarget("spec_bob", "spec_bob"), "new").1;
    assert after == specs[0 := specs[0].(password := Some("new"))];
    assert after[0].username == "bob" && after[1].username == "spec_bob";
    assert "bob" != "spec_bob";
    assert UsernameIndex(after, "bob") == Some(0);
    assert UsernameIndex(after, "spec_bob") == Some(1);
  }

  /** The id the write must use: that of the record the login found by
      username, the same lookup the mount effect makes for the name. */
  function SpecialistWriteId(specialists: seq<Specialist>, target: PasswordSetTarget): (r: Option<string>)
    ensures r.Some? <==> UsernameIndex(specialists, target.username).Some?
    ensures r.Some? ==> SpecialistIndex(specialists, r.value).Some?
    ensures SpecialistRules(specialists) && r.Some? ==>
      SpecialistIndex(specialists, r.value) == UsernameIndex(specialists, target.username)
  {
    match UsernameIndex(specialists, target.username)
    case None => None
    case Some(i) =>
      IdsAreDistinct(specialists, i);
      Some(specialists[i].id)
  }

  /** Under the directory rules the record at `i` is the first with its id. */
  lemma IdsAreDistinct(specialists: seq<Specialist>, i: nat)
    requires i < |specialists|
    ensures SpecialistRules(specialists) ==> SpecialistIndex(specialists, specialists[i].id) == Some(i)
  {
    if !SpecialistRules(specialists) {
      return;
    }
    forall k | 0 <= k < i ensures specialists[k].id != specialists[i].id {
      assert specialists[k].id[5..] == specialists[k].username;
      assert specialists[i].id[5..] == specialists[i].username;
    }
    FirstIndexIs(specialists, (s: Specialist) => s.id == specialists[i].id, Some(i));
  }

  /** The corrected write: the password goes to the record the login found,
      and with it that specialist logs in. */
  function SpecialistWriteCorrected(specialists: seq<Specialist>, target: PasswordSetTarget, password: string): (r: (bool, seq<Specialist>))
    ensures r.0 <==> UsernameIndex(specialists, target.username).Some?
    ensures !r.0 ==> r.1 == specialists
    ensures SpecialistRules(specialists) && r.0 ==>
      var i := UsernameIndex(specialists, target.username).value;
      r.1 == specialists[i := specialists[i].(password := Some(password))]
  {
    match SpecialistWriteId(specialists, target)
    case None => (false, specialists)
    case Some(id) =>
      var after := WithSpecialistPassword(specialists, id, password).value;
      (true, after)
  }

  /** With the corrected write the first-access round trip closes: the
      specialist the login asked for a password is afterwards logged in by
      that password, and the directory rules still hold. */
  lemma CorrectedSpecialistUnlocked(specialists: seq<Specialist>, username: string, password: string, attempt: string)
    requires SpecialistRules(specialists)
    requires LoginSpecialist(specialists, username, attempt) == NeedsPassword
    ensures var w := SpecialistWriteCorrected(specialists, PasswordSetTarget(username, username), password);
      && w.0
      && LoginSpecialist(w.1, username, password).Authenticated?
      && LoginSpecialist(w.1, username, password).user.username == username
      && SpecialistRules(w.1)
  {
    var i := UsernameIndex(specialists, username).value;
    SpecialistPasswordRoundTrip(specialists, username, Some(password), password);
    var w := SpecialistWriteCorrected(specialists, PasswordSetTarget(username, username), password);
    assert forall k :: 0 <= k < |w.1| ==> w.1[k].username == specialists[k].username && w.1[k].id == specialists[k].id;
  }

  // ---------------------------------------------------------------------
  // The screen

  class SetPasswordScreen {
    const target: PasswordSetTarget
    const kind: UserKind
    var password: string
    var confirm: string
    var error: string
    var isLoading: bool
    var userName: string
    /** The `success` captured by the pending 500 ms timer, if one is pending. */
    var pendingResult: Option<bool>

    /** Mounting runs the name effect. */
    constructor (store: BrowserStore, target: PasswordSetTarget, kind: UserKind)
      ensures this.target == target && this.kind == kind
      ensures userName == DisplayName(GetClients(store), GetSpecialists(store), target, kind)
      ensures password == [] && confirm == [] && error == [] && !isLoading && pendingResult.None?
    {
      this.target := target;
      this.kind := kind;
      userName := DisplayName(GetClients(store), GetSpecialists(store), target, kind);
      password := [];
      confirm := [];
      error := [];
      isLoading := false;
      pendingResult := None;
    }

    /** `handleSubmit`: a failed check shows its message and writes nothing;
        otherwise the password is written and the outcome waits for the
        timer. A client is written by id; a specialist by the id of the
        record the login found by username (the corrected write). */
    method HandleSubmit(store: BrowserStore)
      modifies this, store
      ensures password == old(password) && confirm == old(confirm) && userName == old(userName)
      ensures store.analyticsKey == old(store.analyticsKey)
      ensures Validate(old(password), old(confirm)).Some? ==>
        && error == Validate(old(password), old(confirm)).value
        && isLoading == old(isLoading) && pendingResult == old(pendingResult)
        && store.clientsKey == old(store.clientsKey) && store.specialistsKey == old(store.specialistsKey)
      ensures Validate(old(password), old(confirm)).None? ==> error == [] && isLoading && pendingResult.Some?
      ensures Validate(old(password), old(confirm)).None? && kind == ClientKind ==>
        && (pendingResult == Some(true) <==> target.id != [] && ClientIndex(old(GetClients(store)), target.id).Some?)
        && (pendingResult == Some(true) ==>
              var clients, i := old(GetClients(store)), ClientIndex(old(GetClients(store)), target.id).value;
              store.clientsKey == Some(clients[i := clients[i].(password := Some(old(password)))]))
        && (pendingResult == Some(false) ==> store.clientsKey == old(store.clientsKey))
        && (pendingResult == Some(true) ==> LoginClient(GetClients(store), target.id, old(password)).Authenticated?)
        && store.specialistsKey == old(store.specialistsKey)
      ensures Validate(old(password), old(confirm)).None? && kind == SpecialistKind ==>
        && (pendingResult == Some(true) <==> UsernameIndex(old(GetSpecialists(store)), target.username).Some?)
        && (pendingResult == Some(true) ==>
              var specialists := old(GetSpecialists(store));
              var k := SpecialistIndex(specialists, SpecialistWriteId(specialists, target).value).value;
              store.specialistsKey == Some(specialists[k := specialists[k].(password := Some(old(password)))]))
        && (pendingResult == Some(false) ==> store.specialistsKey == old(store.specialistsKey))
        && store.clientsKey == old(store.clientsKey)
        && (SpecialistRules(old(GetSpecialists(store))) && pendingResult == Some(true) ==>
              LoginSpecialist(GetSpecialists(store), target.username, old(password)).Authenticated?)
      ensures DirectoryInvariant(old(GetClients(store)), old(GetSpecialists(store))) ==>
        DirectoryInvariant(GetClients(store), GetSpecialists(store))
    {
      error := [];
      var check := Validate(password, confirm);
      if check.Some? {
        error := check.value;
        return;
      }
      isLoading := true;
      var success := false;
      if kind == ClientKind && target.id != [] {
        var clients := GetClients(store);
        success := SetClientPassword(store, target.id, password);
        if success {
          ClientPasswordRoundTrip(clients, target.id, Some(password), password);
        }
      } else if kind == SpecialistKind {
        var specialists := GetSpecialists(store);
        var id := SpecialistWriteId(specialists, target);
        if id.Some? {
          success := SetSpecialistPassword(store, id.value, password);
          if SpecialistRules(specialists) {
            SpecialistPasswordRoundTrip(specialists, target.username, Some(password), password);
          }
        }
      }
      pendingResult := Some(success);
    }

    /** The timer fires: on success the notice is raised and the App goes
        back to the login screen; otherwise the not-found error is shown. */
    method TimerFires(app: AppState) returns (notice: Option<string>)
      requires pendingResult.Some?
      modifies this, app
      ensures !isLoading && pendingResult.None?
      ensures old(pendingResult) == Some(true) ==>
        && notice == Some(PasswordSetNotice) && error == old(error)
        && app.view == LoginView && app.userForPasswordSet.None? && app.currentUser.None? && app.Valid()
      ensures old(pendingResult) == Some(false) ==>
        && notice.None? && error == NotFound
        && app.view == old(app.view) && app.userForPasswordSet == old(app.userForPasswordSet)
      ensures password == old(password) && confirm == old(confirm) && userName == old(userName)
    {
      if pendingResult.value {
        notice := Some(PasswordSetNotice);
        app.HandlePasswordSet();
      } else {
        notice := None;
        error := NotFound;
      }
      isLoading := false;
      pendingResult := None;
    }
  }
}
