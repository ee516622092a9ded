/** The user-administration tab (components/AdminUsersPanel.tsx): the
    creation forms, the per-client, per-department specialist selection,
    the assign button and what each assignment cell shows. */
module UsersPanel {
  import opened Wrappers
  import opened Seqs
  import opened Text
  import opened Types
  import opened Storage
  import opened UserService
  import opened AdminPanel

  /** The `assignments` state: client id, then department, then the chosen specialist id. */
  type Selection = map<string, map<Department, string>>

  /** `assignments[clientId]?.[department]`. */
  function Selected(selection: Selection, clientId: string, department: Department): Option<string> {
    if clientId in selection && department in selection[clientId] then Some(selection[clientId][department])
    else None
  }

  /** The update `handleAssignmentSelection` applies: only the
      `[clientId][department]` entry changes. */
  function Select(selection: Selection, clientId: string, department: Department, specialistId: string): (r: Selection)
    ensures Selected(r, clientId, department) == Some(specialistId)
    ensures forall c, d :: (c != clientId || d != department) ==> Selected(r, c, d) == Selected(selection, c, d)
    ensures r.Keys == selection.Keys + {clientId}
  {
    var inner := if clientId in selection then selection[clientId] else map[];
    selection[clientId := inner[department := specialistId]]
  }

  /** What the assignment cell of one client and department shows. */
  datatype Cell =
    | PendingCell(name: Option<string>)
    | AcceptedCell(name: Option<string>)
    | NoSpecialistsCell
    | SelectorCell(options: seq<Specialist>, value: string, assignEnabled: bool)

  /** `specialists.find(s => s.id === id)?.name`. */
  function NameOf(specialists: seq<Specialist>, specialistId: string): Option<string> {
    match FindSpecialistById(specialists, specialistId)
    case Some(s) => Some(s.name)
    case None => None
  }

  /** `specialists.filter(s => s.department === department)`. */
  function SpecialistsIn(specialists: seq<Specialist>, department: Department): (r: seq<Specialist>)
    ensures forall s :: s in r <==> s in specialists && s.department == department
    ensures forall s :: multiset(r)[s] == if s.department == department then multiset(specialists)[s] else 0
    ensures IsSubsequence(r, specialists)
  {
    Filter(specialists, (s: Specialist) => s.department == department)
  }

  /** `renderDepartmentAssignment(client, department)`. An existing
      assignment is shown with its status and no selector; otherwise the
      selector offers exactly the specialists of that department, or a
      notice when there are none, and the button is enabled only once a
      specialist is chosen. */
  function DepartmentCell(specialists: seq<Specialist>, selection: Selection, client: ClientInfo, department: Department): (c: Cell)
    ensures Lookup(AssignmentsOf(client), department).Some? ==>
      var a := Lookup(AssignmentsOf(client), department).value;
      c == (if a.status == Pending then PendingCell(NameOf(specialists, a.specialistId))
            else AcceptedCell(NameOf(specialists, a.specialistId)))
    ensures Lookup(AssignmentsOf(client), department).None? ==>
      (c.NoSpecialistsCell? <==> forall s :: s in specialists ==> s.department != department)
    ensures Lookup(AssignmentsOf(client), department).None? && (exists s :: s in specialists && s.department == department) ==>
      && c.SelectorCell?
      && c.options == SpecialistsIn(specialists, department)
      && c.value == Selected(selection, client.id, department).GetOr([])
    ensures c.SelectorCell? ==>
      && Lookup(AssignmentsOf(client), department).None?
      && c.options != []
      && (forall s :: s in c.options <==> s in specialists && s.department == department)
      && (c.assignEnabled <==> Truthy(Selected(selection, client.id, department)))
  {
    match Lookup(AssignmentsOf(client), department)
    case Some(a) =>
      if a.status == Pending then PendingCell(NameOf(specialists, a.specialistId))
      else AcceptedCell(NameOf(specialists, a.specialistId))
    case None =>
      var inDept := SpecialistsIn(specialists, department);
      if |inDept| == 0 then NoSpecialistsCell
      else
        assert inDept[0] in inDept;
        SelectorCell(inDept, Selected(selection, client.id, department).GetOr([]),
                     Truthy(Selected(selection, client.id, department)))
  }

  class AdminUsersPanel {
    const dashboard: AdminDashboard
    var clients: seq<ClientInfo>
    var specialists: seq<Specialist>
    var selection: Selection
    var newClient: NewClient
    var newSpecialist: NewSpecialist

    constructor (store: BrowserStore, dashboard: AdminDashboard)
      ensures this.dashboard == dashboard
      ensures clients == GetClients(store) && specialists == GetSpecialists(store) && selection == map[]
      ensures newClient == NewClient([], [], [], []) && newSpecialist == NewSpecialist([], [], Contabil)
    {
      this.dashboard := dashboard;
      clients := GetClients(store);
      specialists := GetSpecialists(store);
      selection := map[];
      newClient := NewClient([], [], [], []);
      newSpecialist := NewSpecialist([], [], Contabil);
    }

    /** `refreshData()`: reload both lists and tell the dashboard. */
    method RefreshData(store: BrowserStore)
      modifies this, dashboard
      ensures clients == GetClients(store) && specialists == GetSpecialists(store)
      ensures dashboard.dataVersion == old(dashboard.dataVersion) + 1 && dashboard.activeTab == old(dashboard.activeTab)
      ensures selection == old(selection) && newClient == old(newClient) && newSpecialist == old(newSpecialist)
    {
      clients := GetClients(store);
      specialists := GetSpecialists(store);
      dashboard.HandleDataChange();
    }

    /** `handleCreateClient`: creates the client, clears the form and refreshes. */
    method HandleCreateClient(store: BrowserStore, now: nat) returns (notice: string)
      requires store != dashboard as object
      modifies this, dashboard, store
      ensures store.clientsKey == Some(old(GetClients(store)) + [ClientInfo(ClientIdFor(now), old(newClient).companyName,
        old(newClient).contactName, old(newClient).email, old(newClient).cnpj, None, None)])
      ensures store.specialistsKey == old(store.specialistsKey) && store.analyticsKey == old(store.analyticsKey)
      ensures notice == "Cliente \"" + old(newClient).companyName + "\" criado com ID " + ClientIdFor(now)
        + ". Um e-mail simulado foi enviado para " + old(newClient).email + " para a criação da senha."
      ensures newClient == NewClient([], [], [], []) && newSpecialist == old(newSpecialist)
      ensures clients == GetClients(store) && specialists == GetSpecialists(store)
      ensures dashboard.dataVersion == old(dashboard.dataVersion) + 1
    {
      var created := CreateClient(store, newClient, now);
      notice := "Cliente \"" + newClient.companyName + "\" criado com ID " + created.id
        + ". Um e-mail simulado foi enviado para " + newClient.email + " para a criação da senha.";
      newClient := NewClient([], [], [], []);
      RefreshData(store);
    }

    /** `handleCreateSpecialist`: on success clears the username and name
        and refreshes; on failure only reports the error, refreshing nothing. */
    method HandleCreateSpecialist(store: BrowserStore) returns (notice: string)
      requires store != dashboard as object
      modifies this, dashboard, store
      ensures UsernameTaken(old(GetSpecialists(store)), old(newSpecialist).username) ==>
        && notice == "Erro: " + ErrorMessage(UsernameInUse)
        && store.specialistsKey == old(store.specialistsKey)
        && clients == old(clients) && specialists == old(specialists) && newSpecialist == old(newSpecialist)
        && dashboard.dataVersion == old(dashboard.dataVersion)
      ensures !UsernameTaken(old(GetSpecialists(store)), old(newSpecialist).username) ==>
        && notice == "Especialista \"" + old(newSpecialist).name + "\" criado com o ID de usuário \"" + old(newSpecialist).username + "\"."
        && store.specialistsKey == Some(old(GetSpecialists(store)) + [Specialist("spec_" + old(newSpecialist).username,
             old(newSpecialist).username, old(newSpecialist).name, old(newSpecialist).department, None)])
        && newSpecialist == NewSpecialist([], [], old(newSpecialist).department)
        && clients == GetClients(store) && specialists == GetSpecialists(store)
        && dashboard.dataVersion == old(dashboard.dataVersion) + 1
      ensures store.clientsKey == old(store.clientsKey) && store.analyticsKey == old(store.analyticsKey)
      ensures newClient == old(newClient) && selection == old(selection)
    {
      var result := CreateSpecialist(store, newSpecialist);
      match result
      case Failure(e) =>
        notice := "Erro: " + ErrorMessage(e);
      case Success(_) =>
        notice := "Especialista \"" + newSpecialist.name + "\" criado com o ID de usuário \"" + newSpecialist.username + "\".";
        newSpecialist := NewSpecialist([], [], newSpecialist.department);
        RefreshData(store);
    }

    /** `handleAssignmentSelection(clientId, department, specialistId)`. */
    method HandleAssignmentSelection(clientId: string, department: Department, specialistId: string)
      modifies this
      ensures selection == Select(old(selection), clientId, department, specialistId)
      ensures clients == old(clients) && specialists == old(specialists)
      ensures newClient == old(newClient) && newSpecialist == old(newSpecialist)
    {
      selection := Select(selection, clientId, department, specialistId);
    }

    /** `handleAssign(clientId, department)`: does nothing until a
        specialist is chosen; then assigns and refreshes, or reports the
        directory's error without refreshing. */
    method HandleAssign(store: BrowserStore, clientId: string, department: Department) returns (notice: Option<string>)
      requires store != dashboard as object
      modifies this, dashboard, store
      ensures !Truthy(old(Selected(selection, clientId, department))) ==>
        notice.None? && store.clientsKey == old(store.clientsKey) && clients == old(clients)
        && specialists == old(specialists) && dashboard.dataVersion == old(dashboard.dataVersion)
      ensures Truthy(old(Selected(selection, clientId, department))) ==>
        var sid := old(Selected(selection, clientId, department)).value;
        var old_clients := old(GetClients(store));
        var index := ClientIndex(old_clients, clientId);
        var specialist := FindSpecialistById(old(GetSpecialists(store)), sid);
        var fits := index.Some? && specialist.Some? && specialist.value.department == department;
        && (fits ==>
              (notice.None? && clients == GetClients(store) && specialists == GetSpecialists(store)
               && dashboard.dataVersion == old(dashboard.dataVersion) + 1
               && store.clientsKey == Some(old_clients[index.value := old_clients[index.value].(assignments :=
                    Some(Put(AssignmentsOf(old_clients[index.value]), department, Assignment(sid, Pending))))])))
        && (!fits ==>
              (store.clientsKey == old(store.clientsKey) && clients == old(clients) && specialists == old(specialists)
               && dashboard.dataVersion == old(dashboard.dataVersion)))
        && (index.None? ==> notice == Some(ErrorMessage(ClientNotFound)))
        && (index.Some? && specialist.None? ==> notice == Some(ErrorMessage(SpecialistNotFound)))
        && (index.Some? && specialist.Some? && specialist.value.department != department ==>
              notice == Some(ErrorMessage(DepartmentMismatch)))
      ensures store.specialistsKey == old(store.specialistsKey) && store.analyticsKey == old(store.analyticsKey)
      ensures selection == old(selection) && newClient == old(newClient) && newSpecialist == old(newSpecialist)
    {
      notice := None;
      var chosen := Selected(selection, clientId, department);
      if Truthy(chosen) {
        var error := AssignSpecialistToClient(store, clientId, chosen.value, department);
        if error.Some? {
          notice := Some(ErrorMessage(error.value));
        } else {
          RefreshData(store);
        }
      }
    }

    /** `handleDeleteSpecialist(specialist)`; `confirmed` is the answer to `window.confirm`. */
    method HandleDeleteSpecialist(store: BrowserStore, specialist: Specialist, confirmed: bool)
      requires store != dashboard as object
      modifies this, dashboard, store
      ensures confirmed ==>
        && store.specialistsKey == Some(SpecialistsWithout(old(GetSpecialists(store)), specialist.id))
        && store.clientsKey == Some(ClientsWithout(old(GetClients(store)), specialist.id))
        && clients == GetClients(store) && specialists == GetSpecialists(store)
        && dashboard.dataVersion == old(dashboard.dataVersion) + 1
      ensures !confirmed ==>
        store.specialistsKey == old(store.specialistsKey) && store.clientsKey == old(store.clientsKey)
        && clients == old(clients) && specialists == old(specialists) && dashboard.dataVersion == old(dashboard.dataVersion)
      ensures store.analyticsKey == old(store.analyticsKey) && selection == old(selection)
      ensures newClient == old(newClient) && newSpecialist == old(newSpecialist)
    {
      if confirmed {
        DeleteSpecialist(store, specialist.id);
        RefreshData(store);
      }
    }

    /** `handleResetClientPwd(client)`: the alert reports success whether or not the id was found. */
    method HandleResetClientPassword(store: BrowserStore, client: ClientInfo, confirmed: bool) returns (notice: Option<string>)
      requires store != dashboard as object
      modifies this, dashboard, store
      ensures confirmed ==>
        && notice == Some("Senha resetada com sucesso.")
        && clients == GetClients(store) && dashboard.dataVersion == old(dashboard.dataVersion) + 1
        && specialists == GetSpecialists(store)
        && (ClientIndex(old(GetClients(store)), client.id).Some? ==>
             var i := ClientIndex(old(GetClients(store)), client.id).value;
             store.clientsKey == Some(old(GetClients(store))[i := old(GetClients(store))[i].(password := None)]))
        && (ClientIndex(old(GetClients(store)), client.id).None? ==> store.clientsKey == old(store.clientsKey))
      ensures !confirmed ==>
        && notice.None? && store.clientsKey == old(store.clientsKey)
        && clients == old(clients) && specialists == old(specialists) && dashboard.dataVersion == old(dashboard.dataVersion)
      ensures store.specialistsKey == old(store.specialistsKey) && store.analyticsKey == old(store.analyticsKey)
      ensures selection == old(selection) && newClient == old(newClient) && newSpecialist == old(newSpecialist)
    {
      notice := None;
      if confirmed {
        var _ := ResetClientPassword(store, client.id);
        notice := Some("Senha resetada com sucesso.");
        RefreshData(store);
      }
    }

    /** `handleResetSpecialistPwd(specialist)`. */
    method HandleResetSpecialistPassword(store: BrowserStore, specialist: Specialist, confirmed: bool) returns (notice: Option<string>)
      requires store != dashboard as object
      modifies this, dashboard, store
      ensures confirmed ==>
        && notice == Some("Senha resetada com sucesso.")
        && specialists == GetSpecialists(store) && dashboard.dataVersion == old(dashboard.dataVersion) + 1
        && clients == GetClients(store)
        && (SpecialistIndex(old(GetSpecialists(store)), specialist.id).Some? ==>
             var i := SpecialistIndex(old(GetSpecialists(store)), specialist.id).value;
             store.specialistsKey == Some(old(GetSpecialists(store))[i := old(GetSpecialists(store))[i].(password := None)]))
        && (SpecialistIndex(old(GetSpecialists(store)), specialist.id).None? ==> store.specialistsKey == old(store.specialistsKey))
      ensures !confirmed ==>
        && notice.None? && store.specialistsKey == old(store.specialistsKey)
        && clients == old(clients) && specialists == old(specialists) && dashboard.dataVersion == old(dashboard.dataVersion)
      ensures store.clientsKey == old(store.clientsKey) && store.analyticsKey == old(store.analyticsKey)
      ensures selection == old(selection) && newClient == old(newClient) && newSpecialist == old(newSpecialist)
    {
      notice := None;
      if confirmed {
        var _ := ResetSpecialistPassword(store, specialist.id);
        notice := Some("Senha resetada com sucesso.");
        RefreshData(store);
      }
    }
  }

  /** Choosing a specialist in the selector and pressing the button files
      exactly that specialist under the cell's department, Pending, when
      the choice is one of the offered options for a known client. */
  lemma SelectThenAssign(specialists: seq<Specialist>, selection: Selection, clients: seq<ClientInfo>, i: nat,
                         department: Department, s: Specialist)
    requires i < |clients| && s in SpecialistsIn(specialists, department) && s.id != []
    requires forall k :: 0 <= k < |specialists| && specialists[k].id == s.id ==> specialists[k] == s
    ensures var sel := Select(selection, clients[i].id, department, s.id);
      && Truthy(Selected(sel, clients[i].id, department))
      && ClientIndex(clients, clients[i].id).Some?
      && FindSpecialistById(specialists, Selected(sel, clients[i].id, department).value) == Some(s)
      && FindSpecialistById(specialists, Selected(sel, clients[i].id, department).value).value.department == department
  {
    assert s in specialists;
  }
}
