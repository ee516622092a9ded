/** The directory service (services/userService.ts): clients, specialists,
    their assignments and the credential checks, kept in the browser store.
    Every write reads a whole list, changes it in memory and stores it back. */
module UserService {
  import opened Wrappers
  import opened Seqs
  import opened Text
  import opened Types
  import opened Storage

  // ---------------------------------------------------------------------
  // Reading the store

  /** `getClients()`: an absent key reads as the empty list. */
  function GetClients(store: BrowserStore): (r: seq<ClientInfo>)
    reads store
    ensures store.clientsKey.None? ==> r == []
    ensures store.clientsKey.Some? ==> r == store.clientsKey.value
  {
    store.clientsKey.GetOr([])
  }

  /** `getSpecialists()`: an absent key reads as the empty list. */
  function GetSpecialists(store: BrowserStore): (r: seq<Specialist>)
    reads store
    ensures store.specialistsKey.None? ==> r == []
    ensures store.specialistsKey.Some? ==> r == store.specialistsKey.value
  {
    store.specialistsKey.GetOr([])
  }

  /** `clients.findIndex(c => c.id === id)`. */
  function ClientIndex(clients: seq<ClientInfo>, id: string): (r: Option<nat>)
    ensures r.Some? ==> r.value < |clients| && clients[r.value].id == id
    ensures r.Some? ==> forall k :: 0 <= k < r.value ==> clients[k].id != id
    ensures r.None? ==> forall k :: 0 <= k < |clients| ==> clients[k].id != id
  {
    FirstIndex(clients, (c: ClientInfo) => c.id == id)
  }

  /** `getClientById(id)`: the first client with that id. */
  function FindClientById(clients: seq<ClientInfo>, id: string): (r: Option<ClientInfo>)
    ensures r.Some? <==> exists k :: 0 <= k < |clients| && clients[k].id == id
    ensures r.Some? ==> r.value in clients && r.value.id == id
    ensures r.Some? ==> exists i :: 0 <= i < |clients| && r.value == clients[i] && forall k :: 0 <= k < i ==> clients[k].id != id
  {
    match ClientIndex(clients, id)
    case None => None
    case Some(i) => Some(clients[i])
  }

  /** `specialists.findIndex(s => s.id === id)`. */
  function SpecialistIndex(specialists: seq<Specialist>, id: string): (r: Option<nat>)
    ensures r.Some? ==> r.value < |specialists| && specialists[r.value].id == id
    ensures r.Some? ==> forall k :: 0 <= k < r.value ==> specialists[k].id != id
    ensures r.None? ==> forall k :: 0 <= k < |specialists| ==> specialists[k].id != id
  {
    FirstIndex(specialists, (s: Specialist) => s.id == id)
  }

  /** `getSpecialistById(id)`. */
  function FindSpecialistById(specialists: seq<Specialist>, id: string): (r: Option<Specialist>)
    ensures r.Some? <==> exists k :: 0 <= k < |specialists| && specialists[k].id == id
    ensures r.Some? ==> r.value in specialists && r.value.id == id
    ensures r.Some? ==>
      exists i :: 0 <= i < |specialists| && r.value == specialists[i] && forall k :: 0 <= k < i ==> specialists[k].id != id
  {
    match SpecialistIndex(specialists, id)
    case None => None
    case Some(i) => Some(specialists[i])
  }

  /** `specialists.findIndex(s => s.username === username)`, the lookup
      loginSpecialist performs. */
  function UsernameIndex(specialists: seq<Specialist>, username: string): (r: Option<nat>)
    ensures r.Some? ==> r.value < |specialists| && specialists[r.value].username == username
    ensures r.Some? ==> forall k :: 0 <= k < r.value ==> specialists[k].username != username
    ensures r.None? ==> forall k :: 0 <= k < |specialists| ==> specialists[k].username != username
  {
    FirstIndex(specialists, (s: Specialist) => s.username == username)
  }

  /** `specialists.some(s => s.username === username)`. */
  predicate UsernameTaken(specialists: seq<Specialist>, username: string) {
    exists k :: 0 <= k < |specialists| && specialists[k].username == username
  }

  // ---------------------------------------------------------------------
  // Directory invariant

  /** An assignment names an existing specialist of the department it is filed under. */
  ghost predicate Resolves(specialists: seq<Specialist>, e: Entry) {
    exists j :: 0 <= j < |specialists| && specialists[j].id == e.assignment.specialistId
      && specialists[j].department == e.dept
  }

  /** What the directory keeps true: usernames are unique, every id is
      `spec_` followed by the username, no client lists a department twice,
      and every assignment names a specialist of its department. */
  ghost predicate DirectoryInvariant(clients: seq<ClientInfo>, specialists: seq<Specialist>) {
    && (forall i, j :: 0 <= i < j < |specialists| ==> specialists[i].username != specialists[j].username)
    && (forall i :: 0 <= i < |specialists| ==> specialists[i].id == "spec_" + specialists[i].username)
    && (forall c :: c in clients ==> DistinctKeys(AssignmentsOf(c)))
    && (forall c, e :: c in clients && e in AssignmentsOf(c) ==> Resolves(specialists, e))
  }

  // ---------------------------------------------------------------------
  // Seed data and the developer reset

  function SeedClients(): seq<ClientInfo> {
    [ ClientInfo("cli_001", "Padaria Pão Quente", "João Silva", "joao@paoquente.com", "11.111.111/0001-11",
                 Some([Entry(Contabil, Assignment("spec_ana.c", Accepted))]), Some("123")),
      ClientInfo("cli_002", "Oficina Mecânica Veloz", "Maria Souza", "maria@oficinaveloz.com", "22.222.222/0001-22",
                 None, None) ]
  }

  function SeedSpecialists(): seq<Specialist> {
    [ Specialist("spec_ana.c", "ana.c", "Ana Costa", Contabil, Some("123")),
      Specialist("spec_bruno.f", "bruno.f", "Bruno Fernandes", Fiscal, None) ]
  }

  lemma SeedIsConsistent()
    ensures DirectoryInvariant(SeedClients(), SeedSpecialists())
    ensures FindClientById(SeedClients(), "cli_001").Some?
    ensures Lookup(AssignmentsOf(SeedClients()[0]), Contabil) == Some(Assignment("spec_ana.c", Accepted))
  {
    var specs := SeedSpecialists();
    assert specs[0].id == "spec_" + specs[0].username;
    assert specs[1].id == "spec_" + specs[1].username;
    assert Resolves(specs, Entry(Contabil, Assignment("spec_ana.c", Accepted))) by {
      assert specs[0].id == "spec_ana.c";
    }
  }

  /** `seedData()`: seeds only when one of the two directory keys is absent,
      and then also clears the analytics key. */
  method SeedData(store: BrowserStore)
    modifies store
    ensures old(store.clientsKey).None? || old(store.specialistsKey).None? ==>
      store.clientsKey == Some(SeedClients()) && store.specialistsKey == Some(SeedSpecialists())
      && store.analyticsKey == Missing
    ensures old(store.clientsKey).Some? && old(store.specialistsKey).Some? ==>
      store.clientsKey == old(store.clientsKey) && store.specialistsKey == old(store.specialistsKey)
      && store.analyticsKey == old(store.analyticsKey)
  {
    if store.clientsKey.None? || store.specialistsKey.None? {
      store.clientsKey := Some(SeedClients());
      store.specialistsKey := Some(SeedSpecialists());
      store.analyticsKey := Missing;
    }
  }

  /** `resetApplicationData()`: the resulting store does not depend on the
      store before, so a second reset changes nothing. */
  method ResetApplicationData(store: BrowserStore)
    modifies store
    ensures store.clientsKey == Some(SeedClients()) && store.specialistsKey == Some(SeedSpecialists())
    ensures store.analyticsKey == Missing
    ensures DirectoryInvariant(GetClients(store), GetSpecialists(store))
  {
    store.clientsKey := None;
    store.specialistsKey := None;
    store.analyticsKey := Missing;
    SeedData(store);
    SeedIsConsistent();
  }

  // ---------------------------------------------------------------------
  // Clients

  /** The fields an administrator types in for a new client. */
  datatype NewClient = NewClient(companyName: string, contactName: string, email: string, cnpj: string)

  /** `` `cli_${now}`.slice(-7) ``: never longer than seven characters,
      exactly seven from a three-digit clock on, and from a seven-digit
      clock on the `cli_` prefix is cut off entirely, leaving the last
      seven digits of the clock. */
  function ClientIdFor(now: nat): (id: string)
    ensures |id| <= 7
    ensures now >= 100 ==> |id| == 7
    ensures now >= 1000000 ==> id == Last(NatToString(now), 7) && forall k :: 0 <= k < |id| ==> IsDigit(id[k])
  {
    var s := "cli_" + NatToString(now);
    if now >= 1000000 then
      assert Pow10(6) == 1000000;
      NatToStringLength(now, 6);
      assert Last(s, 7) == Last(NatToString(now), 7);
      Last(s, 7)
    else if now >= 100 then
      assert Pow10(2) == 100;
      NatToStringLength(now, 2);
      Last(s, 7)
    else Last(s, 7)
  }

  function Pow10(k: nat): (p: nat)
    ensures p >= 1
  {
    if k == 0 then 1 else 10 * Pow10(k - 1)
  }

  lemma {:induction false} NatToStringLength(n: nat, k: nat)
    requires n >= Pow10(k)
    ensures |NatToString(n)| >= k + 1
    decreases k
  {
    if k > 0 {
      NatToStringLength(n / 10, k - 1);
    }
  }

  /** The decimal rendering ends with the last digit, after the rendering
      of the higher places (nothing for a single digit). */
  lemma NatToStringSplit(n: nat)
    ensures NatToString(n) == (if n < 10 then [] else NatToString(n / 10)) + [DigitChar(n % 10)]
  {
    if n < 10 {
      assert n % 10 == n;
    }
  }

  /** Appending the same character to two strings that agree on their
      last `k - 1` characters makes them agree on their last `k`. */
  lemma LastAppendAgree(a: string, b: string, c: char, k: nat)
    requires k >= 1 && Last(a, k - 1) == Last(b, k - 1)
    ensures Last(a + [c], k) == Last(b + [c], k)
  {
    LastAppend(a, c, k);
    LastAppend(b, c, k);
  }

  lemma LastAppend(a: string, c: char, k: nat)
    requires k >= 1
    ensures Last(a + [c], k) == Last(a, k - 1) + [c]
  {
    if |a| + 1 > k {
      assert (a + [c])[|a| + 1 - k..] == a[|a| - (k - 1)..] + [c];
    }
  }

  lemma DivTen(n: nat, q: nat)
    ensures (n + 10 * q) / 10 == n / 10 + q && (n + 10 * q) % 10 == n % 10
    ensures n >= 10 * q ==> n / 10 >= q
  {
  }

  /** Adding 10^k to a number of at least k digits changes neither its
      last digit nor, among the higher places, anything but the addition of
      10^(k-1) to them. */
  lemma DigitsOfShifted(n: nat, k: nat)
    requires k >= 1 && n >= Pow10(k - 1)
    ensures NatToString(n) == (if n < 10 then [] else NatToString(n / 10)) + [DigitChar(n % 10)]
    ensures NatToString(n + Pow10(k)) == NatToString(n / 10 + Pow10(k - 1)) + [DigitChar(n % 10)]
    ensures k > 1 ==> n >= 10 && n / 10 >= Pow10(k - 2)
  {
    var q := Pow10(k - 1);
    var m := n + Pow10(k);
    assert m == n + 10 * q;
    DivTen(n, q);
    NatToStringSplit(n);
    NatToStringSplit(m);
    if k > 1 {
      assert q == 10 * Pow10(k - 2);
      DivTen(n, Pow10(k - 2));
    }
  }

  /** Adding 10^k to a number of at least k digits leaves its last k digits alone. */
  lemma {:induction false} LastDigitsIgnoreHigherPlaces(n: nat, k: nat)
    requires k >= 1 && n >= Pow10(k - 1)
    ensures Last(NatToString(n + Pow10(k)), k) == Last(NatToString(n), k)
    decreases k
  {
    DigitsOfShifted(n, k);
    var a := if n < 10 then [] else NatToString(n / 10);
    var b := NatToString(n / 10 + Pow10(k - 1));
    if k > 1 {
      LastDigitsIgnoreHigherPlaces(n / 10, k - 1);
    }
    LastAppendAgree(a, b, DigitChar(n % 10), k);
  }

  /** From 13-digit timestamps on, the `cli_` prefix is sliced away and the
      id is the last seven digits of the clock, so it repeats every
      10,000,000 ms; createClient does not check for an existing id. */
  lemma ClientIdsRepeat(now: nat)
    requires now >= 1000000
    ensures ClientIdFor(now) == ClientIdFor(now + 10000000)
    ensures forall k :: 0 <= k < |ClientIdFor(now)| ==> IsDigit(ClientIdFor(now)[k])
    ensures |ClientIdFor(now)| == 7
  {
    assert Pow10(6) == 1000000 && Pow10(7) == 10000000;
    NatToStringLength(now, 6);
    NatToStringLength(now + 10000000, 6);
    LastDigitsIgnoreHigherPlaces(now, 7);
    var s, t := NatToString(now), NatToString(now + 10000000);
    assert Last("cli_" + s, 7) == Last(s, 7);
    assert Last("cli_" + t, 7) == Last(t, 7);
  }

  /** `createClient(data)` with `Date.now()` given as `now`: appends one
      client with no password and no assignments object. */
  method CreateClient(store: BrowserStore, data: NewClient, now: nat) returns (c: ClientInfo)
    modifies store
    ensures c == ClientInfo(ClientIdFor(now), data.companyName, data.contactName, data.email, data.cnpj, None, None)
    ensures store.clientsKey == Some(old(GetClients(store)) + [c])
    ensures store.specialistsKey == old(store.specialistsKey) && store.analyticsKey == old(store.analyticsKey)
    ensures DirectoryInvariant(old(GetClients(store)), old(GetSpecialists(store))) ==>
      DirectoryInvariant(GetClients(store), GetSpecialists(store))
  {
    var clients := GetClients(store);
    c := ClientInfo(ClientIdFor(now), data.companyName, data.contactName, data.email, data.cnpj, None, None);
    AddClientKeepsInvariant(clients, GetSpecialists(store), c);
    store.clientsKey := Some(clients + [c]);
  }

  lemma AddClientKeepsInvariant(clients: seq<ClientInfo>, specialists: seq<Specialist>, c: ClientInfo)
    requires c.assignments.None?
    ensures DirectoryInvariant(clients, specialists) ==> DirectoryInvariant(clients + [c], specialists)
  {
  }

  /** `setClientPassword` / `resetClientPassword` share this write: true iff
      the id exists, and then only that client's password changes. */
  method WriteClientPassword(store: BrowserStore, clientId: string, password: Option<string>) returns (ok: bool)
    modifies store
    ensures ok <==> ClientIndex(old(GetClients(store)), clientId).Some?
    ensures ok ==> var i := ClientIndex(old(GetClients(store)), clientId).value;
      store.clientsKey == Some(old(GetClients(store))[i := old(GetClients(store))[i].(password := password)])
    ensures !ok ==> store.clientsKey == old(store.clientsKey)
    ensures store.specialistsKey == old(store.specialistsKey) && store.analyticsKey == old(store.analyticsKey)
    ensures DirectoryInvariant(old(GetClients(store)), old(GetSpecialists(store))) ==>
      DirectoryInvariant(GetClients(store), GetSpecialists(store))
  {
    var clients := GetClients(store);
    var index := ClientIndex(clients, clientId);
    if index.Some? {
      var i := index.value;
      ClientPasswordKeepsInvariant(clients, GetSpecialists(store), i, password);
      clients := clients[i := clients[i].(password := password)];
      store.clientsKey := Some(clients);
      ok := true;
    } else {
      ok := false;
    }
  }

  /** `setClientPassword(id, pass)`. */
  method SetClientPassword(store: BrowserStore, clientId: string, newPass: string) returns (ok: bool)
    modifies store
    ensures ok <==> ClientIndex(old(GetClients(store)), clientId).Some?
    ensures ok ==> var i := ClientIndex(old(GetClients(store)), clientId).value;
      store.clientsKey == Some(old(GetClients(store))[i := old(GetClients(store))[i].(password := Some(newPass))])
    ensures !ok ==> store.clientsKey == old(store.clientsKey)
    ensures store.specialistsKey == old(store.specialistsKey) && store.analyticsKey == old(store.analyticsKey)
    ensures DirectoryInvariant(old(GetClients(store)), old(GetSpecialists(store))) ==>
      DirectoryInvariant(GetClients(store), GetSpecialists(store))
  {
    ok := WriteClientPassword(store, clientId, Some(newPass));
  }

  /** `resetClientPassword(id)`: the client must set a new password at next login. */
  method ResetClientPassword(store: BrowserStore, clientId: string) returns (ok: bool)
    modifies store
    ensures ok <==> ClientIndex(old(GetClients(store)), clientId).Some?
    ensures ok ==> var i := ClientIndex(old(GetClients(store)), clientId).value;
      store.clientsKey == Some(old(GetClients(store))[i := old(GetClients(store))[i].(password := None)])
    ensures !ok ==> store.clientsKey == old(store.clientsKey)
    ensures store.specialistsKey == old(store.specialistsKey) && store.analyticsKey == old(store.analyticsKey)
    ensures DirectoryInvariant(old(GetClients(store)), old(GetSpecialists(store))) ==>
      DirectoryInvariant(GetClients(store), GetSpecialists(store))
  {
    ok := WriteClientPassword(store, clientId, None);
  }

  lemma ClientPasswordKeepsInvariant(clients: seq<ClientInfo>, specialists: seq<Specialist>, i: nat, password: Option<string>)
    requires i < |clients|
    ensures DirectoryInvariant(clients, specialists) ==>
      DirectoryInvariant(clients[i := clients[i].(password := password)], specialists)
  {
    var updated := clients[i := clients[i].(password := password)];
    forall c | c in updated ensures c in clients || AssignmentsOf(c) == AssignmentsOf(clients[i]) {
    }
  }

  // ---------------------------------------------------------------------
  // Specialists

  /** The fields an administrator types in for a new specialist. */
  datatype NewSpecialist = NewSpecialist(username: string, name: string, department: Department)

  /** The errors the directory throws, with the message each carries. */
  datatype DirectoryError = UsernameInUse | ClientNotFound | SpecialistNotFound | DepartmentMismatch

  function ErrorMessage(e: DirectoryError): string {
    match e
    case UsernameInUse => "Este ID de usuário já está em uso."
    case ClientNotFound => "Cliente não encontrado."
    case SpecialistNotFound => "Especialista não encontrado."
    case DepartmentMismatch => "O especialista não pertence a este departamento."
  }

  /** `createSpecialist(data)`: refuses a username already in use and
      writes nothing; otherwise appends one specialist whose id is
      `spec_` + username and whose password is unset. */
  method CreateSpecialist(store: BrowserStore, data: NewSpecialist) returns (r: Result<Specialist, DirectoryError>)
    modifies store
    ensures UsernameTaken(old(GetSpecialists(store)), data.username) ==>
      r == Failure(UsernameInUse) && store.specialistsKey == old(store.specialistsKey)
    ensures !UsernameTaken(old(GetSpecialists(store)), data.username) ==>
      && r == Success(Specialist("spec_" + data.username, data.username, data.name, data.department, None))
      && store.specialistsKey == Some(old(GetSpecialists(store)) + [r.value])
    ensures store.clientsKey == old(store.clientsKey) && store.analyticsKey == old(store.analyticsKey)
    ensures DirectoryInvariant(old(GetClients(store)), old(GetSpecialists(store))) ==>
      DirectoryInvariant(GetClients(store), GetSpecialists(store))
  {
    var specialists := GetSpecialists(store);
    if UsernameTaken(specialists, data.username) {
      return Failure(UsernameInUse);
    }
    var s := Specialist("spec_" + data.username, data.username, data.name, data.department, None);
    AddSpecialistKeepsInvariant(GetClients(store), specialists, s);
    specialists := specialists + [s];
    store.specialistsKey := Some(specialists);
    r := Success(s);
  }

  lemma AddSpecialistKeepsInvariant(clients: seq<ClientInfo>, specialists: seq<Specialist>, s: Specialist)
    requires !UsernameTaken(specialists, s.username) && s.id == "spec_" + s.username
    ensures DirectoryInvariant(clients, specialists) ==> DirectoryInvariant(clients, specialists + [s])
  {
    var grown := specialists + [s];
    forall e: Entry | Resolves(specialists, e) ensures Resolves(grown, e) {
      var j :| 0 <= j < |specialists| && specialists[j].id == e.assignment.specialistId
        && specialists[j].department == e.dept;
      assert grown[j] == specialists[j];
    }
  }

  /** `setSpecialistPassword` / `resetSpecialistPassword` share this write:
      true iff a specialist has that id, and then only its password changes. */
  method WriteSpecialistPassword(store: BrowserStore, specialistId: string, password: Option<string>) returns (ok: bool)
    modifies store
    ensures ok <==> SpecialistIndex(old(GetSpecialists(store)), specialistId).Some?
    ensures ok ==> var i := SpecialistIndex(old(GetSpecialists(store)), specialistId).value;
      store.specialistsKey == Some(old(GetSpecialists(store))[i := old(GetSpecialists(store))[i].(password := password)])
    ensures !ok ==> store.specialistsKey == old(store.specialistsKey)
    ensures store.clientsKey == old(store.clientsKey) && store.analyticsKey == old(store.analyticsKey)
    ensures DirectoryInvariant(old(GetClients(store)), old(GetSpecialists(store))) ==>
      DirectoryInvariant(GetClients(store), GetSpecialists(store))
  {
    var specialists := GetSpecialists(store);
    var index := SpecialistIndex(specialists, specialistId);
    if index.Some? {
      var i := index.value;
      SpecialistPasswordKeepsInvariant(GetClients(store), specialists, i, password);
      specialists := specialists[i := specialists[i].(password := password)];
      store.specialistsKey := Some(specialists);
      ok := true;
    } else {
      ok := false;
    }
  }

  /** `setSpecialistPassword(id, pass)`: looks the specialist up by id. */
  method SetSpecialistPassword(store: BrowserStore, specialistId: string, newPass: string) returns (ok: bool)
    modifies store
    ensures ok <==> SpecialistIndex(old(GetSpecialists(store)), specialistId).Some?
    ensures ok ==> var i := SpecialistIndex(old(GetSpecialists(store)), specialistId).value;
      store.specialistsKey == Some(old(GetSpecialists(store))[i := old(GetSpecialists(store))[i].(password := Some(newPass))])
    ensures !ok ==> store.specialistsKey == old(store.specialistsKey)
    ensures store.clientsKey == old(store.clientsKey) && store.analyticsKey == old(store.analyticsKey)
    ensures DirectoryInvariant(old(GetClients(store)), old(GetSpecialists(store))) ==>
      DirectoryInvariant(GetClients(store), GetSpecialists(store))
  {
    ok := WriteSpecialistPassword(store, specialistId, Some(newPass));
  }

  /** `resetSpecialistPassword(id)`. */
  method ResetSpecialistPassword(store: BrowserStore, specialistId: string) returns (ok: bool)
    modifies store
    ensures ok <==> SpecialistIndex(old(GetSpecialists(store)), specialistId).Some?
    ensures ok ==> var i := SpecialistIndex(old(GetSpecialists(store)), specialistId).value;
      store.specialistsKey == Some(old(GetSpecialists(store))[i := old(GetSpecialists(store))[i].(password := None)])
    ensures !ok ==> store.specialistsKey == old(store.specialistsKey)
    ensures store.clientsKey == old(store.clientsKey) && store.analyticsKey == old(store.analyticsKey)
    ensures DirectoryInvariant(old(GetClients(store)), old(GetSpecialists(store))) ==>
      DirectoryInvariant(GetClients(store), GetSpecialists(store))
  {
    ok := WriteSpecialistPassword(store, specialistId, None);
  }

  lemma SpecialistPasswordKeepsInvariant(clients: seq<ClientInfo>, specialists: seq<Specialist>, i: nat, password: Option<string>)
    requires i < |specialists|
    ensures DirectoryInvariant(clients, specialists) ==>
      DirectoryInvariant(clients, specialists[i := specialists[i].(password := password)])
  {
    var updated := specialists[i := specialists[i].(password := password)];
    forall e: Entry | Resolves(specialists, e) ensures Resolves(updated, e) {
      var j :| 0 <= j < |specialists| && specialists[j].id == e.assignment.specialistId
        && specialists[j].department == e.dept;
      assert updated[j].id == specialists[j].id && updated[j].department == specialists[j].department;
    }
  }

  // ---------------------------------------------------------------------
  // Deleting a specialist

  /** `specialists.filter(s => s.id !== specialistId)`. */
  function SpecialistsWithout(specialists: seq<Specialist>, specialistId: string): (r: seq<Specialist>)
    ensures forall s :: s in r <==> s in specialists && s.id != specialistId
    ensures forall s :: multiset(r)[s] == if s.id != specialistId then multiset(specialists)[s] else 0
    ensures IsSubsequence(r, specialists)
  {
    Filter(specialists, (s: Specialist) => s.id != specialistId)
  }

  /** What remains of one client's assignments object once every property
      naming `specialistId` has been deleted. */
  function EntriesWithout(t: AssignmentTable, specialistId: string): (r: AssignmentTable)
    ensures forall e :: e in r <==> e in t && e.assignment.specialistId != specialistId
    ensures IsSubsequence(r, t)
  {
    Filter(t, (e: Entry) => e.assignment.specialistId != specialistId)
  }

  function ClientWithout(c: ClientInfo, specialistId: string): ClientInfo {
    match c.assignments
    case None => c
    case Some(t) => c.(assignments := Some(EntriesWithout(t, specialistId)))
  }

  /** The client list deleteSpecialist stores: each client with the
      assignments naming `specialistId` deleted. */
  function ClientsWithout(clients: seq<ClientInfo>, specialistId: string): seq<ClientInfo> {
    seq(|clients|, k requires 0 <= k < |clients| => ClientWithout(clients[k], specialistId))
  }

  lemma {:induction false} EntriesWithoutKeepsKeysDistinct(t: AssignmentTable, specialistId: string)
    requires DistinctKeys(t)
    ensures DistinctKeys(EntriesWithout(t, specialistId))
  {
    if t != [] {
      var p := (e: Entry) => e.assignment.specialistId != specialistId;
      EntriesWithoutKeepsKeysDistinct(t[1..], specialistId);
      var rest := EntriesWithout(t[1..], specialistId);
      assert t == [t[0]] + t[1..];
      FilterAppend([t[0]], t[1..], p);
      if p(t[0]) {
        assert EntriesWithout(t, specialistId) == [t[0]] + rest;
        forall k | 0 <= k < |rest| ensures rest[k].dept != t[0].dept {
          assert rest[k] in t[1..];
        }
      } else {
        assert Filter([t[0]], p) == [];
        assert EntriesWithout(t, specialistId) == rest;
      }
    }
  }

  /** Deleting a specialist: it is gone from the specialist list (every
      other specialist stays), no assignment names it any more, every other
      assignment stays with its client, and the directory invariant holds
      afterwards. */
  lemma DeleteSpecialistEffect(clients: seq<ClientInfo>, specialists: seq<Specialist>, specialistId: string)
    ensures forall s :: s in SpecialistsWithout(specialists, specialistId) <==> s in specialists && s.id != specialistId
    ensures |ClientsWithout(clients, specialistId)| == |clients|
    ensures forall k, e :: 0 <= k < |clients| ==>
      (e in AssignmentsOf(ClientsWithout(clients, specialistId)[k]) <==>
       e in AssignmentsOf(clients[k]) && e.assignment.specialistId != specialistId)
    ensures forall k :: 0 <= k < |clients| ==>
      ClientsWithout(clients, specialistId)[k].(assignments := clients[k].assignments) == clients[k]
  {
    forall k | 0 <= k < |clients|
      ensures AssignmentsOf(ClientsWithout(clients, specialistId)[k]) == EntriesWithout(AssignmentsOf(clients[k]), specialistId)
    {
      if clients[k].assignments.None? {
        assert EntriesWithout([], specialistId) == [];
      }
    }
  }

  lemma DeleteKeepsInvariant(clients: seq<ClientInfo>, specialists: seq<Specialist>, specialistId: string)
    ensures DirectoryInvariant(clients, specialists) ==>
      DirectoryInvariant(ClientsWithout(clients, specialistId), SpecialistsWithout(specialists, specialistId))
  {
    if DirectoryInvariant(clients, specialists) {
      var cs, ss := ClientsWithout(clients, specialistId), SpecialistsWithout(specialists, specialistId);
      DeleteKeepsSpecialistRules(specialists, specialistId);
      DeleteSpecialistEffect(clients, specialists, specialistId);
      forall c | c in cs ensures DistinctKeys(AssignmentsOf(c)) {
        var k :| 0 <= k < |cs| && cs[k] == c;
        if clients[k].assignments.Some? {
          EntriesWithoutKeepsKeysDistinct(clients[k].assignments.value, specialistId);
        }
      }
      forall c, e | c in cs && e in AssignmentsOf(c) ensures Resolves(ss, e) {
        var k :| 0 <= k < |cs| && cs[k] == c;
        assert e in AssignmentsOf(clients[k]) && e.assignment.specialistId != specialistId;
        ResolvesAfterDelete(specialists, specialistId, e);
      }
    }
  }

  lemma ResolvesAfterDelete(specialists: seq<Specialist>, specialistId: string, e: Entry)
    requires Resolves(specialists, e) && e.assignment.specialistId != specialistId
    ensures Resolves(SpecialistsWithout(specialists, specialistId), e)
  {
    var ss := SpecialistsWithout(specialists, specialistId);
    var j :| 0 <= j < |specialists| && specialists[j].id == e.assignment.specialistId
      && specialists[j].department == e.dept;
    assert specialists[j] in ss;
    var j' :| 0 <= j' < |ss| && ss[j'] == specialists[j];
  }

  lemma DeleteKeepsSpecialistRules(specialists: seq<Specialist>, specialistId: string)
    requires forall i, j :: 0 <= i < j < |specialists| ==> specialists[i].username != specialists[j].username
    requires forall i :: 0 <= i < |specialists| ==> specialists[i].id == "spec_" + specialists[i].username
    ensures var ss := SpecialistsWithout(specialists, specialistId);
      && (forall i, j :: 0 <= i < j < |ss| ==> ss[i].username != ss[j].username)
      && (forall i :: 0 <= i < |ss| ==> ss[i].id == "spec_" + ss[i].username)
  {
    var ss := SpecialistsWithout(specialists, specialistId);
    forall i | 0 <= i < |ss| ensures ss[i].id == "spec_" + ss[i].username {
      assert ss[i] in specialists;
    }
    forall i, j | 0 <= i < j < |ss| ensures ss[i].username != ss[j].username {
      SubsequenceKeepsOrder(ss, specialists, i, j);
    }
  }

  /** Two positions of a subsequence come from two increasing positions of the whole. */
  lemma {:induction false} SubsequenceKeepsOrder<T>(a: seq<T>, b: seq<T>, i: nat, j: nat)
    requires IsSubsequence(a, b) && i < j < |a|
    ensures exists i', j' :: 0 <= i' < j' < |b| && b[i'] == a[i] && b[j'] == a[j]
    decreases |b|
  {
    if a[0] == b[0] && IsSubsequence(a[1..], b[1..]) {
      if i == 0 {
        assert a[j] == a[1..][j - 1];
        SubsequenceHas(a[1..], b[1..], j - 1);
        var j' :| 0 <= j' < |b[1..]| && b[1..][j'] == a[j];
        assert b[j' + 1] == a[j];
      } else {
        SubsequenceKeepsOrder(a[1..], b[1..], i - 1, j - 1);
        var i', j' :| 0 <= i' < j' < |b[1..]| && b[1..][i'] == a[1..][i - 1] && b[1..][j'] == a[1..][j - 1];
        assert b[i' + 1] == a[i] && b[j' + 1] == a[j];
      }
    } else {
      SubsequenceKeepsOrder(a, b[1..], i, j);
      var i', j' :| 0 <= i' < j' < |b[1..]| && b[1..][i'] == a[i] && b[1..][j'] == a[j];
      assert b[i' + 1] == a[i] && b[j' + 1] == a[j];
    }
  }

  lemma {:induction false} SubsequenceHas<T>(a: seq<T>, b: seq<T>, i: nat)
    requires IsSubsequence(a, b) && i < |a|
    ensures exists i' :: 0 <= i' < |b| && b[i'] == a[i]
    decreases |b|
  {
    if a[0] == b[0] && IsSubsequence(a[1..], b[1..]) {
      if i > 0 {
        SubsequenceHas(a[1..], b[1..], i - 1);
        var i' :| 0 <= i' < |b[1..]| && b[1..][i'] == a[1..][i - 1];
        assert b[i' + 1] == a[i];
      } else {
        assert b[0] == a[i];
      }
    } else {
      SubsequenceHas(a, b[1..], i);
      var i' :| 0 <= i' < |b[1..]| && b[1..][i'] == a[i];
      assert b[i' + 1] == a[i];
    }
  }

  /** The `Object.keys(assignments).forEach(... delete ...)` loop on one
      client: visits the properties in order and deletes those naming
      `specialistId`. */
  method DeleteAssignmentsOf(t: AssignmentTable, specialistId: string) returns (r: AssignmentTable)
    ensures r == EntriesWithout(t, specialistId)
  {
    r := [];
    var i := 0;
    while i < |t|
      invariant 0 <= i <= |t|
      invariant r == EntriesWithout(t[..i], specialistId)
    {
      EntriesWithoutStep(t, i, specialistId);
      if t[i].assignment.specialistId != specialistId {
        r := r + [t[i]];
      }
      i := i + 1;
    }
    assert t[..i] == t;
  }

  /** One more visited property adds itself to what remains, unless it names `specialistId`. */
  lemma EntriesWithoutStep(t: AssignmentTable, i: nat, specialistId: string)
    requires i < |t|
    ensures EntriesWithout(t[..i + 1], specialistId)
      == EntriesWithout(t[..i], specialistId) + (if t[i].assignment.specialistId != specialistId then [t[i]] else [])
  {
    var p := (e: Entry) => e.assignment.specialistId != specialistId;
    assert t[..i + 1] == t[..i] + [t[i]];
    FilterAppend(t[..i], [t[i]], p);
    assert [t[i]][1..] == [];
  }

  /** The `clients.forEach(...)` pass of deleteSpecialist. */
  method DeleteFromClients(clients: seq<ClientInfo>, specialistId: string) returns (updated: seq<ClientInfo>)
    ensures updated == ClientsWithout(clients, specialistId)
  {
    updated := [];
    var i := 0;
    while i < |clients|
      invariant 0 <= i <= |clients|
      invariant |updated| == i
      invariant forall k :: 0 <= k < i ==> updated[k] == ClientWithout(clients[k], specialistId)
    {
      var client := clients[i];
      if client.assignments.Some? {
        var t := DeleteAssignmentsOf(client.assignments.value, specialistId);
        client := client.(assignments := Some(t));
      }
      updated := updated + [client];
      i := i + 1;
    }
  }

  /** `deleteSpecialist(id)`: stores the filtered specialist list, then the
      client list with every assignment naming the specialist deleted.
      Both keys are written even when nothing matched. */
  method DeleteSpecialist(store: BrowserStore, specialistId: string)
    modifies store
    ensures store.specialistsKey == Some(SpecialistsWithout(old(GetSpecialists(store)), specialistId))
    ensures store.clientsKey == Some(ClientsWithout(old(GetClients(store)), specialistId))
    ensures store.analyticsKey == old(store.analyticsKey)
    ensures DirectoryInvariant(old(GetClients(store)), old(GetSpecialists(store))) ==>
      DirectoryInvariant(GetClients(store), GetSpecialists(store))
  {
    var specialists := GetSpecialists(store);
    var clients := GetClients(store);
    DeleteKeepsInvariant(clients, specialists, specialistId);
    store.specialistsKey := Some(SpecialistsWithout(specialists, specialistId));
    var updated := DeleteFromClients(clients, specialistId);
    store.clientsKey := Some(updated);
  }

  // ---------------------------------------------------------------------
  // Assignments

  /** `assignSpecialistToClient(clientId, specialistId, department)`.
      Throws, writing nothing, for an unknown client, an unknown specialist
      or a specialist of another department (checked in that order);
      otherwise files a Pending assignment under the department, replacing
      whatever was there. */
  method AssignSpecialistToClient(store: BrowserStore, clientId: string, specialistId: string, department: Department)
    returns (r: Option<DirectoryError>)
    modifies store
    ensures var clients, specialists := old(GetClients(store)), old(GetSpecialists(store));
      && (ClientIndex(clients, clientId).None? ==> r == Some(ClientNotFound))
      && (ClientIndex(clients, clientId).Some? && FindSpecialistById(specialists, specialistId).None? ==>
            r == Some(SpecialistNotFound))
      && (ClientIndex(clients, clientId).Some? && FindSpecialistById(specialists, specialistId).Some?
          && FindSpecialistById(specialists, specialistId).value.department != department ==>
            r == Some(DepartmentMismatch))
    ensures r.Some? ==> store.clientsKey == old(store.clientsKey)
    ensures r.None? <==>
      && ClientIndex(old(GetClients(store)), clientId).Some?
      && FindSpecialistById(old(GetSpecialists(store)), specialistId).Some?
      && FindSpecialistById(old(GetSpecialists(store)), specialistId).value.department == department
    ensures r.None? ==> var clients := old(GetClients(store)); var i := ClientIndex(clients, clientId).value;
      && store.clientsKey == Some(clients[i := clients[i].(assignments :=
           Some(Put(AssignmentsOf(clients[i]), department, Assignment(specialistId, Pending))))])
    ensures store.specialistsKey == old(store.specialistsKey) && store.analyticsKey == old(store.analyticsKey)
    ensures DirectoryInvariant(old(GetClients(store)), old(GetSpecialists(store))) ==>
      DirectoryInvariant(GetClients(store), GetSpecialists(store))
  {
    var clients := GetClients(store);
    var index := ClientIndex(clients, clientId);
    if index.None? {
      return Some(ClientNotFound);
    }
    var specialist := FindSpecialistById(GetSpecialists(store), specialistId);
    if specialist.None? {
      return Some(SpecialistNotFound);
    }
    if specialist.value.department != department {
      return Some(DepartmentMismatch);
    }
    var i := index.value;
    var assignment := Assignment(specialistId, Pending);
    AssignKeepsInvariant(clients, GetSpecialists(store), i, department, assignment);
    clients := clients[i := clients[i].(assignments := Some(Put(AssignmentsOf(clients[i]), department, assignment)))];
    store.clientsKey := Some(clients);
    r := None;
  }

  /** On success, the chosen client now has exactly `a` under `department`;
      its other departments and every other client are untouched. */
  lemma AssignEffect(clients: seq<ClientInfo>, i: nat, department: Department, a: Assignment)
    requires i < |clients|
    ensures var updated := clients[i := clients[i].(assignments := Some(Put(AssignmentsOf(clients[i]), department, a)))];
      && Lookup(AssignmentsOf(updated[i]), department) == Some(a)
      && (forall d :: d != department ==> Lookup(AssignmentsOf(updated[i]), d) == Lookup(AssignmentsOf(clients[i]), d))
      && (forall k :: 0 <= k < |clients| && k != i ==> updated[k] == clients[k])
      && updated[i].(assignments := clients[i].assignments) == clients[i]
  {
  }

  lemma AssignKeepsInvariant(clients: seq<ClientInfo>, specialists: seq<Specialist>, i: nat, department: Department, a: Assignment)
    requires i < |clients|
    requires Resolves(specialists, Entry(department, a))
    ensures DirectoryInvariant(clients, specialists) ==>
      DirectoryInvariant(clients[i := clients[i].(assignments := Some(Put(AssignmentsOf(clients[i]), department, a)))], specialists)
  {
    var t := AssignmentsOf(clients[i]);
    var t' := Put(t, department, a);
    var updated := clients[i := clients[i].(assignments := Some(t'))];
    if DirectoryInvariant(clients, specialists) {
      forall c | c in updated ensures DistinctKeys(AssignmentsOf(c)) {
        if c != updated[i] { assert c in clients; }
      }
      forall c, e | c in updated && e in AssignmentsOf(c) ensures Resolves(specialists, e) {
        if c != updated[i] { assert c in clients; } else { assert e == Entry(department, a) || e in t; }
      }
    }
  }

  /** A Pending assignment for `specialistId`. */
  predicate IsPendingFor(e: Entry, specialistId: string) {
    e.assignment.specialistId == specialistId && e.assignment.status == Pending
  }

  /** The first property (in `for..in` order) holding a Pending assignment for `specialistId`. */
  function PendingIndex(t: AssignmentTable, specialistId: string): (r: Option<nat>)
    ensures r.Some? ==> r.value < |t| && IsPendingFor(t[r.value], specialistId)
    ensures r.Some? ==> forall k :: 0 <= k < r.value ==> !IsPendingFor(t[k], specialistId)
    ensures r.None? ==> forall k :: 0 <= k < |t| ==> !IsPendingFor(t[k], specialistId)
  {
    FirstIndex(t, (e: Entry) => IsPendingFor(e, specialistId))
  }

  function Accept(e: Entry): Entry {
    e.(assignment := e.assignment.(status := Accepted))
  }

  /** Accepting keeps the department keys and the specialist of every
      assignment, so it keeps the directory invariant. */
  lemma AcceptKeepsInvariant(clients: seq<ClientInfo>, specialists: seq<Specialist>, i: nat, j: nat)
    requires i < |clients| && j < |AssignmentsOf(clients[i])|
    ensures var t := AssignmentsOf(clients[i]);
      DirectoryInvariant(clients, specialists) ==>
      DirectoryInvariant(clients[i := clients[i].(assignments := Some(t[j := Accept(t[j])]))], specialists)
  {
    var t := AssignmentsOf(clients[i]);
    var t' := t[j := Accept(t[j])];
    var updated := clients[i := clients[i].(assignments := Some(t'))];
    if DirectoryInvariant(clients, specialists) {
      forall c, e | c in updated && e in AssignmentsOf(c) ensures Resolves(specialists, e) {
        if c != updated[i] {
          assert c in clients;
        } else {
          var k :| 0 <= k < |t'| && t'[k] == e;
          assert t[k] in AssignmentsOf(clients[i]);
          assert Resolves(specialists, t[k]);
        }
      }
      forall c | c in updated ensures DistinctKeys(AssignmentsOf(c)) {
        if c != updated[i] { assert c in clients; }
      }
    }
  }

  /** `acceptClientAssignment(clientId, specialistId)`: flips the first
      Pending assignment of that client naming the specialist to Accepted
      and reports true; with no client, no assignments object or no such
      assignment it reports false and writes nothing. */
  method AcceptClientAssignment(store: BrowserStore, clientId: string, specialistId: string) returns (ok: bool)
    modifies store
    ensures var clients := old(GetClients(store)); var index := ClientIndex(clients, clientId);
      ok <==> index.Some? && PendingIndex(AssignmentsOf(clients[index.value]), specialistId).Some?
    ensures ok ==> var clients := old(GetClients(store)); var i := ClientIndex(clients, clientId).value;
      var t := AssignmentsOf(clients[i]); var j := PendingIndex(t, specialistId).value;
      store.clientsKey == Some(clients[i := clients[i].(assignments := Some(t[j := Accept(t[j])]))])
    ensures !ok ==> store.clientsKey == old(store.clientsKey)
    ensures store.specialistsKey == old(store.specialistsKey) && store.analyticsKey == old(store.analyticsKey)
    ensures DirectoryInvariant(old(GetClients(store)), old(GetSpecialists(store))) ==>
      DirectoryInvariant(GetClients(store), GetSpecialists(store))
  {
    var clients := GetClients(store);
    var index := ClientIndex(clients, clientId);
    if index.None? {
      return false;
    }
    var i := index.value;
    var client := clients[i];
    if client.assignments.None? {
      assert AssignmentsOf(client) == [];
      return false;
    }
    var t := client.assignments.value;
    var j := 0;
    while j < |t| && !IsPendingFor(t[j], specialistId)
      invariant 0 <= j <= |t|
      invariant forall k :: 0 <= k < j ==> !IsPendingFor(t[k], specialistId)
    {
      j := j + 1;
    }
    if j == |t| {
      return false;
    }
    assert PendingIndex(t, specialistId) == Some(j);
    AcceptKeepsInvariant(clients, GetSpecialists(store), i, j);
    t := t[j := Accept(t[j])];
    clients := clients[i := client.(assignments := Some(t))];
    store.clientsKey := Some(clients);
    ok := true;
  }

  /** Acceptance changes only the status of the one assignment it picks. */
  lemma AcceptEffect(t: AssignmentTable, specialistId: string)
    requires DistinctKeys(t) && PendingIndex(t, specialistId).Some?
    ensures var j := PendingIndex(t, specialistId).value; var t' := t[j := Accept(t[j])];
      && Lookup(t', t[j].dept) == Some(Assignment(specialistId, Accepted))
      && (forall d :: d != t[j].dept ==> Lookup(t', d) == Lookup(t, d))
      && DistinctKeys(t')
  {
    var j := PendingIndex(t, specialistId).value;
    var t' := t[j := Accept(t[j])];
    forall d ensures DeptIndex(t', d) == DeptIndex(t, d) {
      DeptIndexIs(t', d, DeptIndex(t, d));
    }
    LookupDistinct(t', j);
  }

  // ---------------------------------------------------------------------
  // Authentication

  /** The three outcomes of a client or specialist login. */
  datatype LoginResult<T> = Authenticated(user: T) | NeedsPassword | Rejected

  /** `loginClient(id, pass)` over the stored clients. */
  function LoginClient(clients: seq<ClientInfo>, clientId: string, pass: string): (r: LoginResult<ClientInfo>)
    ensures FindClientById(clients, clientId).None? ==> r == Rejected
    ensures r == NeedsPassword <==>
      FindClientById(clients, clientId).Some? && FindClientById(clients, clientId).value.password.None?
    ensures r.Authenticated? <==>
      FindClientById(clients, clientId).Some? && FindClientById(clients, clientId).value.password == Some(pass)
    ensures r.Authenticated? ==> r.user == FindClientById(clients, clientId).value
  {
    match FindClientById(clients, clientId)
    case None => Rejected
    case Some(c) =>
      if c.password.None? then NeedsPassword
      else if c.password == Some(pass) then Authenticated(c)
      else Rejected
  }

  /** `loginSpecialist(username, pass)`: looks the specialist up by username. */
  function LoginSpecialist(specialists: seq<Specialist>, username: string, pass: string): (r: LoginResult<Specialist>)
    ensures UsernameIndex(specialists, username).None? ==> r == Rejected
    ensures r == NeedsPassword <==>
      UsernameIndex(specialists, username).Some? && specialists[UsernameIndex(specialists, username).value].password.None?
    ensures r.Authenticated? <==>
      UsernameIndex(specialists, username).Some? && specialists[UsernameIndex(specialists, username).value].password == Some(pass)
    ensures r.Authenticated? ==> r.user == specialists[UsernameIndex(specialists, username).value]
  {
    match UsernameIndex(specialists, username)
    case None => Rejected
    case Some(i) =>
      var s := specialists[i];
      if s.password.None? then NeedsPassword
      else if s.password == Some(pass) then Authenticated(s)
      else Rejected
  }

  /** Setting a client's password makes that password log the client in;
      resetting it makes every login attempt ask for a new password. */
  lemma ClientPasswordRoundTrip(clients: seq<ClientInfo>, clientId: string, p: Option<string>, attempt: string)
    requires ClientIndex(clients, clientId).Some?
    ensures var i := ClientIndex(clients, clientId).value;
      var updated := clients[i := clients[i].(password := p)];
      && (p == Some(attempt) ==> LoginClient(updated, clientId, attempt) == Authenticated(updated[i]))
      && (p.None? ==> LoginClient(updated, clientId, attempt) == NeedsPassword)
  {
    var i := ClientIndex(clients, clientId).value;
    var updated := clients[i := clients[i].(password := p)];
    FirstIndexSameShape(clients, updated, (c: ClientInfo) => c.id == clientId);
  }

  /** The same round trip for a specialist written by id and logging in by
      username, provided the id leads back to that specialist. */
  lemma SpecialistPasswordRoundTrip(specialists: seq<Specialist>, username: string, p: Option<string>, attempt: string)
    requires UsernameIndex(specialists, username).Some?
    ensures var i := UsernameIndex(specialists, username).value;
      var updated := specialists[i := specialists[i].(password := p)];
      && (p == Some(attempt) ==> LoginSpecialist(updated, username, attempt) == Authenticated(updated[i]))
      && (p.None? ==> LoginSpecialist(updated, username, attempt) == NeedsPassword)
  {
    var i := UsernameIndex(specialists, username).value;
    var updated := specialists[i := specialists[i].(password := p)];
    FirstIndexSameShape(specialists, updated, (s: Specialist) => s.username == username);
  }

  /** The fixed-credential principals. */
  predicate LoginAdmin(username: string, pass: string) {
    username == "admin" && pass == "admin123"
  }

  predicate LoginDev(username: string, pass: string) {
    username == "dev" && pass == "devpass"
  }

  predicate LoginOwner(username: string, pass: string) {
    username == "dono" && pass == "dono123"
  }

  /** No credential pair opens two of the fixed principals. */
  lemma FixedPrincipalsDisjoint(username: string, pass: string)
    ensures !(LoginAdmin(username, pass) && LoginDev(username, pass))
    ensures !(LoginAdmin(username, pass) && LoginOwner(username, pass))
    ensures !(LoginDev(username, pass) && LoginOwner(username, pass))
  {
  }
}
