/** The records and enumerations shared by every screen and service
    (types.ts). Enumerations keep the exact string values the TypeScript
    enums carry, since those strings are what is stored and displayed. */
module Types {
  import opened Wrappers
  import opened Seqs

  /** The five departments a conversation can be routed to. */
  datatype Department = Contabil | Fiscal | DP | Financeiro | Societario

  /** `Object.values(Department)`, in declaration order. */
  const AllDepartments: seq<Department> := [Contabil, Fiscal, DP, Financeiro, Societario]

  function DepartmentLabel(d: Department): string {
    match d
    case Contabil => "Contábil"
    case Fiscal => "Fiscal"
    case DP => "DP"
    case Financeiro => "Financeiro"
    case Societario => "Societário"
  }

  /** The string-to-enum reading of a stored or model-produced department name. */
  function ParseDepartment(s: string): (r: Option<Department>)
    ensures r.Some? ==> DepartmentLabel(r.value) == s
    ensures forall d :: DepartmentLabel(d) == s ==> r == Some(d)
  {
    if s == "Contábil" then Some(Contabil)
    else if s == "Fiscal" then Some(Fiscal)
    else if s == "DP" then Some(DP)
    else if s == "Financeiro" then Some(Financeiro)
    else if s == "Societário" then Some(Societario)
    else None
  }

  lemma DepartmentsClosed()
    ensures |AllDepartments| == 5
    ensures forall d: Department :: d in AllDepartments
    ensures forall i, j :: 0 <= i < j < |AllDepartments| ==> AllDepartments[i] != AllDepartments[j]
    ensures forall i, j :: 0 <= i < j < |AllDepartments| ==>
      DepartmentLabel(AllDepartments[i]) != DepartmentLabel(AllDepartments[j])
  {
    forall d: Department ensures d in AllDepartments {
      match d
      case Contabil => assert AllDepartments[0] == d;
      case Fiscal => assert AllDepartments[1] == d;
      case DP => assert AllDepartments[2] == d;
      case Financeiro => assert AllDepartments[3] == d;
      case Societario => assert AllDepartments[4] == d;
    }
  }

  datatype Role = User | Model | SpecialistRole

  function RoleLabel(r: Role): string {
    match r
    case User => "user"
    case Model => "model"
    case SpecialistRole => "specialist"
  }

  datatype ResolutionStatus = Resolved | Unresolved | Forwarded

  function ResolutionLabel(r: ResolutionStatus): string {
    match r
    case Resolved => "Resolvido"
    case Unresolved => "Não Resolvido"
    case Forwarded => "Encaminhado"
  }

  datatype AssignmentStatus = Pending | Accepted

  function AssignmentStatusLabel(s: AssignmentStatus): string {
    match s
    case Pending => "Pendente"
    case Accepted => "Aceito"
  }

  lemma StatusLabelsDistinct()
    ensures forall a: AssignmentStatus, b: AssignmentStatus :: a != b ==> AssignmentStatusLabel(a) != AssignmentStatusLabel(b)
    ensures forall a: ResolutionStatus, b: ResolutionStatus :: a != b ==> ResolutionLabel(a) != ResolutionLabel(b)
  {
  }

  /** A chat message; `timestamp` is absent on the handoff confirmation and
      on the error message. */
  datatype Message = Message(role: Role, content: string, timestamp: Option<int>)

  datatype Assignment = Assignment(specialistId: string, status: AssignmentStatus)

  /** One own property of a client's `assignments` object. */
  datatype Entry = Entry(dept: Department, assignment: Assignment)

  /** The `assignments` object as its properties in insertion order, which
      is the order `for..in`, `Object.keys` and `Object.entries` visit. */
  type AssignmentTable = seq<Entry>

  /** An object cannot hold a key twice: at most one assignment per department. */
  ghost predicate DistinctKeys(t: AssignmentTable) {
    forall i, j :: 0 <= i < j < |t| ==> t[i].dept != t[j].dept
  }

  /** Position of the property for department `d`, if any. */
  function DeptIndex(t: AssignmentTable, d: Department): (r: Option<nat>)
    ensures r.Some? ==> r.value < |t| && t[r.value].dept == d && forall k :: 0 <= k < r.value ==> t[k].dept != d
    ensures r.None? ==> forall k :: 0 <= k < |t| ==> t[k].dept != d
  {
    FirstIndex(t, (e: Entry) => e.dept == d)
  }

  /** The characterisation in DeptIndex's ensures has exactly one solution. */
  lemma DeptIndexIs(t: AssignmentTable, d: Department, r: Option<nat>)
    requires r.Some? ==> r.value < |t| && t[r.value].dept == d && forall k :: 0 <= k < r.value ==> t[k].dept != d
    requires r.None? ==> forall k :: 0 <= k < |t| ==> t[k].dept != d
    ensures DeptIndex(t, d) == r
  {
  }

  /** `assignments[d]`. */
  function Lookup(t: AssignmentTable, d: Department): (r: Option<Assignment>)
    ensures r.Some? <==> exists k :: 0 <= k < |t| && t[k].dept == d
    ensures r.Some? ==> Entry(d, r.value) in t
  {
    match DeptIndex(t, d)
    case None => None
    case Some(i) => Some(t[i].assignment)
  }

  lemma LookupDistinct(t: AssignmentTable, k: nat)
    requires DistinctKeys(t) && k < |t|
    ensures Lookup(t, t[k].dept) == Some(t[k].assignment)
  {
  }

  /** `assignments[d] = a`: an existing property is overwritten where it
      stands, a new one is added at the end. */
  function Put(t: AssignmentTable, d: Department, a: Assignment): (r: AssignmentTable)
    ensures Lookup(r, d) == Some(a)
    ensures forall d' :: d' != d ==> Lookup(r, d') == Lookup(t, d')
    ensures |r| == if Lookup(t, d).Some? then |t| else |t| + 1
    ensures forall k :: 0 <= k < |t| ==> r[k].dept == t[k].dept
    ensures forall k :: 0 <= k < |t| && t[k].dept != d ==> r[k] == t[k]
    ensures DistinctKeys(t) ==> DistinctKeys(r)
    ensures forall e :: e in r ==> e == Entry(d, a) || e in t
  {
    match DeptIndex(t, d)
    case Some(i) =>
      var r := t[i := Entry(d, a)];
      forall d' ensures DeptIndex(r, d') == DeptIndex(t, d') {
        DeptIndexIs(r, d', DeptIndex(t, d'));
      }
      r
    case None =>
      var r := t + [Entry(d, a)];
      DeptIndexIs(r, d, Some(|t|));
      forall d' | d' != d ensures DeptIndex(r, d') == DeptIndex(t, d') {
        DeptIndexIs(r, d', DeptIndex(t, d'));
      }
      r
  }

  /** A client record; `assignments` may be absent (None) and `password`
      is None until the client sets one. */
  datatype ClientInfo = ClientInfo(
    id: string,
    companyName: string,
    contactName: string,
    email: string,
    cnpj: string,
    assignments: Option<AssignmentTable>,
    password: Option<string>)

  /** The assignments of `c`, an absent object read as an empty one. */
  function AssignmentsOf(c: ClientInfo): AssignmentTable {
    c.assignments.GetOr([])
  }

  datatype Specialist = Specialist(
    id: string,
    username: string,
    name: string,
    department: Department,
    password: Option<string>)

  /** A completed conversation as the ledger keeps it. */
  datatype ChatSession = ChatSession(
    id: string,
    client: ClientInfo,
    specialist: Option<Specialist>,
    department: Department,
    startTime: int,
    endTime: int,
    transcript: seq<Message>,
    resolution: ResolutionStatus,
    summary: string)
}
