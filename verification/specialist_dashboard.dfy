/** The specialist's own view (components/SpecialistDashboard.tsx): the
    clients assigned to them, split into pending requests and accepted
    clients, and the accept button. */
module SpecialistPanel {
  import opened Wrappers
  import opened Seqs
  import opened Types
  import opened Storage
  import opened UserService

  /** `Object.values(client.assignments).some(a => a?.specialistId === id)`. */
  predicate HasAssignmentFor(c: ClientInfo, specialistId: string) {
    exists k :: 0 <= k < |AssignmentsOf(c)| && AssignmentsOf(c)[k].assignment.specialistId == specialistId
  }

  /** The `fetchClients` filter: in order, the clients with some assignment
      (of any status) to this specialist. */
  function ClientsFor(clients: seq<ClientInfo>, specialistId: string): (r: seq<ClientInfo>)
    ensures forall c :: c in r <==> c in clients && HasAssignmentFor(c, specialistId)
    ensures forall c :: multiset(r)[c] == if HasAssignmentFor(c, specialistId) then multiset(clients)[c] else 0
    ensures IsSubsequence(r, clients)
  {
    Filter(clients, (c: ClientInfo) => HasAssignmentFor(c, specialistId))
  }

  /** One row of the pending list: a client and the department of a
      Pending assignment to this specialist. */
  datatype PendingItem = PendingItem(client: ClientInfo, department: Department)

  /** The rows `client` contributes, in property order. */
  function PendingIn(client: ClientInfo, t: AssignmentTable, specialistId: string): seq<PendingItem>
    decreases |t|
  {
    if t == [] then []
    else
      var e := t[|t| - 1];
      PendingIn(client, t[..|t| - 1], specialistId)
        + (if IsPendingFor(e, specialistId) then [PendingItem(client, e.dept)] else [])
  }

  /** The `pendingAssignments` reduction. */
  function PendingOf(clients: seq<ClientInfo>, specialistId: string): seq<PendingItem>
    decreases |clients|
  {
    if clients == [] then []
    else
      var c := clients[|clients| - 1];
      PendingOf(clients[..|clients| - 1], specialistId) + PendingIn(c, AssignmentsOf(c), specialistId)
  }

  lemma {:induction false} PendingInMembers(client: ClientInfo, t: AssignmentTable, specialistId: string)
    ensures forall x :: x in PendingIn(client, t, specialistId) <==>
      x.client == client && Entry(x.department, Assignment(specialistId, Pending)) in t
    decreases |t|
  {
    if t != [] {
      PendingInMembers(client, t[..|t| - 1], specialistId);
      assert t == t[..|t| - 1] + [t[|t| - 1]];
    }
  }

  /** A row is listed exactly when its client is one of the specialist's
      clients and holds a Pending assignment to them under that department. */
  lemma {:induction false} PendingMembers(clients: seq<ClientInfo>, specialistId: string)
    ensures forall x :: x in PendingOf(clients, specialistId) <==>
      x.client in clients && Entry(x.department, Assignment(specialistId, Pending)) in AssignmentsOf(x.client)
    decreases |clients|
  {
    if clients != [] {
      var c := clients[|clients| - 1];
      PendingMembers(clients[..|clients| - 1], specialistId);
      PendingInMembers(c, AssignmentsOf(c), specialistId);
      assert clients == clients[..|clients| - 1] + [c];
    }
  }

  /** `pendingAssignments`: the `reduce` over the clients with the inner
      `forEach` over the assignment properties. */
  method PendingAssignments(myClients: seq<ClientInfo>, specialistId: string) returns (acc: seq<PendingItem>)
    ensures acc == PendingOf(myClients, specialistId)
  {
    acc := [];
    var i := 0;
    while i < |myClients|
      invariant 0 <= i <= |myClients|
      invariant acc == PendingOf(myClients[..i], specialistId)
    {
      var client := myClients[i];
      assert myClients[..i + 1][..i] == myClients[..i];
      if client.assignments.Some? {
        var t := client.assignments.value;
        var j := 0;
        while j < |t|
          invariant 0 <= j <= |t|
          invariant acc == PendingOf(myClients[..i], specialistId) + PendingIn(client, t[..j], specialistId)
        {
          assert t[..j + 1][..j] == t[..j];
          if IsPendingFor(t[j], specialistId) {
            acc := acc + [PendingItem(client, t[j].dept)];
          }
          j := j + 1;
        }
        assert t[..j] == t;
      }
      i := i + 1;
    }
    assert myClients[..i] == myClients;
  }

  /** The departments in which `t` holds an Accepted assignment to this specialist. */
  function AcceptedDepts(t: AssignmentTable, specialistId: string): seq<Department>
    decreases |t|
  {
    if t == [] then []
    else
      var e := t[|t| - 1];
      AcceptedDepts(t[..|t| - 1], specialistId)
        + (if e.assignment == Assignment(specialistId, Accepted) then [e.dept] else [])
  }

  lemma {:induction false} AcceptedDeptsMembers(t: AssignmentTable, specialistId: string)
    ensures forall d :: d in AcceptedDepts(t, specialistId) <==> Entry(d, Assignment(specialistId, Accepted)) in t
    decreases |t|
  {
    if t != [] {
      AcceptedDeptsMembers(t[..|t| - 1], specialistId);
      assert t == t[..|t| - 1] + [t[|t| - 1]];
    }
  }

  /** One row of the accepted list: a client and its departments accepted by this specialist. */
  datatype AcceptedItem = AcceptedItem(client: ClientInfo, departments: seq<Department>)

  /** The `acceptedClients` reduction. */
  function AcceptedOf(clients: seq<ClientInfo>, specialistId: string): seq<AcceptedItem>
    decreases |clients|
  {
    if clients == [] then []
    else
      var c := clients[|clients| - 1];
      var depts := AcceptedDepts(AssignmentsOf(c), specialistId);
      AcceptedOf(clients[..|clients| - 1], specialistId)
        + (if c.assignments.Some? && depts != [] then [AcceptedItem(c, depts)] else [])
  }

  /** A client is listed exactly when it holds at least one Accepted
      assignment to this specialist, and its departments are exactly those. */
  lemma {:induction false} AcceptedMembers(clients: seq<ClientInfo>, specialistId: string)
    ensures forall x :: x in AcceptedOf(clients, specialistId) ==>
      x.client in clients && x.departments == AcceptedDepts(AssignmentsOf(x.client), specialistId) && x.departments != []
    ensures forall c :: c in clients && AcceptedDepts(AssignmentsOf(c), specialistId) != [] ==>
      AcceptedItem(c, AcceptedDepts(AssignmentsOf(c), specialistId)) in AcceptedOf(clients, specialistId)
    decreases |clients|
  {
    if clients != [] {
      var c := clients[|clients| - 1];
      AcceptedMembers(clients[..|clients| - 1], specialistId);
      assert clients == clients[..|clients| - 1] + [c];
      if c.assignments.None? {
        assert AcceptedDepts([], specialistId) == [];
      }
    }
  }

  /** `acceptedClients`. */
  method AcceptedClients(myClients: seq<ClientInfo>, specialistId: string) returns (acc: seq<AcceptedItem>)
    ensures acc == AcceptedOf(myClients, specialistId)
  {
    acc := [];
    var i := 0;
    while i < |myClients|
      invariant 0 <= i <= |myClients|
      invariant acc == AcceptedOf(myClients[..i], specialistId)
    {
      var client := myClients[i];
      assert myClients[..i + 1][..i] == myClients[..i];
      if client.assignments.Some? {
        var t := client.assignments.value;
        var acceptedDepts: seq<Department> := [];
        var j := 0;
        while j < |t|
          invariant 0 <= j <= |t|
          invariant acceptedDepts == AcceptedDepts(t[..j], specialistId)
        {
          assert t[..j + 1][..j] == t[..j];
          if t[j].assignment.specialistId == specialistId && t[j].assignment.status == Accepted {
            acceptedDepts := acceptedDepts + [t[j].dept];
          }
          j := j + 1;
        }
        assert t[..j] == t;
        if |acceptedDepts| > 0 {
          acc := acc + [AcceptedItem(client, acceptedDepts)];
        }
      }
      i := i + 1;
    }
    assert myClients[..i] == myClients;
  }

  const AcceptedNotice: string := "Atribuição para o cliente aceita."
  const AcceptFailedNotice: string := "Não foi possível aceitar a atribuição."

  class SpecialistDashboard {
    const specialist: Specialist
    var myClients: seq<ClientInfo>

    /** Mounting runs `fetchClients()`. */
    constructor (store: BrowserStore, specialist: Specialist)
      ensures this.specialist == specialist
      ensures myClients == ClientsFor(GetClients(store), specialist.id)
    {
      this.specialist := specialist;
      myClients := ClientsFor(GetClients(store), specialist.id);
    }

    method FetchClients(store: BrowserStore)
      modifies this
      ensures myClients == ClientsFor(GetClients(store), specialist.id)
    {
      myClients := ClientsFor(GetClients(store), specialist.id);
    }

    /** `handleAccept(clientId)`: the list is refreshed only when the
        acceptance went through; the alert text is returned. */
    method HandleAccept(store: BrowserStore, clientId: string) returns (notice: string)
      modifies this, store
      ensures var clients := old(GetClients(store)); var index := ClientIndex(clients, clientId);
        var accepted := index.Some? && PendingIndex(AssignmentsOf(clients[index.value]), specialist.id).Some?;
        && (accepted ==>
              var t := AssignmentsOf(clients[index.value]); var j := PendingIndex(t, specialist.id).value;
              && notice == AcceptedNotice && myClients == ClientsFor(GetClients(store), specialist.id)
              && store.clientsKey == Some(clients[index.value := clients[index.value].(assignments := Some(t[j := Accept(t[j])]))]))
        && (!accepted ==> notice == AcceptFailedNotice && myClients == old(myClients) && store.clientsKey == old(store.clientsKey))
      ensures store.specialistsKey == old(store.specialistsKey) && store.analyticsKey == old(store.analyticsKey)
    {
      var ok := AcceptClientAssignment(store, clientId, specialist.id);
      if ok {
        notice := AcceptedNotice;
        FetchClients(store);
      } else {
        notice := AcceptFailedNotice;
      }
    }
  }

  /** Accepting moves a row from the pending list to the accepted list:
      afterwards the client holds an Accepted assignment to this specialist
      under that department, so it is listed among the accepted clients. */
  lemma AcceptMovesToAccepted(clients: seq<ClientInfo>, i: nat, specialistId: string)
    requires i < |clients| && clients[i].assignments.Some?
    requires PendingIndex(AssignmentsOf(clients[i]), specialistId).Some?
    ensures var t := AssignmentsOf(clients[i]); var j := PendingIndex(t, specialistId).value;
      var c' := clients[i].(assignments := Some(t[j := Accept(t[j])]));
      && t[j].dept in AcceptedDepts(AssignmentsOf(c'), specialistId)
      && AcceptedItem(c', AcceptedDepts(AssignmentsOf(c'), specialistId)) in AcceptedOf(clients[i := c'], specialistId)
  {
    var t := AssignmentsOf(clients[i]);
    var j := PendingIndex(t, specialistId).value;
    var c' := clients[i].(assignments := Some(t[j := Accept(t[j])]));
    assert t[j := Accept(t[j])][j] == Entry(t[j].dept, Assignment(specialistId, Accepted));
    AcceptedDeptsMembers(AssignmentsOf(c'), specialistId);
    AcceptedMembers(clients[i := c'], specialistId);
    assert clients[i := c'][i] == c';
  }
}
