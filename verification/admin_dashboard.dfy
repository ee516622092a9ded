/** The administrator's dashboard (components/AdminDashboard.tsx): the
    session filter and duration display of the analytics tab, the tab
    selection and the data-version counter that tells the tabs to reload. */
module AdminPanel {
  import opened Seqs
  import opened Text
  import opened Types

  /** A filter drop-down: `'all'` or one value. */
  datatype Choice<T> = All | Only(value: T)

  predicate Matches<T(==)>(choice: Choice<T>, x: T) {
    choice.All? || choice.value == x
  }

  /** The predicate `filteredSessions` keeps a session by. */
  predicate Keeps(departmentFilter: Choice<Department>, resolutionFilter: Choice<ResolutionStatus>, s: ChatSession) {
    Matches(departmentFilter, s.department) && Matches(resolutionFilter, s.resolution)
  }

  /** `filteredSessions`: the sessions matching both drop-downs, in ledger order. */
  function FilteredSessions(sessions: seq<ChatSession>, departmentFilter: Choice<Department>,
                            resolutionFilter: Choice<ResolutionStatus>): (r: seq<ChatSession>)
    ensures forall s :: s in r <==> s in sessions && Keeps(departmentFilter, resolutionFilter, s)
    ensures forall s :: multiset(r)[s] == if Keeps(departmentFilter, resolutionFilter, s) then multiset(sessions)[s] else 0
    ensures forall k :: 0 <= k < |r| ==> Matches(departmentFilter, r[k].department) && Matches(resolutionFilter, r[k].resolution)
    ensures IsSubsequence(r, sessions)
  {
    var r := Filter(sessions, (s: ChatSession) => Keeps(departmentFilter, resolutionFilter, s));
    assert forall k :: 0 <= k < |r| ==> r[k] in r;
    r
  }

  /** With both drop-downs on `'all'` every session is shown, in order. */
  lemma NoFilterKeepsAll(sessions: seq<ChatSession>)
    ensures FilteredSessions(sessions, All, All) == sessions
  {
    FilterKeepsAll(sessions, (s: ChatSession) => Keeps(All, All, s));
  }

  /** Narrowing one drop-down never adds a session: whatever a department
      filter shows, the `'all'` department filter shows too. */
  lemma NarrowingDepartmentShrinks(sessions: seq<ChatSession>, d: Department, resolutionFilter: Choice<ResolutionStatus>)
    ensures forall s :: s in FilteredSessions(sessions, Only(d), resolutionFilter) ==>
      s in FilteredSessions(sessions, All, resolutionFilter) && s.department == d
  {
  }

  /** JavaScript's `%`, which keeps the sign of the dividend. */
  function JsRemainder(a: int, b: int): (r: int)
    requires b > 0
    ensures a >= 0 ==> 0 <= r < b
    ensures a < 0 ==> -b < r <= 0
  {
    if a >= 0 then a % b else -((-a) % b)
  }

  /** The minutes and remaining seconds `formatDuration(ms)` shows:
      `Math.floor` twice (Dafny's division by a positive number already
      rounds down) and a JavaScript remainder. */
  function DurationParts(ms: int): (p: (int, int))
    ensures ms >= 0 ==> 0 <= p.1 < 60 && p.0 >= 0 && p.0 * 60 + p.1 == ms / 1000
    ensures ms >= 0 ==> p.0 == ms / 60000
  {
    var seconds := ms / 1000;
    var minutes := seconds / 60;
    (minutes, JsRemainder(seconds, 60))
  }

  /** `formatDuration(ms)`: `` `${minutes}m ${remainingSeconds}s` ``. */
  function FormatDuration(ms: int): (r: string)
    ensures ms >= 0 ==> r == NatToString(DurationParts(ms).0) + "m " + NatToString(DurationParts(ms).1) + "s"
  {
    var (minutes, remaining) := DurationParts(ms);
    IntToString(minutes) + "m " + IntToString(remaining) + "s"
  }

  /** A negative span (an end before the start) is shown as a negative
      number of minutes together with a negative number of seconds, whose
      sum overshoots by up to one minute: -1000 ms reads as one minute and
      one second below zero. */
  lemma NegativeDurationShown()
    ensures DurationParts(-1000) == (-1, -1)
    ensures DurationParts(-1000).0 * 60 + DurationParts(-1000).1 != -1000 / 1000
  {
    assert -1000 / 1000 == -1;
    assert -1 / 60 == -1;
  }

  datatype AdminTab = UsersTab | AnalyticsTab | OverviewTab

  class AdminDashboard {
    var activeTab: AdminTab
    var dataVersion: int

    constructor ()
      ensures activeTab == UsersTab && dataVersion == 0
    {
      activeTab := UsersTab;
      dataVersion := 0;
    }

    method SetActiveTab(tab: AdminTab)
      modifies this
      ensures activeTab == tab && dataVersion == old(dataVersion)
    {
      activeTab := tab;
    }

    /** `handleDataChange()`: one more data version. */
    method HandleDataChange()
      modifies this
      ensures dataVersion == old(dataVersion) + 1 && activeTab == old(activeTab)
    {
      dataVersion := dataVersion + 1;
    }
  }
}
