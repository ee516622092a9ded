/** The session ledger (services/analyticsService.ts): every conversation
    that ends in a hand-off is appended to one list under the analytics key. */
module Analytics {
  import opened Types
  import opened Storage

  /** `getChatSessions()`: an absent key and text that fails to parse both
      read as the empty list. */
  function SessionsIn(ledger: Ledger): seq<ChatSession> {
    match ledger
    case Stored(sessions) => sessions
    case _ => []
  }

  /** The sessions the analytics key holds; nothing when it is absent or unparsable. */
  function GetChatSessions(store: BrowserStore): (r: seq<ChatSession>)
    reads store
    ensures store.analyticsKey.Stored? ==> r == store.analyticsKey.sessions
    ensures !store.analyticsKey.Stored? ==> r == []
  {
    SessionsIn(store.analyticsKey)
  }

  /** The ledger after a successful `saveChatSession(session)`: always a
      parsable list, holding what could be read before and then the new
      session. */
  function LedgerAfterSave(ledger: Ledger, session: ChatSession): (r: Ledger)
    ensures r.Stored?
    ensures SessionsIn(r) == SessionsIn(ledger) + [session]
    ensures ledger.Stored? ==> |SessionsIn(r)| == |SessionsIn(ledger)| + 1
  {
    Stored(SessionsIn(ledger) + [session])
  }

  /** `saveChatSession(session)`. `writeFails` stands for `setItem`
      throwing (a full quota); the error is swallowed and the key keeps its
      old value. */
  method SaveChatSession(store: BrowserStore, session: ChatSession, writeFails: bool)
    modifies store
    ensures !writeFails ==> store.analyticsKey == LedgerAfterSave(old(store.analyticsKey), session)
    ensures !writeFails ==> GetChatSessions(store) == old(GetChatSessions(store)) + [session]
    ensures writeFails ==> store.analyticsKey == old(store.analyticsKey)
    ensures store.clientsKey == old(store.clientsKey) && store.specialistsKey == old(store.specialistsKey)
  {
    var existing := GetChatSessions(store);
    var updated := existing + [session];
    if !writeFails {
      store.analyticsKey := Stored(updated);
    }
  }

  /** The ledger after saving `sessions` one after the other. */
  function SaveAll(ledger: Ledger, sessions: seq<ChatSession>): Ledger
    decreases |sessions|
  {
    if sessions == [] then ledger
    else SaveAll(LedgerAfterSave(ledger, sessions[0]), sessions[1..])
  }

  /** Saves accumulate in order and nothing readable is ever lost: the
      ledger after a run of saves reads as what it read before followed by
      the saved sessions. A ledger that failed to parse is read as empty,
      so the first save replaces it. */
  lemma {:induction false} SavesAccumulate(ledger: Ledger, sessions: seq<ChatSession>)
    ensures SessionsIn(SaveAll(ledger, sessions)) == SessionsIn(ledger) + sessions
    ensures sessions != [] ==> SaveAll(ledger, sessions).Stored?
    decreases |sessions|
  {
    if sessions != [] {
      SavesAccumulate(LedgerAfterSave(ledger, sessions[0]), sessions[1..]);
      assert sessions == [sessions[0]] + sessions[1..];
      if sessions[1..] == [] {
        assert SaveAll(ledger, sessions) == LedgerAfterSave(ledger, sessions[0]);
      }
    }
  }
}
