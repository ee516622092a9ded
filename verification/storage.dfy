/** The browser's `localStorage` as the services use it: three keys, each
    either absent or holding a serialised list. Serialisation is left out;
    a present key holds the list it was last given. */
module Storage {
  import opened Wrappers
  import opened Types

  /** What the analytics key holds: nothing, text that fails to parse as a
      session list, or a session list. */
  datatype Ledger = Missing | Unparsable | Stored(sessions: seq<ChatSession>)

  class BrowserStore {
    var clientsKey: Option<seq<ClientInfo>>
    var specialistsKey: Option<seq<Specialist>>
    var analyticsKey: Ledger

    /** Whatever the browser already held when the page loaded. */
    constructor (clients: Option<seq<ClientInfo>>, specialists: Option<seq<Specialist>>, analytics: Ledger)
      ensures clientsKey == clients && specialistsKey == specialists && analyticsKey == analytics
    {
      clientsKey := clients;
      specialistsKey := specialists;
      analyticsKey := analytics;
    }
  }
}
