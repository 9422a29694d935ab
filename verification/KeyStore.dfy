/** The in-process key store, whose atomic operations the client's runs take for granted. */
module KeyStore {
  import opened Wrappers
  import opened Client
  import ClientRuns

  class MemoryKeyStore {
    var key: Option<Key>

    constructor ()
      ensures key.None?
    {
      key := None;
    }

    method Load() returns (stored: Option<Key>)
      ensures stored == key
    {
      stored := key;
    }

    /** A key that is there wins over the candidate, in one step. */
    method GetOrCreate(candidate: Key) returns (winner: Key)
      modifies this
      ensures winner == ClientRuns.Winner(ClientRuns.Config(false, true, true), old(key), candidate)
      ensures key == Some(winner)
    {
      if key.None? {
        key := Some(candidate);
      }
      winner := key.value;
    }

    method Save(saved: Key)
      modifies this
      ensures key == Some(ClientRuns.Winner(ClientRuns.Config(false, false, true), old(key), saved))
    {
      key := Some(saved);
    }

    method Clear()
      modifies this
      ensures key.None?
    {
      key := None;
    }
  }
}
