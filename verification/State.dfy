/** The in-memory state store. */
module State {
  import opened Basics
  import opened Protocol
  import Session

  class MemoryState {
    var policyKey: Key
    var syncKeys: map<Bytes, Key>

    function Contents(): Session.Store
      reads this
    {
      Session.Store(policyKey, syncKeys)
    }

    constructor ()
      ensures Contents() == Session.Store([], map[])
    {
      policyKey, syncKeys := [], map[];
    }

    method PolicyKey() returns (key: Key)
      ensures key == Contents().policyKey
    {
      key := policyKey;
    }

    method SetPolicyKey(key: Key)
      modifies this
      ensures Contents() == old(Contents()).(policyKey := key)
    {
      policyKey := key;
    }

    /** "0" for a folder that was never synced. */
    method SyncKey(folder: Bytes) returns (key: Key)
      ensures key == Contents().KeyOf(folder)
    {
      if folder in syncKeys {
        return syncKeys[folder];
      }
      return NO_KEY;
    }

    method SetSyncKey(folder: Bytes, key: Key)
      modifies this
      ensures Contents().policyKey == old(Contents()).policyKey && Contents().KeyOf(folder) == key
      ensures forall other | other != folder :: Contents().KeyOf(other) == old(Contents()).KeyOf(other)
      ensures Contents().syncKeys == old(Contents()).syncKeys[folder := key]
    {
      syncKeys := syncKeys[folder := key];
    }
  }
}
