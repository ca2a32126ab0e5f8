/** The registry of who is online: names to sessions, held weakly. */
module SessionRegistry {
  import opened Structs

  type SessionId = nat

  /** Registering under a name: refused while the name's session exists; an expired entry gives way.
      `live` is the set of sessions that are not destroyed, so whose weak pointers have not expired. */
  function Registered(m: map<string, SessionId>, name: string, s: SessionId, live: set<SessionId>)
    : Option<map<string, SessionId>>
  {
    if name in m && m[name] in live then None else Some(m[name := s])
  }

  function Cleaned(m: map<string, SessionId>, live: set<SessionId>): map<string, SessionId> {
    map name | name in m && m[name] in live :: m[name]
  }

  /** The session that a message to `name` reaches. */
  function Reached(m: map<string, SessionId>, name: string, live: set<SessionId>): Option<SessionId> {
    if name in m && m[name] in live then Some(m[name]) else None
  }

  /** Every method runs under the map's mutex, so they are atomic steps of any interleaving. */
  class SessionMap {
    var entries: map<string, SessionId>

    constructor ()
      ensures entries == map[]
    {
      entries := map[];
    }

    method RegisterSession(name: string, s: SessionId, live: set<SessionId>) returns (ok: bool)
      modifies this
      ensures ok <==> Registered(old(entries), name, s, live).Some?
      ensures entries == if ok then Registered(old(entries), name, s, live).value else old(entries)
      ensures ok <==> !(name in old(entries) && old(entries)[name] in live)
      ensures entries == if ok then old(entries)[name := s] else old(entries)
    {
      if name in entries {
        if entries[name] in live {
          return false;
        } else {
          entries := entries - {name};
        }
      }
      entries := entries[name := s];
      return true;
    }

    method Remove(name: string)
      modifies this
      ensures entries == old(entries) - {name}
    {
      if name in entries {
        entries := entries - {name};
      }
    }

    method Write(name: string, live: set<SessionId>) returns (reached: Option<SessionId>)
      ensures reached == Reached(entries, name, live)
      ensures reached.Some? <==> name in entries && entries[name] in live
      ensures reached.Some? ==> reached.value == entries[name]
    {
      if name in entries {
        if entries[name] in live {
          return Some(entries[name]);
        }
      }
      return None;
    }

    /** Walks the entries in some order and erases the expired ones. */
    method Cleanup(live: set<SessionId>)
      modifies this
      ensures entries == Cleaned(old(entries), live)
      ensures forall name :: name in entries <==> name in old(entries) && old(entries)[name] in live
      ensures forall name :: name in entries ==> entries[name] == old(entries)[name]
    {
      var rest := entries.Keys;
      while rest != {}
        invariant rest <= entries.Keys <= old(entries).Keys
        invariant forall name :: name in entries ==> entries[name] == old(entries)[name]
        invariant forall name :: name in old(entries) && name !in rest ==>
                    (name in entries <==> old(entries)[name] in live)
        decreases |rest|
      {
        var name :| name in rest;
        rest := rest - {name};
        if entries[name] !in live {
          entries := entries - {name};
        }
      }
    }
  }
}
