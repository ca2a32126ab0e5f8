/** What every interleaving of sessions guarantees. */
module Online {
  import opened Structs
  import opened SpellBook
  import opened Commands
  import opened SessionRegistry
  import opened Protocol

  /** `s` is in game under `name` and not yet removed. */
  predicate Playing(g: Server, s: SessionId, name: string) {
    s in g.sessions && g.sessions[s].Name() == Some(name)
  }

  /** In every reachable state the registry is exactly the sessions in game and not yet removed. */
  lemma RegistryExact(g: Server, data: GameData, steps: seq<(SessionId, Action)>, name: string, s: SessionId)
    requires DataKeyed(data) && Initial(g)
    ensures var h := Reach(g, data, steps); name in h.registry && h.registry[name] == s <==> Playing(h, s, name)
  {
    EveryInterleaving(g, data, steps);
  }

  /** However logins race, one name and one user have at most one session in game. */
  lemma OneSessionEach(g: Server, data: GameData, steps: seq<(SessionId, Action)>, s: SessionId, t: SessionId)
    requires DataKeyed(data) && Initial(g)
    ensures var h := Reach(g, data, steps);
      s in h.sessions && t in h.sessions && h.sessions[s].Name().Some? && h.sessions[t].Name().Some?
      && (h.sessions[s].Name() == h.sessions[t].Name() || h.sessions[s].user == h.sessions[t].user)
      ==> s == t
  {
    EveryInterleaving(g, data, steps);
  }

  /** The end of a session removes its own entry and no other. */
  lemma EndRemovesOwnEntry(g: Server, data: GameData, steps: seq<(SessionId, Action)>, s: SessionId, name: string)
    requires DataKeyed(data) && Initial(g)
    ensures var h := Reach(g, data, steps);
      var after := Do(h, data, s, EndSession).registry;
      (name in h.registry && name !in after <==> Playing(h, s, name) && h.sessions[s].phase.Idle?)
      && (name in after ==> name in h.registry && after[name] == h.registry[name])
  {
    EveryInterleaving(g, data, steps);
  }

  lemma CleanupChangesNothing(g: Server, data: GameData, steps: seq<(SessionId, Action)>, s: SessionId)
    requires DataKeyed(data) && Initial(g)
    ensures var h := Reach(g, data, steps); Do(h, data, s, Cleanup) == h
  {
    EveryInterleaving(g, data, steps);
    CleanupFindsNothing(Reach(g, data, steps));
  }

  /** How a `send` handler ends: it throws for want of a player, or reports whether the name was reached. */
  datatype Sent = Threw | Delivered(to: SessionId) | Offline

  function Send(g: Server, x: Session, name: string): Sent {
    if x.player.None? then Threw
    else match Reached(g.registry, name, g.live) case Some(t) => Delivered(t) case None => Offline
  }

  /** A message is delivered exactly to the session in game under the name. Validation admits senders that have no
      character yet, and their handler throws. */
  lemma SendExactly(g: Server, data: GameData, steps: seq<(SessionId, Action)>, s: SessionId, name: string,
                    t: SessionId)
    requires DataKeyed(data) && Initial(g)
    requires s in Reach(g, data, steps).sessions && !Reach(g, data, steps).sessions[s].state.PreLogin?
    ensures var h := Reach(g, data, steps); var x := h.sessions[s];
      && (Send(h, x, name) == Threw <==> x.state.CreateChar?)
      && (Send(h, x, name) == Delivered(t) <==> x.state.InGame? && Playing(h, t, name))
      && (Send(h, x, name) == Offline <==> x.state.InGame? && forall u :: !Playing(h, u, name))
  {
    EveryInterleaving(g, data, steps);
    var h := Reach(g, data, steps);
    if Reached(h.registry, name, h.live).Some? {
      assert Playing(h, h.registry[name], name);
    }
  }

  /** Whoever else is connected and whatever goes wrong with their fuses, between its requests a session that read
      its rows at login remembers exactly what is stored under its name, and its loadout is legal, even after a
      login whose reads failed, so long as no fuse under that name was committed out of order. */
  lemma MemoryIsStored(g: Server, data: GameData, steps: seq<(SessionId, Action)>, s: SessionId, name: string)
    requires DataKeyed(data) && Initial(g)
    requires var h := Reach(g, data, steps); Playing(h, s, name) && h.sessions[s].phase.Idle?
    requires name !in Reach(g, data, steps).disordered
    ensures var h := Reach(g, data, steps); var x := h.sessions[s];
      && (x.loaded ==> Agrees(x.book, h.RowsOf(name)))
      && DistinctIds(x.book.magics)
      && LoadoutOk(IdMap(x.book.magics), x.book.equipped)
      && RowsOk(h.RowsOf(name))
  {
    EveryInterleaving(g, data, steps);
    RowsOfOk(Reach(g, data, steps), name);
  }

  /** Stored rows of a name change only by a step of the session in game under it. */
  lemma OnlyThePlayerWrites(g: Server, data: GameData, steps: seq<(SessionId, Action)>, s: SessionId, a: Action,
                            name: string)
    requires DataKeyed(data) && Initial(g)
    ensures var h := Reach(g, data, steps);
      Do(h, data, s, a).RowsOf(name) != h.RowsOf(name) ==> Playing(h, s, name)
  {
    OnlyCommandsWrite(Reach(g, data, steps), data, s, a);
  }

  /** A name is spoilt only by its own player, committing a fuse whose primary does not precede its secondary. */
  lemma SpoiltByOwnFuse(g: Server, data: GameData, s: SessionId, a: Action, name: string)
    requires name !in g.disordered
    ensures name in Do(g, data, s, a).disordered
            ==> a.Serve? && !a.fails && Playing(g, s, name) && !Ordered(g.sessions[s].book, a.cmd)
  {
    if a.Serve? && s in g.sessions {
      var h := DoServe(g, s, g.sessions[s], data, a.cmd, a.fails);
      assert name in h.disordered ==> Playing(g, s, name);
    }
  }
}
