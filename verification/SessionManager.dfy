/** The registry of runtime sessions. */
module SessionManager {
  import opened Basics
  import opened EventFanout
  import opened EventSession

  datatype ManagerError = ErrNotFound | FactoryFailed

  class Manager {
    var sessions: map<string, Session>

    /** Every registered session is either running or completely closed. */
    ghost predicate Valid()
      reads this, sessions.Values
    {
      forall id :: id in sessions ==> Settled(sessions[id])
    }

    static ghost predicate Settled(s: Session)
      reads s
    {
      s.Valid() && (s.closed ==> Completed(s.closers))
    }

    constructor ()
      ensures Valid() && sessions == map[]
    {
      sessions := map[];
    }

    /** Registers a new session; a client that could not be made registers nothing. */
    method Create(id: string, clientMade: bool) returns (r: Result<Session, ManagerError>)
      requires Valid() && id !in sessions
      modifies this
      ensures Valid() && r.Ok? == clientMade
      ensures r.Ok? ==> fresh(r.value) && sessions == old(sessions)[id := r.value] && r.value.At(None) == INITIAL
      ensures r.Err? ==> sessions == old(sessions) && r.error == FactoryFailed
    {
      if !clientMade { return Err(FactoryFailed); }
      var s := new Session();
      sessions := sessions[id := s];
      r := Ok(s);
    }

    method Get(id: string) returns (r: Result<Session, ManagerError>)
      ensures r == if id in sessions then Ok(sessions[id]) else Err(ErrNotFound)
    {
      r := if id in sessions then Ok(sessions[id]) else Err(ErrNotFound);
    }

    /** Unregisters one session and closes it; `late` other calls to close it may come meanwhile. */
    method Close(id: string, late: (nat, nat, nat)) returns (r: Outcome<ManagerError>)
      requires Valid()
      modifies this, if id in sessions then {sessions[id]} else {}
      ensures Valid() && sessions == old(sessions) - {id}
      ensures r == if id in old(sessions) then Done else Failed(ErrNotFound)
      ensures id in old(sessions) ==> FullyClosed(old(sessions)[id])
    {
      if id !in sessions { return Failed(ErrNotFound); }
      var s := sessions[id];
      sessions := sessions - {id};
      CloseOne(s, {s}, late);
      r := Done;
    }

    static ghost predicate AllSettled(all: set<Session>)
      reads all
    {
      forall s :: s in all ==> Settled(s)
    }

    static ghost predicate FullyClosed(s: Session)
      reads s
    {
      Settled(s) && s.closed && s.clientCloses == 1 && s.subscribers == {}
    }

    /** Empties the registry into a list. */
    method Collect() returns (list: seq<Session>)
      modifies this
      ensures sessions == map[]
      ensures forall s :: s in old(sessions).Values <==> s in list
    {
      list := [];
      ghost var registered := sessions;
      while sessions != map[]
        invariant sessions.Keys <= registered.Keys && forall id :: id in sessions ==> sessions[id] == registered[id]
        invariant forall id :: id in registered && id !in sessions ==> registered[id] in list
        invariant forall s :: s in list ==> s in registered.Values
        decreases |sessions.Keys|
      {
        var id :| id in sessions;
        assert sessions[id] in registered.Values;
        list := list + [sessions[id]];
        sessions := sessions - {id};
      }
    }

    static method CloseOne(s: Session, ghost all: set<Session>, late: (nat, nat, nat))
      requires s in all && AllSettled(all)
      modifies s
      ensures AllSettled(all) && FullyClosed(s)
    {
      CompletedIsClosed(s.history, s.At(None));
      ghost var closers := s.closers;
      s.Close(late);
      CompletedStays(closers, s.closers);
    }

    static method CloseEach(list: seq<Session>, ghost all: set<Session>, late: nat -> (nat, nat, nat))
      requires all == (set s | s in list) && AllSettled(all)
      modifies all
      ensures AllSettled(all) && forall s :: s in all ==> FullyClosed(s)
    {
      for i := 0 to |list|
        invariant AllSettled(all)
        invariant forall j :: 0 <= j < i ==> FullyClosed(list[j])
      {
        label before:
        CloseOne(list[i], all, late(i));
        assert forall s :: s in all && s != list[i] && old@before(FullyClosed(s)) ==> FullyClosed(s);
      }
    }

    /** Unregisters every session, then closes each; a session closed before is not closed again. */
    method CloseAll(late: nat -> (nat, nat, nat))
      requires Valid()
      modifies this, sessions.Values
      ensures Valid() && sessions == map[]
      ensures forall id :: id in old(sessions) ==> FullyClosed(old(sessions)[id])
    {
      ghost var registered := sessions;
      var list := Collect();
      ghost var all := set s | s in list;
      assert all == registered.Values;
      CloseEach(list, all, late);
      assert forall id :: id in registered ==> registered[id] in all;
    }
  }

  lemma CompletedStays(before: seq<Closer>, after: seq<Closer>)
    requires |before| <= |after| && forall k :: 0 <= k < |before| ==> after[k] == before[k]
    ensures Completed(before) ==> Completed(after)
  {
    if Completed(before) {
      var k :| 0 <= k < |before| && before[k] == ClientClosed;
      assert after[k] == ClientClosed;
    }
  }
}
