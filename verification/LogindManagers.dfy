/**
 The managers that own the login tables and the dispatcher over them
 (quantra-logind/src/session.rs, seat.rs, user.rs, control.rs), updating their
 fields in place.  Every method is tied to the table function of LogindTables,
 where the invariants are proved.
 */
module LogindManagers {
  import opened Optional
  import opened LogindTables
  import opened LogindEffects

  class SessionManager {
    var sessions: SessionTable
    var nextId: Sid

    constructor ()
      ensures sessions == map[] && nextId == 1
    {
      sessions := map[];
      nextId := 1;
    }

    method Open(uid: Uid, vt: Option<nat>) returns (id: Sid)
      modifies this
      ensures id == old(nextId) && nextId == id + 1
      ensures sessions == old(sessions)[id := NewSession(id, uid, vt)]
    {
      id := nextId;
      nextId := nextId + 1;
      var s := Session(id, uid, None, vt, SessionState.Online, false, false);
      sessions := sessions[id := s];
    }

    /** The session is marked Closing, then removed. */
    method Close(id: Sid) returns (ok: bool)
      modifies `sessions
      ensures ok <==> id in old(sessions)
      ensures sessions == old(sessions) - {id}
    {
      if id !in sessions { return false; }
      sessions := sessions[id := sessions[id].(state := SessionState.Closing)];
      sessions := sessions - {id};
      return true;
    }

    /** Walks all sessions and displaces the ones on the same seat, then activates. */
    method Activate(id: Sid) returns (ok: bool)
      modifies `sessions
      ensures ok <==> id in old(sessions)
      ensures sessions == if ok then Activated(old(sessions), id) else old(sessions)
    {
      if id !in sessions { return false; }
      var seat := sessions[id].seat;
      var todo := sessions.Keys;
      ghost var before := sessions;
      while todo != {}
        invariant todo <= before.Keys && sessions.Keys == before.Keys
        invariant forall k :: k in before ==>
                    sessions[k] ==
                    if k !in todo && Displaced(before[k], id, seat)
                    then before[k].(state := SessionState.Online)
                    else before[k]
        decreases todo
      {
        var k :| k in todo;
        var s := sessions[k];
        if s.state == SessionState.Active && s.seat == seat && s.id != id {
          sessions := sessions[k := s.(state := SessionState.Online)];
        }
        todo := todo - {k};
      }
      sessions := sessions[id := sessions[id].(state := SessionState.Active)];
      assert sessions == Activated(before, id);
      return true;
    }

    method SetLocked(id: Sid, locked: bool) returns (ok: bool)
      modifies `sessions
      ensures ok <==> id in old(sessions)
      ensures sessions == if ok then old(sessions)[id := old(sessions)[id].(locked := locked)] else old(sessions)
    {
      if id !in sessions { return false; }
      sessions := sessions[id := sessions[id].(locked := locked)];
      return true;
    }

    /** `lock_all` and `unlock_all`: one call per id of a snapshot. */
    method SetLockedAll(locked: bool)
      modifies `sessions
      ensures sessions == LockedAll(old(sessions), locked)
    {
      var ids := sessions.Keys;
      ghost var before := sessions;
      while ids != {}
        invariant ids <= before.Keys && sessions.Keys == before.Keys
        invariant forall k :: k in before ==>
            sessions[k] == if k in ids then before[k] else before[k].(locked := locked)
        decreases ids
      {
        var id :| id in ids;
        var _ := SetLocked(id, locked);
        ids := ids - {id};
      }
      assert sessions == LockedAll(before, locked);
    }

    method SetIdleHint(id: Sid, idle: bool) returns (ok: bool)
      modifies `sessions
      ensures ok <==> id in old(sessions)
      ensures sessions == if ok then old(sessions)[id := old(sessions)[id].(idle := idle)] else old(sessions)
    {
      if id !in sessions { return false; }
      sessions := sessions[id := sessions[id].(idle := idle)];
      return true;
    }

    method AssignSeat(id: Sid, seat: string)
      modifies `sessions
      ensures sessions == Assigned(old(sessions), id, seat)
    {
      if id in sessions {
        sessions := sessions[id := sessions[id].(seat := Some(seat))];
      }
    }
  }

  class SeatManager {
    var seats: SeatTable

    /** After `detect`: seat0 exists and is empty. */
    constructor Detected()
      ensures seats == map[SEAT0 := Seat([], None)] && SeatsOk(seats)
    {
      seats := map[SEAT0 := Seat([], None)];
    }

    method AddSession(seat: string, sid: Sid)
      modifies this
      ensures seats == SeatAdded(old(seats), seat, sid)
    {
      if seat in seats {
        var s := seats[seat];
        if sid !in s.sessions { s := s.(sessions := s.sessions + [sid]); }
        if s.active.None? { s := s.(active := Some(sid)); }
        seats := seats[seat := s];
      }
    }

    method RemoveSession(seat: string, sid: Sid)
      modifies this
      ensures seats == SeatRemoved(old(seats), seat, sid)
    {
      if seat in seats {
        var s := seats[seat];
        s := s.(sessions := Without(s.sessions, sid));
        if s.active == Some(sid) { s := s.(active := First(s.sessions)); }
        seats := seats[seat := s];
      }
    }

    method Activate(seat: string, sid: Sid) returns (ok: bool)
      modifies this
      ensures ok <==> CanActivate(old(seats), seat, sid)
      ensures seats == SeatActivated(old(seats), seat, sid)
    {
      if seat !in seats { return false; }
      if sid !in seats[seat].sessions { return false; }
      seats := seats[seat := seats[seat].(active := Some(sid))];
      return true;
    }
  }

  class UserManager {
    var users: UserTable

    constructor ()
      ensures users == map[] && UsersOk(users)
    {
      users := map[];
    }

    method Login(uid: Uid, sid: Sid, os: Os) returns (ok: bool)
      modifies this
      ensures ok <==> LoggedIn(old(users), uid, sid, os).Some?
      ensures users == if ok then LoggedIn(old(users), uid, sid, os).value else old(users)
    {
      if uid in users {
        var u := users[uid];
        if sid !in u.sessions { u := u.(sessions := u.sessions + [sid]); }
        users := users[uid := u.(state := UserState.Online)];
        return true;
      }
      if !os.runtimeDir { return false; }
      var rec := UserRecord(uid, [], false, UserState.Offline);
      rec := rec.(sessions := rec.sessions + [sid]);
      rec := rec.(state := UserState.Online);
      assert rec.sessions == [sid];
      users := users[uid := rec];
      return true;
    }

    method Logout(uid: Uid, sid: Sid)
      modifies this
      ensures users == LoggedOut(old(users), uid, sid)
    {
      if uid !in users { return; }
      var u := users[uid];
      u := u.(sessions := Without(u.sessions, sid));
      var empty := u.sessions == [];
      if empty { u := u.(state := if u.linger then UserState.Lingering else UserState.Closing); }
      users := users[uid := u];
      if empty && !u.linger {
        users := users - {uid};
      }
    }

    method SetLinger(uid: Uid, enable: bool, os: Os) returns (ok: bool)
      modifies this
      ensures ok <==> LingerSet(old(users), uid, enable, os).Some?
      ensures users == if ok then LingerSet(old(users), uid, enable, os).value else old(users)
    {
      if !os.lingerDir { return false; }
      if enable && !os.lingerFile { return false; }
      if uid in users {
        users := users[uid := users[uid].(linger := enable)];
        if !enable && users[uid].sessions == [] {
          users := users - {uid};
        }
      } else if enable {
        if os.knownUser {
          if !os.runtimeDir { return false; }
          var rec := UserRecord(uid, [], false, UserState.Offline);
          rec := rec.(linger := true, state := UserState.Lingering);
          users := users[uid := rec];
        }
      }
      return true;
    }

    method Terminate(uid: Uid)
      modifies this
      ensures users == Terminated(old(users), uid)
    {
      users := users - {uid};
    }
  }

  class ControlServer {
    const sessions: SessionManager
    const seats: SeatManager
    const users: UserManager

    function Snapshot(): Tables
      reads sessions, seats, users
    {
      Tables(sessions.sessions, sessions.nextId, seats.seats, users.users)
    }

    constructor ()
      ensures Snapshot() == START && Inv(Snapshot())
      ensures fresh(sessions) && fresh(seats) && fresh(users)
    {
      sessions := new SessionManager();
      seats := new SeatManager.Detected();
      users := new UserManager();
      new;
      EveryRunAgrees([]);
    }

    method OpenSession(peer: Uid, uid: Uid, vt: Option<nat>, os: Os) returns (ok: bool)
      modifies sessions, seats, users
      ensures Snapshot() == Step(old(Snapshot()), peer, Request.OpenSession(uid, vt), os)
      ensures ok <==> Accepted(old(Snapshot()), peer, Request.OpenSession(uid, vt), os)
    {
      if peer != 0 { return false; }
      var sid := sessions.Open(uid, vt);
      var loggedIn := users.Login(uid, sid, os);
      if !loggedIn { return false; }
      seats.AddSession(SEAT0, sid);
      sessions.AssignSeat(sid, SEAT0);
      return true;
    }

    method CloseSession(peer: Uid, sid: Sid) returns (ok: bool)
      modifies sessions, seats, users
      ensures forall os :: Snapshot() == Step(old(Snapshot()), peer, Request.CloseSession(sid), os)
      ensures forall os :: ok <==> Accepted(old(Snapshot()), peer, Request.CloseSession(sid), os)
    {
      var owner := if sid in sessions.sessions then Some(sessions.sessions[sid].uid) else None;
      var seat := SeatOf(sessions.sessions, sid);
      if owner.None? { return false; }
      var uid := owner.value;
      if peer != 0 && peer != uid { return false; }
      if seat.Some? {
        seats.RemoveSession(seat.value, sid);
      }
      var closed := sessions.Close(sid);
      if !closed { return false; }
      users.Logout(uid, sid);
      return true;
    }

    /** The seat's answer is ignored; under the invariant it is always a success. */
    method ActivateSession(sid: Sid) returns (ok: bool, ignoredError: bool)
      modifies sessions, seats
      ensures Snapshot() ==
              if sid in old(Snapshot()).sessions then ActivatedBoth(old(Snapshot()), sid) else old(Snapshot())
      ensures ok <==> sid in old(sessions.sessions)
      ensures old(Inv(Snapshot())) ==> !ignoredError
    {
      ignoredError := false;
      ghost var before := Snapshot();
      if old(Inv(Snapshot())) && sid in before.sessions && before.sessions[sid].seat.Some? {
        SeatAcceptsItsSessions(before, sid);
      }
      ok := sessions.Activate(sid);
      if !ok { return; }
      var seat := SeatOf(sessions.sessions, sid);
      if seat.Some? {
        var done := seats.Activate(seat.value, sid);
        ignoredError := !done;
      }
    }

    method ActivateSessionOnSeat(sid: Sid, seat: string) returns (ok: bool, ignoredError: bool)
      modifies sessions, seats
      ensures forall peer, os :: Snapshot() == Step(old(Snapshot()), peer, Request.ActivateSessionOnSeat(sid, seat), os)
      ensures ok <==> CanActivate(old(seats.seats), seat, sid)
      ensures old(Inv(Snapshot())) ==> !ignoredError
    {
      ignoredError := false;
      ghost var before := Snapshot();
      if old(Inv(Snapshot())) && CanActivate(before.seats, seat, sid) {
        SeatMembersAreLive(before, sid, seat);
      }
      ok := seats.Activate(seat, sid);
      if !ok { return; }
      var done := sessions.Activate(sid);
      ignoredError := !done;
    }

    /** One request at a time: the tables follow Step, stay in agreement, and no ignored error occurs. */
    method Dispatch(peer: Uid, req: Request, os: Os) returns (ok: bool, ignoredError: bool)
      requires Inv(Snapshot())
      modifies sessions, seats, users
      ensures Snapshot() == Step(old(Snapshot()), peer, req, os)
      ensures ok <==> Accepted(old(Snapshot()), peer, req, os)
      ensures Inv(Snapshot()) && !ignoredError
      ensures Outcome(old(Snapshot()), peer, req, os, Snapshot(), ok)
    {
      hide Inv, Outcome, Accepted;
      StepKeepsInv(Snapshot(), peer, req, os);
      StepHasOutcome(Snapshot(), peer, req, os);
      ok, ignoredError := Handle(peer, req, os);
    }

    method Handle(peer: Uid, req: Request, os: Os) returns (ok: bool, ignoredError: bool)
      modifies sessions, seats, users
      ensures Snapshot() == Step(old(Snapshot()), peer, req, os)
      ensures ok <==> Accepted(old(Snapshot()), peer, req, os)
      ensures old(Inv(Snapshot())) ==> !ignoredError
    {
      hide Inv, Opened, Closed, ActivatedBoth, SeatActivated, CanActivate, LingerSet, Activated, LoggedIn, LockedAll;
      ignoredError := false;
      match req
      case OpenSession(uid, vt) => ok := OpenSession(peer, uid, vt, os);
      case CloseSession(sid) => ok := CloseSession(peer, sid);
      case ActivateSession(sid) => ok, ignoredError := ActivateSession(sid);
      case ActivateSessionOnSeat(sid, seat) => ok, ignoredError := ActivateSessionOnSeat(sid, seat);
      case _ => ok := HandleOneCall(peer, req, os);
    }

    /** The requests that lock one table once. */
    method HandleOneCall(peer: Uid, req: Request, os: Os) returns (ok: bool)
      requires !req.OpenSession? && !req.CloseSession? && !req.ActivateSession? && !req.ActivateSessionOnSeat?
      modifies sessions, users
      ensures Snapshot() == Step(old(Snapshot()), peer, req, os)
      ensures ok <==> Accepted(old(Snapshot()), peer, req, os)
    {
      hide LingerSet, LockedAll;
      match req
      case LockSession(sid) => ok := sessions.SetLocked(sid, true);
      case UnlockSession(sid) => ok := sessions.SetLocked(sid, false);
      case LockSessions => sessions.SetLockedAll(true); ok := true;
      case UnlockSessions => sessions.SetLockedAll(false); ok := true;
      case SetIdleHint(sid, idle) => ok := sessions.SetIdleHint(sid, idle);
      case SetLockedHint(sid, locked) => ok := sessions.SetLocked(sid, locked);
      case SetLinger(uid, enable) =>
        if peer != 0 && peer != uid { return false; }
        ok := users.SetLinger(uid, enable, os);
      case TerminateUser(uid) =>
        if peer != 0 { return false; }
        users.Terminate(uid);
        ok := true;
      case ListSessions => ok := true;
      case GetSession(sid) => ok := sid in sessions.sessions;
      case ListUsers => ok := peer == 0;
      case GetUser(uid) =>
        if peer != 0 && peer != uid { return false; }
        ok := uid in users.users;
      case ListSeats => ok := true;
      case GetSeat(seat) => ok := seat in seats.seats;
      case Outside => ok := os.outside;
    }
  }
}
