/**
 A session activated while it is being opened (quantra-logind/src/control.rs):
 the activation may find the session before it has a seat.  Exactly which orders
 leave the tables in agreement, for either kind of activation.
 */
module LogindOpening {
  import opened Optional
  import opened LogindTables
  import opened LogindOverlap

  /** The open's arguments. */
  datatype Opening = Opening(uid: Uid, vt: Option<nat>, os: Os)

  function OpenThread(o: Opening): Thread { Begin(0, OpenSession(o.uid, o.vt), o.os) }

  predicate LogsIn(t0: Tables, o: Opening) { LoggedIn(t0.users, o.uid, t0.nextId, o.os).Some? }

  /** The new session in the table, with or without its seat. */
  function Entered(t0: Tables, o: Opening, seated: bool): SessionTable {
    var sid := t0.nextId;
    t0.sessions[sid := NewSession(sid, o.uid, o.vt).(seat := if seated then Some(SEAT0) else None)]
  }

  lemma EnteredSession(t0: Tables, o: Opening, seated: bool)
    ensures t0.nextId in Entered(t0, o, seated)
    ensures SeatOf(Entered(t0, o, seated), t0.nextId) == if seated then Some(SEAT0) else None
  {
  }

  /** Activated before it had its seat. */
  function Early(t0: Tables, o: Opening): SessionTable {
    EnteredSession(t0, o, false);
    Activated(Entered(t0, o, false), t0.nextId)
  }

  /** The session table after na calls of the open, the activation's included once `called`; `late`: after the
      seat was assigned. */
  function SessionsNow(t0: Tables, o: Opening, na: nat, called: bool, late: bool): SessionTable {
    var seated := LogsIn(t0, o) && na >= 4;
    if na == 0 then t0.sessions
    else if !called then Entered(t0, o, seated)
    else if late then EnteredSession(t0, o, seated); Activated(Entered(t0, o, seated), t0.nextId)
    else if seated then Assigned(Early(t0, o), t0.nextId, SEAT0)
    else Early(t0, o)
  }

  function SeatsNow(t0: Tables, o: Opening, na: nat, shown: bool): SeatTable {
    if !LogsIn(t0, o) || na < 3 then t0.seats
    else
      var added := SeatAdded(t0.seats, SEAT0, t0.nextId);
      if shown then SeatActivated(added, SEAT0, t0.nextId) else added
  }

  function UsersNow(t0: Tables, o: Opening, na: nat): UserTable {
    if LogsIn(t0, o) && na >= 2 then LoggedIn(t0.users, o.uid, t0.nextId, o.os).value else t0.users
  }

  /** The tables and the open after na calls. */
  ghost predicate OpenNow(t0: Tables, o: Opening, na: nat, called: bool, late: bool, shown: bool, t: Tables,
      a: Thread) {
    && OpenShape(t0, o.uid, o.vt, o.os, LogsIn(t0, o), na, a)
    && (late ==> na >= 4) && (called ==> na >= 1) && (shown ==> na >= 3)
    && t == Tables(SessionsNow(t0, o, na, called, late), t0.nextId + (if na == 0 then 0 else 1),
                   SeatsNow(t0, o, na, shown), UsersNow(t0, o, na))
  }

  lemma SessionsGrow(t0: Tables, o: Opening, na: nat, called: bool, late: bool)
    requires late ==> na >= 4
    requires called ==> na >= 1
    ensures na == 0 ==> SessionsNow(t0, o, 0, called, late) == t0.sessions
    ensures na == 0 ==>
              SessionsNow(t0, o, 1, called, late) == t0.sessions[t0.nextId := NewSession(t0.nextId, o.uid, o.vt)]
    ensures na == 3 && LogsIn(t0, o) ==>
              SessionsNow(t0, o, 4, called, late) == Assigned(SessionsNow(t0, o, 3, called, late), t0.nextId, SEAT0)
    ensures na != 0 && (na != 3 || !LogsIn(t0, o)) ==>
              SessionsNow(t0, o, na + 1, called, late) == SessionsNow(t0, o, na, called, late)
  {
    hide LoggedIn, Early;
    var sid := t0.nextId;
    var s := NewSession(sid, o.uid, o.vt);
    assert t0.sessions[sid := s][sid := s.(seat := Some(SEAT0))] == t0.sessions[sid := s.(seat := Some(SEAT0))];
  }

  lemma OpenGoesOn(t0: Tables, o: Opening, na: nat, called: bool, late: bool, shown: bool, t: Tables, a: Thread)
    requires OpenNow(t0, o, na, called, late, shown, t, a)
    ensures var (t', a') := Turn(t, a); OpenNow(t0, o, na + 1, called, late, shown, t', a')
  {
    hide SessionsNow, SeatAdded, SeatActivated, LoggedIn, Assigned, NewSession;
    SessionsGrow(t0, o, na, called, late);
  }

  // -------------------------------------------------------- the activation's turns

  lemma SessionNow(t0: Tables, o: Opening, na: nat, called: bool, late: bool)
    requires na >= 1
    ensures t0.nextId in SessionsNow(t0, o, na, called, late)
    ensures SeatOf(SessionsNow(t0, o, na, called, late), t0.nextId) ==
            if LogsIn(t0, o) && na >= 4 then Some(SEAT0) else None
    ensures var late := na >= 4;
            Activated(SessionsNow(t0, o, na, false, late), t0.nextId) == SessionsNow(t0, o, na, true, late)
  {
    hide LoggedIn;
  }

  /** The new session is in the list of seat0 from the third call on, and in no other. */
  lemma MemberNow(t0: Tables, o: Opening, na: nat, seat: string)
    requires Inv(t0)
    ensures CanActivate(SeatsNow(t0, o, na, false), seat, t0.nextId) <==> LogsIn(t0, o) && na >= 3 && seat == SEAT0
  {
    FreshId(t0);
  }

  /** An ActivateSession of the new session after nb turns; `read`: it read the seat after the assignment. */
  ghost predicate ActivateShape(t0: Tables, o: Opening, nb: nat, read: bool, b: Thread) {
    var calls := if LogsIn(t0, o) && read then 3 else 2;
    && b.req == ActivateSession(t0.nextId)
    && b.pc == Min(nb, calls) && (b.over <==> nb >= calls)
    && (nb >= 2 && calls == 3 ==> b.seat == Some(SEAT0))
  }

  ghost predicate ActivateNow(t0: Tables, o: Opening, na: nat, nb: nat, late: bool, read: bool, p: Pair) {
    && (nb < 1 ==> (late <==> na >= 4)) && (nb < 2 ==> (read <==> na >= 4)) && (read ==> na >= 4)
    && OpenNow(t0, o, na, nb >= 1, late, read && nb >= 3, p.t, p.a)
    && ActivateShape(t0, o, nb, read, p.b)
  }

  lemma ActivateGoesOn(t0: Tables, o: Opening, na: nat, nb: nat, late: bool, read: bool, p: Pair)
    requires ActivateNow(t0, o, na, nb, late, read, p) && na >= 1
    ensures var late', read' := late || (na >= 4 && nb + 1 < 1), read || (na >= 4 && nb + 1 < 2);
            ActivateNow(t0, o, na, nb + 1, late', read', Advance(p, false))
  {
    hide SessionsNow, SeatAdded, SeatActivated, LoggedIn, Activated, SeatOf;
    SessionNow(t0, o, na, nb >= 1, late);
  }

  lemma OpenUnderActivate(t0: Tables, o: Opening, na: nat, nb: nat, late: bool, read: bool, p: Pair)
    requires ActivateNow(t0, o, na, nb, late, read, p)
    ensures var late', read' := late || (na + 1 >= 4 && nb < 1), read || (na + 1 >= 4 && nb < 2);
            ActivateNow(t0, o, na + 1, nb, late', read', Advance(p, true))
  {
    hide SessionsNow, SeatsNow, UsersNow, LoggedIn, Turn;
    OpenGoesOn(t0, o, na, nb >= 1, late, read && nb >= 3, p.t, p.a);
    if nb < 1 { LateIsMoot(t0, o, na + 1, late, late || na + 1 >= 4); }
  }

  lemma LateIsMoot(t0: Tables, o: Opening, na: nat, late: bool, late': bool)
    ensures SessionsNow(t0, o, na, false, late) == SessionsNow(t0, o, na, false, late')
  {
    hide LoggedIn;
  }

  lemma {:induction false} ActivateRun(t0: Tables, o: Opening, peer: Uid, os: Os, order: seq<bool>)
    requires Turns(order, false) == 0 || Before(order, 1, 1)
    ensures var p := Merged(t0, OpenThread(o), Begin(peer, ActivateSession(t0.nextId), os), order);
            ActivateNow(t0, o, Turns(order, true), Turns(order, false), Before(order, 4, 1), Before(order, 4, 2), p)
    decreases |order|
  {
    hide LoggedIn, Advance;
    if order != [] {
      var front := order[..|order| - 1];
      ActivateRun(t0, o, peer, os, front);
      var p := Merged(t0, OpenThread(o), Begin(peer, ActivateSession(t0.nextId), os), front);
      var na, nb := Turns(front, true), Turns(front, false);
      hide ActivateNow, Merged;
      if order[|order| - 1] {
        OpenUnderActivate(t0, o, na, nb, Before(front, 4, 1), Before(front, 4, 2), p);
      } else {
        BeforeMeansTurn(front, 1, 1);
        ActivateGoesOn(t0, o, na, nb, Before(front, 4, 1), Before(front, 4, 2), p);
      }
    }
  }

  /** An ActivateSessionOnSeat that finds the new session on seat0; its first call is on the seat table. */
  ghost predicate OnSeatNow(t0: Tables, o: Opening, na: nat, nb: nat, late: bool, p: Pair) {
    && (nb < 2 ==> (late <==> na >= 4)) && (nb >= 1 ==> na >= 3)
    && OpenNow(t0, o, na, nb >= 2, late, nb >= 1, p.t, p.a)
    && p.b.req == ActivateSessionOnSeat(t0.nextId, SEAT0)
    && p.b.pc == Min(nb, 2) && (p.b.over <==> nb >= 2)
  }

  lemma OnSeatGoesOn(t0: Tables, o: Opening, na: nat, nb: nat, late: bool, p: Pair)
    requires Inv(t0) && LogsIn(t0, o) && OnSeatNow(t0, o, na, nb, late, p) && na >= 3
    ensures OnSeatNow(t0, o, na, nb + 1, late || (na >= 4 && nb + 1 < 2), Advance(p, false))
  {
    hide Inv, SessionsNow, SeatAdded, SeatActivated, LoggedIn, Activated, SeatOf, CanActivate;
    MemberNow(t0, o, na, SEAT0);
    SessionNow(t0, o, na, nb >= 2, late);
    if nb < 2 { LateIsMoot(t0, o, na, late, na >= 4); }
  }

  lemma OpenUnderOnSeat(t0: Tables, o: Opening, na: nat, nb: nat, late: bool, p: Pair)
    requires OnSeatNow(t0, o, na, nb, late, p)
    ensures OnSeatNow(t0, o, na + 1, nb, late || (na + 1 >= 4 && nb < 2), Advance(p, true))
  {
    hide SessionsNow, SeatsNow, UsersNow, LoggedIn, Turn;
    OpenGoesOn(t0, o, na, nb >= 2, late, nb >= 1, p.t, p.a);
    if nb < 2 { LateIsMoot(t0, o, na + 1, late, late || na + 1 >= 4); }
  }

  lemma {:induction false} OnSeatRun(t0: Tables, o: Opening, peer: Uid, os: Os, order: seq<bool>)
    requires Inv(t0) && LogsIn(t0, o) && (Turns(order, false) == 0 || Before(order, 3, 1))
    ensures var p := Merged(t0, OpenThread(o), Begin(peer, ActivateSessionOnSeat(t0.nextId, SEAT0), os), order);
            OnSeatNow(t0, o, Turns(order, true), Turns(order, false), Before(order, 4, 2), p)
    decreases |order|
  {
    hide Inv, LoggedIn, Advance;
    if order != [] {
      var front := order[..|order| - 1];
      OnSeatRun(t0, o, peer, os, front);
      var p := Merged(t0, OpenThread(o), Begin(peer, ActivateSessionOnSeat(t0.nextId, SEAT0), os), front);
      var na, nb := Turns(front, true), Turns(front, false);
      hide OnSeatNow, Merged;
      if order[|order| - 1] {
        OpenUnderOnSeat(t0, o, na, nb, Before(front, 4, 2), p);
      } else {
        BeforeMeansTurn(front, 3, 1);
        OnSeatGoesOn(t0, o, na, nb, Before(front, 4, 2), p);
      }
    }
  }

  /** An activation that comes too early to find anything is refused at its first call. */
  ghost predicate TooEarly(t0: Tables, o: Opening, req: Request, order: seq<bool>) {
    || (req == ActivateSession(t0.nextId) && !Before(order, 1, 1))
    || (req.ActivateSessionOnSeat? && req.sid == t0.nextId
        && (req.seat != SEAT0 || !LogsIn(t0, o) || !Before(order, 3, 1)))
  }

  ghost predicate RefusedNow(t0: Tables, o: Opening, req: Request, na: nat, nb: nat, p: Pair) {
    && OpenNow(t0, o, na, false, false, false, p.t, p.a)
    && p.b.req == req && (nb == 0 ==> p.b.pc == 0) && (p.b.over <==> nb >= 1)
  }

  lemma RefusedGoesOn(t0: Tables, o: Opening, req: Request, order: seq<bool>, p: Pair)
    requires Inv(t0) && TooEarly(t0, o, req, order)
    requires RefusedNow(t0, o, req, Turns(order, true), Turns(order, false), p)
    ensures RefusedNow(t0, o, req, Turns(order, true), Turns(order, false) + 1, Advance(p, false))
  {
    FreshId(t0);
    hide Inv, LoggedIn, SeatsNow, SeatAdded, CanActivate, OpenShape;
    if req.ActivateSessionOnSeat? { MemberNow(t0, o, Turns(order, true), req.seat); }
  }

  lemma {:induction false} TooEarlyRun(t0: Tables, o: Opening, peer: Uid, req: Request, os: Os, order: seq<bool>)
    requires Inv(t0) && TooEarly(t0, o, req, order)
    ensures RefusedNow(t0, o, req, Turns(order, true), Turns(order, false),
        Merged(t0, OpenThread(o), Begin(peer, req, os), order))
    decreases |order|
  {
    hide Inv, LoggedIn, SessionsNow, SeatsNow, UsersNow, Turn;
    if order == [] {
      SessionsGrow(t0, o, 0, false, false);
      NothingOpened(t0, o);
    } else {
      var front := order[..|order| - 1];
      TooEarlyRun(t0, o, peer, req, os, front);
      var p := Merged(t0, OpenThread(o), Begin(peer, req, os), front);
      if order[|order| - 1] {
        OpenGoesOn(t0, o, Turns(front, true), false, false, false, p.t, p.a);
      } else {
        RefusedGoesOn(t0, o, req, front, p);
      }
    }
  }

  lemma NothingOpened(t0: Tables, o: Opening)
    ensures SeatsNow(t0, o, 0, false) == t0.seats && UsersNow(t0, o, 0) == t0.users
  {
  }

  // ------------------------------------------------------------------- the end

  predicate NoneActiveOn(t: Tables, seat: string) {
    forall id :: id in t.sessions && t.sessions[id].seat == Some(seat) ==> t.sessions[id].state != SessionState.Active
  }

  /** The open is over. */
  predicate OpenedBy(t0: Tables, o: Opening, na: nat) { na >= if LogsIn(t0, o) then 4 else 2 }

  lemma OpenedNow(t0: Tables, o: Opening, na: nat)
    requires OpenedBy(t0, o, na)
    ensures Opened(t0, o.uid, o.vt, o.os) ==
            Tables(SessionsNow(t0, o, na, false, false), t0.nextId + 1, SeatsNow(t0, o, na, false), UsersNow(t0, o, na))
  {
    hide LoggedIn, SeatAdded;
    var sid := t0.nextId;
    var s := NewSession(sid, o.uid, o.vt);
    assert t0.sessions[sid := s][sid := s.(seat := Some(SEAT0))] == t0.sessions[sid := s.(seat := Some(SEAT0))];
  }

  /** Activated after the open was over, or without a seat to disagree about: as one request after the other. */
  lemma LateEnd(t0: Tables, o: Opening, na: nat, t: Tables)
    requires Inv(t0) && OpenedBy(t0, o, na)
    requires t == Tables(SessionsNow(t0, o, na, true, LogsIn(t0, o)), t0.nextId + 1,
        SeatsNow(t0, o, na, LogsIn(t0, o)), UsersNow(t0, o, na))
    ensures Inv(t)
  {
    hide Inv, LoggedIn, SeatAdded, SeatActivated, Activated, Opened;
    var t1 := Opened(t0, o.uid, o.vt, o.os);
    OpenKeepsInv(t0, o.uid, o.vt, o.os);
    OpenedNow(t0, o, na);
    SessionNow(t0, o, na, false, LogsIn(t0, o));
    LateIsMoot(t0, o, na, false, LogsIn(t0, o));
    ActivateKeepsInv(t1, t0.nextId);
    assert t == ActivatedBoth(t1, t0.nextId);
  }

  lemma EarlyState(t0: Tables, o: Opening, id: Sid)
    requires IdsOk(t0.sessions, t0.nextId) && t0.nextId !in t0.sessions
    ensures var sessions, seated := Assigned(Early(t0, o), t0.nextId, SEAT0), Entered(t0, o, true);
            && (id in sessions <==> id in seated)
            && (id in seated ==>
              sessions[id].id == seated[id].id && sessions[id].uid == seated[id].uid
                  && sessions[id].seat == seated[id].seat)
            && (IsActive(sessions, id) <==>
              id == t0.nextId || (IsActive(t0.sessions, id) && t0.sessions[id].seat.Some?))
  {
  }

  /** Activated while it had no seat: it displaced the Active sessions without a seat, not those of seat0. */
  lemma EarlyStates(t0: Tables, o: Opening)
    requires Inv(t0)
    ensures var sessions := Assigned(Early(t0, o), t0.nextId, SEAT0);
            && SamePlaces(Entered(t0, o, true), sessions)
            && forall id :: IsActive(sessions, id) <==>
                 id == t0.nextId || (IsActive(t0.sessions, id) && t0.sessions[id].seat.Some?)
  {
    FreshId(t0);
    assert IdsOk(t0.sessions, t0.nextId);
    hide Inv, Early, Entered, Assigned, IsActive, IdsOk;
    var sessions, seated := Assigned(Early(t0, o), t0.nextId, SEAT0), Entered(t0, o, true);
    forall id
      ensures id in sessions <==> id in seated
      ensures id in seated ==>
          sessions[id].id == seated[id].id && sessions[id].uid == seated[id].uid && sessions[id].seat == seated[id].seat
      ensures IsActive(sessions, id) <==> id == t0.nextId || (IsActive(t0.sessions, id) && t0.sessions[id].seat.Some?)
    {
      EarlyState(t0, o, id);
    }
    assert sessions.Keys == seated.Keys;
  }

  /** The tables that an early activation leaves. */
  ghost predicate EarlyTables(t0: Tables, o: Opening, shown: bool, t: Tables) {
    t == Tables(Assigned(Early(t0, o), t0.nextId, SEAT0), t0.nextId + 1, SeatsNow(t0, o, 4, shown), UsersNow(t0, o, 4))
  }

  /** All but the clauses about Active sessions hold anyway. */
  lemma EarlyPlaces(t0: Tables, o: Opening, shown: bool, t: Tables)
    requires Inv(t0) && LogsIn(t0, o) && EarlyTables(t0, o, shown, t)
    ensures Inv(t) <==> ActiveShown(t.sessions, t.seats) && OneActive(t.sessions)
  {
    OpenKeepsInv(t0, o.uid, o.vt, o.os);
    OpenedNow(t0, o, 4);
    EarlyStates(t0, o);
    hide Activated, Assigned, LoggedIn, SeatsAgree, UsersLive, ActiveShown, OneActive, SeatsOk, UsersOk, SamePlaces;
    hide IdsOk, Early, Opened, With, SeatAdded, SeatActivated;
    var t1 := Opened(t0, o.uid, o.vt, o.os);
    PlacesKeep(t1.sessions, t.sessions, t1.nextId, t1.seats, t1.users);
    if shown { ShownKeeps(t.sessions, t1.seats, t0.nextId); }
  }

  lemma ShownKeeps(sessions: SessionTable, seats: SeatTable, sid: Sid)
    requires SeatsAgree(sessions, seats) && SeatsOk(seats)
    ensures var seats' := SeatActivated(seats, SEAT0, sid);
            SeatsAgree(sessions, seats') && SeatsOk(seats') && (SEAT0 in seats' <==> SEAT0 in seats)
  {
    SeatCallKeeps(seats, ActivateOn(SEAT0, sid));
    SameLists(sessions, seats, SeatActivated(seats, SEAT0, sid));
  }

  lemma EarlyEnd(t0: Tables, o: Opening, shown: bool, t: Tables)
    requires Inv(t0) && LogsIn(t0, o) && EarlyTables(t0, o, shown, t)
    ensures Inv(t) <==> NoneActiveOn(t0, SEAT0) && (shown || t0.seats[SEAT0].active.None?)
  {
    EarlyPlaces(t0, o, shown, t);
    EarlyStates(t0, o);
    FreshId(t0);
    EarlySeat(t0, o, shown);
    hide Inv, Activated, Assigned, LoggedIn, SeatsNow, Early;
    var sid := t0.nextId;
    assert IsActive(t.sessions, sid) && t.sessions[sid].seat == Some(SEAT0);
    if !NoneActiveOn(t0, SEAT0) {
      var id :| id in t0.sessions && t0.sessions[id].seat == Some(SEAT0)
          && t0.sessions[id].state == SessionState.Active;
      assert IsActive(t.sessions, id) && t.sessions[id].seat == Some(SEAT0) && id != sid;
    } else if shown || t0.seats[SEAT0].active.None? {
      EarlyAgrees(t0, o, shown, t);
    }
  }

  lemma EarlySeat(t0: Tables, o: Opening, shown: bool)
    requires Inv(t0) && LogsIn(t0, o)
    ensures var seats := SeatsNow(t0, o, 4, shown);
            && seats.Keys == t0.seats.Keys
            && (forall k :: k in seats && k != SEAT0 ==> seats[k] == t0.seats[k])
            && t0.seats[SEAT0].active != Some(t0.nextId)
            && seats[SEAT0].active ==
               if shown || t0.seats[SEAT0].active.None? then Some(t0.nextId) else t0.seats[SEAT0].active
  {
    FreshId(t0);
    hide LoggedIn;
    assert SeatOk(t0.seats[SEAT0]);
    assert t0.nextId !in t0.seats[SEAT0].sessions;
  }

  /** The facts about seats and states that agreement rests on. */
  ghost predicate NewOnSeat0(t0: Tables, sessions: SessionTable, seats: SeatTable) {
    && seats.Keys == t0.seats.Keys && SEAT0 in seats && t0.nextId !in t0.sessions
    && (forall k :: k in seats && k != SEAT0 ==> seats[k] == t0.seats[k])
    && seats[SEAT0].active == Some(t0.nextId)
    && (forall id :: IsActive(sessions, id) ==>
          id == t0.nextId || (IsActive(t0.sessions, id) && sessions[id].seat == t0.sessions[id].seat
              && sessions[id].seat.Some?))
    && t0.nextId in sessions && sessions[t0.nextId].seat == Some(SEAT0)
  }

  lemma NewAgrees(t0: Tables, sessions: SessionTable, seats: SeatTable)
    requires ActiveShown(t0.sessions, t0.seats) && OneActive(t0.sessions) && NoneActiveOn(t0, SEAT0)
    requires NewOnSeat0(t0, sessions, seats)
    ensures ActiveShown(sessions, seats) && OneActive(sessions)
  {
  }

  lemma EarlyAgrees(t0: Tables, o: Opening, shown: bool, t: Tables)
    requires Inv(t0) && LogsIn(t0, o) && EarlyTables(t0, o, shown, t)
    requires NoneActiveOn(t0, SEAT0) && (shown || t0.seats[SEAT0].active.None?)
    ensures ActiveShown(t.sessions, t.seats) && OneActive(t.sessions)
  {
    EarlyStates(t0, o);
    EarlySeat(t0, o, shown);
    FreshId(t0);
    assert ActiveShown(t0.sessions, t0.seats) && OneActive(t0.sessions) && SEAT0 in t0.seats;
    hide Inv, Activated, Assigned, LoggedIn, SeatsNow, Early, ActiveShown, OneActive, NoneActiveOn;
    forall id | id in t0.sessions ensures id in t.sessions && t.sessions[id].seat == t0.sessions[id].seat {
      assert id in Entered(t0, o, true);
    }
    NewAgrees(t0, t.sessions, t.seats);
  }

  // -------------------------------------------------------------- main results

  /**
   ActivateSession of a session that is being opened: the tables agree afterwards exactly when the
   login failed, the activation found no session, it came after the open, or no session was Active
   on seat0 and the activation still read the seat, or seat0 was empty.
   */
  lemma OpenActivateExactly(t0: Tables, o: Opening, peer: Uid, os: Os, order: seq<bool>)
    requires Inv(t0)
    requires Complete(Merged(t0, OpenThread(o), Begin(peer, ActivateSession(t0.nextId), os), order))
    ensures Inv(Merged(t0, OpenThread(o), Begin(peer, ActivateSession(t0.nextId), os), order).t) <==>
            || !LogsIn(t0, o)
            || !Before(order, 1, 1)
            || Before(order, 4, 1)
            || (NoneActiveOn(t0, SEAT0) && (Before(order, 4, 2) || t0.seats[SEAT0].active.None?))
  {
    hide Inv, Merged, LoggedIn, Before, SessionsNow, SeatsNow, UsersNow, NoneActiveOn;
    var p := Merged(t0, OpenThread(o), Begin(peer, ActivateSession(t0.nextId), os), order);
    var na, late, read := Turns(order, true), Before(order, 4, 1), Before(order, 4, 2);
    if !Before(order, 1, 1) {
      TooEarlyRun(t0, o, peer, ActivateSession(t0.nextId), os, order);
      RefusedEnd(t0, o, na, p.t, p.a);
    } else {
      if late { Earlier(order, 4, 1, 2); }
      ActivateRun(t0, o, peer, os, order);
      ActivateEnd(t0, o, na, Turns(order, false), late, read, p);
    }
  }

  /**
   ActivateSessionOnSeat of a session that is being opened: the tables agree afterwards exactly when
   the login failed, the seat is another one, the activation came before the session was on the seat
   or its second call after the open, or no session was Active on seat0.
   */
  lemma OpenOnSeatExactly(t0: Tables, o: Opening, peer: Uid, seat: string, os: Os, order: seq<bool>)
    requires Inv(t0)
    requires Complete(Merged(t0, OpenThread(o), Begin(peer, ActivateSessionOnSeat(t0.nextId, seat), os), order))
    ensures Inv(Merged(t0, OpenThread(o), Begin(peer, ActivateSessionOnSeat(t0.nextId, seat), os), order).t) <==>
            || !LogsIn(t0, o)
            || seat != SEAT0
            || !Before(order, 3, 1)
            || Before(order, 4, 2)
            || NoneActiveOn(t0, SEAT0)
  {
    hide Inv, Merged, LoggedIn, Before, SessionsNow, SeatsNow, UsersNow, NoneActiveOn;
    var p := Merged(t0, OpenThread(o), Begin(peer, ActivateSessionOnSeat(t0.nextId, seat), os), order);
    var na := Turns(order, true);
    if !LogsIn(t0, o) || seat != SEAT0 || !Before(order, 3, 1) {
      TooEarlyRun(t0, o, peer, ActivateSessionOnSeat(t0.nextId, seat), os, order);
      RefusedEnd(t0, o, na, p.t, p.a);
    } else {
      OnSeatRun(t0, o, peer, os, order);
      OnSeatEnd(t0, o, na, Turns(order, false), Before(order, 4, 2), p);
    }
  }

  lemma {:induction false} Earlier(order: seq<bool>, i: nat, j: nat, j': nat)
    requires Before(order, i, j) && j <= j'
    ensures Before(order, i, j')
  {
    if !(Turns(order, true) >= i && Turns(order, false) < j) { Earlier(order[..|order| - 1], i, j, j'); }
  }

  lemma RefusedEnd(t0: Tables, o: Opening, na: nat, t: Tables, a: Thread)
    requires Inv(t0) && OpenNow(t0, o, na, false, false, false, t, a) && a.over
    ensures Inv(t)
  {
    hide Inv, LoggedIn, SessionsNow, SeatsNow, UsersNow, Opened;
    OpenKeepsInv(t0, o.uid, o.vt, o.os);
    OpenedNow(t0, o, na);
  }

  lemma FullyOpen(t0: Tables, o: Opening, na: nat, late: bool, shown: bool)
    requires LogsIn(t0, o) && na >= 4
    ensures SessionsNow(t0, o, na, true, late) == SessionsNow(t0, o, 4, true, late)
    ensures !late ==> SessionsNow(t0, o, na, true, late) == Assigned(Early(t0, o), t0.nextId, SEAT0)
    ensures SeatsNow(t0, o, na, shown) == SeatsNow(t0, o, 4, shown) && UsersNow(t0, o, na) == UsersNow(t0, o, 4)
  {
  }

  lemma WithoutLogin(t0: Tables, o: Opening, na: nat, late: bool, shown: bool)
    requires !LogsIn(t0, o) && na >= 2
    ensures SessionsNow(t0, o, na, true, late) == SessionsNow(t0, o, na, true, false)
    ensures SeatsNow(t0, o, na, shown) == SeatsNow(t0, o, na, false)
  {
  }

  lemma ActivateEnd(t0: Tables, o: Opening, na: nat, nb: nat, late: bool, read: bool, p: Pair)
    requires Inv(t0) && ActivateNow(t0, o, na, nb, late, read, p) && Complete(p) && (late ==> read)
    ensures Inv(p.t) <==>
              !LogsIn(t0, o) || late || (NoneActiveOn(t0, SEAT0) && (read || t0.seats[SEAT0].active.None?))
  {
    hide Inv, LoggedIn, SessionsNow, SeatsNow, UsersNow, NoneActiveOn, Early;
    if !LogsIn(t0, o) {
      WithoutLogin(t0, o, na, late, read && nb >= 3);
      LateEnd(t0, o, na, p.t);
    } else {
      FullyOpen(t0, o, na, late, read);
      if late { LateEnd(t0, o, na, p.t); } else { EarlyEnd(t0, o, read, p.t); }
    }
  }

  lemma OnSeatEnd(t0: Tables, o: Opening, na: nat, nb: nat, late: bool, p: Pair)
    requires Inv(t0) && LogsIn(t0, o) && OnSeatNow(t0, o, na, nb, late, p) && Complete(p)
    ensures Inv(p.t) <==> late || NoneActiveOn(t0, SEAT0)
  {
    hide Inv, LoggedIn, SessionsNow, SeatsNow, UsersNow, NoneActiveOn, Early;
    FullyOpen(t0, o, na, late, true);
    if late { LateEnd(t0, o, na, p.t); } else { EarlyEnd(t0, o, true, p.t); }
  }

  // ------------------------------------------------------------- orders that break

  /** The activation has its first call right after the session was entered. */
  const EARLY := [true, false, true, true, true, false, false]

  lemma EarlyOrder()
    ensures Turns(EARLY, true) == 4 && Turns(EARLY, false) == 3
    ensures Before(EARLY, 1, 1) && !Before(EARLY, 4, 1)
  {
    var o1, o2, o4 := [true], [true, false], [true, false, true, true];
    var o6 := [true, false, true, true, true, false];
    assert o1[..0] == [] && o2[..1] == o1 && o4[..3] == [true, false, true] && [true, false, true][..2] == o2;
    assert EARLY[..6] == o6 && o6[..5] == [true, false, true, true, true];
    assert [true, false, true, true, true][..4] == o4;
    assert Turns(o2, true) == 1 && Turns(o2, false) == 1;
    assert Turns(o4, true) == 3 && Turns(o4, false) == 1;
    assert Turns(o6, true) == 4 && Turns(o6, false) == 2;
    assert Before(o1, 1, 1);
    assert Before(o2, 1, 1) && Before([true, false, true], 1, 1) && Before(o4, 1, 1) && Before(o6, 1, 1);
    if Before(o2, 4, 1) { BeforeMeansTurn(o2, 4, 1); }
    assert !Before([true, false, true], 4, 1) && !Before(o4, 4, 1);
    assert !Before([true, false, true, true, true], 4, 1) && !Before(o6, 4, 1);
  }

  /** With somebody Active on seat0, that leaves two Active sessions there. */
  lemma EarlyActivationBreaks(t0: Tables, o: Opening, peer: Uid, os: Os)
    requires Inv(t0) && LogsIn(t0, o) && !NoneActiveOn(t0, SEAT0)
    ensures var p := Merged(t0, OpenThread(o), Begin(peer, ActivateSession(t0.nextId), os), EARLY);
            Complete(p) && !Inv(p.t)
  {
    hide Merged, Turns, Before, Inv, NoneActiveOn, SessionsNow, SeatsNow, UsersNow, LoggedIn;
    EarlyOrder();
    ActivateRun(t0, o, peer, os, EARLY);
    OpenActivateExactly(t0, o, peer, os, EARLY);
  }

  /** Such tables exist. */
  lemma EarlyActivationExample(os: Os)
    ensures Inv(THREE) && LogsIn(THREE, Opening.Opening(7, None, os)) && !NoneActiveOn(THREE, SEAT0)
  {
    ThreeAgree();
    ThreeSessions(2);
  }

  /** The on-seat activation has both its calls between the last two of the open. */
  const MIDWAY := [true, true, true, false, false, true]

  lemma MidwayOrder()
    ensures Turns(MIDWAY, true) == 4 && Turns(MIDWAY, false) == 2
    ensures Before(MIDWAY, 3, 1) && !Before(MIDWAY, 4, 2)
  {
    var o3, o5 := [true, true, true], [true, true, true, false, false];
    assert o3[..2] == [true, true] && [true, true][..1] == [true] && [true][..0] == [];
    assert MIDWAY[..5] == o5 && o5[..4] == [true, true, true, false] && [true, true, true, false][..3] == o3;
    assert Turns(o3, true) == 3 && Turns(o3, false) == 0;
    assert Turns(o5, true) == 3 && Turns(o5, false) == 2;
    assert Before(o3, 3, 1);
    assert Before([true, true, true, false], 3, 1) && Before(o5, 3, 1);
    if Before(o5, 4, 2) { BeforeMeansTurn(o5, 4, 2); }
  }

  lemma MidwayActivationBreaks(t0: Tables, o: Opening, peer: Uid, os: Os)
    requires Inv(t0) && LogsIn(t0, o) && !NoneActiveOn(t0, SEAT0)
    ensures var p := Merged(t0, OpenThread(o), Begin(peer, ActivateSessionOnSeat(t0.nextId, SEAT0), os), MIDWAY);
            Complete(p) && !Inv(p.t)
  {
    hide Merged, Turns, Before, Inv, NoneActiveOn, SessionsNow, SeatsNow, UsersNow, LoggedIn;
    MidwayOrder();
    OnSeatRun(t0, o, peer, os, MIDWAY);
    OpenOnSeatExactly(t0, o, peer, SEAT0, os, MIDWAY);
  }
}
