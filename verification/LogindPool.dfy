/**
 Any number of overlapping login requests (quantra-logind/src/control.rs).  The
 calls of different requests may come in any order; a session whose request is
 half done is marked, and the tables agree about everything that is not marked.
 When all requests are over there are no marks left.  Only four kinds of pairs
 have to be kept apart: a close or an activation with the open of its session, an
 on-seat activation with the close of its session, and two activations for one
 seat.  LogindOverlap, LogindOpening, LogindClosing and LogindActivations say
 exactly what each of these does.
 */
module LogindPool {
  import opened Optional
  import opened LogindTables
  import opened LogindOverlap

  // --------------------------------------------------------------------- marks

  /** What half-done requests excuse. */
  datatype Marks = Marks(
    adding: set<Sid>,           // on the list of seat0, its seat not yet assigned
    removing: set<Sid>,         // off its seat's list, not yet closed
    leaving: set<(Sid, Uid)>,   // closed, not yet off its user's list
    rising: set<Sid>,           // made Active, its seat not yet told
    taking: set<string>)        // the seat told, its sessions not yet displaced

  const NO_MARKS := Marks({}, {}, {}, {}, {})

  function Joined(a: Marks, b: Marks): Marks {
    Marks(a.adding + b.adding, a.removing + b.removing, a.leaving + b.leaving, a.rising + b.rising, a.taking + b.taking)
  }

  function MarksOf(th: Thread): Marks {
    if th.over then NO_MARKS
    else
      match th.req
      case OpenSession(_, _) => if th.pc == 3 then NO_MARKS.(adding := {th.sid}) else NO_MARKS
      case CloseSession(sid) =>
        if th.pc == 3 then NO_MARKS.(removing := {sid})
        else if th.pc >= 4 && th.uid.Some? then NO_MARKS.(leaving := {(sid, th.uid.value)})
        else NO_MARKS
      case ActivateSession(sid) => if th.pc >= 1 then NO_MARKS.(rising := {sid}) else NO_MARKS
      case ActivateSessionOnSeat(_, seat) => if th.pc >= 1 then NO_MARKS.(taking := {seat}) else NO_MARKS
      case _ => NO_MARKS
  }

  function Total(ths: seq<Thread>): Marks {
    if ths == [] then NO_MARKS else Joined(Total(ths[..|ths| - 1]), MarksOf(ths[|ths| - 1]))
  }

  /** The marks of all but one. */
  function Rest(ths: seq<Thread>, i: nat): Marks
    requires i < |ths|
  {
    Total(ths[..i] + ths[i + 1..])
  }

  lemma {:induction false} TotalSplits(ths: seq<Thread>, i: nat)
    requires i < |ths|
    ensures Total(ths) == Joined(Rest(ths, i), MarksOf(ths[i]))
    decreases |ths|
  {
    hide MarksOf;
    var last := |ths| - 1;
    var front := ths[..last];
    if i == last {
      assert ths[..i] + ths[i + 1..] == front;
    } else {
      TotalSplits(front, i);
      var others := ths[..i] + ths[i + 1..];
      assert others[..|others| - 1] == front[..i] + front[i + 1..] && others[|others| - 1] == ths[last];
      assert front[i] == ths[i];
    }
  }

  lemma RestSame(ths: seq<Thread>, i: nat, th: Thread)
    requires i < |ths|
    ensures Rest(ths[i := th], i) == Rest(ths, i)
  {
    assert ths[i := th][..i] == ths[..i] && ths[i := th][i + 1..] == ths[i + 1..];
  }

  lemma {:induction false} AddingIs(ths: seq<Thread>, sid: Sid)
    requires sid in Total(ths).adding
    ensures exists j :: 0 <= j < |ths| && sid in MarksOf(ths[j]).adding
    decreases |ths|
  {
    hide MarksOf;
    if ths != [] && sid in Total(ths[..|ths| - 1]).adding {
      AddingIs(ths[..|ths| - 1], sid);
      var j :| 0 <= j < |ths| - 1 && sid in MarksOf(ths[..|ths| - 1][j]).adding;
      assert ths[..|ths| - 1][j] == ths[j];
    }
  }

  // ------------------------------------------------------ agreement up to marks

  /** Old sessions keep their user and seat; the number of seats does not change. */
  ghost predicate Base(t0: Tables, t: Tables) {
    && SeatsOk(t.seats) && UsersOk(t.users) && IdsOk(t.sessions, t.nextId)
    && t0.nextId <= t.nextId && SEAT0 in t.seats && t.seats.Keys == t0.seats.Keys
    && forall id :: id in t.sessions && id < t0.nextId ==>
         id in t0.sessions && t.sessions[id].uid == t0.sessions[id].uid && t.sessions[id].seat == t0.sessions[id].seat
  }

  /** Opens mark new sessions, the other requests old ones. */
  ghost predicate MarksFit(t0: Tables, t: Tables, m: Marks) {
    && (forall id :: id in m.adding ==> id >= t0.nextId && id in t.sessions && t.sessions[id].seat == None)
    && (forall id :: id in m.removing ==> id < t0.nextId)
  }

  ghost predicate Lists(sessions: SessionTable, seats: SeatTable, m: Marks) {
    && (forall k, id :: k in seats ==>
          (id in seats[k].sessions <==>
           || (id in m.adding && k == SEAT0)
           || (id in sessions && sessions[id].seat == Some(k) && id !in m.removing)))
    && (forall id :: id in sessions && sessions[id].seat.Some? ==> sessions[id].seat.value in seats)
  }

  ghost predicate Excused(sessions: SessionTable, m: Marks, id: Sid) {
    id in m.removing || id in m.rising
        || (id in sessions && sessions[id].seat.Some? && sessions[id].seat.value in m.taking)
  }

  ghost predicate Shown(sessions: SessionTable, seats: SeatTable, m: Marks) {
    forall id :: IsActive(sessions, id) && sessions[id].seat.Some? && sessions[id].seat.value in seats ==>
      seats[sessions[id].seat.value].active == Some(id) || Excused(sessions, m, id)
  }

  ghost predicate Live(sessions: SessionTable, users: UserTable, m: Marks) {
    forall u, id :: u in users && id in users[u].sessions ==>
      (id in sessions && sessions[id].uid == u) || (id, u) in m.leaving
  }

  ghost predicate Agree(t0: Tables, t: Tables, m: Marks) {
    && Base(t0, t) && MarksFit(t0, t, m)
    && Lists(t.sessions, t.seats, m) && Shown(t.sessions, t.seats, m) && OneActive(t.sessions)
    && Live(t.sessions, t.users, m)
  }

  lemma AgreeAtStart(t0: Tables)
    requires Inv(t0)
    ensures Agree(t0, t0, NO_MARKS)
  {
  }

  lemma AgreeAtEnd(t0: Tables, t: Tables)
    requires Agree(t0, t, NO_MARKS)
    ensures Inv(t)
  {
  }

  // ---------------------------------------------------------------- positions

  /** What each request knows in the middle. */
  ghost predicate Right(t0: Tables, t: Tables, th: Thread) {
    !th.over ==>
      match th.req
      case OpenSession(uid, _) => th.pc <= 3 && (th.pc >= 1 ==> OpenRight(t0, t, th.sid, uid))
      case CloseSession(sid) => th.pc <= 4 && sid < t0.nextId && CloseRight(t, th, sid)
      case ActivateSession(sid) => th.pc <= 2 && sid < t0.nextId && (th.pc >= 1 ==> ActivateRight(t0, t, th, sid))
      case ActivateSessionOnSeat(sid, seat) =>
        th.pc <= 1 && sid < t0.nextId && (th.pc >= 1 ==> OnSeatRight(t0, t, sid, seat))
      case _ => true
  }

  ghost predicate OpenRight(t0: Tables, t: Tables, sid: Sid, uid: Uid) {
    && t0.nextId <= sid < t.nextId && sid in t.sessions
    && t.sessions[sid].uid == uid && t.sessions[sid].seat == None && t.sessions[sid].state == SessionState.Online
  }

  ghost predicate CloseRight(t: Tables, th: Thread, sid: Sid) {
    && (th.pc >= 1 && sid in t.sessions ==> th.uid == Some(t.sessions[sid].uid))
    && (th.pc >= 2 ==> th.uid.Some? && (sid in t.sessions ==> th.seat == t.sessions[sid].seat))
  }

  ghost predicate ActivateRight(t0: Tables, t: Tables, th: Thread, sid: Sid) {
    && sid in t0.sessions
    && (sid in t.sessions && t0.sessions[sid].seat.Some? ==> t.sessions[sid].state == SessionState.Active)
    && (th.pc >= 2 ==> th.seat.Some? && th.seat == t0.sessions[sid].seat)
  }

  ghost predicate OnSeatRight(t0: Tables, t: Tables, sid: Sid, seat: string) {
    && CanActivate(t0.seats, seat, sid) && sid in t0.sessions && t0.sessions[sid].seat == Some(seat)
    && sid in t.sessions && t.sessions[sid].seat == Some(seat)
    && seat in t.seats && t.seats[seat].active == Some(sid)
  }

  // ------------------------------------------------------- which pairs to avoid

  /** The seat that an activation is about. */
  function Target(t0: Tables, req: Request): Option<string> {
    match req
    case ActivateSession(sid) => SeatOf(t0.sessions, sid)
    case ActivateSessionOnSeat(sid, seat) => if CanActivate(t0.seats, seat, sid) then Some(seat) else None
    case _ => None
  }

  /** Two requests that may overlap: not two activations for one seat, and no on-seat activation with a close. */
  ghost predicate Apart(t0: Tables, a: Request, b: Request) {
    && (Target(t0, a).Some? ==> Target(t0, a) != Target(t0, b))
    && (a.ActivateSessionOnSeat? && Target(t0, a).Some? && b.CloseSession? ==> a.sid != b.sid)
    && (b.ActivateSessionOnSeat? && Target(t0, b).Some? && a.CloseSession? ==> a.sid != b.sid)
  }

  /** The session that a request names was there, or had been, at the start: none is being opened meanwhile. */
  predicate NamesOld(t0: Tables, req: Request) {
    && (req.CloseSession? ==> req.sid < t0.nextId)
    && (req.ActivateSession? ==> req.sid < t0.nextId)
    && (req.ActivateSessionOnSeat? ==> req.sid < t0.nextId)
  }

  ghost predicate Allowed(t0: Tables, ths: seq<Thread>) {
    && (forall i :: 0 <= i < |ths| ==> NamesOld(t0, ths[i].req))
    && (forall i, j :: 0 <= i < |ths| && 0 <= j < |ths| && i != j ==> Apart(t0, ths[i].req, ths[j].req))
  }

  // ------------------------------------------------------- one call on the tables

  lemma EnterAgrees(t0: Tables, t: Tables, m: Marks, uid: Uid, vt: Option<nat>)
    requires Agree(t0, t, m)
    ensures Agree(t0, t.(sessions := t.sessions[t.nextId := NewSession(t.nextId, uid, vt)], nextId := t.nextId + 1), m)
  {
    assert t.nextId !in t.sessions && t.nextId !in m.adding;
    EnterLists(t0, t, m, NewSession(t.nextId, uid, vt));
    hide SeatsOk, UsersOk, Lists, Shown, OneActive, IsActive;
  }

  lemma EnterLists(t0: Tables, t: Tables, m: Marks, s: Session)
    requires Lists(t.sessions, t.seats, m) && Shown(t.sessions, t.seats, m) && OneActive(t.sessions)
    requires t.nextId !in t.sessions && t.nextId !in m.adding && s.seat == None && s.state == SessionState.Online
    ensures var sessions := t.sessions[t.nextId := s];
            Lists(sessions, t.seats, m) && Shown(sessions, t.seats, m) && OneActive(sessions)
  {
    assert forall id :: IsActive(t.sessions[t.nextId := s], id) <==> IsActive(t.sessions, id);
  }

  lemma LoginAgrees(t0: Tables, t: Tables, m: Marks, uid: Uid, sid: Sid, os: Os)
    requires Agree(t0, t, m) && sid in t.sessions && t.sessions[sid].uid == uid
    requires LoggedIn(t.users, uid, sid, os).Some?
    ensures Agree(t0, t.(users := LoggedIn(t.users, uid, sid, os).value), m)
  {
    UserCallKeeps(t.users, Login(uid, sid, os));
    hide SeatsOk, UsersOk, Lists, Shown, OneActive;
  }

  lemma AddLists(t0: Tables, t: Tables, m: Marks, sid: Sid)
    requires Agree(t0, t, m) && sid in t.sessions && t.sessions[sid].seat == None && sid >= t0.nextId
    ensures var seats, m' := SeatAdded(t.seats, SEAT0, sid), Joined(m, NO_MARKS.(adding := {sid}));
            MarksFit(t0, t.(seats := seats), m') && Lists(t.sessions, seats, m') && Shown(t.sessions, seats, m')
  {
    hide SeatsOk, UsersOk, IdsOk;
  }

  lemma AddAgrees(t0: Tables, t: Tables, m: Marks, sid: Sid)
    requires Agree(t0, t, m) && sid in t.sessions && t.sessions[sid].seat == None && sid >= t0.nextId
    ensures Agree(t0, t.(seats := SeatAdded(t.seats, SEAT0, sid)), Joined(m, NO_MARKS.(adding := {sid})))
  {
    SeatCallKeeps(t.seats, AddSession(SEAT0, sid));
    AddLists(t0, t, m, sid);
    hide SeatsOk, UsersOk, IdsOk, Lists, Shown, MarksFit, SeatAdded, OneActive;
  }

  lemma AssignLists(t0: Tables, t: Tables, m: Marks, sid: Sid)
    requires MarksFit(t0, t, Joined(m, NO_MARKS.(adding := {sid})))
    requires Lists(t.sessions, t.seats, Joined(m, NO_MARKS.(adding := {sid})))
    requires sid !in m.adding && sid in t.sessions && t.sessions[sid].seat == None && sid >= t0.nextId
    requires SEAT0 in t.seats
    ensures var sessions := Assigned(t.sessions, sid, SEAT0);
            MarksFit(t0, t.(sessions := sessions), m) && Lists(sessions, t.seats, m)
  {
    var sessions := Assigned(t.sessions, sid, SEAT0);
    assert forall id :: id in sessions && id != sid ==> id in t.sessions && sessions[id] == t.sessions[id];
  }

  lemma AssignStates(t: Tables, m: Marks, sid: Sid)
    requires Shown(t.sessions, t.seats, Joined(m, NO_MARKS.(adding := {sid}))) && OneActive(t.sessions)
    requires sid in t.sessions && t.sessions[sid].state == SessionState.Online
    ensures var sessions := Assigned(t.sessions, sid, SEAT0);
            Shown(sessions, t.seats, m) && OneActive(sessions)
  {
    var sessions := Assigned(t.sessions, sid, SEAT0);
    assert forall id :: IsActive(sessions, id) <==> IsActive(t.sessions, id);
    assert forall id :: id in sessions && id != sid ==> id in t.sessions && sessions[id] == t.sessions[id];
  }

  lemma AssignBase(t0: Tables, t: Tables, m: Marks, sid: Sid)
    requires Base(t0, t) && Live(t.sessions, t.users, Joined(m, NO_MARKS.(adding := {sid})))
    requires sid in t.sessions && sid >= t0.nextId
    ensures var sessions := Assigned(t.sessions, sid, SEAT0);
            Base(t0, t.(sessions := sessions)) && Live(sessions, t.users, m)
  {
    hide SeatsOk, UsersOk;
    var sessions := Assigned(t.sessions, sid, SEAT0);
    assert forall id :: id in sessions <==> id in t.sessions;
    assert forall id :: id in sessions && id != sid ==> sessions[id] == t.sessions[id];
  }

  lemma AssignAgrees(t0: Tables, t: Tables, m: Marks, sid: Sid)
    requires Agree(t0, t, Joined(m, NO_MARKS.(adding := {sid}))) && sid !in m.adding && sid in t.sessions
    requires t.sessions[sid].state == SessionState.Online && t.sessions[sid].seat == None && sid >= t0.nextId
    ensures Agree(t0, t.(sessions := Assigned(t.sessions, sid, SEAT0)), m)
  {
    SeatZero(t0, t);
    hide Lists, Shown, MarksFit, OneActive, Base, Live, Assigned;
    AssignLists(t0, t, m, sid);
    AssignStates(t, m, sid);
    AssignBase(t0, t, m, sid);
  }

  lemma SeatZero(t0: Tables, t: Tables)
    requires Base(t0, t)
    ensures SEAT0 in t.seats
  {
  }

  lemma RemoveLists(t0: Tables, t: Tables, m: Marks, sid: Sid, seat: string)
    requires Agree(t0, t, m) && sid < t0.nextId && (sid in t.sessions ==> t.sessions[sid].seat == Some(seat))
    ensures var seats, m' := SeatRemoved(t.seats, seat, sid), Joined(m, NO_MARKS.(removing := {sid}));
            Lists(t.sessions, seats, m') && Shown(t.sessions, seats, m')
  {
    hide UsersOk, IdsOk, SeatsOk, Without;
  }

  /** Nothing to remove from: the session has no seat. */
  lemma SeatlessRemoved(t0: Tables, t: Tables, m: Marks, sid: Sid)
    requires Lists(t.sessions, t.seats, m) && Shown(t.sessions, t.seats, m) && MarksFit(t0, t, m) && sid < t0.nextId
    requires sid in t.sessions ==> t.sessions[sid].seat == None
    ensures var m' := Joined(m, NO_MARKS.(removing := {sid}));
            Lists(t.sessions, t.seats, m') && Shown(t.sessions, t.seats, m')
  {
  }

  lemma MoreRemoving(t0: Tables, t: Tables, m: Marks, sid: Sid)
    requires MarksFit(t0, t, m) && Live(t.sessions, t.users, m) && sid < t0.nextId
    ensures var m' := Joined(m, NO_MARKS.(removing := {sid}));
            MarksFit(t0, t, m') && Live(t.sessions, t.users, m')
  {
  }

  lemma RemovedKeys(seats: SeatTable, seat: string, sid: Sid)
    requires SeatsOk(seats)
    ensures SeatsOk(SeatRemoved(seats, seat, sid)) && SeatRemoved(seats, seat, sid).Keys == seats.Keys
  {
    SeatCallKeeps(seats, RemoveSession(seat, sid));
  }

  lemma RemoveAgrees(t0: Tables, t: Tables, m: Marks, sid: Sid, seat: Option<string>)
    requires Agree(t0, t, m) && sid < t0.nextId && (sid in t.sessions ==> t.sessions[sid].seat == seat)
    ensures var seats := if seat.Some? then SeatRemoved(t.seats, seat.value, sid) else t.seats;
            Agree(t0, t.(seats := seats), Joined(m, NO_MARKS.(removing := {sid})))
  {
    MoreRemoving(t0, t, m, sid);
    if seat.Some? {
      RemovedKeys(t.seats, seat.value, sid);
      RemoveLists(t0, t, m, sid, seat.value);
    } else {
      SeatlessRemoved(t0, t, m, sid);
    }
    hide SeatsOk, UsersOk, IdsOk, Lists, Shown, SeatRemoved, OneActive, Live, IsActive;
  }

  lemma CloseLists(t0: Tables, t: Tables, m: Marks, sid: Sid, m': Marks)
    requires sid < t0.nextId && MarksFit(t0, t, Joined(m, NO_MARKS.(removing := {sid})))
    requires Lists(t.sessions, t.seats, Joined(m, NO_MARKS.(removing := {sid})))
    requires m'.adding == m.adding && m'.removing == m.removing
    ensures MarksFit(t0, t.(sessions := t.sessions - {sid}), m') && Lists(t.sessions - {sid}, t.seats, m')
  {
  }

  lemma CloseStates(t: Tables, m: Marks, sid: Sid, m': Marks)
    requires Shown(t.sessions, t.seats, Joined(m, NO_MARKS.(removing := {sid}))) && OneActive(t.sessions)
    requires m'.removing == m.removing && m'.rising == m.rising && m'.taking == m.taking
    ensures Shown(t.sessions - {sid}, t.seats, m') && OneActive(t.sessions - {sid})
  {
    assert forall id :: IsActive(t.sessions - {sid}, id) <==> IsActive(t.sessions, id) && id != sid;
  }

  lemma CloseAgrees(t0: Tables, t: Tables, m: Marks, sid: Sid, uid: Uid)
    requires Agree(t0, t, Joined(m, NO_MARKS.(removing := {sid}))) && sid < t0.nextId
    requires sid in t.sessions ==> t.sessions[sid].uid == uid
    ensures sid in t.sessions ==>
              Agree(t0, t.(sessions := t.sessions - {sid}), Joined(m, NO_MARKS.(leaving := {(sid, uid)})))
    ensures sid !in t.sessions ==> Agree(t0, t, m)
  {
    var m' := if sid in t.sessions then Joined(m, NO_MARKS.(leaving := {(sid, uid)})) else m;
    CloseLists(t0, t, m, sid, m');
    CloseStates(t, m, sid, m');
    hide SeatsOk, UsersOk, Lists, Shown, MarksFit, OneActive;
    if sid !in t.sessions { assert t.sessions - {sid} == t.sessions; }
  }

  lemma LogoutAgrees(t0: Tables, t: Tables, m: Marks, sid: Sid, uid: Uid)
    requires Agree(t0, t, Joined(m, NO_MARKS.(leaving := {(sid, uid)})))
    ensures Agree(t0, t.(users := LoggedOut(t.users, uid, sid)), m)
  {
    UserCallKeeps(t.users, Logout(uid, sid));
    hide SeatsOk, UsersOk, IdsOk, OneActive, Without;
  }

  lemma OneActiveAfter(sessions: SessionTable, sid: Sid)
    requires OneActive(sessions) && sid in sessions && forall id :: id in sessions ==> sessions[id].id == id
    ensures OneActive(Activated(sessions, sid))
    ensures SamePlaces(sessions, Activated(sessions, sid))
    ensures forall id :: IsActive(Activated(sessions, sid), id) <==>
              id == sid || (IsActive(sessions, id) && sessions[id].seat != sessions[sid].seat)
  {
    var sessions' := Activated(sessions, sid);
    forall id ensures IsActive(sessions', id) <==>
        id == sid || (IsActive(sessions, id) && sessions[id].seat != sessions[sid].seat) {
    }
  }

  /** Sessions in the same places leave everything but the states alone. */
  lemma PlacesAgree(t0: Tables, t: Tables, m: Marks, sessions: SessionTable)
    requires Base(t0, t) && MarksFit(t0, t, m) && Lists(t.sessions, t.seats, m) && Live(t.sessions, t.users, m)
    requires SamePlaces(t.sessions, sessions)
    ensures var t' := t.(sessions := sessions);
            Base(t0, t') && MarksFit(t0, t', m) && Lists(sessions, t.seats, m) && Live(sessions, t.users, m)
  {
    hide SeatsOk, UsersOk;
    assert forall id :: id in sessions <==> id in t.sessions;
  }

  lemma RiseShown(sessions: SessionTable, sessions': SessionTable, seats: SeatTable, m: Marks, sid: Sid)
    requires Shown(sessions, seats, m) && SamePlaces(sessions, sessions')
    requires forall id :: IsActive(sessions', id) ==> id == sid || IsActive(sessions, id)
    ensures Shown(sessions', seats, Joined(m, NO_MARKS.(rising := {sid})))
  {
  }

  lemma RiseAgrees(t0: Tables, t: Tables, m: Marks, sid: Sid)
    requires Agree(t0, t, m) && sid in t.sessions
    ensures Agree(t0, t.(sessions := Activated(t.sessions, sid)), Joined(m, NO_MARKS.(rising := {sid})))
  {
    var m' := Joined(m, NO_MARKS.(rising := {sid}));
    OneActiveAfter(t.sessions, sid);
    SameMarks(t0, t, m, m');
    hide Activated, IsActive;
    PlacesAgree(t0, t, m', Activated(t.sessions, sid));
    RiseShown(t.sessions, Activated(t.sessions, sid), t.seats, m, sid);
    hide Base, SeatsOk, UsersOk, OneActive, Lists, Live, MarksFit, Shown, SamePlaces;
  }

  /** A session without a seat, or none at all, needs no excuse. */
  lemma SeatlessAgrees(t0: Tables, t: Tables, m: Marks, sid: Sid)
    requires Agree(t0, t, Joined(m, NO_MARKS.(rising := {sid})))
    requires sid in t.sessions ==> t.sessions[sid].seat == None
    ensures Agree(t0, t, m)
  {
    hide SeatsOk, UsersOk, OneActive;
  }

  lemma ShowShown(t0: Tables, t: Tables, m: Marks, sid: Sid, seat: string)
    requires Agree(t0, t, Joined(m, NO_MARKS.(rising := {sid}))) && sid < t0.nextId
    requires sid in t.sessions ==> t.sessions[sid].seat == Some(seat) && t.sessions[sid].state == SessionState.Active
    ensures Shown(t.sessions, SeatActivated(t.seats, seat, sid), m)
  {
    hide SeatsOk, UsersOk, Live;
    var seats := SeatActivated(t.seats, seat, sid);
    if CanActivate(t.seats, seat, sid) {
      assert sid in t.sessions && IsActive(t.sessions, sid);
      forall id | IsActive(t.sessions, id) && t.sessions[id].seat == Some(seat) ensures id == sid {
      }
    } else if sid in t.sessions {
      assert sid in m.removing;
    }
  }

  lemma SameListsAgree(t0: Tables, t: Tables, m: Marks, seats: SeatTable)
    requires Base(t0, t) && MarksFit(t0, t, m) && Lists(t.sessions, t.seats, m)
    requires SeatsOk(seats) && seats.Keys == t.seats.Keys
    requires forall k :: k in seats ==> seats[k].sessions == t.seats[k].sessions
    ensures Base(t0, t.(seats := seats)) && MarksFit(t0, t.(seats := seats), m) && Lists(t.sessions, seats, m)
  {
    hide SeatsOk, UsersOk, IdsOk;
  }

  lemma ActivationLists(seats: SeatTable, seat: string, sid: Sid)
    requires SeatsOk(seats)
    ensures var seats' := SeatActivated(seats, seat, sid);
            && SeatsOk(seats') && seats'.Keys == seats.Keys
            && (forall k :: k in seats' ==> seats'[k].sessions == seats[k].sessions)
            && (forall k :: k in seats' && k != seat ==> seats'[k] == seats[k])
            && (CanActivate(seats, seat, sid) ==> seats'[seat].active == Some(sid))
  {
    SeatCallKeeps(seats, ActivateOn(seat, sid));
    hide SeatsOk;
  }

  lemma ShowAgrees(t0: Tables, t: Tables, m: Marks, sid: Sid, seat: string)
    requires Agree(t0, t, Joined(m, NO_MARKS.(rising := {sid}))) && sid < t0.nextId
    requires sid in t.sessions ==> t.sessions[sid].seat == Some(seat) && t.sessions[sid].state == SessionState.Active
    ensures Agree(t0, t.(seats := SeatActivated(t.seats, seat, sid)), m)
  {
    ShowShown(t0, t, m, sid, seat);
    ActivationLists(t.seats, seat, sid);
    SameMarks(t0, t, m, Joined(m, NO_MARKS.(rising := {sid})));
    hide SeatActivated;
    SameListsAgree(t0, t, m, SeatActivated(t.seats, seat, sid));
    hide Base, MarksFit, Lists, Shown, OneActive, Live;
  }

  lemma SameMarks(t0: Tables, t: Tables, m: Marks, m': Marks)
    requires m'.adding == m.adding && m'.removing == m.removing && m'.leaving == m.leaving
    ensures MarksFit(t0, t, m') <==> MarksFit(t0, t, m)
    ensures Lists(t.sessions, t.seats, m') <==> Lists(t.sessions, t.seats, m)
    ensures Live(t.sessions, t.users, m') <==> Live(t.sessions, t.users, m)
  {
  }

  /** A session on a seat's list is an old one, and was there at the start. */
  lemma MemberIsOld(t0: Tables, t: Tables, m: Marks, sid: Sid, seat: string)
    requires Inv(t0) && Base(t0, t) && MarksFit(t0, t, m) && Lists(t.sessions, t.seats, m)
    requires sid < t0.nextId && CanActivate(t.seats, seat, sid)
    ensures sid in t.sessions && t.sessions[sid].seat == Some(seat)
    ensures sid in t0.sessions && t0.sessions[sid].seat == Some(seat) && CanActivate(t0.seats, seat, sid)
  {
    hide SeatsOk, UsersOk, IdsOk, ActiveShown, OneActive, UsersLive;
  }

  lemma TakeShown(sessions: SessionTable, seats: SeatTable, seats': SeatTable, m: Marks, seat: string)
    requires Shown(sessions, seats, m) && seats'.Keys == seats.Keys
    requires forall k :: k in seats' && k != seat ==> seats'[k] == seats[k]
    ensures Shown(sessions, seats', Joined(m, NO_MARKS.(taking := {seat})))
  {
  }

  lemma TakeAgrees(t0: Tables, t: Tables, m: Marks, sid: Sid, seat: string)
    requires Inv(t0) && Agree(t0, t, m) && sid < t0.nextId && CanActivate(t.seats, seat, sid)
    ensures var t' := t.(seats := SeatActivated(t.seats, seat, sid));
            Agree(t0, t', Joined(m, NO_MARKS.(taking := {seat}))) && OnSeatRight(t0, t', sid, seat)
  {
    hide Inv;
    MemberIsOld(t0, t, m, sid, seat);
    ActivationLists(t.seats, seat, sid);
    var m' := Joined(m, NO_MARKS.(taking := {seat}));
    SameMarks(t0, t, m, m');
    hide SeatActivated;
    var seats := SeatActivated(t.seats, seat, sid);
    SameListsAgree(t0, t, m', seats);
    TakeShown(t.sessions, t.seats, seats, m, seat);
    hide Base, MarksFit, Lists, Shown, OneActive, Live;
  }

  lemma DisplaceAgrees(t0: Tables, t: Tables, m: Marks, sid: Sid, seat: string)
    requires Agree(t0, t, Joined(m, NO_MARKS.(taking := {seat}))) && OnSeatRight(t0, t, sid, seat)
    ensures Agree(t0, t.(sessions := Activated(t.sessions, sid)), m)
  {
    OneActiveAfter(t.sessions, sid);
    MarksWeaken(t0, t, m, seat);
    PlacesAgree(t0, t, m, Activated(t.sessions, sid));
    hide Base, Activated, SeatsOk, UsersOk, OneActive, Lists, Live, MarksFit;
  }

  lemma MarksWeaken(t0: Tables, t: Tables, m: Marks, seat: string)
    requires Agree(t0, t, Joined(m, NO_MARKS.(taking := {seat})))
    ensures Base(t0, t) && MarksFit(t0, t, m) && Lists(t.sessions, t.seats, m) && Live(t.sessions, t.users, m)
  {
    hide Base, OneActive;
  }

  lemma HintAgrees(t0: Tables, t: Tables, m: Marks, sessions: SessionTable)
    requires Agree(t0, t, m) && SamePlaces(t.sessions, sessions)
    requires forall id :: id in sessions ==> sessions[id].state == t.sessions[id].state
    ensures Agree(t0, t.(sessions := sessions), m)
  {
    PlacesAgree(t0, t, m, sessions);
    assert forall id :: IsActive(sessions, id) <==> IsActive(t.sessions, id);
    hide Base, Lists, Live, MarksFit;
  }

  lemma UsersAgree(t0: Tables, t: Tables, m: Marks, users: UserTable)
    requires Agree(t0, t, m) && UsersOk(users)
    requires forall u :: u in users ==>
        users[u].sessions == [] || (u in t.users && users[u].sessions == t.users[u].sessions)
    ensures Agree(t0, t.(users := users), m)
  {
    hide SeatsOk, UsersOk, IdsOk, Lists, Shown, OneActive;
  }

  // ----------------------------------------------------------- one turn of a request

  /** The turn of a request replaces its marks and keeps its position right. */
  ghost predicate TurnOk(t0: Tables, t: Tables, r: Marks, th: Thread) {
    var (t', th') := Turn(t, th);
    th'.req == th.req && Agree(t0, t', Joined(r, MarksOf(th'))) && Right(t0, t', th')
  }

  lemma JoinedNone(r: Marks)
    ensures Joined(r, NO_MARKS) == r
  {
  }

  lemma OpenEnters(t0: Tables, t: Tables, r: Marks, th: Thread)
    requires th.req.OpenSession? && !th.over && th.pc == 0 && Right(t0, t, th) && Agree(t0, t, Joined(r, MarksOf(th)))
    ensures TurnOk(t0, t, r, th)
  {
    JoinedNone(r);
    NextIds(t0, t, Joined(r, MarksOf(th)));
    hide Agree, Joined, LoggedIn;
    if th.peer == 0 { EnterAgrees(t0, t, r, th.req.uid, th.req.vt); }
  }

  lemma OpenLogsIn(t0: Tables, t: Tables, r: Marks, th: Thread)
    requires th.req.OpenSession? && !th.over && th.pc == 1 && Right(t0, t, th) && Agree(t0, t, Joined(r, MarksOf(th)))
    ensures TurnOk(t0, t, r, th)
  {
    JoinedNone(r);
    hide Agree, Joined, LoggedIn;
    if LoggedIn(t.users, th.req.uid, th.sid, th.os).Some? { LoginAgrees(t0, t, r, th.req.uid, th.sid, th.os); }
  }

  lemma OpenEnds(t0: Tables, t: Tables, r: Marks, th: Thread)
    requires th.req.OpenSession? && !th.over && th.pc >= 2 && Right(t0, t, th) && Agree(t0, t, Joined(r, MarksOf(th)))
    requires th.pc == 3 ==> th.sid !in r.adding
    ensures TurnOk(t0, t, r, th)
  {
    JoinedNone(r);
    hide Agree, Joined, SeatAdded, Assigned;
    if th.pc == 2 { AddAgrees(t0, t, r, th.sid); } else { AssignAgrees(t0, t, r, th.sid); }
  }

  lemma OpenTurnOk(t0: Tables, t: Tables, r: Marks, th: Thread)
    requires th.req.OpenSession? && !th.over && Right(t0, t, th) && Agree(t0, t, Joined(r, MarksOf(th)))
    requires th.pc == 3 ==> th.sid !in r.adding
    ensures TurnOk(t0, t, r, th)
  {
    hide Right, Agree, TurnOk, MarksOf, Joined;
    if th.pc == 0 {
      OpenEnters(t0, t, r, th);
    } else if th.pc == 1 {
      OpenLogsIn(t0, t, r, th);
    } else {
      OpenEnds(t0, t, r, th);
    }
  }

  lemma NextIds(t0: Tables, t: Tables, m: Marks)
    requires Agree(t0, t, m)
    ensures t0.nextId <= t.nextId
    ensures forall id :: id in t.sessions && id < t0.nextId ==>
              id in t0.sessions && t.sessions[id].seat == t0.sessions[id].seat
  {
  }

  lemma CloseTurnOk(t0: Tables, t: Tables, r: Marks, th: Thread)
    requires th.req.CloseSession? && !th.over && Right(t0, t, th) && Agree(t0, t, Joined(r, MarksOf(th)))
    ensures TurnOk(t0, t, r, th)
  {
    JoinedNone(r);
    hide Agree, Joined, SeatRemoved, LoggedOut;
    var sid := th.req.sid;
    if th.pc == 2 {
      RemoveAgrees(t0, t, r, sid, if sid in t.sessions then t.sessions[sid].seat else th.seat);
    } else if th.pc == 3 {
      CloseAgrees(t0, t, r, sid, th.uid.value);
    } else if th.pc == 4 {
      LogoutAgrees(t0, t, r, sid, th.uid.value);
    }
  }

  lemma ActivateTurnOk(t0: Tables, t: Tables, r: Marks, th: Thread)
    requires th.req.ActivateSession? && !th.over && Right(t0, t, th) && Agree(t0, t, Joined(r, MarksOf(th)))
    ensures TurnOk(t0, t, r, th)
  {
    JoinedNone(r);
    NextIds(t0, t, Joined(r, MarksOf(th)));
    var sid := th.req.sid;
    if th.pc == 0 {
      if sid in t.sessions { RiseAgrees(t0, t, r, sid); }
      hide Agree, Joined;
    } else if th.pc == 1 {
      if SeatOf(t.sessions, sid).None? { SeatlessAgrees(t0, t, r, sid); }
      hide Agree, Joined;
    } else {
      ShowAgrees(t0, t, r, sid, th.seat.value);
      hide Agree, Joined, SeatActivated;
    }
  }

  lemma OnSeatTurnOk(t0: Tables, t: Tables, r: Marks, th: Thread)
    requires Inv(t0) && th.req.ActivateSessionOnSeat? && !th.over && Right(t0, t, th)
    requires Agree(t0, t, Joined(r, MarksOf(th)))
    ensures TurnOk(t0, t, r, th)
  {
    JoinedNone(r);
    hide Inv, Agree, Joined, SeatActivated, Activated, CanActivate;
    var sid, seat := th.req.sid, th.req.seat;
    if th.pc == 0 {
      if CanActivate(t.seats, seat, sid) { TakeAgrees(t0, t, r, sid, seat); }
    } else {
      DisplaceAgrees(t0, t, r, sid, seat);
    }
  }

  predicate OneCall(req: Request) {
    !req.OpenSession? && !req.CloseSession? && !req.ActivateSession? && !req.ActivateSessionOnSeat?
  }

  ghost predicate HintsOnly(a: SessionTable, b: SessionTable) {
    SamePlaces(a, b) && forall id :: id in b ==> b[id].state == a[id].state
  }

  lemma HintsAreHints(sessions: SessionTable, id: Sid, flag: bool)
    ensures HintsOnly(sessions, LockedOne(sessions, id, flag)) && HintsOnly(sessions, Hinted(sessions, id, flag))
    ensures HintsOnly(sessions, LockedAll(sessions, flag)) && HintsOnly(sessions, sessions)
  {
  }

  lemma HintStep(t: Tables, peer: Uid, req: Request, os: Os)
    requires OneCall(req) && !req.SetLinger? && !req.TerminateUser?
    ensures var t' := Step(t, peer, req, os); t' == t.(sessions := t'.sessions) && HintsOnly(t.sessions, t'.sessions)
  {
    hide HintsOnly, LockedOne, Hinted, LockedAll;
    HintsAreHints(t.sessions, 0, true);
    match req
    case LockSession(sid) => HintsAreHints(t.sessions, sid, true);
    case UnlockSession(sid) => HintsAreHints(t.sessions, sid, false);
    case UnlockSessions => HintsAreHints(t.sessions, 0, false);
    case SetIdleHint(sid, idle) => HintsAreHints(t.sessions, sid, idle);
    case SetLockedHint(sid, locked) => HintsAreHints(t.sessions, sid, locked);
    case _ =>
  }

  lemma OneCallAgrees(t0: Tables, t: Tables, m: Marks, peer: Uid, req: Request, os: Os)
    requires OneCall(req) && Agree(t0, t, m)
    ensures Agree(t0, Step(t, peer, req, os), m)
  {
    hide Step, Agree, SamePlaces;
    if req.SetLinger? || req.TerminateUser? {
      LingerAgrees(t0, t, m, peer, req, os);
    } else {
      HintStep(t, peer, req, os);
      HintAgrees(t0, t, m, Step(t, peer, req, os).sessions);
    }
  }

  lemma LingerAgrees(t0: Tables, t: Tables, m: Marks, peer: Uid, req: Request, os: Os)
    requires (req.SetLinger? || req.TerminateUser?) && Agree(t0, t, m)
    ensures Agree(t0, Step(t, peer, req, os), m)
  {
    var t' := Step(t, peer, req, os);
    if req.SetLinger? {
      UserCallKeeps(t.users, Linger(req.uid, req.enable, os));
    } else {
      UserCallKeeps(t.users, Terminate(req.uid));
    }
    assert t' == t.(users := t'.users);
    UsersAgree(t0, t, m, t'.users);
    hide Agree;
  }

  lemma OneCallTurnOk(t0: Tables, t: Tables, r: Marks, th: Thread)
    requires OneCall(th.req) && !th.over && Agree(t0, t, Joined(r, MarksOf(th)))
    ensures TurnOk(t0, t, r, th)
  {
    JoinedNone(r);
    hide Agree, Joined, Step;
    OneCallAgrees(t0, t, r, th.peer, th.req, th.os);
  }

  lemma AnyTurnOk(t0: Tables, t: Tables, r: Marks, th: Thread)
    requires Inv(t0) && !th.over && Right(t0, t, th) && Agree(t0, t, Joined(r, MarksOf(th)))
    requires th.req.OpenSession? && th.pc == 3 ==> th.sid !in r.adding
    ensures TurnOk(t0, t, r, th)
  {
    hide Inv, Right, Agree, Joined, MarksOf, TurnOk;
    match th.req
    case OpenSession(_, _) => OpenTurnOk(t0, t, r, th);
    case CloseSession(_) => CloseTurnOk(t0, t, r, th);
    case ActivateSession(_) => ActivateTurnOk(t0, t, r, th);
    case ActivateSessionOnSeat(_, _) => OnSeatTurnOk(t0, t, r, th);
    case _ => OneCallTurnOk(t0, t, r, th);
  }

  // ------------------------------------------------- one turn seen by the others

  /** What a turn of one request does to the tables, as far as the others depend on it. */
  lemma OpenLeaves(t0: Tables, t: Tables, th: Thread, other: Thread)
    requires th.req.OpenSession? && !th.over && Right(t0, t, th) && Right(t0, t, other) && t0.nextId <= t.nextId
    requires IdsOk(t.sessions, t.nextId)
    requires other.req.OpenSession? && other.pc >= 1 && th.pc >= 1 && !other.over ==> other.sid != th.sid
    ensures Right(t0, Turn(t, th).0, other)
  {
    hide LoggedIn, With;
    if th.pc == 0 { assert t.nextId !in t.sessions; }
  }

  lemma CloseLeaves(t0: Tables, t: Tables, th: Thread, other: Thread)
    requires th.req.CloseSession? && !th.over && Right(t0, t, th) && Right(t0, t, other)
    requires Apart(t0, th.req, other.req) && NamesOld(t0, other.req)
    ensures Right(t0, Turn(t, th).0, other)
  {
    hide LoggedOut, Without;
  }

  lemma ActivatedLeaves(t0: Tables, t: Tables, sid: Sid, other: Thread)
    requires Right(t0, t, other) && sid in t.sessions && sid < t0.nextId
    requires forall id :: id in t.sessions && id < t0.nextId ==>
               id in t0.sessions && t.sessions[id].seat == t0.sessions[id].seat
    requires other.req.ActivateSession? && t.sessions[sid].seat.Some? ==> Target(t0, other.req) != t.sessions[sid].seat
    ensures Right(t0, t.(sessions := Activated(t.sessions, sid)), other)
  {
  }

  lemma SeatActivatedLeaves(t0: Tables, t: Tables, sid: Sid, seat: string, other: Thread)
    requires Right(t0, t, other)
    requires other.req.ActivateSessionOnSeat? ==> Target(t0, other.req) != Some(seat)
    ensures Right(t0, t.(seats := SeatActivated(t.seats, seat, sid)), other)
  {
  }

  lemma ActivateTurnLeaves(t0: Tables, t: Tables, m: Marks, th: Thread, other: Thread)
    requires Agree(t0, t, m) && th.req.ActivateSession? && !th.over && Right(t0, t, th) && Right(t0, t, other)
    requires Apart(t0, th.req, other.req)
    ensures Right(t0, Turn(t, th).0, other)
  {
    NextIds(t0, t, m);
    var sid := th.req.sid;
    if th.pc == 0 && sid in t.sessions { ActivatedLeaves(t0, t, sid, other); }
    if th.pc == 2 { SeatActivatedLeaves(t0, t, sid, th.seat.value, other); }
    hide Agree, Activated, SeatActivated;
  }

  lemma OnSeatTurnLeaves(t0: Tables, t: Tables, m: Marks, th: Thread, other: Thread)
    requires Inv(t0) && Agree(t0, t, m) && th.req.ActivateSessionOnSeat? && !th.over
    requires Right(t0, t, th) && Right(t0, t, other) && Apart(t0, th.req, other.req)
    ensures Right(t0, Turn(t, th).0, other)
  {
    NextIds(t0, t, m);
    var sid, seat := th.req.sid, th.req.seat;
    if th.pc == 0 && CanActivate(t.seats, seat, sid) {
      AgreeParts(t0, t, m);
      MemberIsOld(t0, t, m, sid, seat);
      SeatActivatedLeaves(t0, t, sid, seat, other);
    }
    if th.pc == 1 { ActivatedLeaves(t0, t, sid, other); }
    hide Inv, Agree, Activated, SeatActivated, Right;
  }

  lemma AgreeParts(t0: Tables, t: Tables, m: Marks)
    requires Agree(t0, t, m)
    ensures Base(t0, t) && MarksFit(t0, t, m) && Lists(t.sessions, t.seats, m) && IdsOk(t.sessions, t.nextId)
  {
  }

  lemma HintsLeave(t0: Tables, t: Tables, t': Tables, other: Thread)
    requires Right(t0, t, other) && HintsOnly(t.sessions, t'.sessions)
    requires t'.seats == t.seats && t'.nextId == t.nextId
    ensures Right(t0, t', other)
  {
    assert forall id :: id in t'.sessions <==> id in t.sessions;
  }

  lemma OneCallLeaves(t0: Tables, t: Tables, th: Thread, other: Thread)
    requires OneCall(th.req) && !th.over && Right(t0, t, other)
    ensures Right(t0, Turn(t, th).0, other)
  {
    var t' := Step(t, th.peer, th.req, th.os);
    if th.req.SetLinger? || th.req.TerminateUser? {
      HintsAreHints(t.sessions, 0, true);
    } else {
      HintStep(t, th.peer, th.req, th.os);
    }
    HintsLeave(t0, t, t', other);
    hide Right, Step, HintsOnly;
  }

  lemma AnyTurnLeaves(t0: Tables, t: Tables, m: Marks, th: Thread, other: Thread)
    requires Inv(t0) && Agree(t0, t, m) && !th.over && Right(t0, t, th) && Right(t0, t, other)
    requires Apart(t0, th.req, other.req) && NamesOld(t0, other.req)
    requires th.req.OpenSession? && other.req.OpenSession? && other.pc >= 1 && th.pc >= 1 && !other.over ==>
               other.sid != th.sid
    ensures Right(t0, Turn(t, th).0, other)
  {
    NextIds(t0, t, m);
    AgreeParts(t0, t, m);
    hide Inv, Agree, Right, Turn, Apart;
    match th.req
    case OpenSession(_, _) => OpenLeaves(t0, t, th, other);
    case CloseSession(_) => CloseLeaves(t0, t, th, other);
    case ActivateSession(_) => ActivateTurnLeaves(t0, t, m, th, other);
    case ActivateSessionOnSeat(_, _) => OnSeatTurnLeaves(t0, t, m, th, other);
    case _ => OneCallLeaves(t0, t, th, other);
  }

  // ------------------------------------------------------------------- the pool

  datatype Pool = Pool(t: Tables, ths: seq<Thread>)

  function PoolTurn(p: Pool, i: nat): Pool
    requires i < |p.ths|
  {
    var (t', th') := Turn(p.t, p.ths[i]);
    Pool(t', p.ths[i := th'])
  }

  /** Different opens have different sessions. */
  ghost predicate NewIds(t: Tables, ths: seq<Thread>) {
    && (forall i :: 0 <= i < |ths| && InOpen(ths[i]) ==> ths[i].sid < t.nextId)
    && (forall i, j :: 0 <= i < j < |ths| && InOpen(ths[i]) && InOpen(ths[j]) ==> ths[i].sid != ths[j].sid)
  }

  predicate InOpen(th: Thread) { th.req.OpenSession? && th.pc >= 1 && !th.over }

  ghost predicate Good(t0: Tables, p: Pool) {
    && Agree(t0, p.t, Total(p.ths))
    && (forall i :: 0 <= i < |p.ths| ==> Right(t0, p.t, p.ths[i]))
    && NewIds(p.t, p.ths)
    && Allowed(t0, p.ths)
  }

  /** No other open has this one's session on seat0. */
  lemma OwnAdding(t: Tables, ths: seq<Thread>, i: nat)
    requires NewIds(t, ths) && i < |ths| && InOpen(ths[i])
    ensures ths[i].sid !in Rest(ths, i).adding
  {
    var others := ths[..i] + ths[i + 1..];
    forall j | 0 <= j < |others| ensures ths[i].sid !in MarksOf(others[j]).adding {
      assert others[j] == ths[if j < i then j else j + 1];
    }
    if ths[i].sid in Rest(ths, i).adding { AddingIs(others, ths[i].sid); }
  }

  lemma IdsGrow(t: Tables, th: Thread)
    ensures Turn(t, th).0.nextId >= t.nextId
    ensures InOpen(Turn(t, th).1) ==>
              if InOpen(th) then Turn(t, th).1.sid == th.sid
              else Turn(t, th).1.sid == t.nextId < Turn(t, th).0.nextId || th.pc >= 1
    ensures Turn(t, th).1.req == th.req
  {
    hide Activated, SeatAdded, SeatRemoved, SeatActivated, LoggedIn, LoggedOut, LingerSet, Assigned,
        CanActivate, SeatOf;
  }

  lemma NewIdsKept(p: Pool, i: nat)
    requires NewIds(p.t, p.ths) && i < |p.ths| && !p.ths[i].over
    ensures NewIds(PoolTurn(p, i).t, PoolTurn(p, i).ths)
  {
    IdsGrow(p.t, p.ths[i]);
    hide Turn;
  }

  lemma AllowedKept(t0: Tables, p: Pool, i: nat)
    requires Allowed(t0, p.ths) && i < |p.ths|
    ensures Allowed(t0, PoolTurn(p, i).ths)
  {
    IdsGrow(p.t, p.ths[i]);
    hide Turn, Apart, NamesOld;
    var ths' := PoolTurn(p, i).ths;
    assert forall j :: 0 <= j < |ths'| ==> ths'[j].req == p.ths[j].req;
  }

  lemma PoolAdvances(t0: Tables, p: Pool, i: nat)
    requires Inv(t0) && Good(t0, p) && i < |p.ths|
    ensures Good(t0, PoolTurn(p, i))
  {
    var th := p.ths[i];
    if th.over {
      assert p.ths[i := th] == p.ths;
    } else {
      var r := Rest(p.ths, i);
      TotalSplits(p.ths, i);
      if InOpen(th) { OwnAdding(p.t, p.ths, i); }
      AnyTurnOk(t0, p.t, r, th);
      NewIdsKept(p, i);
      AllowedKept(t0, p, i);
      var p' := PoolTurn(p, i);
      TotalSplits(p'.ths, i);
      RestSame(p.ths, i, p'.ths[i]);
      hide Inv, Agree, Right, Turn, Apart, Joined, MarksOf, Total, Rest;
      forall j | 0 <= j < |p'.ths| ensures Right(t0, p'.t, p'.ths[j]) {
        if j != i { AnyTurnLeaves(t0, p.t, Total(p.ths), th, p.ths[j]); }
      }
    }
  }

  ghost predicate Begun(ths: seq<Thread>) {
    forall i :: 0 <= i < |ths| ==> ths[i] == Begin(ths[i].peer, ths[i].req, ths[i].os)
  }

  lemma {:induction false} NoMarksYet(ths: seq<Thread>)
    requires forall i :: 0 <= i < |ths| ==> MarksOf(ths[i]) == NO_MARKS
    ensures Total(ths) == NO_MARKS
  {
    if ths != [] {
      NoMarksYet(ths[..|ths| - 1]);
      assert MarksOf(ths[|ths| - 1]) == NO_MARKS;
    }
  }

  lemma PoolBegins(t0: Tables, ths: seq<Thread>)
    requires Inv(t0) && Begun(ths) && Allowed(t0, ths)
    ensures Good(t0, Pool(t0, ths))
  {
    AgreeAtStart(t0);
    NoMarksYet(ths);
    hide Inv, Agree, Apart;
  }

  /** Any schedule of turns. */
  ghost function PoolRun(t0: Tables, ths: seq<Thread>, order: seq<nat>): (p: Pool)
    requires Inv(t0) && Begun(ths) && Allowed(t0, ths) && forall n :: 0 <= n < |order| ==> order[n] < |ths|
    ensures |p.ths| == |ths| && Good(t0, p)
  {
    hide Inv, Good, Turn;
    if order == [] then
      PoolBegins(t0, ths);
      Pool(t0, ths)
    else
      var p := PoolRun(t0, ths, order[..|order| - 1]);
      PoolAdvances(t0, p, order[|order| - 1]);
      PoolTurn(p, order[|order| - 1])
  }

  /**
   Any number of overlapping requests, in any order of their calls: if no two activations are for one
   seat, no on-seat activation overlaps a close of its session, and closes and activations name ids
   issued before the start, then the tables agree when all are over.
   */
  lemma OverlapAgrees(t0: Tables, ths: seq<Thread>, order: seq<nat>)
    requires Inv(t0) && Begun(ths) && Allowed(t0, ths) && forall n :: 0 <= n < |order| ==> order[n] < |ths|
    requires forall i :: 0 <= i < |ths| ==> PoolRun(t0, ths, order).ths[i].over
    ensures Inv(PoolRun(t0, ths, order).t)
  {
    var p := PoolRun(t0, ths, order);
    hide Inv, Agree, PoolRun, Right;
    NoMarksYet(p.ths);
    AgreeAtEnd(t0, p.t);
  }
}
