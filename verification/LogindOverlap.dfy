/**
 Overlapping login requests (quantra-logind/src/control.rs): every client has its
 own thread, and `dispatch` gives up the locks between its calls.  `Turn` is one
 locked call of one request; an `order` says whose turn it is.  This module has
 the calls, and a session that is closed while it is opened: exactly which orders
 leave the tables in agreement.
 */
module LogindOverlap {
  import opened Optional
  import opened LogindTables

  /** A request under way: the next call, and what it has read so far. */
  datatype Thread = Thread(
    peer: Uid,
    req: Request,
    os: Os,
    pc: nat,
    over: bool,
    sid: Sid,
    uid: Option<Uid>,
    seat: Option<string>)

  function Begin(peer: Uid, req: Request, os: Os): Thread {
    Thread(peer, req, os, 0, false, 0, None, None)
  }

  function Next(th: Thread): Thread { th.(pc := th.pc + 1) }
  function Last(th: Thread): Thread { th.(pc := th.pc + 1, over := true) }

  function OpenTurn(t: Tables, th: Thread): (Tables, Thread)
    requires th.req.OpenSession?
  {
    if th.pc == 0 then
      if th.peer != 0 then (t, Last(th))
      else
        var sid := t.nextId;
        var s := NewSession(sid, th.req.uid, th.req.vt);
        (t.(sessions := t.sessions[sid := s], nextId := sid + 1), Next(th).(sid := sid))
    else if th.pc == 1 then
      match LoggedIn(t.users, th.req.uid, th.sid, th.os)
      case None => (t, Last(th))
      case Some(users) => (t.(users := users), Next(th))
    else if th.pc == 2 then (t.(seats := SeatAdded(t.seats, SEAT0, th.sid)), Next(th))
    else (t.(sessions := Assigned(t.sessions, th.sid, SEAT0)), Last(th))
  }

  function CloseTurn(t: Tables, th: Thread): (Tables, Thread)
    requires th.req.CloseSession?
  {
    var sid := th.req.sid;
    if th.pc == 0 then (t, Next(th).(uid := if sid in t.sessions then Some(t.sessions[sid].uid) else None))
    else if th.pc == 1 then
      if th.uid.None? || (th.peer != 0 && th.peer != th.uid.value) then (t, Last(th))
      else (t, Next(th).(seat := SeatOf(t.sessions, sid)))
    else if th.pc == 2 then
      (if th.seat.Some? then t.(seats := SeatRemoved(t.seats, th.seat.value, sid)) else t, Next(th))
    else if th.pc == 3 then
      if sid !in t.sessions then (t, Last(th)) else (t.(sessions := t.sessions - {sid}), Next(th))
    else if th.uid.None? then (t, Last(th))
    else (t.(users := LoggedOut(t.users, th.uid.value, sid)), Last(th))
  }

  function ActivateTurn(t: Tables, th: Thread): (Tables, Thread)
    requires th.req.ActivateSession?
  {
    var sid := th.req.sid;
    if th.pc == 0 then
      if sid !in t.sessions then (t, Last(th)) else (t.(sessions := Activated(t.sessions, sid)), Next(th))
    else if th.pc == 1 then
      var seat := SeatOf(t.sessions, sid);
      (t, if seat.None? then Last(th) else Next(th).(seat := seat))
    else (if th.seat.Some? then t.(seats := SeatActivated(t.seats, th.seat.value, sid)) else t, Last(th))
  }

  function OnSeatTurn(t: Tables, th: Thread): (Tables, Thread)
    requires th.req.ActivateSessionOnSeat?
  {
    var sid, seat := th.req.sid, th.req.seat;
    if th.pc == 0 then
      if !CanActivate(t.seats, seat, sid) then (t, Last(th))
      else (t.(seats := SeatActivated(t.seats, seat, sid)), Next(th))
    else (if sid in t.sessions then t.(sessions := Activated(t.sessions, sid)) else t, Last(th))
  }

  /** One locked call; a request that is over does nothing. */
  function Turn(t: Tables, th: Thread): (Tables, Thread) {
    if th.over then (t, th)
    else
      match th.req
      case OpenSession(_, _) => OpenTurn(t, th)
      case CloseSession(_) => CloseTurn(t, th)
      case ActivateSession(_) => ActivateTurn(t, th)
      case ActivateSessionOnSeat(_, _) => OnSeatTurn(t, th)
      case _ => (Step(t, th.peer, th.req, th.os), Last(th))
  }

  function Alone(t: Tables, th: Thread, n: nat): (Tables, Thread) {
    if n == 0 then (t, th) else var (t', th') := Alone(t, th, n - 1); Turn(t', th')
  }

  lemma FiveTurns(t: Tables, th: Thread)
    ensures var (t1, th1) := Turn(t, th);
            var (t2, th2) := Turn(t1, th1);
            var (t3, th3) := Turn(t2, th2);
            var (t4, th4) := Turn(t3, th3);
            Alone(t, th, 5) == Turn(t4, th4)
  {
    hide Turn;
    assert Alone(t, th, 1) == Turn(t, th);
    assert Alone(t, th, 3) == Turn(Alone(t, th, 2).0, Alone(t, th, 2).1);
  }

  /** Undisturbed, the calls of a request are over after five turns and come to one `Step`. */
  lemma AloneIsStep(t: Tables, peer: Uid, req: Request, os: Os)
    ensures var (t', th') := Alone(t, Begin(peer, req, os), 5);
            th'.over && t' == Step(t, peer, req, os)
  {
    hide Alone, SeatAdded, SeatRemoved, LoggedIn, LoggedOut, LingerSet, LockedAll;
    FiveTurns(t, Begin(peer, req, os));
  }

  /** Further turns of a request that is over change nothing. */
  lemma {:induction false} OverStays(t: Tables, th: Thread, m: nat, n: nat)
    requires m <= n && Alone(t, th, m).1.over
    ensures Alone(t, th, n) == Alone(t, th, m)
    decreases n
  {
    if m < n { OverStays(t, th, m, n - 1); }
  }

  lemma OverIsStep(t: Tables, peer: Uid, req: Request, os: Os, n: nat)
    requires Alone(t, Begin(peer, req, os), n).1.over
    ensures Alone(t, Begin(peer, req, os), n).0 == Step(t, peer, req, os)
  {
    hide Alone, Step;
    AloneIsStep(t, peer, req, os);
    var th := Begin(peer, req, os);
    if n <= 5 { OverStays(t, th, n, 5); } else { OverStays(t, th, 5, n); }
  }

  // --------------------------------------------------------------- two requests

  datatype Pair = Pair(t: Tables, a: Thread, b: Thread)

  function Advance(p: Pair, first: bool): Pair {
    if first then var (t', a') := Turn(p.t, p.a); Pair(t', a', p.b)
    else var (t', b') := Turn(p.t, p.b); Pair(t', p.a, b')
  }

  /** Two requests by turns: `true` is a turn of the first. */
  function Merged(t: Tables, a: Thread, b: Thread, order: seq<bool>): Pair {
    if order == [] then Pair(t, a, b)
    else Advance(Merged(t, a, b, order[..|order| - 1]), order[|order| - 1])
  }

  predicate Complete(p: Pair) { p.a.over && p.b.over }

  function Turns(order: seq<bool>, who: bool): nat {
    if order == [] then 0
    else Turns(order[..|order| - 1], who) + (if order[|order| - 1] == who then 1 else 0)
  }

  /** At some point the first has had i turns and the second fewer than j. */
  predicate Before(order: seq<bool>, i: nat, j: nat) {
    || (Turns(order, true) >= i && Turns(order, false) < j)
    || (order != [] && Before(order[..|order| - 1], i, j))
  }

  // ------------------------------------------------- a session opened and closed

  function Min(a: nat, b: nat): nat { if a <= b then a else b }

  ghost predicate OpenShape(t0: Tables, uid: Uid, vt: Option<nat>, os: Os, ok: bool, na: nat, a: Thread) {
    var calls := if ok then 4 else 2;
    && a.peer == 0 && a.req == OpenSession(uid, vt) && a.os == os
    && a.pc == Min(na, calls) && (a.over <==> na >= calls)
    && (na >= 1 ==> a.sid == t0.nextId)
  }

  ghost predicate CloseShape(sid: Sid, uid: Uid, peer: Uid, first: bool, nb: nat, b: Thread) {
    && b.peer == peer && b.req == CloseSession(sid)
    && b.pc == Min(nb, 5) && (b.over <==> nb >= 5)
    && (nb >= 1 ==> b.uid == Some(uid))
    && (nb >= 2 ==> b.seat == if first then Some(SEAT0) else None)
  }

  function SessionsAt(t0: Tables, uid: Uid, vt: Option<nat>, ok: bool, na: nat, nb: nat): SessionTable {
    var sid := t0.nextId;
    if na == 0 || nb >= 4 then t0.sessions
    else t0.sessions[sid := NewSession(sid, uid, vt).(seat := if ok && na >= 4 then Some(SEAT0) else None)]
  }

  function SeatsAt(t0: Tables, ok: bool, first: bool, na: nat, nb: nat): SeatTable {
    if !ok || na < 3 then t0.seats
    else
      var added := SeatAdded(t0.seats, SEAT0, t0.nextId);
      if first && nb >= 3 then SeatRemoved(added, SEAT0, t0.nextId) else added
  }

  /** The users after na calls of the open and nb of the close, unless the logout overtook the login. */
  ghost predicate UsersAt(t0: Tables, uid: Uid, os: Os, first: bool, na: nat, nb: nat, users: UserTable) {
    match LoggedIn(t0.users, uid, t0.nextId, os)
    case None => users == t0.users
    case Some(after) =>
      && (na < 2 ==> users == t0.users)
      && (na >= 2 && nb < 5 ==> users == after)
      && (first && nb >= 5 ==> users == LoggedOut(after, uid, t0.nextId))
  }

  /** Where the two requests stand after na and nb turns; `first`: the open was over before the close read the seat. */
  ghost predicate Shape(t0: Tables, uid: Uid, vt: Option<nat>, os: Os, peer: Uid, na: nat, nb: nat, first: bool,
      p: Pair) {
    var ok := LoggedIn(t0.users, uid, t0.nextId, os).Some?;
    && (nb >= 1 ==> na >= 1) && (first ==> na >= 4) && (nb < 2 ==> (first <==> na >= 4))
    && OpenShape(t0, uid, vt, os, ok, na, p.a)
    && CloseShape(t0.nextId, uid, peer, ok && first, nb, p.b)
    && p.t.nextId == t0.nextId + (if na == 0 then 0 else 1)
    && p.t.sessions == SessionsAt(t0, uid, vt, ok, na, nb)
    && p.t.seats == SeatsAt(t0, ok, first, na, nb)
    && UsersAt(t0, uid, os, first, na, nb, p.t.users)
  }

  predicate Denied(peer: Uid, uid: Uid) { peer != 0 && peer != uid }

  /** Logging out a session that no user lists changes nothing. */
  lemma LogoutUnlisted(t0: Tables, uid: Uid)
    requires Inv(t0)
    ensures LoggedOut(t0.users, uid, t0.nextId) == t0.users
  {
    assert t0.nextId !in t0.sessions;
    if uid in t0.users {
      var u := t0.users[uid];
      assert t0.nextId !in u.sessions;
      WithoutAbsent(u.sessions, t0.nextId);
      assert UserOk(u);
    }
  }

  lemma {:induction false} WithoutAbsent(s: seq<Sid>, sid: Sid)
    requires sid !in s
    ensures Without(s, sid) == s
  {
    if s != [] {
      assert s == [s[0]] + s[1..];
      WithoutAbsent(s[1..], sid);
    }
  }

  lemma OpenSessions(t0: Tables, uid: Uid, vt: Option<nat>, ok: bool, na: nat, nb: nat)
    requires Inv(t0)
    ensures SessionsAt(t0, uid, vt, ok, 0, nb) == t0.sessions
    ensures na == 0 && nb == 0 ==>
              SessionsAt(t0, uid, vt, ok, 1, nb) == t0.sessions[t0.nextId := NewSession(t0.nextId, uid, vt)]
    ensures na == 3 && ok ==>
              SessionsAt(t0, uid, vt, ok, 4, nb) == Assigned(SessionsAt(t0, uid, vt, ok, 3, nb), t0.nextId, SEAT0)
    ensures na != 0 && (na != 3 || !ok) ==>
        SessionsAt(t0, uid, vt, ok, na + 1, nb) == SessionsAt(t0, uid, vt, ok, na, nb)
  {
    assert t0.nextId !in t0.sessions;
  }

  lemma CloseSessions(t0: Tables, uid: Uid, vt: Option<nat>, ok: bool, na: nat, nb: nat)
    requires Inv(t0) && na >= 1
    ensures nb != 3 ==> SessionsAt(t0, uid, vt, ok, na, nb + 1) == SessionsAt(t0, uid, vt, ok, na, nb)
    ensures nb < 4 ==>
              var sessions := SessionsAt(t0, uid, vt, ok, na, nb);
              && t0.nextId in sessions && sessions[t0.nextId].uid == uid
              && SeatOf(sessions, t0.nextId) == if ok && na >= 4 then Some(SEAT0) else None
    ensures SessionsAt(t0, uid, vt, ok, na, 4) == SessionsAt(t0, uid, vt, ok, na, 3) - {t0.nextId}
  {
    assert t0.nextId !in t0.sessions;
  }

  lemma OpenAdvances(t0: Tables, uid: Uid, vt: Option<nat>, os: Os, peer: Uid, na: nat, nb: nat, first: bool, p: Pair)
    requires Inv(t0) && Shape(t0, uid, vt, os, peer, na, nb, first, p)
    ensures Shape(t0, uid, vt, os, peer, na + 1, nb, first || (na + 1 >= 4 && nb < 2), Advance(p, true))
  {
    hide SeatAdded, SeatRemoved, LoggedIn, LoggedOut, Inv, SessionsAt, Assigned, NewSession;
    OpenSessions(t0, uid, vt, LoggedIn(t0.users, uid, t0.nextId, os).Some?, na, nb);
  }

  lemma CloseAdvances(t0: Tables, uid: Uid, vt: Option<nat>, os: Os, peer: Uid, na: nat, nb: nat, first: bool, p: Pair)
    requires Inv(t0) && Shape(t0, uid, vt, os, peer, na, nb, first, p) && !Denied(peer, uid) && na >= 1
    ensures Shape(t0, uid, vt, os, peer, na, nb + 1, first || (na >= 4 && nb + 1 < 2), Advance(p, false))
  {
    hide SeatAdded, SeatRemoved, LoggedIn, LoggedOut, Inv, OpenShape, SessionsAt, SeatOf;
    LogoutUnlisted(t0, uid);
    CloseSessions(t0, uid, vt, LoggedIn(t0.users, uid, t0.nextId, os).Some?, na, nb);
  }

  ghost predicate OpenCloseShape(t0: Tables, uid: Uid, vt: Option<nat>, os: Os, peer: Uid, order: seq<bool>, p: Pair) {
    Shape(t0, uid, vt, os, peer, Turns(order, true), Turns(order, false), Before(order, 4, 2), p)
  }

  /** The open has its first call before the close does, so that the close finds the session. */
  lemma {:induction false} OpenCloseRun(t0: Tables, uid: Uid, vt: Option<nat>, os: Os, peer: Uid, os': Os,
      order: seq<bool>)
    requires Inv(t0) && !Denied(peer, uid)
    requires Turns(order, false) == 0 || Before(order, 1, 1)
    ensures OpenCloseShape(t0, uid, vt, os, peer, order,
              Merged(t0, Begin(0, OpenSession(uid, vt), os), Begin(peer, CloseSession(t0.nextId), os'), order))
    decreases |order|
  {
    hide Inv, LoggedIn, Advance;
    var a, b := Begin(0, OpenSession(uid, vt), os), Begin(peer, CloseSession(t0.nextId), os');
    if order != [] {
      var front := order[..|order| - 1];
      OpenCloseRun(t0, uid, vt, os, peer, os', front);
      var na, nb, first := Turns(front, true), Turns(front, false), Before(front, 4, 2);
      var p := Merged(t0, a, b, front);
      hide Shape, Merged;
      if order[|order| - 1] {
        OpenAdvances(t0, uid, vt, os, peer, na, nb, first, p);
      } else {
        BeforeMeansTurn(front, 1, 1);
        CloseAdvances(t0, uid, vt, os, peer, na, nb, first, p);
      }
    }
  }

  lemma {:induction false} BeforeMeansTurn(order: seq<bool>, i: nat, j: nat)
    requires Before(order, i, j)
    ensures Turns(order, true) >= i
  {
    if order != [] && Turns(order, true) < i { BeforeMeansTurn(order[..|order| - 1], i, j); }
  }

  /** While an open runs alone its session is missing or belongs to its user. */
  lemma {:induction false} OpenAlone(t0: Tables, uid: Uid, vt: Option<nat>, os: Os, n: nat)
    requires Inv(t0)
    ensures var (t, th) := Alone(t0, Begin(0, OpenSession(uid, vt), os), n);
            && th.req == OpenSession(uid, vt) && th.peer == 0
            && (n == 0 ==> t0.nextId !in t.sessions)
            && (n >= 1 ==> th.pc >= 1 && th.sid == t0.nextId)
            && (n >= 1 ==> t0.nextId in t.sessions && t.sessions[t0.nextId].uid == uid)
  {
    hide Inv, LoggedIn, SeatAdded;
    if n == 0 {
      FreshId(t0);
    } else {
      OpenAlone(t0, uid, vt, os, n - 1);
    }
  }

  lemma FreshId(t0: Tables)
    requires Inv(t0)
    ensures t0.nextId !in t0.sessions
  {
  }

  /** A close that finds no session or another user's stops there. */
  ghost predicate RefusedShape(sid: Sid, uid: Uid, peer: Uid, nb: nat, b: Thread) {
    && b.peer == peer && b.req == CloseSession(sid)
    && b.pc == Min(nb, 2) && (b.over <==> nb >= 2)
    && (nb >= 1 ==> b.uid.None? || (b.uid.value == uid && Denied(peer, uid)))
  }

  lemma RefusedTurn(sid: Sid, uid: Uid, peer: Uid, nb: nat, t: Tables, b: Thread)
    requires RefusedShape(sid, uid, peer, nb, b)
    requires nb == 0 && sid in t.sessions ==> t.sessions[sid].uid == uid && Denied(peer, uid)
    ensures Turn(t, b).0 == t && RefusedShape(sid, uid, peer, nb + 1, Turn(t, b).1)
  {
  }

  lemma {:induction false} RefusedRun(t0: Tables, uid: Uid, vt: Option<nat>, os: Os, peer: Uid, os': Os,
      order: seq<bool>)
    requires Inv(t0) && (Denied(peer, uid) || !Before(order, 1, 1))
    ensures var p := Merged(t0, Begin(0, OpenSession(uid, vt), os), Begin(peer, CloseSession(t0.nextId), os'), order);
            && (p.t, p.a) == Alone(t0, Begin(0, OpenSession(uid, vt), os), Turns(order, true))
            && RefusedShape(t0.nextId, uid, peer, Turns(order, false), p.b)
    decreases |order|
  {
    hide Inv, LoggedIn, Turn;
    if order != [] {
      var front := order[..|order| - 1];
      RefusedRun(t0, uid, vt, os, peer, os', front);
      OpenAlone(t0, uid, vt, os, Turns(front, true));
      var p := Merged(t0, Begin(0, OpenSession(uid, vt), os), Begin(peer, CloseSession(t0.nextId), os'), front);
      hide RefusedShape, Merged;
      if !order[|order| - 1] { RefusedTurn(t0.nextId, uid, peer, Turns(front, false), p.t, p.b); }
    }
  }

  /**
   A session closed while it is being opened: the tables agree afterwards exactly when the login
   failed, the close was refused, the close looked for the session before it existed, or the open
   was over when the close read the seat.
   */
  lemma OpenCloseExactly(t0: Tables, uid: Uid, vt: Option<nat>, os: Os, peer: Uid, os': Os, order: seq<bool>)
    requires Inv(t0)
    requires Complete(Merged(t0, Begin(0, OpenSession(uid, vt), os), Begin(peer, CloseSession(t0.nextId), os'), order))
    ensures Inv(Merged(t0, Begin(0, OpenSession(uid, vt), os), Begin(peer, CloseSession(t0.nextId), os'), order).t) <==>
            || LoggedIn(t0.users, uid, t0.nextId, os).None?
            || Denied(peer, uid)
            || !Before(order, 1, 1)
            || Before(order, 4, 2)
  {
    hide Merged, Inv, LoggedIn, Before;
    var p := Merged(t0, Begin(0, OpenSession(uid, vt), os), Begin(peer, CloseSession(t0.nextId), os'), order);
    if Denied(peer, uid) || !Before(order, 1, 1) {
      RefusedRun(t0, uid, vt, os, peer, os', order);
      OverIsStep(t0, 0, OpenSession(uid, vt), os, Turns(order, true));
      StepKeepsInv(t0, 0, OpenSession(uid, vt), os);
    } else {
      OpenCloseRun(t0, uid, vt, os, peer, os', order);
      OpenCloseEnd(t0, uid, vt, os, peer, Turns(order, true), Turns(order, false), Before(order, 4, 2), p);
    }
  }

  lemma OpenCloseEnd(t0: Tables, uid: Uid, vt: Option<nat>, os: Os, peer: Uid, na: nat, nb: nat, first: bool, p: Pair)
    requires Inv(t0) && Shape(t0, uid, vt, os, peer, na, nb, first, p) && Complete(p)
    ensures Inv(p.t) <==> LoggedIn(t0.users, uid, t0.nextId, os).None? || first
  {
    FreshId(t0);
    OneMoreId(t0);
    assert SEAT0 in t0.seats;
    hide Inv, SeatRemoved, LoggedIn, LoggedOut;
    var sid := t0.nextId;
    var users := LoggedIn(t0.users, uid, sid, os);
    if users.None? {
      assert p.t == t0.(nextId := sid + 1);
    } else if first {
      SequentialEnd(t0, uid, vt, os, p.t);
    } else {
      DeadOnSeat(p.t, sid);
    }
  }

  lemma DeadOnSeat(t: Tables, sid: Sid)
    requires SEAT0 in t.seats && sid in t.seats[SEAT0].sessions && sid !in t.sessions
    ensures !Inv(t)
  {
  }

  lemma OneMoreId(t: Tables)
    requires Inv(t)
    ensures Inv(t.(nextId := t.nextId + 1))
  {
  }

  lemma SequentialEnd(t0: Tables, uid: Uid, vt: Option<nat>, os: Os, t: Tables)
    requires Inv(t0) && LoggedIn(t0.users, uid, t0.nextId, os).Some?
    requires t == Tables(t0.sessions, t0.nextId + 1,
                    SeatRemoved(SeatAdded(t0.seats, SEAT0, t0.nextId), SEAT0, t0.nextId),
                    LoggedOut(LoggedIn(t0.users, uid, t0.nextId, os).value, uid, t0.nextId))
    ensures Inv(t)
  {
    hide Inv, SeatRemoved, SeatAdded, LoggedIn, LoggedOut, Opened, Closed;
    FreshId(t0);
    OpenedSession(t0, uid, vt, os);
    OpenKeepsInv(t0, uid, vt, os);
    CloseKeepsInv(Opened(t0, uid, vt, os), t0.nextId);
    ClosedAgain(t0, uid, vt, os);
  }

  lemma OpenedSession(t0: Tables, uid: Uid, vt: Option<nat>, os: Os)
    requires LoggedIn(t0.users, uid, t0.nextId, os).Some?
    ensures var sid := t0.nextId;
            Opened(t0, uid, vt, os) ==
                Tables(t0.sessions[sid := NewSession(sid, uid, vt).(seat := Some(SEAT0))], sid + 1,
              SeatAdded(t0.seats, SEAT0, sid), LoggedIn(t0.users, uid, sid, os).value)
    ensures t0.nextId in Opened(t0, uid, vt, os).sessions
  {
    hide SeatAdded, LoggedIn;
    var sid := t0.nextId;
    var s := NewSession(sid, uid, vt);
    assert t0.sessions[sid := s][sid := s.(seat := Some(SEAT0))] == t0.sessions[sid := s.(seat := Some(SEAT0))];
  }

  lemma ClosedAgain(t0: Tables, uid: Uid, vt: Option<nat>, os: Os)
    requires LoggedIn(t0.users, uid, t0.nextId, os).Some? && t0.nextId !in t0.sessions
    requires t0.nextId in Opened(t0, uid, vt, os).sessions
    ensures Closed(Opened(t0, uid, vt, os), t0.nextId) == Tables(t0.sessions, t0.nextId + 1,
              SeatRemoved(SeatAdded(t0.seats, SEAT0, t0.nextId), SEAT0, t0.nextId),
              LoggedOut(LoggedIn(t0.users, uid, t0.nextId, os).value, uid, t0.nextId))
  {
    hide SeatRemoved, SeatAdded, LoggedIn, LoggedOut, Opened;
    OpenedSession(t0, uid, vt, os);
    var sid := t0.nextId;
    var s := NewSession(sid, uid, vt).(seat := Some(SEAT0));
    assert t0.sessions[sid := s] - {sid} == t0.sessions;
  }

  /** The whole close runs between the last two calls of the open. */
  const IN_BETWEEN := [true, true, true, false, false, false, false, false, true]

  lemma InBetween()
    ensures Turns(IN_BETWEEN, true) == 4 && Turns(IN_BETWEEN, false) == 5
    ensures Before(IN_BETWEEN, 1, 1) && !Before(IN_BETWEEN, 4, 2)
  {
    var o1, o2, o3, o4 := [true], [true, true], [true, true, true], [true, true, true, false];
    var o5, o6 := [true, true, true, false, false], [true, true, true, false, false, false];
    var o7, o8 := [true, true, true, false, false, false, false], [true, true, true, false, false, false, false, false];
    assert o1[..0] == [] && o2[..1] == o1 && o3[..2] == o2 && o4[..3] == o3 && o5[..4] == o4;
    assert o6[..5] == o5 && o7[..6] == o6 && o8[..7] == o7 && IN_BETWEEN[..8] == o8;
    assert Turns(o3, true) == 3 && Turns(o3, false) == 0;
    assert Turns(o5, true) == 3 && Turns(o5, false) == 2;
    assert Turns(o8, true) == 3 && Turns(o8, false) == 5;
    if Before(o8, 4, 2) { BeforeMeansTurn(o8, 4, 2); }
    assert Before(o1, 1, 1);
    assert Before(o4, 1, 1) && Before(o7, 1, 1);
  }

  /** From any agreeing tables, that leaves a dead session on seat0. */
  lemma OverlapBreaksAgreement(t0: Tables, uid: Uid, vt: Option<nat>, os: Os)
    requires Inv(t0) && LoggedIn(t0.users, uid, t0.nextId, os).Some?
    ensures var p := Merged(t0, Begin(0, OpenSession(uid, vt), os), Begin(0, CloseSession(t0.nextId), os), IN_BETWEEN);
            && Complete(p) && !Inv(p.t)
            && SEAT0 in p.t.seats && t0.nextId in p.t.seats[SEAT0].sessions && t0.nextId !in p.t.sessions
  {
    InBetween();
    FreshId(t0);
    OpenCloseRun(t0, uid, vt, os, 0, os, IN_BETWEEN);
    hide Merged, Before, Turns, LoggedIn;
    OpenCloseExactly(t0, uid, vt, os, 0, os, IN_BETWEEN);
  }

  /** Session 2 of three is Active on seat0. */
  const THREE := Tables(
    map[1 := OnSeat0(1, SessionState.Online), 2 := OnSeat0(2, SessionState.Active),
        3 := OnSeat0(3, SessionState.Online)], 4,
    map[SEAT0 := Seat([1, 2, 3], Some(2))],
    map[7 := UserRecord(7, [1, 2, 3], false, UserState.Online)])

  function OnSeat0(id: Sid, state: SessionState): Session { Session(id, 7, Some(SEAT0), None, state, false, false) }

  lemma ThreeSessions(id: Sid)
    ensures id in THREE.sessions <==> 1 <= id <= 3
    ensures 1 <= id <= 3 ==>
              THREE.sessions[id] == OnSeat0(id, if id == 2 then SessionState.Active else SessionState.Online)
    ensures id in [1, 2, 3] <==> 1 <= id <= 3
  {
  }

  lemma ThreeListed()
    ensures SeatsOk(THREE.seats) && UsersOk(THREE.users) && IdsOk(THREE.sessions, THREE.nextId)
  {
  }

  lemma ThreeAgree()
    ensures Inv(THREE)
  {
    ThreeListed();
    forall id: Sid
      ensures id in THREE.sessions <==> 1 <= id <= 3
      ensures 1 <= id <= 3 ==>
                THREE.sessions[id] == OnSeat0(id, if id == 2 then SessionState.Active else SessionState.Online)
      ensures id in [1, 2, 3] <==> 1 <= id <= 3
    {
      ThreeSessions(id);
    }
    var sessions, seats, users := THREE.sessions, THREE.seats, THREE.users;
    assert seats == map[SEAT0 := Seat([1, 2, 3], Some(2))];
    assert users == map[7 := UserRecord(7, [1, 2, 3], false, UserState.Online)];
    hide SeatsOk, UsersOk, IdsOk;
    assert SeatsAgree(sessions, seats) && UsersLive(sessions, users);
    assert ActiveShown(sessions, seats) && OneActive(sessions);
  }
}
