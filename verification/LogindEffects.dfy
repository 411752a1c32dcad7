/**
 What every login request does and answers (quantra-logind/src/control.rs,
 session.rs, seat.rs, user.rs), field by field: which rows of which table change,
 to what, and that nothing else does.  Stated of the tables before and after
 alone, apart from the functions that compute them.
 */
module LogindEffects {
  import opened Optional
  import opened LogindTables

  // -------------------------------------------------------------- frame conditions

  /** Only the row of one key may differ. */
  ghost predicate OnlySession(a: SessionTable, b: SessionTable, id: Sid) {
    forall k :: k != id ==> (k in a <==> k in b) && (k in a ==> a[k] == b[k])
  }

  ghost predicate OnlySeat(a: SeatTable, b: SeatTable, seat: string) {
    forall k :: k != seat ==> (k in a <==> k in b) && (k in a ==> a[k] == b[k])
  }

  ghost predicate OnlyUser(a: UserTable, b: UserTable, uid: Uid) {
    forall k :: k != uid ==> (k in a <==> k in b) && (k in a ==> a[k] == b[k])
  }

  /** The list without the id, in the same order. */
  ghost predicate Dropped(before: seq<Sid>, after: seq<Sid>, id: Sid) {
    if id in before then exists i :: 0 <= i < |before| && before[i] == id && after == before[..i] + before[i + 1..]
    else after == before
  }

  // -------------------------------------------------------------------- sessions

  ghost predicate OpenOutcome(t: Tables, peer: Uid, uid: Uid, vt: Option<nat>, os: Os, t': Tables, ok: bool) {
    if peer != 0 then t' == t && !ok
    else
      var id := t.nextId;
      && t'.nextId == id + 1 && id in t'.sessions && OnlySession(t.sessions, t'.sessions, id)
      && var s := t'.sessions[id];
         && s.id == id && s.uid == uid && s.vt == vt && s.state == SessionState.Online && !s.idle && !s.locked
         && (ok <==> uid in t.users || os.runtimeDir)
         && if !ok then s.seat == None && t'.seats == t.seats && t'.users == t.users
            else s.seat == Some("seat0") && JoinsSeat(t, id, t') && JoinsUser(t, uid, id, t')
  }

  ghost predicate JoinsSeat(t: Tables, id: Sid, t': Tables) {
    && OnlySeat(t.seats, t'.seats, "seat0") && "seat0" in t.seats && "seat0" in t'.seats
    && t'.seats["seat0"].sessions == t.seats["seat0"].sessions + [id]
    && t'.seats["seat0"].active == if t.seats["seat0"].active.None? then Some(id) else t.seats["seat0"].active
  }

  ghost predicate JoinsUser(t: Tables, uid: Uid, id: Sid, t': Tables) {
    && OnlyUser(t.users, t'.users, uid) && uid in t'.users
    && var u := t'.users[uid];
       && u.uid == uid && u.state == UserState.Online
       && (uid in t.users ==> u.sessions == t.users[uid].sessions + [id] && u.linger == t.users[uid].linger)
       && (uid !in t.users ==> u.sessions == [id] && !u.linger)
  }

  ghost predicate CloseOutcome(t: Tables, peer: Uid, id: Sid, t': Tables, ok: bool) {
    && (ok <==> id in t.sessions && (peer == 0 || peer == t.sessions[id].uid))
    && if !ok then t' == t
       else
         && id !in t'.sessions && OnlySession(t.sessions, t'.sessions, id) && t'.nextId == t.nextId
         && LeavesSeat(t.seats, t.sessions[id].seat, id, t'.seats)
         && LeavesUser(t.users, t.sessions[id].uid, id, t'.users)
  }

  ghost predicate LeavesSeat(a: SeatTable, seat: Option<string>, id: Sid, b: SeatTable) {
    if seat.None? || seat.value !in a then b == a
    else OnlySeat(a, b, seat.value) && seat.value in b && LeavesOne(a[seat.value], id, b[seat.value])
  }

  /** If it was the active one, the first that is left takes over. */
  ghost predicate LeavesOne(before: Seat, id: Sid, after: Seat) {
    && Dropped(before.sessions, after.sessions, id)
    && (before.active != Some(id) ==> after.active == before.active)
    && (before.active == Some(id) && after.sessions == [] ==> after.active == None)
    && (before.active == Some(id) && after.sessions != [] ==> after.active == Some(after.sessions[0]))
  }

  ghost predicate LeavesUser(a: UserTable, uid: Uid, id: Sid, b: UserTable) {
    if uid !in a then b == a
    else OnlyUser(a, b, uid) && exists rest :: LeavesUserWith(a[uid], uid, id, rest, b)
  }

  /** The user without the session; with none left, the record stays for a lingerer only. */
  ghost predicate LeavesUserWith(u: UserRecord, uid: Uid, id: Sid, rest: seq<Sid>, b: UserTable) {
    && Dropped(u.sessions, rest, id)
    && (rest == [] && !u.linger ==> uid !in b)
    && (rest == [] && u.linger ==> uid in b && b[uid] == UserRecord(u.uid, [], true, UserState.Lingering))
    && (rest != [] ==> uid in b && b[uid] == UserRecord(u.uid, rest, u.linger, u.state))
  }

  /** The session is Active; the others Active on its seat value are Online. */
  ghost predicate Activates(t: Tables, id: Sid, t': Tables)
    requires id in t.sessions
  {
    && t'.nextId == t.nextId && t'.users == t.users
    && (forall k :: k in t.sessions <==> k in t'.sessions)
    && (forall k :: k in t.sessions && k in t'.sessions ==> Restated(t.sessions, id, k, t'.sessions[k]))
    && ShowsOnSeat(t, t.sessions[id].seat, id, t')
  }

  predicate Restated(sessions: SessionTable, id: Sid, k: Sid, after: Session)
    requires id in sessions && k in sessions
  {
    var before := sessions[k];
    && SameButState(before, after)
    && (k == id ==> after.state == SessionState.Active)
    && (k != id && before.state == SessionState.Active && before.seat == sessions[id].seat ==>
          after.state == SessionState.Online)
    && (k != id && !(before.state == SessionState.Active && before.seat == sessions[id].seat) ==>
          after.state == before.state)
  }

  predicate SameButState(a: Session, b: Session) {
    a.id == b.id && a.uid == b.uid && a.seat == b.seat && a.vt == b.vt && a.idle == b.idle && a.locked == b.locked
  }

  ghost predicate ShowsOnSeat(t: Tables, seat: Option<string>, id: Sid, t': Tables) {
    if seat.None? || seat.value !in t.seats then t'.seats == t.seats
    else
      && OnlySeat(t.seats, t'.seats, seat.value) && seat.value in t'.seats
      && t'.seats[seat.value].sessions == t.seats[seat.value].sessions && t'.seats[seat.value].active == Some(id)
  }

  // ----------------------------------------------------------------------- hints

  predicate SameButHints(a: Session, b: Session) {
    a.id == b.id && a.uid == b.uid && a.seat == b.seat && a.vt == b.vt && a.state == b.state
  }

  /** One session gets the two hints, nothing else changes. */
  ghost predicate Hints(t: Tables, id: Sid, locked: bool, idle: bool, t': Tables, ok: bool)
  {
    && (ok <==> id in t.sessions)
    && if !ok then t' == t
       else
         && t'.nextId == t.nextId && t'.seats == t.seats && t'.users == t.users
         && OnlySession(t.sessions, t'.sessions, id) && id in t'.sessions
         && SameButHints(t.sessions[id], t'.sessions[id])
         && t'.sessions[id].locked == locked && t'.sessions[id].idle == idle
  }

  function IdleOf(t: Tables, id: Sid): bool { id in t.sessions && t.sessions[id].idle }
  function LockedOf(t: Tables, id: Sid): bool { id in t.sessions && t.sessions[id].locked }

  ghost predicate LocksAll(t: Tables, locked: bool, t': Tables) {
    && t'.nextId == t.nextId && t'.seats == t.seats && t'.users == t.users
    && (forall k :: k in t.sessions <==> k in t'.sessions)
    && forall k :: k in t.sessions && k in t'.sessions ==>
         && SameButHints(t.sessions[k], t'.sessions[k])
         && t'.sessions[k].locked == locked && t'.sessions[k].idle == t.sessions[k].idle
  }

  // ----------------------------------------------------------------------- users

  ghost predicate LingerOutcome(t: Tables, peer: Uid, uid: Uid, enable: bool, os: Os, t': Tables, ok: bool) {
    && t'.sessions == t.sessions && t'.nextId == t.nextId && t'.seats == t.seats
    && OnlyUser(t.users, t'.users, uid)
    && (ok <==>
        && (peer == 0 || peer == uid) && os.lingerDir && (enable ==> os.lingerFile)
        && (uid !in t.users && enable && os.knownUser ==> os.runtimeDir))
    && if !ok then t' == t
       else if uid in t.users then
         var u := t.users[uid];
         if !enable && u.sessions == [] then uid !in t'.users
         else uid in t'.users && t'.users[uid] == UserRecord(u.uid, u.sessions, enable, u.state)
       else if enable && os.knownUser then
         uid in t'.users && t'.users[uid] == UserRecord(uid, [], true, UserState.Lingering)
       else uid !in t'.users
  }

  ghost predicate TerminateOutcome(t: Tables, peer: Uid, uid: Uid, t': Tables, ok: bool) {
    && (ok <==> peer == 0)
    && if !ok then t' == t
       else
         && t'.sessions == t.sessions && t'.nextId == t.nextId && t'.seats == t.seats
         && OnlyUser(t.users, t'.users, uid) && uid !in t'.users
  }

  // ------------------------------------------------------------------ any request

  ghost predicate Outcome(t: Tables, peer: Uid, req: Request, os: Os, t': Tables, ok: bool) {
    match req
    case OpenSession(uid, vt) => OpenOutcome(t, peer, uid, vt, os, t', ok)
    case CloseSession(sid) => CloseOutcome(t, peer, sid, t', ok)
    case ActivateSession(sid) => (ok <==> sid in t.sessions) && if ok then Activates(t, sid, t') else t' == t
    case ActivateSessionOnSeat(sid, seat) =>
      && (ok <==> seat in t.seats && sid in t.seats[seat].sessions)
      && if ok then sid in t.sessions && t.sessions[sid].seat == Some(seat) && Activates(t, sid, t') else t' == t
    case LockSession(sid) => Hints(t, sid, true, IdleOf(t, sid), t', ok)
    case UnlockSession(sid) => Hints(t, sid, false, IdleOf(t, sid), t', ok)
    case LockSessions => ok && LocksAll(t, true, t')
    case UnlockSessions => ok && LocksAll(t, false, t')
    case SetIdleHint(sid, idle) => Hints(t, sid, LockedOf(t, sid), idle, t', ok)
    case SetLockedHint(sid, locked) => Hints(t, sid, locked, IdleOf(t, sid), t', ok)
    case SetLinger(uid, enable) => LingerOutcome(t, peer, uid, enable, os, t', ok)
    case TerminateUser(uid) => TerminateOutcome(t, peer, uid, t', ok)
    case ListSessions => ok && t' == t
    case GetSession(sid) => (ok <==> sid in t.sessions) && t' == t
    case ListUsers => (ok <==> peer == 0) && t' == t
    case GetUser(uid) => (ok <==> (peer == 0 || peer == uid) && uid in t.users) && t' == t
    case ListSeats => ok && t' == t
    case GetSeat(seat) => (ok <==> seat in t.seats) && t' == t
    case Outside => (ok <==> os.outside) && t' == t
  }

  // -------------------------------------------------------------------- the proof

  lemma DropLater(x: Sid, s: seq<Sid>, rest: seq<Sid>, id: Sid)
    requires x != id && Dropped(s, rest, id)
    ensures Dropped([x] + s, [x] + rest, id)
  {
    var t := [x] + s;
    if id in s {
      var i :| 0 <= i < |s| && s[i] == id && rest == s[..i] + s[i + 1..];
      assert t[i + 1] == id;
      assert t[..i + 1] == [x] + s[..i];
      assert t[i + 2..] == s[i + 1..];
      assert [x] + (s[..i] + s[i + 1..]) == ([x] + s[..i]) + s[i + 1..];
      var k := i + 1;
      assert 0 <= k < |t| && t[k] == id && [x] + rest == t[..k] + t[k + 1..];
    }
  }

  lemma DropFirst(id: Sid, s: seq<Sid>)
    ensures Dropped([id] + s, s, id)
  {
    var t := [id] + s;
    assert t[0] == id && t[..0] + t[0 + 1..] == s;
  }

  lemma {:induction false} WithoutDrops(s: seq<Sid>, id: Sid)
    requires forall i, j :: 0 <= i < j < |s| ==> s[i] != s[j]
    ensures Dropped(s, Without(s, id), id)
  {
    if s != [] {
      assert s == [s[0]] + s[1..];
      WithoutDrops(s[1..], id);
      if s[0] == id {
        assert id !in s[1..];
        DropFirst(id, s[1..]);
      } else {
        DropLater(s[0], s[1..], Without(s[1..], id), id);
      }
      hide Dropped;
    }
  }

  lemma JoinsSeatProof(t: Tables, id: Sid, t': Tables)
    requires SEAT0 in t.seats && id !in t.seats[SEAT0].sessions && t'.seats == SeatAdded(t.seats, SEAT0, id)
    ensures JoinsSeat(t, id, t')
  {
  }

  lemma JoinsUserProof(t: Tables, uid: Uid, id: Sid, os: Os, t': Tables)
    requires uid in t.users ==> id !in t.users[uid].sessions && t.users[uid].uid == uid
    requires LoggedIn(t.users, uid, id, os).Some? && t'.users == LoggedIn(t.users, uid, id, os).value
    ensures JoinsUser(t, uid, id, t')
  {
  }

  lemma LoginWhen(t: Tables, uid: Uid, id: Sid, os: Os)
    ensures LoggedIn(t.users, uid, id, os).Some? <==> uid in t.users || os.runtimeDir
  {
  }

  lemma FreshEverywhere(t: Tables, uid: Uid)
    requires Inv(t)
    ensures t.nextId !in t.sessions && SEAT0 in t.seats && t.nextId !in t.seats[SEAT0].sessions
    ensures uid in t.users ==> t.nextId !in t.users[uid].sessions && t.users[uid].uid == uid
  {
  }

  lemma OpenHasOutcome(t: Tables, peer: Uid, uid: Uid, vt: Option<nat>, os: Os)
    requires Inv(t)
    ensures OpenOutcome(t, peer, uid, vt, os, Step(t, peer, OpenSession(uid, vt), os),
              Accepted(t, peer, OpenSession(uid, vt), os))
  {
    hide Inv, SeatAdded, LoggedIn, JoinsSeat, JoinsUser;
    var id := t.nextId;
    var t' := Step(t, peer, OpenSession(uid, vt), os);
    FreshEverywhere(t, uid);
    LoginWhen(t, uid, id, os);
    if peer == 0 && LoggedIn(t.users, uid, id, os).Some? {
      JoinsSeatProof(t, id, t');
      JoinsUserProof(t, uid, id, os, t');
    }
  }

  lemma CloseHasOutcome(t: Tables, peer: Uid, sid: Sid, os: Os)
    requires Inv(t)
    ensures CloseOutcome(t, peer, sid, Step(t, peer, CloseSession(sid), os), Accepted(t, peer, CloseSession(sid), os))
  {
    if sid in t.sessions && (peer == 0 || peer == t.sessions[sid].uid) {
      hide SeatRemoved, LoggedOut, LeavesSeat, LeavesUser, Inv;
      LeavesSeatProof(t, t.sessions[sid].seat, sid);
      LeavesUserProof(t, t.sessions[sid].uid, sid);
    }
  }

  lemma LeavesOneProof(s: Seat, sid: Sid)
    requires forall i, j :: 0 <= i < j < |s.sessions| ==> s.sessions[i] != s.sessions[j]
    ensures var rest := Without(s.sessions, sid);
            LeavesOne(s, sid, Seat(rest, if s.active == Some(sid) then First(rest) else s.active))
  {
    WithoutDrops(s.sessions, sid);
    hide Dropped, Without;
  }

  lemma LeavesSeatProof(t: Tables, seat: Option<string>, sid: Sid)
    requires Inv(t)
    ensures LeavesSeat(t.seats, seat, sid, if seat.Some? then SeatRemoved(t.seats, seat.value, sid) else t.seats)
  {
    hide LeavesOne, Inv, OnlySeat;
    if seat.Some? && seat.value in t.seats {
      SeatList(t, seat.value);
      LeavesOneProof(t.seats[seat.value], sid);
      SeatRow(t.seats, seat.value, sid);
      hide SeatRemoved, Without, First;
    }
  }

  lemma SeatRow(seats: SeatTable, seat: string, sid: Sid)
    requires seat in seats
    ensures OnlySeat(seats, SeatRemoved(seats, seat, sid), seat) && seat in SeatRemoved(seats, seat, sid)
    ensures var s := seats[seat];
            var rest := Without(s.sessions, sid);
            SeatRemoved(seats, seat, sid)[seat] == Seat(rest, if s.active == Some(sid) then First(rest) else s.active)
  {
    hide Without, First;
  }

  lemma SeatList(t: Tables, seat: string)
    requires Inv(t) && seat in t.seats
    ensures var s := t.seats[seat].sessions; forall i, j :: 0 <= i < j < |s| ==> s[i] != s[j]
  {
    assert SeatOk(t.seats[seat]);
  }

  lemma UserList(t: Tables, uid: Uid)
    requires Inv(t) && uid in t.users
    ensures var s := t.users[uid].sessions; forall i, j :: 0 <= i < j < |s| ==> s[i] != s[j]
  {
    assert UserOk(t.users[uid]);
  }

  lemma LeavesUserProof(t: Tables, uid: Uid, sid: Sid)
    requires Inv(t)
    ensures LeavesUser(t.users, uid, sid, LoggedOut(t.users, uid, sid))
  {
    if uid in t.users {
      UserList(t, uid);
      hide Dropped, Without, Inv;
      var rest := Without(t.users[uid].sessions, sid);
      WithoutDrops(t.users[uid].sessions, sid);
      assert LeavesUserWith(t.users[uid], uid, sid, rest, LoggedOut(t.users, uid, sid));
    }
  }

  lemma RestatedProof(sessions: SessionTable, id: Sid, k: Sid)
    requires id in sessions && k in sessions && sessions[k].id == k
    ensures Restated(sessions, id, k, Activated(sessions, id)[k])
  {
  }

  lemma ShowsProof(t: Tables, id: Sid)
    requires Inv(t) && id in t.sessions
    ensures ShowsOnSeat(t, t.sessions[id].seat, id, ActivatedBoth(t, id))
  {
    if t.sessions[id].seat.Some? { SeatAcceptsItsSessions(t, id); }
    hide Inv, Activated;
  }

  lemma ActivateHasOutcome(t: Tables, sid: Sid)
    requires Inv(t) && sid in t.sessions
    ensures Activates(t, sid, ActivatedBoth(t, sid))
  {
    ShowsProof(t, sid);
    forall k | k in t.sessions ensures Restated(t.sessions, sid, k, Activated(t.sessions, sid)[k]) {
      RestatedProof(t.sessions, sid, k);
    }
    hide Inv, Restated, ShowsOnSeat, SeatActivated;
  }

  lemma HintsHaveOutcome(t: Tables, peer: Uid, req: Request, os: Os)
    requires req.LockSession? || req.UnlockSession? || req.SetIdleHint? || req.SetLockedHint?
    ensures Outcome(t, peer, req, os, Step(t, peer, req, os), Accepted(t, peer, req, os))
  {
  }

  lemma LockAllHasOutcome(t: Tables, peer: Uid, req: Request, os: Os)
    requires req.LockSessions? || req.UnlockSessions?
    ensures Outcome(t, peer, req, os, Step(t, peer, req, os), Accepted(t, peer, req, os))
  {
  }

  lemma UsersHaveOutcome(t: Tables, peer: Uid, req: Request, os: Os)
    requires req.SetLinger? || req.TerminateUser?
    ensures Outcome(t, peer, req, os, Step(t, peer, req, os), Accepted(t, peer, req, os))
  {
  }

  lemma OnSeatHasOutcome(t: Tables, peer: Uid, sid: Sid, seat: string, os: Os)
    requires Inv(t)
    ensures Outcome(t, peer, ActivateSessionOnSeat(sid, seat), os,
              Step(t, peer, ActivateSessionOnSeat(sid, seat), os),
              Accepted(t, peer, ActivateSessionOnSeat(sid, seat), os))
  {
    hide Activates, Inv, ActivatedBoth;
    if CanActivate(t.seats, seat, sid) {
      SeatMembersAreLive(t, sid, seat);
      ActivateHasOutcome(t, sid);
    }
  }

  /** In agreeing tables every request has its stated outcome. */
  lemma StepHasOutcome(t: Tables, peer: Uid, req: Request, os: Os)
    requires Inv(t)
    ensures Outcome(t, peer, req, os, Step(t, peer, req, os), Accepted(t, peer, req, os))
  {
    hide Inv, OpenOutcome, CloseOutcome, Activates, ActivatedBoth, Opened, Closed;
    match req
    case OpenSession(uid, vt) => OpenHasOutcome(t, peer, uid, vt, os);
    case CloseSession(sid) => CloseHasOutcome(t, peer, sid, os);
    case ActivateSession(sid) => if sid in t.sessions { ActivateHasOutcome(t, sid); }
    case ActivateSessionOnSeat(sid, seat) => OnSeatHasOutcome(t, peer, sid, seat, os);
    case LockSession(_) => HintsHaveOutcome(t, peer, req, os);
    case UnlockSession(_) => HintsHaveOutcome(t, peer, req, os);
    case SetIdleHint(_, _) => HintsHaveOutcome(t, peer, req, os);
    case SetLockedHint(_, _) => HintsHaveOutcome(t, peer, req, os);
    case LockSessions => LockAllHasOutcome(t, peer, req, os);
    case UnlockSessions => LockAllHasOutcome(t, peer, req, os);
    case SetLinger(_, _) => UsersHaveOutcome(t, peer, req, os);
    case TerminateUser(_) => UsersHaveOutcome(t, peer, req, os);
    case _ =>
  }
}
