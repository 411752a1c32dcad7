/**
 The three tables of the login manager (quantra-logind/src/session.rs, seat.rs,
 user.rs) as values, with one function per locked call, and `Step`, which strings
 the calls of one request together as `dispatch` does (control.rs).  The classes
 that hold the tables are in LogindManagers.

 OS work is a set of outcomes (`Os`) that a request meets; calls the source makes
 infallible have no outcome here.
 */
module LogindTables {
  import opened Optional
  import opened Sequences

  type Sid = nat
  type Uid = nat

  datatype SessionState = Opening | Active | Online | Closing

  /** The fields that some request reads or writes; the rest is fixed when the session opens. */
  datatype Session = Session(
    id: Sid,
    uid: Uid,
    seat: Option<string>,
    vt: Option<nat>,
    state: SessionState,
    idle: bool,
    locked: bool)

  datatype Seat = Seat(sessions: seq<Sid>, active: Option<Sid>)

  datatype UserState = Offline | Lingering | Online | Active | Closing

  datatype UserRecord = UserRecord(uid: Uid, sessions: seq<Sid>, linger: bool, state: UserState)

  type SessionTable = map<Sid, Session>
  type SeatTable = map<string, Seat>
  type UserTable = map<Uid, UserRecord>

  datatype Tables = Tables(sessions: SessionTable, nextId: Sid, seats: SeatTable, users: UserTable)

  /**
   Whether the runtime directory, the linger directory and the linger file can be written, whether
   the uid has a name, and whether work outside the tables succeeds.
   */
  datatype Os = Os(runtimeDir: bool, lingerDir: bool, lingerFile: bool, knownUser: bool, outside: bool)

  // ------------------------------------------------------------ lists of ids

  /** `retain(|s| s != sid)`. */
  function Without(s: seq<Sid>, sid: Sid): (r: seq<Sid>)
    ensures forall x :: x in r <==> x in s && x != sid
    ensures Distinct(s) ==> Distinct(r)
  {
    if s == [] then []
    else
      var rest := Without(s[1..], sid);
      assert s == [s[0]] + s[1..];
      assert Distinct(s) ==> s[0] !in s[1..];
      if s[0] == sid then rest else [s[0]] + rest
  }

  /** Push unless present. */
  function With(s: seq<Sid>, sid: Sid): (r: seq<Sid>)
    ensures forall x :: x in r <==> x in s || x == sid
    ensures Distinct(s) ==> Distinct(r)
    ensures r != []
  {
    if sid in s then s else s + [sid]
  }

  // ---------------------------------------------------------------- sessions

  function NewSession(id: Sid, uid: Uid, vt: Option<nat>): Session {
    Session(id, uid, None, vt, SessionState.Online, false, false)
  }

  function SeatOf(sessions: SessionTable, id: Sid): Option<string> {
    if id in sessions then sessions[id].seat else None
  }

  predicate Displaced(s: Session, id: Sid, seat: Option<string>) {
    s.state == SessionState.Active && s.seat == seat && s.id != id
  }

  /** `activate` of a live session: everyone else on the same seat value goes Online. */
  function Activated(sessions: SessionTable, id: Sid): SessionTable
    requires id in sessions
  {
    map k | k in sessions ::
      if k == id then sessions[k].(state := SessionState.Active)
      else if Displaced(sessions[k], id, sessions[id].seat) then sessions[k].(state := SessionState.Online)
      else sessions[k]
  }

  function Assigned(sessions: SessionTable, id: Sid, seat: string): SessionTable {
    if id in sessions then sessions[id := sessions[id].(seat := Some(seat))] else sessions
  }

  function LockedOne(sessions: SessionTable, id: Sid, locked: bool): SessionTable {
    if id in sessions then sessions[id := sessions[id].(locked := locked)] else sessions
  }

  function Hinted(sessions: SessionTable, id: Sid, idle: bool): SessionTable {
    if id in sessions then sessions[id := sessions[id].(idle := idle)] else sessions
  }

  function LockedAll(sessions: SessionTable, locked: bool): SessionTable {
    map k | k in sessions :: sessions[k].(locked := locked)
  }

  // ------------------------------------------------------------------- seats

  function SeatAdded(seats: SeatTable, seat: string, sid: Sid): SeatTable {
    if seat !in seats then seats
    else
      var s := seats[seat];
      seats[seat := Seat(With(s.sessions, sid), if s.active.None? then Some(sid) else s.active)]
  }

  function First(s: seq<Sid>): Option<Sid> { if s == [] then None else Some(s[0]) }

  function SeatRemoved(seats: SeatTable, seat: string, sid: Sid): SeatTable {
    if seat !in seats then seats
    else
      var s := seats[seat];
      var rest := Without(s.sessions, sid);
      seats[seat := Seat(rest, if s.active == Some(sid) then First(rest) else s.active)]
  }

  predicate CanActivate(seats: SeatTable, seat: string, sid: Sid) {
    seat in seats && sid in seats[seat].sessions
  }

  function SeatActivated(seats: SeatTable, seat: string, sid: Sid): SeatTable {
    if CanActivate(seats, seat, sid) then seats[seat := seats[seat].(active := Some(sid))] else seats
  }

  // ------------------------------------------------------------------- users

  /** `login`; None when the runtime directory cannot be made, and then nothing changes. */
  function LoggedIn(users: UserTable, uid: Uid, sid: Sid, os: Os): Option<UserTable> {
    if uid in users then
      var u := users[uid];
      Some(users[uid := u.(sessions := With(u.sessions, sid), state := UserState.Online)])
    else if !os.runtimeDir then None
    else Some(users[uid := UserRecord(uid, [sid], false, UserState.Online)])
  }

  function LoggedOut(users: UserTable, uid: Uid, sid: Sid): UserTable {
    if uid !in users then users
    else
      var u := users[uid];
      var rest := Without(u.sessions, sid);
      if rest != [] then users[uid := u.(sessions := rest)]
      else if u.linger then users[uid := u.(sessions := rest, state := UserState.Lingering)]
      else users - {uid}
  }

  function LingerSet(users: UserTable, uid: Uid, enable: bool, os: Os): Option<UserTable> {
    if !os.lingerDir || (enable && !os.lingerFile) then None
    else if uid in users then
      if !enable && users[uid].sessions == [] then Some(users - {uid})
      else Some(users[uid := users[uid].(linger := enable)])
    else if enable && os.knownUser then
      if os.runtimeDir then Some(users[uid := UserRecord(uid, [], true, UserState.Lingering)]) else None
    else Some(users)
  }

  function Terminated(users: UserTable, uid: Uid): UserTable { users - {uid} }

  // ---------------------------------------------------------------- requests

  datatype Request =
    | OpenSession(uid: Uid, vt: Option<nat>)
    | CloseSession(sid: Sid)
    | ActivateSession(sid: Sid)
    | ActivateSessionOnSeat(sid: Sid, seat: string)
    | LockSession(sid: Sid)
    | UnlockSession(sid: Sid)
    | LockSessions
    | UnlockSessions
    | SetIdleHint(sid: Sid, idle: bool)
    | SetLockedHint(sid: Sid, locked: bool)
    | SetLinger(uid: Uid, enable: bool)
    | TerminateUser(uid: Uid)
    | ListSessions
    | GetSession(sid: Sid)
    | ListUsers
    | GetUser(uid: Uid)
    | ListSeats
    | GetSeat(seat: string)
    | Outside                        // devices, inhibitors, power, process lookup: the tables stay

  const SEAT0 := "seat0"

  function Opened(t: Tables, uid: Uid, vt: Option<nat>, os: Os): Tables {
    var sid := t.nextId;
    var t1 := t.(sessions := t.sessions[sid := NewSession(sid, uid, vt)], nextId := sid + 1);
    match LoggedIn(t1.users, uid, sid, os)
    case None => t1                  // the session stays open, without a seat
    case Some(users) =>
      t1.(users := users, seats := SeatAdded(t1.seats, SEAT0, sid), sessions := Assigned(t1.sessions, sid, SEAT0))
  }

  function Closed(t: Tables, sid: Sid): Tables
    requires sid in t.sessions
  {
    var s := t.sessions[sid];
    t.(seats := if s.seat.Some? then SeatRemoved(t.seats, s.seat.value, sid) else t.seats,
       sessions := t.sessions - {sid},
       users := LoggedOut(t.users, s.uid, sid))
  }

  function ActivatedBoth(t: Tables, sid: Sid): Tables
    requires sid in t.sessions
  {
    var seat := t.sessions[sid].seat;
    t.(sessions := Activated(t.sessions, sid),
       seats := if seat.Some? then SeatActivated(t.seats, seat.value, sid) else t.seats)
  }

  /** The tables after one request by a peer; an error reply may still leave changes. */
  function Step(t: Tables, peer: Uid, req: Request, os: Os): Tables {
    match req
    case OpenSession(uid, vt) => if peer != 0 then t else Opened(t, uid, vt, os)
    case CloseSession(sid) =>
      if sid !in t.sessions || (peer != 0 && peer != t.sessions[sid].uid) then t else Closed(t, sid)
    case ActivateSession(sid) => if sid !in t.sessions then t else ActivatedBoth(t, sid)
    case ActivateSessionOnSeat(sid, seat) =>
      if !CanActivate(t.seats, seat, sid) then t
      else t.(seats := SeatActivated(t.seats, seat, sid),
              sessions := if sid in t.sessions then Activated(t.sessions, sid) else t.sessions)
    case LockSession(sid) => t.(sessions := LockedOne(t.sessions, sid, true))
    case UnlockSession(sid) => t.(sessions := LockedOne(t.sessions, sid, false))
    case LockSessions => t.(sessions := LockedAll(t.sessions, true))
    case UnlockSessions => t.(sessions := LockedAll(t.sessions, false))
    case SetIdleHint(sid, idle) => t.(sessions := Hinted(t.sessions, sid, idle))
    case SetLockedHint(sid, locked) => t.(sessions := LockedOne(t.sessions, sid, locked))
    case SetLinger(uid, enable) =>
      if peer != 0 && peer != uid then t
      else
        var users := LingerSet(t.users, uid, enable, os);
        if users.None? then t else t.(users := users.value)
    case TerminateUser(uid) => if peer != 0 then t else t.(users := Terminated(t.users, uid))
    case ListSessions => t
    case GetSession(_) => t
    case ListUsers => t
    case GetUser(_) => t
    case ListSeats => t
    case GetSeat(_) => t
    case Outside => t
  }

  /** Whether the reply to a request is a success. */
  predicate Accepted(t: Tables, peer: Uid, req: Request, os: Os) {
    match req
    case OpenSession(uid, vt) => peer == 0 && LoggedIn(t.users, uid, t.nextId, os).Some?
    case CloseSession(sid) => sid in t.sessions && (peer == 0 || peer == t.sessions[sid].uid)
    case ActivateSession(sid) => sid in t.sessions
    case ActivateSessionOnSeat(sid, seat) => CanActivate(t.seats, seat, sid)
    case LockSession(sid) => sid in t.sessions
    case UnlockSession(sid) => sid in t.sessions
    case SetIdleHint(sid, _) => sid in t.sessions
    case SetLockedHint(sid, _) => sid in t.sessions
    case SetLinger(uid, enable) => (peer == 0 || peer == uid) && LingerSet(t.users, uid, enable, os).Some?
    case TerminateUser(uid) => peer == 0
    case LockSessions => true
    case UnlockSessions => true
    case ListSessions => true
    case GetSession(sid) => sid in t.sessions
    case ListUsers => peer == 0
    case GetUser(uid) => (peer == 0 || peer == uid) && uid in t.users
    case ListSeats => true
    case GetSeat(seat) => seat in t.seats
    case Outside => os.outside
  }

  /** Start-up: `detect` has made seat0; persisted lingerers are replayed as SetLinger requests. */
  const START := Tables(map[], 1, map[SEAT0 := Seat([], None)], map[])

  datatype Call = Call(peer: Uid, req: Request, os: Os)

  function Run(t: Tables, calls: seq<Call>): Tables
    decreases |calls|
  {
    if calls == [] then t else Run(Step(t, calls[0].peer, calls[0].req, calls[0].os), calls[1..])
  }

  // -------------------------------------------------------------- invariants

  predicate SeatOk(s: Seat) {
    && Distinct(s.sessions)
    && (s.active.Some? <==> s.sessions != [])
    && (s.active.Some? ==> s.active.value in s.sessions)
  }

  /** Holds at the grain of one locked call, whatever the interleaving. */
  predicate SeatsOk(seats: SeatTable) { forall k :: k in seats ==> SeatOk(seats[k]) }

  predicate UserOk(u: UserRecord) {
    && Distinct(u.sessions)
    && (u.sessions == [] ==> u.linger)
    && u.state == (if u.sessions != [] then UserState.Online else UserState.Lingering)
  }

  predicate UsersOk(users: UserTable) { forall k :: k in users ==> users[k].uid == k && UserOk(users[k]) }

  predicate IdsOk(sessions: SessionTable, nextId: Sid) {
    forall id :: id in sessions ==> sessions[id].id == id && id < nextId
  }

  /** A session is in a seat's list exactly when it is live and names that seat. */
  ghost predicate SeatsAgree(sessions: SessionTable, seats: SeatTable) {
    && (forall k, id :: k in seats ==> (id in seats[k].sessions <==> id in sessions && sessions[id].seat == Some(k)))
    && (forall id :: id in sessions && sessions[id].seat.Some? ==> sessions[id].seat.value in seats)
  }

  predicate IsActive(sessions: SessionTable, id: Sid) {
    id in sessions && sessions[id].state == SessionState.Active
  }

  /** An Active session on a seat is the one the seat shows. */
  ghost predicate ActiveShown(sessions: SessionTable, seats: SeatTable) {
    forall id :: IsActive(sessions, id) && sessions[id].seat.Some? && sessions[id].seat.value in seats ==>
      seats[sessions[id].seat.value].active == Some(id)
  }

  /** No seat value, not even the missing seat, has two Active sessions. */
  ghost predicate OneActive(sessions: SessionTable) {
    forall a, b :: IsActive(sessions, a) && IsActive(sessions, b) && sessions[a].seat == sessions[b].seat ==> a == b
  }

  /** Every id in a user's list is a live session of that user. */
  ghost predicate UsersLive(sessions: SessionTable, users: UserTable) {
    forall u, id :: u in users && id in users[u].sessions ==> id in sessions && sessions[id].uid == u
  }

  ghost predicate Inv(t: Tables) {
    && SeatsOk(t.seats) && UsersOk(t.users) && IdsOk(t.sessions, t.nextId)
    && SeatsAgree(t.sessions, t.seats) && ActiveShown(t.sessions, t.seats) && OneActive(t.sessions)
    && UsersLive(t.sessions, t.users)
    && SEAT0 in t.seats
  }

  // ------------------------------------------- one locked call, any interleaving

  datatype SeatCall =
    | AddSession(seat: string, sid: Sid)
    | RemoveSession(seat: string, sid: Sid)
    | ActivateOn(seat: string, sid: Sid)

  function SeatAfter(seats: SeatTable, c: SeatCall): SeatTable {
    match c
    case AddSession(seat, sid) => SeatAdded(seats, seat, sid)
    case RemoveSession(seat, sid) => SeatRemoved(seats, seat, sid)
    case ActivateOn(seat, sid) => SeatActivated(seats, seat, sid)
  }

  function SeatRun(seats: SeatTable, calls: seq<SeatCall>): SeatTable
    decreases |calls|
  {
    if calls == [] then seats else SeatRun(SeatAfter(seats, calls[0]), calls[1..])
  }

  lemma SeatCallKeeps(seats: SeatTable, c: SeatCall)
    requires SeatsOk(seats)
    ensures SeatsOk(SeatAfter(seats, c)) && SeatAfter(seats, c).Keys == seats.Keys
  {
  }

  lemma {:induction false} EverySeatInterleaving(seats: SeatTable, calls: seq<SeatCall>)
    requires SeatsOk(seats)
    ensures SeatsOk(SeatRun(seats, calls)) && SeatRun(seats, calls).Keys == seats.Keys
    decreases |calls|
  {
    if calls != [] {
      SeatCallKeeps(seats, calls[0]);
      EverySeatInterleaving(SeatAfter(seats, calls[0]), calls[1..]);
    }
  }

  datatype UserCall =
    | Login(uid: Uid, sid: Sid, os: Os)
    | Logout(uid: Uid, sid: Sid)
    | Linger(uid: Uid, enable: bool, os: Os)
    | Terminate(uid: Uid)

  function UserAfter(users: UserTable, c: UserCall): UserTable {
    match c
    case Login(uid, sid, os) => (match LoggedIn(users, uid, sid, os) case None => users case Some(u) => u)
    case Logout(uid, sid) => LoggedOut(users, uid, sid)
    case Linger(uid, enable, os) => (match LingerSet(users, uid, enable, os) case None => users case Some(u) => u)
    case Terminate(uid) => Terminated(users, uid)
  }

  function UserRun(users: UserTable, calls: seq<UserCall>): UserTable
    decreases |calls|
  {
    if calls == [] then users else UserRun(UserAfter(users, calls[0]), calls[1..])
  }

  lemma UserCallKeeps(users: UserTable, c: UserCall)
    requires UsersOk(users)
    ensures UsersOk(UserAfter(users, c))
  {
    var users' := UserAfter(users, c);
    forall k | k in users' ensures users'[k].uid == k && UserOk(users'[k]) {
      assert k in users ==> UserOk(users[k]);
    }
  }

  lemma {:induction false} EveryUserInterleaving(users: UserTable, calls: seq<UserCall>)
    requires UsersOk(users)
    ensures UsersOk(UserRun(users, calls))
    decreases |calls|
  {
    if calls != [] {
      UserCallKeeps(users, calls[0]);
      EveryUserInterleaving(UserAfter(users, calls[0]), calls[1..]);
    }
  }

  // ------------------------------------------------------- requests keep Inv

  /** A new session, without a seat or put on seat k. */
  lemma AddAgrees(sessions: SessionTable, seats: SeatTable, sid: Sid, s: Session, k: string)
    requires SeatsAgree(sessions, seats) && sid !in sessions
    ensures s.seat == None ==> SeatsAgree(sessions[sid := s], seats)
    ensures s.seat == Some(k) && k in seats ==> SeatsAgree(sessions[sid := s], SeatAdded(seats, k, sid))
  {
  }

  lemma AddActive(sessions: SessionTable, seats: SeatTable, sid: Sid, s: Session, k: string)
    requires ActiveShown(sessions, seats) && OneActive(sessions) && sid !in sessions && s.state == SessionState.Online
    ensures ActiveShown(sessions[sid := s], seats) && ActiveShown(sessions[sid := s], SeatAdded(seats, k, sid))
    ensures OneActive(sessions[sid := s])
  {
    assert forall id :: IsActive(sessions[sid := s], id) <==> IsActive(sessions, id);
  }

  lemma LoginLive(sessions: SessionTable, users: UserTable, uid: Uid, sid: Sid, os: Os, s: Session)
    requires UsersLive(sessions, users) && sid !in sessions && s.uid == uid
    ensures UsersLive(sessions[sid := s], users)
    ensures LoggedIn(users, uid, sid, os).Some? ==> UsersLive(sessions[sid := s], LoggedIn(users, uid, sid, os).value)
  {
  }

  lemma OpenKeepsInv(t: Tables, uid: Uid, vt: Option<nat>, os: Os)
    requires Inv(t)
    ensures Inv(Opened(t, uid, vt, os))
  {
    hide SeatsAgree, ActiveShown, OneActive, UsersLive, SeatsOk, UsersOk, With;
    var t' := Opened(t, uid, vt, os);
    var sid := t.nextId;
    assert sid !in t.sessions;
    var s := NewSession(sid, uid, vt);
    var users := LoggedIn(t.users, uid, sid, os);
    if users.Some? {
      s := s.(seat := Some(SEAT0));
      assert t'.sessions == t.sessions[sid := s];
    }
    AddAgrees(t.sessions, t.seats, sid, s, SEAT0);
    AddActive(t.sessions, t.seats, sid, s, SEAT0);
    LoginLive(t.sessions, t.users, uid, sid, os, s);
    SeatCallKeeps(t.seats, AddSession(SEAT0, sid));
    UserCallKeeps(t.users, Login(uid, sid, os));
  }

  lemma RemoveAgrees(sessions: SessionTable, seats: SeatTable, sid: Sid)
    requires SeatsAgree(sessions, seats) && sid in sessions
    ensures sessions[sid].seat.None? ==> SeatsAgree(sessions - {sid}, seats)
    ensures sessions[sid].seat.Some? ==> SeatsAgree(sessions - {sid}, SeatRemoved(seats, sessions[sid].seat.value, sid))
  {
  }

  lemma RemoveActive(sessions: SessionTable, seats: SeatTable, sid: Sid)
    requires ActiveShown(sessions, seats) && OneActive(sessions) && sid in sessions
    ensures ActiveShown(sessions - {sid}, seats) && OneActive(sessions - {sid})
    ensures sessions[sid].seat.Some? ==>
        ActiveShown(sessions - {sid}, SeatRemoved(seats, sessions[sid].seat.value, sid))
  {
    assert forall id :: IsActive(sessions - {sid}, id) <==> IsActive(sessions, id) && id != sid;
  }

  lemma LogoutLive(sessions: SessionTable, users: UserTable, sid: Sid)
    requires UsersLive(sessions, users) && sid in sessions
    ensures UsersLive(sessions - {sid}, LoggedOut(users, sessions[sid].uid, sid))
  {
  }

  lemma CloseKeepsInv(t: Tables, sid: Sid)
    requires Inv(t) && sid in t.sessions
    ensures Inv(Closed(t, sid))
  {
    var s := t.sessions[sid];
    RemoveAgrees(t.sessions, t.seats, sid);
    RemoveActive(t.sessions, t.seats, sid);
    LogoutLive(t.sessions, t.users, sid);
    if s.seat.Some? { SeatCallKeeps(t.seats, RemoveSession(s.seat.value, sid)); }
    UserCallKeeps(t.users, Logout(s.uid, sid));
  }

  /** Two session tables that differ in states and hints only. */
  ghost predicate SamePlaces(a: SessionTable, b: SessionTable) {
    a.Keys == b.Keys && forall id :: id in a ==>
        a[id].id == b[id].id && a[id].uid == b[id].uid && a[id].seat == b[id].seat
  }

  lemma PlacesKeep(a: SessionTable, b: SessionTable, nextId: Sid, seats: SeatTable, users: UserTable)
    requires SamePlaces(a, b) && IdsOk(a, nextId) && SeatsAgree(a, seats) && UsersLive(a, users)
    ensures IdsOk(b, nextId) && SeatsAgree(b, seats) && UsersLive(b, users)
  {
    assert forall id :: id in b <==> id in a;
  }

  lemma ActivateActive(sessions: SessionTable, seats: SeatTable, sid: Sid)
    requires ActiveShown(sessions, seats) && OneActive(sessions) && SeatsAgree(sessions, seats) && sid in sessions
    requires forall id :: id in sessions ==> sessions[id].id == id
    ensures OneActive(Activated(sessions, sid))
    ensures sessions[sid].seat.None? ==> ActiveShown(Activated(sessions, sid), seats)
    ensures sessions[sid].seat.Some? ==>
        ActiveShown(Activated(sessions, sid), SeatActivated(seats, sessions[sid].seat.value, sid))
  {
    var sessions' := Activated(sessions, sid);
    forall id ensures IsActive(sessions', id) <==>
        id == sid || (IsActive(sessions, id) && sessions[id].seat != sessions[sid].seat) {
    }
    assert forall id :: id in sessions ==> sessions'[id].seat == sessions[id].seat;
  }

  lemma ActivateKeepsInv(t: Tables, sid: Sid)
    requires Inv(t) && sid in t.sessions
    ensures Inv(ActivatedBoth(t, sid))
  {
    hide ActiveShown, OneActive, UsersLive, SeatsOk, UsersOk, SeatsAgree;
    var seat := t.sessions[sid].seat;
    var t' := ActivatedBoth(t, sid);
    ActivateActive(t.sessions, t.seats, sid);
    assert SamePlaces(t.sessions, t'.sessions);
    PlacesKeep(t.sessions, t'.sessions, t.nextId, t.seats, t.users);
    if seat.Some? {
      SeatCallKeeps(t.seats, ActivateOn(seat.value, sid));
      SameLists(t'.sessions, t.seats, t'.seats);
    }
  }

  lemma SameLists(sessions: SessionTable, a: SeatTable, b: SeatTable)
    requires SeatsAgree(sessions, a) && a.Keys == b.Keys && forall k :: k in a ==> a[k].sessions == b[k].sessions
    ensures SeatsAgree(sessions, b)
  {
    assert forall k :: k in b <==> k in a;
  }

  /** The errors that dispatch ignores cannot occur: a live session's seat always takes the activation ... */
  lemma SeatAcceptsItsSessions(t: Tables, sid: Sid)
    requires Inv(t) && sid in t.sessions && t.sessions[sid].seat.Some?
    ensures CanActivate(t.seats, t.sessions[sid].seat.value, sid)
  {
  }

  /** ... and what a seat can activate is a live session on that seat. */
  lemma SeatMembersAreLive(t: Tables, sid: Sid, seat: string)
    requires Inv(t) && CanActivate(t.seats, seat, sid)
    ensures sid in t.sessions && t.sessions[sid].seat == Some(seat)
    ensures Step(t, 0, ActivateSessionOnSeat(sid, seat), Os(false, false, false, false, false)) == ActivatedBoth(t, sid)
  {
  }

  lemma HintsKeepInv(t: Tables, sessions: SessionTable)
    requires Inv(t) && SamePlaces(t.sessions, sessions)
    requires forall id :: id in sessions ==> sessions[id].state == t.sessions[id].state
    ensures Inv(t.(sessions := sessions))
  {
    PlacesKeep(t.sessions, sessions, t.nextId, t.seats, t.users);
    assert forall id :: IsActive(sessions, id) <==> IsActive(t.sessions, id);
  }

  lemma HintRequestKeepsInv(t: Tables, peer: Uid, req: Request, os: Os)
    requires Inv(t)
    requires req.LockSession? || req.UnlockSession? || req.LockSessions? || req.UnlockSessions? || req.SetIdleHint?
        || req.SetLockedHint?
    ensures Inv(Step(t, peer, req, os))
  {
    hide Inv;
    var t' := Step(t, peer, req, os);
    assert t' == t.(sessions := t'.sessions);
    HintsKeepInv(t, t'.sessions);
  }

  lemma LingerKeepsInv(t: Tables, uid: Uid, enable: bool, os: Os)
    requires Inv(t) && LingerSet(t.users, uid, enable, os).Some?
    ensures Inv(t.(users := LingerSet(t.users, uid, enable, os).value))
  {
    UserCallKeeps(t.users, Linger(uid, enable, os));
  }

  lemma TerminateKeepsInv(t: Tables, uid: Uid)
    requires Inv(t)
    ensures Inv(t.(users := Terminated(t.users, uid)))
  {
    UserCallKeeps(t.users, Terminate(uid));
  }

  lemma StepKeepsInv(t: Tables, peer: Uid, req: Request, os: Os)
    requires Inv(t)
    ensures Inv(Step(t, peer, req, os))
  {
    hide Inv, Opened, Closed, ActivatedBoth, Activated, SeatActivated, LingerSet, Terminated;
    match req
    case OpenSession(uid, vt) => OpenKeepsInv(t, uid, vt, os);
    case CloseSession(sid) => if sid in t.sessions { CloseKeepsInv(t, sid); }
    case ActivateSession(sid) => if sid in t.sessions { ActivateKeepsInv(t, sid); }
    case ActivateSessionOnSeat(sid, seat) =>
      if CanActivate(t.seats, seat, sid) {
        SeatMembersAreLive(t, sid, seat);
        ActivateKeepsInv(t, sid);
      }
    case LockSession(_) => HintRequestKeepsInv(t, peer, req, os);
    case UnlockSession(_) => HintRequestKeepsInv(t, peer, req, os);
    case LockSessions => HintRequestKeepsInv(t, peer, req, os);
    case UnlockSessions => HintRequestKeepsInv(t, peer, req, os);
    case SetIdleHint(_, _) => HintRequestKeepsInv(t, peer, req, os);
    case SetLockedHint(_, _) => HintRequestKeepsInv(t, peer, req, os);
    case SetLinger(uid, enable) =>
      if LingerSet(t.users, uid, enable, os).Some? { LingerKeepsInv(t, uid, enable, os); }
    case TerminateUser(uid) => TerminateKeepsInv(t, uid);
    case _ =>
  }

  lemma {:induction false} RunKeepsInv(t: Tables, calls: seq<Call>)
    requires Inv(t)
    ensures Inv(Run(t, calls))
    decreases |calls|
  {
    hide Inv;
    if calls != [] {
      StepKeepsInv(t, calls[0].peer, calls[0].req, calls[0].os);
      RunKeepsInv(Step(t, calls[0].peer, calls[0].req, calls[0].os), calls[1..]);
    }
  }

  /** After every sequence of non-overlapping requests the three tables agree. */
  lemma EveryRunAgrees(calls: seq<Call>)
    ensures Inv(Run(START, calls))
  {
    RunKeepsInv(START, calls);
  }

  // --------------------------------------------------------- ids and authority

  /** A session id that was issued and is gone never comes back, and the counter never falls. */
  lemma IdsStep(t: Tables, peer: Uid, req: Request, os: Os)
    requires IdsOk(t.sessions, t.nextId)
    ensures var t' := Step(t, peer, req, os);
            t'.nextId >= t.nextId && forall id :: id in t'.sessions && id < t.nextId ==> id in t.sessions
  {
    hide LoggedIn, LoggedOut, LingerSet, SeatAdded, SeatRemoved, SeatActivated, CanActivate;
  }

  lemma {:induction false} IdsNeverReused(t: Tables, calls: seq<Call>, id: Sid)
    requires Inv(t) && id < t.nextId && id !in t.sessions
    ensures id !in Run(t, calls).sessions && t.nextId <= Run(t, calls).nextId
    decreases |calls|
  {
    if calls != [] {
      var t' := Step(t, calls[0].peer, calls[0].req, calls[0].os);
      StepKeepsInv(t, calls[0].peer, calls[0].req, calls[0].os);
      IdsStep(t, calls[0].peer, calls[0].req, calls[0].os);
      hide Inv, Step;
      IdsNeverReused(t', calls[1..], id);
    }
  }

  /** Only root or the owner can make a session disappear, and nobody but root can add one. */
  lemma OnlyOwnerOrRootCloses(t: Tables, peer: Uid, req: Request, os: Os, id: Sid)
    requires peer != 0
    ensures id in t.sessions && id !in Step(t, peer, req, os).sessions ==> t.sessions[id].uid == peer
    ensures id !in t.sessions ==> id !in Step(t, peer, req, os).sessions
  {
  }
}
