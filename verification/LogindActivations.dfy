/**
 Any number of overlapping activations (quantra-logind/src/control.rs): each is a
 call on the session table and a call on the seat table, in either order, and
 other activations may come between.  The theorem says exactly which orders leave
 the two tables in agreement.
 */
module LogindActivations {
  import opened Optional
  import opened LogindTables
  import opened LogindOverlap

  // ------------------------------------------------------------------ the calls

  /** What an activation does to a table. */
  datatype Call = InSessions(sid: Sid) | InSeats(sid: Sid)

  function SeatIn(t: Tables, sid: Sid): Option<string> { SeatOf(t.sessions, sid) }

  predicate Live(t: Tables, c: Call) {
    c.sid in t.sessions && (c.InSeats? ==> t.sessions[c.sid].seat.Some?)
  }

  /** The session that the last such call on this seat was for. */
  function LastInSessions(t: Tables, calls: seq<Call>, seat: Option<string>): Option<Sid> {
    if calls == [] then None
    else
      var last := calls[|calls| - 1];
      if last.InSessions? && SeatIn(t, last.sid) == seat then Some(last.sid)
      else LastInSessions(t, calls[..|calls| - 1], seat)
  }

  function LastInSeats(t: Tables, calls: seq<Call>, seat: string): Option<Sid> {
    if calls == [] then None
    else
      var last := calls[|calls| - 1];
      if last.InSeats? && SeatIn(t, last.sid) == Some(seat) then Some(last.sid)
      else LastInSeats(t, calls[..|calls| - 1], seat)
  }

  /** A session is Active as the last call on its seat says. */
  ghost predicate StateRight(t0: Tables, calls: seq<Call>, sessions: SessionTable, id: Sid)
    requires id in t0.sessions
  {
    IsActive(sessions, id) <==>
    match LastInSessions(t0, calls, t0.sessions[id].seat)
    case None => IsActive(t0.sessions, id)
    case Some(x) => x == id
  }

  ghost predicate SessionsRight(t0: Tables, calls: seq<Call>, sessions: SessionTable) {
    && SamePlaces(t0.sessions, sessions)
    && forall id :: id in t0.sessions ==> StateRight(t0, calls, sessions, id)
  }

  /** A seat has its list, and shows what the last call on it says. */
  ghost predicate ShownRight(t0: Tables, calls: seq<Call>, seats: SeatTable, k: string)
    requires k in t0.seats && k in seats
  {
    && seats[k].sessions == t0.seats[k].sessions
    && var last := LastInSeats(t0, calls, k);
       seats[k].active == if last.Some? then last else t0.seats[k].active
  }

  ghost predicate SeatsRight(t0: Tables, calls: seq<Call>, seats: SeatTable) {
    && seats.Keys == t0.seats.Keys
    && forall k :: k in t0.seats ==> k in seats && ShownRight(t0, calls, seats, k)
  }

  /** The tables after the calls. */
  ghost predicate Called(t0: Tables, calls: seq<Call>, t: Tables) {
    && t.users == t0.users && t.nextId == t0.nextId
    && SessionsRight(t0, calls, t.sessions)
    && SeatsRight(t0, calls, t.seats)
  }

  function Applied(t: Tables, c: Call): Tables
    requires Live(t, c)
  {
    match c
    case InSessions(sid) => t.(sessions := Activated(t.sessions, sid))
    case InSeats(sid) => t.(seats := SeatActivated(t.seats, t.sessions[sid].seat.value, sid))
  }

  lemma SessionsCalled(t0: Tables, calls: seq<Call>, sessions: SessionTable, sid: Sid)
    requires IdsOk(t0.sessions, t0.nextId) && SessionsRight(t0, calls, sessions) && sid in sessions
    ensures SessionsRight(t0, calls + [InSessions(sid)], Activated(sessions, sid))
  {
    var calls' := calls + [InSessions(sid)];
    assert calls'[..|calls|] == calls;
    forall id | id in t0.sessions ensures StateRight(t0, calls', Activated(sessions, sid), id) {
      assert StateRight(t0, calls, sessions, id);
      assert t0.sessions[id].id == id;
    }
  }

  lemma SeatsUncalled(t0: Tables, calls: seq<Call>, seats: SeatTable, sid: Sid)
    requires SeatsRight(t0, calls, seats)
    ensures SeatsRight(t0, calls + [InSessions(sid)], seats)
  {
    var calls' := calls + [InSessions(sid)];
    assert calls'[..|calls|] == calls;
    forall k | k in t0.seats ensures k in seats && ShownRight(t0, calls', seats, k) {
      assert ShownRight(t0, calls, seats, k);
    }
  }

  lemma SeatsCalled(t0: Tables, calls: seq<Call>, seats: SeatTable, sid: Sid, seat: string)
    requires SeatsAgree(t0.sessions, t0.seats) && SeatsRight(t0, calls, seats) && SeatIn(t0, sid) == Some(seat)
    ensures SeatsRight(t0, calls + [InSeats(sid)], SeatActivated(seats, seat, sid))
  {
    var calls' := calls + [InSeats(sid)];
    assert calls'[..|calls|] == calls;
    assert sid in t0.seats[seat].sessions;
    assert ShownRight(t0, calls, seats, seat);
    var seats' := SeatActivated(seats, seat, sid);
    forall k | k in t0.seats ensures k in seats' && ShownRight(t0, calls', seats', k) {
      assert ShownRight(t0, calls, seats, k);
    }
  }

  lemma SessionsUncalled(t0: Tables, calls: seq<Call>, sessions: SessionTable, sid: Sid)
    requires SessionsRight(t0, calls, sessions)
    ensures SessionsRight(t0, calls + [InSeats(sid)], sessions)
  {
    var calls' := calls + [InSeats(sid)];
    assert calls'[..|calls|] == calls;
    forall id | id in t0.sessions ensures StateRight(t0, calls', sessions, id) {
      assert StateRight(t0, calls, sessions, id);
    }
  }

  lemma CallAdvances(t0: Tables, calls: seq<Call>, t: Tables, c: Call)
    requires Inv(t0) && Called(t0, calls, t) && Live(t, c)
    ensures Live(t0, c) && Called(t0, calls + [c], Applied(t, c))
  {
    hide SessionsRight, SeatsRight, Activated, SeatActivated, SeatsAgree, ActiveShown, OneActive, UsersLive;
    PlacesSame(t0, calls, t, c.sid);
    match c
    case InSessions(sid) =>
      SessionsCalled(t0, calls, t.sessions, sid);
      SeatsUncalled(t0, calls, t.seats, sid);
    case InSeats(sid) =>
      SeatsCalled(t0, calls, t.seats, sid, t.sessions[sid].seat.value);
      SessionsUncalled(t0, calls, t.sessions, sid);
  }

  lemma PlacesSame(t0: Tables, calls: seq<Call>, t: Tables, sid: Sid)
    requires Called(t0, calls, t)
    ensures sid in t.sessions <==> sid in t0.sessions
    ensures SeatIn(t, sid) == SeatIn(t0, sid)
  {
  }

  /** On every seat either both tables were called or neither. */
  ghost predicate Paired(t0: Tables, calls: seq<Call>) {
    forall k :: k in t0.seats ==> (LastInSessions(t0, calls, Some(k)).Some? <==> LastInSeats(t0, calls, k).Some?)
  }

  /** On every seat the last call of either table is for the same session. */
  ghost predicate LastCallsAgree(t0: Tables, calls: seq<Call>) {
    forall k :: k in t0.seats ==> LastInSessions(t0, calls, Some(k)) == LastInSeats(t0, calls, k)
  }

  lemma {:induction false} LastIsLive(t0: Tables, calls: seq<Call>, seat: Option<string>)
    requires forall i :: 0 <= i < |calls| ==> Live(t0, calls[i])
    ensures var x := LastInSessions(t0, calls, seat);
            x.Some? ==> x.value in t0.sessions && t0.sessions[x.value].seat == seat
    ensures seat.Some? ==>
              var x := LastInSeats(t0, calls, seat.value);
              x.Some? ==> x.value in t0.sessions && t0.sessions[x.value].seat == seat
    decreases |calls|
  {
    if calls != [] {
      assert Live(t0, calls[|calls| - 1]);
      LastIsLive(t0, calls[..|calls| - 1], seat);
    }
  }

  /** Agreement after the calls is agreement of the last ones. */
  lemma CalledAgrees(t0: Tables, calls: seq<Call>, t: Tables)
    requires Inv(t0) && Called(t0, calls, t) && Paired(t0, calls)
    requires forall i :: 0 <= i < |calls| ==> Live(t0, calls[i])
    ensures Inv(t) <==> LastCallsAgree(t0, calls)
  {
    PlacesKeep(t0.sessions, t.sessions, t0.nextId, t0.seats, t0.users);
    forall k | k in t0.seats ensures t.seats[k].sessions == t0.seats[k].sessions {
      assert ShownRight(t0, calls, t.seats, k);
    }
    SameLists(t.sessions, t0.seats, t.seats);
    forall seat: Option<string>
      ensures var x := LastInSessions(t0, calls, seat);
              x.Some? ==> x.value in t0.sessions && t0.sessions[x.value].seat == seat
      ensures seat.Some? ==>
                var x := LastInSeats(t0, calls, seat.value);
                x.Some? ==> x.value in t0.sessions && t0.sessions[x.value].seat == seat
    {
      LastIsLive(t0, calls, seat);
    }
    CalledSeatsOk(t0, calls, t);
    CalledOneActive(t0, calls, t);
    if LastCallsAgree(t0, calls) {
      CalledShown(t0, calls, t);
    } else {
      var k :| k in t0.seats && LastInSessions(t0, calls, Some(k)) != LastInSeats(t0, calls, k);
      var x := LastInSessions(t0, calls, Some(k)).value;
      assert StateRight(t0, calls, t.sessions, x) && ShownRight(t0, calls, t.seats, k);
      assert IsActive(t.sessions, x) && t.sessions[x].seat == Some(k);
      assert t.seats[k].active != Some(x);
    }
  }

  lemma CalledSeatsOk(t0: Tables, calls: seq<Call>, t: Tables)
    requires Inv(t0) && Called(t0, calls, t)
    requires forall k :: k in t0.seats ==>
               var x := LastInSeats(t0, calls, k);
               x.Some? ==> x.value in t0.sessions && t0.sessions[x.value].seat == Some(k)
    ensures SeatsOk(t.seats)
  {
    forall k | k in t.seats ensures SeatOk(t.seats[k]) {
      assert SeatOk(t0.seats[k]) && ShownRight(t0, calls, t.seats, k);
    }
  }

  lemma CalledOneActive(t0: Tables, calls: seq<Call>, t: Tables)
    requires Inv(t0) && Called(t0, calls, t)
    ensures OneActive(t.sessions)
  {
    forall a, b | IsActive(t.sessions, a) && IsActive(t.sessions, b) && t.sessions[a].seat == t.sessions[b].seat
      ensures a == b
    {
      assert a in t0.sessions && b in t0.sessions && t0.sessions[a].seat == t0.sessions[b].seat;
      assert StateRight(t0, calls, t.sessions, a) && StateRight(t0, calls, t.sessions, b);
    }
  }

  lemma CalledShown(t0: Tables, calls: seq<Call>, t: Tables)
    requires Inv(t0) && Called(t0, calls, t) && LastCallsAgree(t0, calls)
    ensures ActiveShown(t.sessions, t.seats)
  {
    forall id | IsActive(t.sessions, id) && t.sessions[id].seat.Some? && t.sessions[id].seat.value in t.seats
      ensures t.seats[t.sessions[id].seat.value].active == Some(id)
    {
      assert id in t0.sessions && t0.sessions[id].seat == t.sessions[id].seat;
      assert StateRight(t0, calls, t.sessions, id) && ShownRight(t0, calls, t.seats, t.sessions[id].seat.value);
    }
  }

  // --------------------------------------------------------------- the requests

  predicate IsActivation(req: Request) { req.ActivateSession? || req.ActivateSessionOnSeat? }

  predicate Effective(t0: Tables, req: Request)
    requires IsActivation(req)
  {
    if req.ActivateSession? then req.sid in t0.sessions else CanActivate(t0.seats, req.seat, req.sid)
  }

  /** The table call that the next turn of an activation makes, if any. */
  function MadeBy(t: Tables, th: Thread): seq<Call>
    requires IsActivation(th.req)
  {
    var sid := th.req.sid;
    if th.over then []
    else if th.req.ActivateSession? then
      if th.pc == 0 then if sid in t.sessions then [InSessions(sid)] else []
      else if th.pc >= 2 && th.seat.Some? then [InSeats(sid)]
      else []
    else if th.pc == 0 then if CanActivate(t.seats, th.req.seat, sid) then [InSeats(sid)] else []
    else if sid in t.sessions then [InSessions(sid)]
    else []
  }

  /** What an activation has done by its position. */
  ghost predicate ThreadRight(t0: Tables, calls: seq<Call>, th: Thread)
    requires IsActivation(th.req)
  {
    var sid := th.req.sid;
    if !Effective(t0, th.req) then th.over || th.pc == 0
    else if th.req.ActivateSession? then
      && (th.pc == 0 ==> !th.over)
      && (th.pc >= 1 ==> InSessions(sid) in calls)
      && (th.pc >= 2 && !th.over ==> th.seat == SeatIn(t0, sid) && th.seat.Some?)
      && (th.over ==> SeatIn(t0, sid).None? || InSeats(sid) in calls)
    else
      && (th.pc == 0 ==> !th.over)
      && (th.pc >= 1 ==> InSeats(sid) in calls)
      && (th.over ==> InSessions(sid) in calls)
  }

  /** Every call is live and made for a request that takes effect. */
  ghost predicate Justified(t0: Tables, requests: seq<Thread>, calls: seq<Call>)
    requires forall i :: 0 <= i < |requests| ==> IsActivation(requests[i].req)
  {
    forall j :: 0 <= j < |calls| ==> Live(t0, calls[j]) && Asked(t0, requests, calls[j].sid)
  }

  ghost predicate Asked(t0: Tables, requests: seq<Thread>, sid: Sid)
    requires forall i :: 0 <= i < |requests| ==> IsActivation(requests[i].req)
  {
    exists i :: 0 <= i < |requests| && Effective(t0, requests[i].req) && requests[i].req.sid == sid
  }

  lemma EffectiveOnSeat(t0: Tables, sid: Sid, seat: string)
    requires Inv(t0) && CanActivate(t0.seats, seat, sid)
    ensures sid in t0.sessions && SeatIn(t0, sid) == Some(seat)
  {
  }

  lemma SameMembers(t0: Tables, calls: seq<Call>, t: Tables, seat: string, sid: Sid)
    requires Called(t0, calls, t)
    ensures CanActivate(t.seats, seat, sid) <==> CanActivate(t0.seats, seat, sid)
  {
    if seat in t0.seats { assert ShownRight(t0, calls, t.seats, seat); }
  }

  /** One turn of an activation: its call, and its position, stay right. */
  lemma TurnCalls(t0: Tables, calls: seq<Call>, t: Tables, th: Thread)
    requires Inv(t0) && Called(t0, calls, t) && IsActivation(th.req) && ThreadRight(t0, calls, th)
    ensures var (t', th') := Turn(t, th);
            var made := MadeBy(t, th);
            && th'.req == th.req
            && Called(t0, calls + made, t') && ThreadRight(t0, calls + made, th')
            && (made != [] ==> |made| == 1 && made[0].sid == th.req.sid && Live(t0, made[0]) && Effective(t0, th.req))
  {
    hide Inv, Called, Activated, SeatActivated;
    var sid := th.req.sid;
    var made := MadeBy(t, th);
    PlacesSame(t0, calls, t, sid);
    if th.req.ActivateSessionOnSeat? {
      SameMembers(t0, calls, t, th.req.seat, sid);
      if CanActivate(t0.seats, th.req.seat, sid) { EffectiveOnSeat(t0, sid, th.req.seat); }
    }
    if made == [] {
      assert calls + made == calls;
    } else {
      CallAdvances(t0, calls, t, made[0]);
    }
  }

  lemma RightGrows(t0: Tables, calls: seq<Call>, made: seq<Call>, th: Thread)
    requires IsActivation(th.req) && ThreadRight(t0, calls, th)
    ensures ThreadRight(t0, calls + made, th)
  {
    hide Effective;
  }

  // ------------------------------------------------------------------- the pool

  datatype Pool = Pool(t: Tables, threads: seq<Thread>, calls: seq<Call>)

  ghost predicate Activations(threads: seq<Thread>) {
    forall i :: 0 <= i < |threads| ==> IsActivation(threads[i].req)
  }

  ghost predicate Fresh(threads: seq<Thread>) {
    forall i :: 0 <= i < |threads| ==> threads[i] == Begin(threads[i].peer, threads[i].req, threads[i].os)
  }

  /** A turn of thread i, and the call it makes. */
  function PoolTurn(p: Pool, i: nat): Pool
    requires i < |p.threads| && IsActivation(p.threads[i].req)
  {
    var (t', th') := Turn(p.t, p.threads[i]);
    Pool(t', p.threads[i := th'], p.calls + MadeBy(p.t, p.threads[i]))
  }

  ghost predicate PoolRight(t0: Tables, requests: seq<Thread>, p: Pool)
    requires Activations(requests)
  {
    && |p.threads| == |requests| && Activations(p.threads)
    && (forall i :: 0 <= i < |requests| ==> p.threads[i].req == requests[i].req)
    && (forall i :: 0 <= i < |requests| ==> ThreadRight(t0, p.calls, p.threads[i]))
    && Justified(t0, requests, p.calls)
    && Called(t0, p.calls, p.t)
  }

  lemma PoolAdvances(t0: Tables, requests: seq<Thread>, p: Pool, i: nat)
    requires Inv(t0) && Activations(requests) && PoolRight(t0, requests, p) && i < |requests|
    ensures PoolRight(t0, requests, PoolTurn(p, i))
  {
    hide Inv, Called, ThreadRight, Turn, MadeBy, Live, Effective;
    TurnCalls(t0, p.calls, p.t, p.threads[i]);
    var made := MadeBy(p.t, p.threads[i]);
    forall j | 0 <= j < |requests| ensures ThreadRight(t0, p.calls + made, p.threads[j]) {
      RightGrows(t0, p.calls, made, p.threads[j]);
    }
    if made != [] { assert Asked(t0, requests, made[0].sid); }
  }

  /** Any schedule of turns. */
  ghost function PoolRun(t0: Tables, requests: seq<Thread>, order: seq<nat>): (p: Pool)
    requires Inv(t0) && Activations(requests) && Fresh(requests)
    requires forall n :: 0 <= n < |order| ==> order[n] < |requests|
    ensures PoolRight(t0, requests, p)
  {
    if order == [] then
      NoCallsYet(t0, requests);
      Pool(t0, requests, [])
    else
      var p := PoolRun(t0, requests, order[..|order| - 1]);
      PoolAdvances(t0, requests, p, order[|order| - 1]);
      PoolTurn(p, order[|order| - 1])
  }

  lemma NoCallsYet(t0: Tables, requests: seq<Thread>)
    requires Activations(requests) && Fresh(requests)
    ensures PoolRight(t0, requests, Pool(t0, requests, []))
  {
  }

  ghost predicate AllOver(threads: seq<Thread>) { forall i :: 0 <= i < |threads| ==> threads[i].over }

  lemma {:induction false} LastExists(t0: Tables, calls: seq<Call>, k: string)
    ensures LastInSessions(t0, calls, Some(k)).Some? <==>
              exists j :: 0 <= j < |calls| && calls[j].InSessions? && SeatIn(t0, calls[j].sid) == Some(k)
    ensures LastInSeats(t0, calls, k).Some? <==>
              exists j :: 0 <= j < |calls| && calls[j].InSeats? && SeatIn(t0, calls[j].sid) == Some(k)
    decreases |calls|
  {
    if calls != [] {
      var front := calls[..|calls| - 1];
      LastExists(t0, front, k);
      assert forall j :: 0 <= j < |front| ==> front[j] == calls[j];
    }
  }

  lemma AllPaired(t0: Tables, requests: seq<Thread>, p: Pool)
    requires Inv(t0) && Activations(requests) && PoolRight(t0, requests, p) && AllOver(p.threads)
    ensures Paired(t0, p.calls)
  {
    hide Inv, Called;
    forall j | 0 <= j < |p.calls| && SeatIn(t0, p.calls[j].sid).Some?
      ensures InSessions(p.calls[j].sid) in p.calls && InSeats(p.calls[j].sid) in p.calls
    {
      var i :| 0 <= i < |requests| && Effective(t0, requests[i].req) && requests[i].req.sid == p.calls[j].sid;
      assert ThreadRight(t0, p.calls, p.threads[i]) && p.threads[i].over;
    }
    forall k | k in t0.seats
      ensures LastInSessions(t0, p.calls, Some(k)).Some? <==> LastInSeats(t0, p.calls, k).Some?
    {
      LastExists(t0, p.calls, k);
    }
  }

  /**
   Any number of overlapping activations, of either kind and in any order of their calls: when all
   are over, the tables agree exactly when on every seat the last call on the session table and the
   last call on the seat table were for the same session.
   */
  lemma ActivationsExactly(t0: Tables, requests: seq<Thread>, order: seq<nat>)
    requires Inv(t0) && Activations(requests) && Fresh(requests)
    requires forall n :: 0 <= n < |order| ==> order[n] < |requests|
    requires AllOver(PoolRun(t0, requests, order).threads)
    ensures var p := PoolRun(t0, requests, order);
            Inv(p.t) <==> LastCallsAgree(t0, p.calls)
  {
    hide Inv, Called, ThreadRight, LastCallsAgree;
    var p := PoolRun(t0, requests, order);
    AllPaired(t0, requests, p);
    CalledAgrees(t0, p.calls, p.t);
  }

  /** The position of an ActivateSession that has had n turns. */
  ghost predicate At(p: Pool, i: nat, sid: Sid, n: nat, seat: string) {
    && i < |p.threads| && p.threads[i].req == ActivateSession(sid)
    && p.threads[i].pc == n && (p.threads[i].over <==> n >= 3)
    && (n == 2 ==> p.threads[i].seat == Some(seat))
  }

  lemma AtNext(t0: Tables, requests: seq<Thread>, p: Pool, i: nat, sid: Sid, n: nat, seat: string)
    requires Inv(t0) && Activations(requests) && PoolRight(t0, requests, p)
    requires At(p, i, sid, n, seat) && n < 3 && SeatIn(t0, sid) == Some(seat)
    ensures At(PoolTurn(p, i), i, sid, n + 1, seat)
    ensures PoolTurn(p, i).calls ==
            p.calls + if n == 0 then [InSessions(sid)] else if n == 1 then [] else [InSeats(sid)]
    ensures |PoolTurn(p, i).threads| == |p.threads|
    ensures forall j :: 0 <= j < |p.threads| && j != i ==> PoolTurn(p, i).threads[j] == p.threads[j]
  {
    hide Inv, Called, Activated, SeatActivated;
    PlacesSame(t0, p.calls, p.t, sid);
  }

  /** Two activations on one seat whose calls cross always break the agreement. */
  lemma CrossingBreaks(t0: Tables, a: Sid, b: Sid, seat: string, peer: Uid, os: Os)
    requires Inv(t0) && a != b && SeatIn(t0, a) == Some(seat) && SeatIn(t0, b) == Some(seat)
    ensures var requests := [Begin(peer, ActivateSession(a), os), Begin(peer, ActivateSession(b), os)];
            var p := PoolRun(t0, requests, [0, 0, 1, 1, 1, 0]);
            AllOver(p.threads) && !Inv(p.t)
  {
    hide Inv, PoolTurn, PoolRight, Called, SeatIn;
    var requests := [Begin(peer, ActivateSession(a), os), Begin(peer, ActivateSession(b), os)];
    var order := [0, 0, 1, 1, 1, 0];
    var p0, p1, p2 := PoolRun(t0, requests, []), PoolRun(t0, requests, [0]), PoolRun(t0, requests, [0, 0]);
    var p3, p4 := PoolRun(t0, requests, [0, 0, 1]), PoolRun(t0, requests, [0, 0, 1, 1]);
    var p5, p6 := PoolRun(t0, requests, [0, 0, 1, 1, 1]), PoolRun(t0, requests, order);
    assert [0][..0] == [] && [0, 0][..1] == [0] && [0, 0, 1][..2] == [0, 0] && [0, 0, 1, 1][..3] == [0, 0, 1];
    assert [0, 0, 1, 1, 1][..4] == [0, 0, 1, 1] && order[..5] == [0, 0, 1, 1, 1];
    hide PoolRun;
    AtNext(t0, requests, p0, 0, a, 0, seat);
    AtNext(t0, requests, p1, 0, a, 1, seat);
    assert p2.threads[1] == requests[1] && At(p2, 1, b, 0, seat);
    AtNext(t0, requests, p2, 1, b, 0, seat);
    AtNext(t0, requests, p3, 1, b, 1, seat);
    AtNext(t0, requests, p4, 1, b, 2, seat);
    AtNext(t0, requests, p5, 0, a, 2, seat);
    assert p6.calls == [InSessions(a), InSessions(b), InSeats(b), InSeats(a)];
    ActivationsExactly(t0, requests, order);
    CrossedCalls(t0, a, b, seat);
  }

  lemma CrossedCalls(t0: Tables, a: Sid, b: Sid, seat: string)
    requires Inv(t0) && a != b && SeatIn(t0, a) == Some(seat) && SeatIn(t0, b) == Some(seat)
    ensures !LastCallsAgree(t0, [InSessions(a), InSessions(b), InSeats(b), InSeats(a)])
  {
    var calls := [InSessions(a), InSessions(b), InSeats(b), InSeats(a)];
    assert seat in t0.seats;
    assert LastInSeats(t0, calls, seat) == Some(a);
    assert calls[..3] == [InSessions(a), InSessions(b), InSeats(b)]
        && calls[..3][..2] == [InSessions(a), InSessions(b)];
    assert LastInSessions(t0, calls[..3][..2], Some(seat)) == Some(b);
    assert LastInSessions(t0, calls[..3], Some(seat)) == LastInSessions(t0, calls, Some(seat)) == Some(b);
  }
}
