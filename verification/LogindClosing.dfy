/**
 A session closed while it is activated on its seat (quantra-logind/src/control.rs):
 the seat call comes first, so the close may run before the session call, whose
 error is ignored.  Exactly which orders leave the tables in agreement.
 */
module LogindClosing {
  import opened Optional
  import opened LogindTables
  import opened LogindOverlap

  /** The close's arguments, and the seat of the session. */
  datatype Removal = Removal(peer: Uid, sid: Sid, seat: string)

  /** The session is on the seat, and the peer may close it. */
  ghost predicate Possible(t0: Tables, c: Removal) {
    && CanActivate(t0.seats, c.seat, c.sid)
    && c.sid in t0.sessions && t0.sessions[c.sid].seat == Some(c.seat)
    && !Denied(c.peer, t0.sessions[c.sid].uid)
  }

  /** The session table: `called`, the session call came before the close. */
  function SessionsThen(t0: Tables, c: Removal, active: bool, closed: bool): SessionTable {
    var sessions := if active && c.sid in t0.sessions then Activated(t0.sessions, c.sid) else t0.sessions;
    if closed then sessions - {c.sid} else sessions
  }

  function SeatsThen(t0: Tables, c: Removal, shown: bool, removed: bool): SeatTable {
    var seats := if shown then SeatActivated(t0.seats, c.seat, c.sid) else t0.seats;
    if removed then SeatRemoved(seats, c.seat, c.sid) else seats
  }

  ghost predicate ActivationThen(c: Removal, na: nat, shown: bool, a: Thread) {
    var calls := if shown then 2 else 1;
    && a.req == ActivateSessionOnSeat(c.sid, c.seat)
    && a.pc == Min(na, calls) && (a.over <==> na >= calls)
  }

  ghost predicate ClosingThen(t0: Tables, c: Removal, nb: nat, b: Thread)
    requires Possible(t0, c)
  {
    && b.req == CloseSession(c.sid) && b.peer == c.peer
    && b.pc == Min(nb, 5) && (b.over <==> nb >= 5)
    && (nb >= 1 ==> b.uid == Some(t0.sessions[c.sid].uid))
    && (nb >= 2 ==> b.seat == Some(c.seat))
  }

  /** After na and nb turns; `shown`: the seat call came before the removal; `called`: the session call before
      the close. */
  ghost predicate Then(t0: Tables, c: Removal, na: nat, nb: nat, shown: bool, called: bool, p: Pair)
    requires Possible(t0, c)
  {
    && (nb < 3 ==> (shown <==> na >= 1)) && (shown ==> na >= 1)
    && (nb < 4 ==> (called <==> na >= 2)) && (called ==> na >= 2)
    && ActivationThen(c, na, shown || na == 0, p.a)
    && ClosingThen(t0, c, nb, p.b)
    && p.t == Tables(SessionsThen(t0, c, shown && called, nb >= 4), t0.nextId, SeatsThen(t0, c, shown, nb >= 3),
                     if nb >= 5 then LoggedOut(t0.users, t0.sessions[c.sid].uid, c.sid) else t0.users)
  }

  lemma MemberThen(t0: Tables, c: Removal, shown: bool, removed: bool)
    requires Possible(t0, c)
    ensures CanActivate(SeatsThen(t0, c, shown, removed), c.seat, c.sid) <==> !removed
    ensures SeatActivated(SeatsThen(t0, c, false, false), c.seat, c.sid) == SeatsThen(t0, c, true, false)
    ensures SeatRemoved(SeatsThen(t0, c, shown, false), c.seat, c.sid) == SeatsThen(t0, c, shown, true)
  {
  }

  lemma LiveThen(t0: Tables, c: Removal, active: bool)
    requires Possible(t0, c)
    ensures c.sid in SessionsThen(t0, c, active, false) && c.sid !in SessionsThen(t0, c, active, true)
    ensures SessionsThen(t0, c, active, false)[c.sid].uid == t0.sessions[c.sid].uid
    ensures SeatOf(SessionsThen(t0, c, active, false), c.sid) == Some(c.seat)
    ensures Activated(SessionsThen(t0, c, false, false), c.sid) == SessionsThen(t0, c, true, false)
    ensures SessionsThen(t0, c, active, true) == SessionsThen(t0, c, active, false) - {c.sid}
  {
  }

  lemma ActivationAdvances(t0: Tables, c: Removal, na: nat, nb: nat, shown: bool, called: bool, p: Pair)
    requires Possible(t0, c) && Then(t0, c, na, nb, shown, called, p)
    ensures var shown', called' := shown || (na + 1 >= 1 && nb < 3), called || (na + 1 >= 2 && nb < 4);
            Then(t0, c, na + 1, nb, shown', called', Advance(p, true))
  {
    MemberThen(t0, c, shown, nb >= 3);
    MemberThen(t0, c, false, false);
    LiveThen(t0, c, false);
    LiveThen(t0, c, shown && called);
    hide SessionsThen, SeatsThen, CanActivate, SeatActivated, Activated, LoggedOut, Possible;
  }

  lemma ClosingAdvances(t0: Tables, c: Removal, na: nat, nb: nat, shown: bool, called: bool, p: Pair)
    requires Possible(t0, c) && Then(t0, c, na, nb, shown, called, p)
    ensures var shown', called' := shown || (na >= 1 && nb + 1 < 3), called || (na >= 2 && nb + 1 < 4);
            Then(t0, c, na, nb + 1, shown', called', Advance(p, false))
  {
    MemberThen(t0, c, shown, nb >= 3);
    LiveThen(t0, c, shown && called);
    hide SessionsThen, SeatsThen, CanActivate, SeatRemoved, LoggedOut, SeatOf;
  }

  lemma {:induction false} ClosingRun(t0: Tables, c: Removal, peer: Uid, os: Os, os': Os, order: seq<bool>)
    requires Possible(t0, c)
    ensures var a, b := Begin(peer, ActivateSessionOnSeat(c.sid, c.seat), os), Begin(c.peer, CloseSession(c.sid), os');
            var p := Merged(t0, a, b, order);
            Then(t0, c, Turns(order, true), Turns(order, false), Before(order, 1, 3), Before(order, 2, 4), p)
    decreases |order|
  {
    hide Advance, Possible, LoggedOut;
    if order != [] {
      var front := order[..|order| - 1];
      ClosingRun(t0, c, peer, os, os', front);
      var a, b := Begin(peer, ActivateSessionOnSeat(c.sid, c.seat), os), Begin(c.peer, CloseSession(c.sid), os');
      var p := Merged(t0, a, b, front);
      var na, nb := Turns(front, true), Turns(front, false);
      hide Then, Merged;
      if order[|order| - 1] {
        ActivationAdvances(t0, c, na, nb, Before(front, 1, 3), Before(front, 2, 4), p);
      } else {
        ClosingAdvances(t0, c, na, nb, Before(front, 1, 3), Before(front, 2, 4), p);
      }
    }
  }

  // ------------------------------------------------------------------- the end

  /** Whoever else is Active on the seat is first in the list without the session. */
  predicate HandoverFits(t: Tables, seat: string, sid: Sid)
    requires seat in t.seats
  {
    forall id :: id in t.sessions && id != sid && t.sessions[id].seat == Some(seat) &&
                 t.sessions[id].state == SessionState.Active ==>
      First(Without(t.seats[seat].sessions, sid)) == Some(id)
  }

  /** The activation was refused: the close alone. */
  lemma OnlyClosed(t0: Tables, c: Removal, called: bool, t: Tables)
    requires Inv(t0) && Possible(t0, c)
    requires t == Tables(SessionsThen(t0, c, false, true), t0.nextId, SeatsThen(t0, c, false, true),
                         LoggedOut(t0.users, t0.sessions[c.sid].uid, c.sid))
    ensures Inv(t)
  {
    hide Inv, SeatRemoved, LoggedOut;
    CloseKeepsInv(t0, c.sid);
    assert t == Closed(t0, c.sid);
  }

  /** The activation was over before the close took the session away: as one after the other. */
  lemma ActivatedThenClosed(t0: Tables, c: Removal, t: Tables)
    requires Inv(t0) && Possible(t0, c)
    requires t == Tables(SessionsThen(t0, c, true, true), t0.nextId, SeatsThen(t0, c, true, true),
                         LoggedOut(t0.users, t0.sessions[c.sid].uid, c.sid))
    ensures Inv(t)
  {
    hide Inv, SeatRemoved, SeatActivated, LoggedOut;
    ActivateKeepsInv(t0, c.sid);
    LiveThen(t0, c, true);
    var t1 := ActivatedBoth(t0, c.sid);
    CloseKeepsInv(t1, c.sid);
    assert t == Closed(t1, c.sid);
  }

  /** The close came in between: the seat shows the first that is left, and nobody was displaced. */
  ghost predicate Between(t0: Tables, c: Removal, t: Tables)
    requires Possible(t0, c)
  {
    t == Tables(SessionsThen(t0, c, false, true), t0.nextId, SeatsThen(t0, c, true, true),
                LoggedOut(t0.users, t0.sessions[c.sid].uid, c.sid))
  }

  lemma SeatsBetween(t0: Tables, c: Removal)
    requires Inv(t0) && Possible(t0, c)
    ensures var seats, closed := SeatsThen(t0, c, true, true), SeatsThen(t0, c, false, true);
            && seats.Keys == closed.Keys == t0.seats.Keys && c.seat in seats && SeatsOk(seats)
            && (forall k :: k in seats ==> seats[k].sessions == closed[k].sessions)
            && (forall k :: k in seats && k != c.seat ==> seats[k] == closed[k] == t0.seats[k])
            && seats[c.seat].active == First(Without(t0.seats[c.seat].sessions, c.sid))
  {
    SeatsOkBetween(t0.seats, c.seat, c.sid);
    var seat := t0.seats[c.seat];
    hide Without, SeatsOk, Inv;
  }

  lemma SeatsOkBetween(seats: SeatTable, seat: string, sid: Sid)
    requires SeatsOk(seats)
    ensures SeatsOk(SeatRemoved(SeatActivated(seats, seat, sid), seat, sid))
  {
    hide SeatsOk, SeatActivated, SeatRemoved;
    SeatCallKeeps(seats, ActivateOn(seat, sid));
    SeatCallKeeps(SeatActivated(seats, seat, sid), RemoveSession(seat, sid));
  }

  lemma BetweenEnd(t0: Tables, c: Removal, t: Tables)
    requires Inv(t0) && Possible(t0, c) && Between(t0, c, t)
    ensures Inv(t) <==> HandoverFits(t0, c.seat, c.sid)
  {
    var closed := t.(seats := SeatsThen(t0, c, false, true));
    OnlyClosed(t0, c, false, closed);
    SeatsBetween(t0, c);
    SameLists(t.sessions, closed.seats, t.seats);
    hide SeatsThen, LoggedOut, Activated, SeatsOk, UsersOk, SeatsAgree, UsersLive;
    assert Inv(t) <==> ActiveShown(t.sessions, t.seats);
    ShownBetween(t0, c, t);
  }

  lemma ShownBetween(t0: Tables, c: Removal, t: Tables)
    requires Possible(t0, c) && c.seat in t0.seats && ActiveShown(t0.sessions, t0.seats)
    requires t.sessions == t0.sessions - {c.sid} && t.seats.Keys == t0.seats.Keys
    requires forall k :: k in t.seats && k != c.seat ==> t.seats[k] == t0.seats[k]
    requires t.seats[c.seat].active == First(Without(t0.seats[c.seat].sessions, c.sid))
    ensures ActiveShown(t.sessions, t.seats) <==> HandoverFits(t0, c.seat, c.sid)
  {
    hide Without, First, Possible;
    assert forall id :: IsActive(t.sessions, id) <==> IsActive(t0.sessions, id) && id != c.sid;
    if !HandoverFits(t0, c.seat, c.sid) {
      var id :| id in t0.sessions && id != c.sid && t0.sessions[id].seat == Some(c.seat)
        && t0.sessions[id].state == SessionState.Active
        && First(Without(t0.seats[c.seat].sessions, c.sid)) != Some(id);
      assert IsActive(t.sessions, id) && t.sessions[id].seat == Some(c.seat);
    }
  }

  // ------------------------------------------------------------ one of them refused

  lemma CloseAddsNobody(t: Tables, b: Thread, seat: string, sid: Sid)
    requires b.req == CloseSession(sid) && !CanActivate(t.seats, seat, sid)
    ensures var (t', b') := Turn(t, b); b'.req == b.req && !CanActivate(t'.seats, seat, sid)
  {
    hide LoggedOut;
  }

  lemma RefusedSeatCall(t: Tables, a: Thread, seat: string, sid: Sid)
    requires a.req == ActivateSessionOnSeat(sid, seat) && !CanActivate(t.seats, seat, sid) && (a.over || a.pc == 0)
    ensures var (t', a') := Turn(t, a); t' == t && a'.req == a.req && a'.over
  {
  }

  /** A seat call on a session that is not on the seat is refused, whatever the close has done. */
  lemma {:induction false} NotOnSeatRun(t0: Tables, sid: Sid, seat: string, a: Thread, b: Thread, order: seq<bool>)
    requires !CanActivate(t0.seats, seat, sid) && b.req == CloseSession(sid)
    requires a.req == ActivateSessionOnSeat(sid, seat) && a.pc == 0
    ensures var p := Merged(t0, a, b, order);
            && (p.t, p.b) == Alone(t0, b, Turns(order, false))
            && !CanActivate(p.t.seats, seat, sid)
            && p.b.req == CloseSession(sid) && p.a.req == ActivateSessionOnSeat(sid, seat)
            && (p.a.over || p.a.pc == 0)
    decreases |order|
  {
    hide CanActivate, Turn;
    if order != [] {
      var front := order[..|order| - 1];
      NotOnSeatRun(t0, sid, seat, a, b, front);
      var p := Merged(t0, a, b, front);
      if order[|order| - 1] { RefusedSeatCall(p.t, p.a, seat, sid); } else { CloseAddsNobody(p.t, p.b, seat, sid); }
    }
  }

  lemma OwnerStays(t: Tables, a: Thread, sid: Sid)
    requires a.req.ActivateSessionOnSeat? && sid in t.sessions
    ensures var (t', a') := Turn(t, a);
            a'.req == a.req && sid in t'.sessions && t'.sessions[sid].uid == t.sessions[sid].uid
  {
  }

  /** A close that is denied stops after its two reads. */
  lemma {:induction false} DeniedRun(t0: Tables, sid: Sid, peer: Uid, a: Thread, os: Os, order: seq<bool>)
    requires sid in t0.sessions && Denied(peer, t0.sessions[sid].uid) && a.req.ActivateSessionOnSeat?
    ensures var p := Merged(t0, a, Begin(peer, CloseSession(sid), os), order);
            && (p.t, p.a) == Alone(t0, a, Turns(order, true))
            && p.a.req == a.req && sid in p.t.sessions && p.t.sessions[sid].uid == t0.sessions[sid].uid
            && RefusedShape(sid, t0.sessions[sid].uid, peer, Turns(order, false), p.b)
    decreases |order|
  {
    hide Turn;
    if order != [] {
      var front := order[..|order| - 1];
      DeniedRun(t0, sid, peer, a, os, front);
      var p := Merged(t0, a, Begin(peer, CloseSession(sid), os), front);
      hide Merged, RefusedShape;
      if order[|order| - 1] {
        OwnerStays(p.t, p.a, sid);
      } else {
        RefusedTurn(sid, t0.sessions[sid].uid, peer, Turns(front, false), p.t, p.b);
      }
    }
  }

  // -------------------------------------------------------------- main result

  /**
   ActivateSessionOnSeat of a session that is being closed: the tables agree afterwards exactly when
   the session was not on the seat, the close was denied, it removed the session from the seat before
   the activation looked, or removed the session only after the activation was over, or whoever else
   was Active on the seat is the one the seat falls back to.
   */
  lemma OnSeatCloseExactly(t0: Tables, sid: Sid, seat: string, peer: Uid, os: Os, peer': Uid, os': Os, order: seq<bool>)
    requires Inv(t0)
    requires Complete(Merged(t0, Begin(peer, ActivateSessionOnSeat(sid, seat), os),
        Begin(peer', CloseSession(sid), os'), order))
    ensures Inv(Merged(t0, Begin(peer, ActivateSessionOnSeat(sid, seat), os), Begin(peer', CloseSession(sid), os'),
        order).t) <==>
            || !CanActivate(t0.seats, seat, sid)
            || Denied(peer', t0.sessions[sid].uid)
            || !Before(order, 1, 3)
            || Before(order, 2, 4)
            || HandoverFits(t0, seat, sid)
  {
    hide Merged, Before, SessionsThen, SeatsThen, LoggedOut, HandoverFits;
    var a, b := Begin(peer, ActivateSessionOnSeat(sid, seat), os), Begin(peer', CloseSession(sid), os');
    var p := Merged(t0, a, b, order);
    var c := Removal(peer', sid, seat);
    if !CanActivate(t0.seats, seat, sid) {
      NotOnSeatRun(t0, sid, seat, a, b, order);
      OverIsStep(t0, peer', CloseSession(sid), os', Turns(order, false));
      StepKeepsInv(t0, peer', CloseSession(sid), os');
    } else {
      SeatMembersAreLive(t0, sid, seat);
      if Denied(peer', t0.sessions[sid].uid) {
        DeniedRun(t0, sid, peer', a, os', order);
        OverIsStep(t0, peer, ActivateSessionOnSeat(sid, seat), os, Turns(order, true));
        StepKeepsInv(t0, peer, ActivateSessionOnSeat(sid, seat), os);
      } else {
        ClosingRun(t0, c, peer, os, os', order);
        ClosingEnd(t0, c, Turns(order, true), Turns(order, false), Before(order, 1, 3), Before(order, 2, 4), p);
      }
    }
  }

  lemma ClosingEnd(t0: Tables, c: Removal, na: nat, nb: nat, shown: bool, called: bool, p: Pair)
    requires Inv(t0) && Possible(t0, c) && Then(t0, c, na, nb, shown, called, p) && Complete(p)
    ensures Inv(p.t) <==> !shown || called || HandoverFits(t0, c.seat, c.sid)
  {
    hide Inv, SessionsThen, SeatsThen, LoggedOut, HandoverFits;
    if !shown { OnlyClosed(t0, c, called, p.t); }
    else if called { ActivatedThenClosed(t0, c, p.t); }
    else { BetweenEnd(t0, c, p.t); }
  }

  const BETWEEN := [true, false, false, false, false, false, true]

  lemma BetweenOrder()
    ensures Turns(BETWEEN, true) == 2 && Turns(BETWEEN, false) == 5
    ensures Before(BETWEEN, 1, 3) && !Before(BETWEEN, 2, 4)
  {
    var o1, o3, o6 := [true], [true, false, false], [true, false, false, false, false, false];
    assert o1[..0] == [] && o3[..2] == [true, false] && [true, false][..1] == o1;
    assert BETWEEN[..6] == o6 && o6[..5] == [true, false, false, false, false];
    assert [true, false, false, false, false][..4] == [true, false, false, false];
    assert [true, false, false, false][..3] == o3;
    assert Turns(o3, true) == 1 && Turns(o3, false) == 2;
    assert Turns(o6, true) == 1 && Turns(o6, false) == 5;
    if Before(o6, 2, 4) { BeforeMeansTurn(o6, 2, 4); }
    assert Before(o3, 1, 3);
    assert Before([true, false, false, false, false], 1, 3);
  }

  lemma NoHandover()
    ensures CanActivate(THREE.seats, SEAT0, 3) && !HandoverFits(THREE, SEAT0, 3)
    ensures Possible(THREE, Removal(0, 3, SEAT0))
  {
    assert Without([1, 2, 3], 3) == [1, 2] by {
      assert [1, 2, 3][1..] == [2, 3] && [2, 3][1..] == [3] && [3][1..] == [];
    }
    ThreeSessions(2);
    ThreeSessions(3);
  }

  /** The close of session 3 runs inside its activation: session 2 stays Active, and seat0 falls back to 1. */
  lemma CloseInsideActivation(os: Os)
    ensures var a, b := Begin(0, ActivateSessionOnSeat(3, SEAT0), os), Begin(0, CloseSession(3), os);
            var p := Merged(THREE, a, b, BETWEEN);
            Complete(p) && !Inv(p.t)
  {
    hide Merged, Turns, Before, Inv, HandoverFits, CanActivate, Possible, SessionsThen, SeatsThen, LoggedOut;
    ThreeAgree();
    BetweenOrder();
    NoHandover();
    ClosingRun(THREE, Removal(0, 3, SEAT0), 0, os, os, BETWEEN);
    OnSeatCloseExactly(THREE, 3, SEAT0, 0, os, 0, os, BETWEEN);
  }
}
