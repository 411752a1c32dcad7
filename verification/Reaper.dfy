/**
 The SIGCHLD reaper of PID 1 (quantra/src/signals.rs) as a transition system:
 the kernel turns children into zombies and raises one coalescing signal, any
 thread may run the handler, the handler writes a byte to a bounded pipe, and
 the reaper thread alternates between a 256-byte read and a drain of waitpid.

 The signal is masked nowhere, so the handler may interrupt the reaper thread
 itself, or a thread that holds a lock which the reaper needs between collecting
 a child and recording its code: the lock of the exit-code map, which every
 caller of `get_exit_code` takes, or one of the logger's.  The write to a full
 pipe blocks when the pipe was made without O_NONBLOCK, as the source makes it.
 Other threads may wait for any child too (services/socket_activation.rs).
 */
module Reaper {
  import opened Optional

  type Pid = p: int | 0 < p witness 1

  /** How a child ended; without WUNTRACED, waitpid reports nothing else. */
  datatype Status = Exited(code: nat) | Signaled(sig: int, core: bool)

  predicate ValidStatus(st: Status) {
    match st
    case Exited(code) => code <= 255
    case Signaled(sig, _) => 1 <= sig <= 126
  }

  type ExitStatus = st: Status | ValidStatus(st) witness Exited(0)

  // ------------------------------------------------------------ wait statuses

  /** The status word the kernel reports. */
  function WaitWord(st: ExitStatus): nat {
    match st
    case Exited(code) => code * 256
    case Signaled(sig, core) => sig + (if core then 128 else 0)
  }

  predicate WIfExited(w: nat) { w % 128 == 0 }
  function WExitStatus(w: nat): nat { w / 256 % 256 }
  predicate WIfSignaled(w: nat) { w % 128 != 0 && w % 128 != 127 }
  function WTermSig(w: nat): int { w % 128 }

  /** The number stored in the exit-code map. */
  function Code(w: nat): int {
    if WIfExited(w) then WExitStatus(w)
    else if WIfSignaled(w) then -WTermSig(w)
    else 0
  }

  /** Negative exactly for a signal, and then the signal; otherwise the exit code. */
  lemma CodeMeaning(st: ExitStatus)
    ensures st.Exited? ==> Code(WaitWord(st)) == st.code
    ensures st.Signaled? ==> Code(WaitWord(st)) == -st.sig
    ensures Code(WaitWord(st)) < 0 <==> st.Signaled?
  {
  }

  // ------------------------------------------------------------------- states

  type Event = (Pid, ExitStatus)

  /**
   The pipe; how many locks the drain loop takes, each held by one thread at most; and whether the
   signal is masked on the reaper thread and on threads that hold such a lock.  The source is
   blocking, with neither mask.
   */
  datatype Config = Config(capacity: nat, blocking: bool, locks: nat, reaperMasked: bool, holdersMasked: bool)

  datatype State = State(
    zombies: map<Pid, ExitStatus>,
    pending: bool,             // SIGCHLD is raised and not yet delivered
    elsewhere: nat,            // handlers about to write, on threads without such a lock
    onReaper: bool,            // a handler about to write, on the reaper thread
    onHolders: nat,            // handlers about to write, on threads that hold a lock
    holders: nat,              // other threads that hold a lock the drain loop takes
    pipe: nat,                 // bytes in the pipe
    draining: bool,            // the reaper is in its waitpid loop, not in read
    inHand: Option<Event>,     // the child the reaper has collected and not yet recorded
    codes: map<Pid, int>,      // EXIT_CODES
    exits: seq<Event>,         // history: every exit so far
    reaped: seq<Event>,        // history: every child recorded so far
    taken: seq<Event>)         // history: every child collected by another waiter

  const INIT := State(map[], false, 0, false, 0, 0, 0, false, None, map[], [], [], [])

  const READ_SIZE: nat := 256

  /** The thread that a handler runs on. */
  datatype Place = OnReaper | OnHolder | Elsewhere

  datatype Label =
    | Exit(pid: Pid, status: ExitStatus)
    | Take(pid: Pid)            // another thread waits for the child
    | Lock                      // another thread takes a lock
    | Unlock
    | Deliver(at: Place)
    | Write(at: Place)
    | Drop(at: Place)           // a write that fails on a full non-blocking pipe
    | Read
    | Collect(pid: Pid)         // waitpid in the drain loop
    | Record                    // the log line and the map entry, which need the locks
    | DrainEnd

  predicate Handling(s: State, at: Place) {
    match at case OnReaper => s.onReaper case OnHolder => s.onHolders > 0 case Elsewhere => s.elsewhere > 0
  }

  /** The handler may start there: the signal is masked while it runs on a thread. */
  predicate Deliverable(c: Config, s: State, at: Place) {
    match at
    case OnReaper => !c.reaperMasked && !s.onReaper
    case OnHolder => !c.holdersMasked && s.onHolders < s.holders
    case Elsewhere => true
  }

  ghost predicate Enabled(c: Config, s: State, l: Label) {
    match l
    case Exit(pid, _) => pid !in s.zombies
    case Take(pid) => pid in s.zombies
    case Lock => s.holders < c.locks
    case Unlock => s.onHolders < s.holders
    case Deliver(at) => s.pending && Deliverable(c, s, at)
    case Write(at) => s.pipe < c.capacity && Handling(s, at)
    case Drop(at) => !c.blocking && s.pipe >= c.capacity && Handling(s, at)
    case Read => !s.onReaper && !s.draining && s.pipe > 0
    case Collect(pid) => !s.onReaper && s.draining && s.inHand.None? && pid in s.zombies
    case Record => !s.onReaper && s.inHand.Some? && s.holders == 0
    case DrainEnd => !s.onReaper && s.draining && s.inHand.None? && s.zombies == map[]
  }

  function Remove(m: map<Pid, ExitStatus>, pid: Pid): map<Pid, ExitStatus> { m - {pid} }

  function Started(s: State, at: Place): State {
    match at
    case OnReaper => s.(onReaper := true)
    case OnHolder => s.(onHolders := s.onHolders + 1)
    case Elsewhere => s.(elsewhere := s.elsewhere + 1)
  }

  function Done(s: State, at: Place): State
    requires Handling(s, at)
  {
    match at
    case OnReaper => s.(onReaper := false)
    case OnHolder => s.(onHolders := s.onHolders - 1)
    case Elsewhere => s.(elsewhere := s.elsewhere - 1)
  }

  ghost function After(c: Config, s: State, l: Label): State
    requires Enabled(c, s, l)
  {
    match l
    case Exit(pid, status) =>
      s.(zombies := s.zombies[pid := status], pending := true, exits := s.exits + [(pid, status)])
    case Take(pid) => s.(zombies := Remove(s.zombies, pid), taken := s.taken + [(pid, s.zombies[pid])])
    case Lock => s.(holders := s.holders + 1)
    case Unlock => s.(holders := s.holders - 1)
    case Deliver(at) => Started(s, at).(pending := false)
    case Write(at) => Done(s, at).(pipe := s.pipe + 1)
    case Drop(at) => Done(s, at)
    case Read => s.(pipe := if s.pipe < READ_SIZE then 0 else s.pipe - READ_SIZE, draining := true)
    case Collect(pid) => s.(zombies := Remove(s.zombies, pid), inHand := Some((pid, s.zombies[pid])))
    case Record =>
      var e := s.inHand.value;
      s.(codes := s.codes[e.0 := Code(WaitWord(e.1))], reaped := s.reaped + [e], inHand := None)
    case DrainEnd => s.(draining := false)
  }

  ghost predicate Valid(c: Config, s: State, trace: seq<Label>)
    decreases |trace|
  {
    trace == [] || (Enabled(c, s, trace[0]) && Valid(c, After(c, s, trace[0]), trace[1..]))
  }

  ghost function Final(c: Config, s: State, trace: seq<Label>): State
    requires Valid(c, s, trace)
    decreases |trace|
  {
    if trace == [] then s else Final(c, After(c, s, trace[0]), trace[1..])
  }

  // ---------------------------------------------------------------- invariants

  /** No lost wake-up: while there is a zombie, something will still make the reaper drain. */
  ghost predicate Awake(s: State) {
    s.zombies != map[] ==>
      s.pending || s.elsewhere > 0 || s.onReaper || s.onHolders > 0 || s.pipe > 0 || s.draining
  }

  ghost function Latest(events: seq<Event>, pid: Pid): Option<ExitStatus> {
    if events == [] then None
    else if events[|events| - 1].0 == pid then Some(events[|events| - 1].1)
    else Latest(events[..|events| - 1], pid)
  }

  ghost function Pairs(m: map<Pid, ExitStatus>): set<Event> {
    set p | p in m :: (p, m[p])
  }

  ghost function Items(m: map<Pid, ExitStatus>): multiset<Event> {
    multiset(Pairs(m))
  }

  ghost function Hand(e: Option<Event>): multiset<Event> { if e.Some? then multiset{e.value} else multiset{} }

  /** Every exit is recorded once, in the reaper's hand, taken by another waiter, or still a zombie. */
  ghost predicate Conserved(s: State) {
    multiset(s.exits) == multiset(s.reaped) + Hand(s.inHand) + multiset(s.taken) + Items(s.zombies)
  }

  /** The map holds what the last recorded exit of each pid says. */
  ghost predicate CodesRecorded(s: State) {
    && (forall pid :: pid in s.codes <==> Latest(s.reaped, pid).Some?)
    && (forall pid :: pid in s.codes ==> s.codes[pid] == Code(WaitWord(Latest(s.reaped, pid).value)))
  }

  /** The last exit of a pid that no other waiter took: a zombie, in hand, or recorded. */
  ghost predicate LastExit(s: State, pid: Pid) {
    Latest(s.taken, pid).Some? ||
    Latest(s.exits, pid) ==
      if pid in s.zombies then Some(s.zombies[pid])
      else if s.inHand.Some? && s.inHand.value.0 == pid then Some(s.inHand.value.1)
      else Latest(s.reaped, pid)
  }

  ghost predicate CodesLatest(s: State) { CodesRecorded(s) && forall pid: Pid :: LastExit(s, pid) }

  /** The pipe fits, no handler is where the signal is masked, and the reaper holds a child only while it drains. */
  ghost predicate Sound(c: Config, s: State) {
    && (s.inHand.Some? ==> s.draining)
    && s.pipe <= c.capacity && s.onHolders <= s.holders <= c.locks
    && (c.reaperMasked ==> !s.onReaper) && (c.holdersMasked ==> s.onHolders == 0)
  }

  ghost predicate Inv(c: Config, s: State) {
    Awake(s) && Sound(c, s) && Conserved(s) && CodesLatest(s)
  }

  lemma ItemsAdd(m: map<Pid, ExitStatus>, pid: Pid, st: ExitStatus)
    requires pid !in m
    ensures Items(m[pid := st]) == Items(m) + multiset{(pid, st)}
  {
    var m' := m[pid := st];
    forall e | e in Pairs(m') ensures e in Pairs(m) + {(pid, st)} {
      if e.0 != pid { assert e.0 in m && e == (e.0, m[e.0]); }
    }
    forall e | e in Pairs(m) + {(pid, st)} ensures e in Pairs(m') {
      assert e.0 in m' && e == (e.0, m'[e.0]);
    }
    assert Pairs(m') == Pairs(m) + {(pid, st)};
    assert (pid, st) !in Pairs(m);
  }

  lemma ItemsRemove(m: map<Pid, ExitStatus>, pid: Pid)
    requires pid in m
    ensures Items(m) == Items(Remove(m, pid)) + multiset{(pid, m[pid])}
  {
    var m' := Remove(m, pid);
    assert m == m'[pid := m[pid]];
    ItemsAdd(m', pid, m[pid]);
  }

  lemma LatestAppend(events: seq<Event>, e: Event, pid: Pid)
    ensures Latest(events + [e], pid) == if e.0 == pid then Some(e.1) else Latest(events, pid)
  {
    assert (events + [e])[..|events|] == events;
  }

  lemma ExitKeepsInv(c: Config, s: State, pid: Pid, status: ExitStatus)
    requires Inv(c, s) && pid !in s.zombies
    ensures Inv(c, After(c, s, Exit(pid, status)))
  {
    hide Items, Hand, Code, WaitWord;
    ItemsAdd(s.zombies, pid, status);
    var s' := After(c, s, Exit(pid, status));
    forall p: Pid ensures LastExit(s', p) {
      LatestAppend(s.exits, (pid, status), p);
      assert LastExit(s, p);
    }
  }

  lemma TakeKeepsInv(c: Config, s: State, pid: Pid)
    requires Inv(c, s) && Enabled(c, s, Take(pid))
    ensures Inv(c, After(c, s, Take(pid)))
  {
    hide Items, Hand, Code, WaitWord;
    ItemsRemove(s.zombies, pid);
    var s' := After(c, s, Take(pid));
    forall p: Pid ensures LastExit(s', p) {
      LatestAppend(s.taken, (pid, s.zombies[pid]), p);
      assert LastExit(s, p);
    }
    hide Latest, LastExit;
  }

  lemma CollectKeepsInv(c: Config, s: State, pid: Pid)
    requires Inv(c, s) && Enabled(c, s, Collect(pid))
    ensures Inv(c, After(c, s, Collect(pid)))
  {
    hide Items, Code, WaitWord, Latest;
    ItemsRemove(s.zombies, pid);
    var s' := After(c, s, Collect(pid));
    forall p: Pid ensures LastExit(s', p) { assert LastExit(s, p); }
  }

  lemma RecordKeepsInv(c: Config, s: State)
    requires Inv(c, s) && Enabled(c, s, Record)
    ensures Inv(c, After(c, s, Record))
  {
    hide Items, Code, WaitWord;
    var s' := After(c, s, Record);
    forall p: Pid ensures LastExit(s', p) && Latest(s'.reaped, p) ==
      if s.inHand.value.0 == p then Some(s.inHand.value.1) else Latest(s.reaped, p)
    {
      LatestAppend(s.reaped, s.inHand.value, p);
      assert LastExit(s, p);
    }
  }

  ghost predicate SameChildren(s: State, s': State) {
    && s'.zombies == s.zombies && s'.inHand == s.inHand && s'.codes == s.codes
    && s'.exits == s.exits && s'.reaped == s.reaped && s'.taken == s.taken
  }

  lemma ChildrenKeep(s: State, s': State)
    requires SameChildren(s, s') && Conserved(s) && CodesLatest(s)
    ensures Conserved(s') && CodesLatest(s')
  {
    hide Items, Hand, Code, WaitWord, Latest;
    forall p: Pid ensures LastExit(s', p) { assert LastExit(s, p); }
  }

  predicate TouchesNoChild(l: Label) { !l.Exit? && !l.Take? && !l.Collect? && !l.Record? }

  function B(b: bool): nat { if b then 1 else 0 }

  /** The work apart from the children. */
  function Motion(s: State): nat {
    4 * B(s.pending) + 3 * (s.elsewhere + B(s.onReaper) + s.onHolders) + 2 * s.pipe + B(s.draining) + s.holders
  }

  ghost predicate QuietlyTo(c: Config, s: State, s': State) {
    SameChildren(s, s') && (Awake(s) && Sound(c, s) ==> Awake(s') && Sound(c, s'))
  }

  lemma DeliverStep(c: Config, s: State, at: Place)
    requires Enabled(c, s, Deliver(at))
    ensures QuietlyTo(c, s, After(c, s, Deliver(at))) && Motion(After(c, s, Deliver(at))) < Motion(s)
  {
    match at
    case OnReaper =>
    case OnHolder =>
    case Elsewhere =>
  }

  lemma WriteStep(c: Config, s: State, at: Place)
    requires Enabled(c, s, Write(at))
    ensures QuietlyTo(c, s, After(c, s, Write(at))) && Motion(After(c, s, Write(at))) < Motion(s)
  {
    match at
    case OnReaper =>
    case OnHolder =>
    case Elsewhere =>
  }

  lemma DropStep(c: Config, s: State, at: Place)
    requires c.capacity > 0 && Enabled(c, s, Drop(at))
    ensures QuietlyTo(c, s, After(c, s, Drop(at))) && Motion(After(c, s, Drop(at))) < Motion(s)
  {
    match at
    case OnReaper =>
    case OnHolder =>
    case Elsewhere =>
  }

  lemma QuietStep(c: Config, s: State, l: Label)
    requires c.capacity > 0 && Enabled(c, s, l) && TouchesNoChild(l)
    ensures QuietlyTo(c, s, After(c, s, l)) && (!l.Lock? ==> Motion(After(c, s, l)) < Motion(s))
  {
    match l
    case Deliver(at) => DeliverStep(c, s, at); hide After, Enabled, QuietlyTo, Motion;
    case Write(at) => WriteStep(c, s, at); hide After, Enabled, QuietlyTo, Motion;
    case Drop(at) => DropStep(c, s, at); hide After, Enabled, QuietlyTo, Motion;
    case Lock =>
    case Unlock =>
    case Read =>
    case DrainEnd =>
  }

  /** The other steps touch no child. */
  lemma QuietKeepsInv(c: Config, s: State, l: Label)
    requires c.capacity > 0 && Inv(c, s) && Enabled(c, s, l) && TouchesNoChild(l)
    ensures Inv(c, After(c, s, l))
  {
    hide Enabled, After, Awake, Sound, Conserved, CodesLatest, SameChildren, Motion;
    QuietStep(c, s, l);
    ChildrenKeep(s, After(c, s, l));
  }

  lemma StepKeepsInv(c: Config, s: State, l: Label)
    requires c.capacity > 0 && Inv(c, s) && Enabled(c, s, l)
    ensures Inv(c, After(c, s, l))
  {
    hide Inv, Enabled, After;
    match l
    case Exit(pid, status) => ExitIsNew(c, s, pid, status); ExitKeepsInv(c, s, pid, status);
    case Take(pid) => TakeKeepsInv(c, s, pid);
    case Collect(pid) => CollectKeepsInv(c, s, pid);
    case Record => RecordKeepsInv(c, s);
    case _ => QuietKeepsInv(c, s, l);
  }

  lemma ExitIsNew(c: Config, s: State, pid: Pid, status: ExitStatus)
    requires Enabled(c, s, Exit(pid, status))
    ensures pid !in s.zombies
  {
  }

  lemma {:induction false} RunsKeepInv(c: Config, s: State, trace: seq<Label>)
    requires c.capacity > 0 && Inv(c, s) && Valid(c, s, trace)
    ensures Inv(c, Final(c, s, trace))
    decreases |trace|
  {
    hide Inv, Enabled, After;
    if trace != [] {
      StepKeepsInv(c, s, trace[0]);
      RunsKeepInv(c, After(c, s, trace[0]), trace[1..]);
    }
  }

  /** Safety of every run from start-up, for every pipe, number of locks and mask. */
  lemma EveryRun(c: Config, trace: seq<Label>)
    requires c.capacity > 0 && Valid(c, INIT, trace)
    ensures Inv(c, Final(c, INIT, trace))
  {
    assert Items(map[]) == multiset{};
    assert Inv(c, INIT);
    RunsKeepInv(c, INIT, trace);
  }

  // ------------------------------------------------------------------ progress

  /** Steps that the protocol takes by itself; exits, other waiters and lock holders are not its own. */
  predicate Internal(l: Label) { !l.Exit? && !l.Take? && !l.Lock? }

  /** Work left: every step but a new exit and a new holder lowers it. */
  function Work(s: State): nat {
    2 * |s.zombies| + B(s.inHand.Some?) + Motion(s)
  }

  lemma RemoveSize(m: map<Pid, ExitStatus>, pid: Pid)
    requires pid in m
    ensures |Remove(m, pid)| == |m| - 1
  {
    assert m.Keys == Remove(m, pid).Keys + {pid};
  }

  lemma StepWorks(c: Config, s: State, l: Label)
    requires c.capacity > 0 && Enabled(c, s, l) && !l.Exit? && !l.Lock?
    ensures Work(After(c, s, l)) < Work(s)
  {
    hide Remove, Code, WaitWord, Awake, Sound;
    match l
    case Take(pid) => RemoveSize(s.zombies, pid);
    case Collect(pid) => RemoveSize(s.zombies, pid);
    case Record =>
    case _ =>
      QuietStep(c, s, l);
      hide After, Enabled;
  }

  ghost predicate NoNewWork(trace: seq<Label>) {
    forall i :: 0 <= i < |trace| ==> !trace[i].Exit? && !trace[i].Lock?
  }

  /** With no new exits and no new lock holders a run ends within as many steps as there is work. */
  lemma {:induction false} RunsEnd(c: Config, s: State, trace: seq<Label>)
    requires c.capacity > 0 && Valid(c, s, trace) && NoNewWork(trace)
    ensures |trace| + Work(Final(c, s, trace)) <= Work(s)
    decreases |trace|
  {
    hide Enabled, After, Work;
    if trace != [] {
      StepWorks(c, s, trace[0]);
      RunsEnd(c, After(c, s, trace[0]), trace[1..]);
    }
  }

  ghost predicate Stopped(c: Config, s: State) {
    forall l: Label :: Internal(l) ==> !Enabled(c, s, l)
  }

  /**
   A handler waits for the reaper to empty the pipe, and the reaper waits for the handler: it runs on
   the reaper thread, or on a thread with a lock that the reaper needs for the child in its hand.
   */
  ghost predicate Deadlocked(c: Config, s: State) {
    c.blocking && s.pipe >= c.capacity && (s.onReaper || (s.onHolders > 0 && s.inHand.Some?))
  }

  ghost predicate Idle(s: State) {
    && s.zombies == map[] && s.inHand.None? && !s.pending && !s.draining && s.pipe == 0
    && s.elsewhere == 0 && !s.onReaper && s.onHolders == 0 && s.holders == 0
  }

  lemma StoppedIsQuiet(c: Config, s: State)
    requires c.capacity > 0 && Awake(s) && Sound(c, s) && Stopped(c, s) && !Deadlocked(c, s)
    ensures Idle(s)
  {
    assert !Enabled(c, s, Write(OnReaper)) && !Enabled(c, s, Drop(OnReaper));
    assert !Enabled(c, s, Write(OnHolder)) && !Enabled(c, s, Drop(OnHolder));
    assert !Enabled(c, s, Write(Elsewhere)) && !Enabled(c, s, Drop(Elsewhere));
    assert !Enabled(c, s, Deliver(Elsewhere)) && !Enabled(c, s, Unlock);
    assert !Enabled(c, s, Read) && !Enabled(c, s, Record) && !Enabled(c, s, DrainEnd);
    assert forall pid :: pid in s.zombies ==> !Enabled(c, s, Collect(pid));
  }

  /**
   A run that cannot go on and is not deadlocked is idle: every child is recorded or was taken by
   another waiter, and a pid that no other waiter took has the code of its last exit.
   */
  lemma StoppedMeans(c: Config, s: State)
    requires c.capacity > 0 && Inv(c, s) && Stopped(c, s) && !Deadlocked(c, s)
    ensures Idle(s) && multiset(s.exits) == multiset(s.reaped) + multiset(s.taken)
    ensures forall pid: Pid :: Latest(s.exits, pid).Some? && Latest(s.taken, pid).None? ==>
              pid in s.codes && s.codes[pid] == Code(WaitWord(Latest(s.exits, pid).value))
  {
    hide Stopped, Code, WaitWord;
    StoppedIsQuiet(c, s);
    assert Items(map[]) == multiset{};
    forall pid: Pid | Latest(s.exits, pid).Some? && Latest(s.taken, pid).None?
      ensures pid in s.codes && s.codes[pid] == Code(WaitWord(Latest(s.exits, pid).value))
    {
      assert LastExit(s, pid);
    }
  }

  /** Then every exit is recorded exactly when no other waiter took a child. */
  lemma AllRecordedExactly(c: Config, s: State)
    requires c.capacity > 0 && Inv(c, s) && Stopped(c, s) && !Deadlocked(c, s)
    ensures multiset(s.exits) == multiset(s.reaped) <==> s.taken == []
  {
    hide Stopped, Inv;
    StoppedMeans(c, s);
    if s.taken != [] { assert s.taken[0] in multiset(s.taken); }
    assert |multiset(s.exits)| == |multiset(s.reaped)| + |multiset(s.taken)|;
  }

  /** Once deadlocked, always deadlocked, and no child is recorded again. */
  lemma {:induction false} DeadlockIsForever(c: Config, s: State, trace: seq<Label>)
    requires Deadlocked(c, s) && Sound(c, s) && Valid(c, s, trace)
    ensures Deadlocked(c, Final(c, s, trace)) && Final(c, s, trace).reaped == s.reaped
    decreases |trace|
  {
    hide Code, WaitWord, Remove;
    if trace != [] {
      DeadlockStays(c, s, trace[0]);
      hide Enabled, After, Deadlocked, Sound;
      DeadlockIsForever(c, After(c, s, trace[0]), trace[1..]);
    }
  }

  lemma DeadlockStays(c: Config, s: State, l: Label)
    requires Deadlocked(c, s) && Sound(c, s) && Enabled(c, s, l)
    ensures Deadlocked(c, After(c, s, l)) && Sound(c, After(c, s, l)) && After(c, s, l).reaped == s.reaped
  {
    hide Code, WaitWord, Remove;
  }

  // ------------------------------------------------- the deadlocks can happen

  lemma {:induction false} Extend(c: Config, s: State, trace: seq<Label>, l: Label)
    requires Valid(c, s, trace) && Enabled(c, Final(c, s, trace), l)
    ensures Valid(c, s, trace + [l]) && Final(c, s, trace + [l]) == After(c, Final(c, s, trace), l)
    decreases |trace|
  {
    hide Enabled, After;
    if trace == [] {
      assert trace + [l] == [l];
      assert Valid(c, After(c, s, l), []);
      assert [l][1..] == [];
    } else {
      Extend(c, After(c, s, trace[0]), trace[1..], l);
      assert (trace + [l])[1..] == trace[1..] + [l];
    }
  }

  /** The reaper is draining, all else is idle, n bytes wait, pid 1 is a zombie and pids above n + 1 are unused. */
  ghost predicate Filling(s: State, n: nat) {
    && s.draining && !s.onReaper && s.elsewhere == 0 && s.onHolders == 0 && s.holders == 0
    && !s.pending && s.pipe == n && s.inHand.None?
    && 1 in s.zombies && forall p :: p in s.zombies ==> p <= n + 1
  }

  lemma OneMoreByte(c: Config, trace: seq<Label>, n: nat) returns (trace': seq<Label>)
    requires Valid(c, INIT, trace) && Filling(Final(c, INIT, trace), n) && n < c.capacity
    ensures Valid(c, INIT, trace') && Filling(Final(c, INIT, trace'), n + 1)
  {
    hide Valid, Final;
    Extend(c, INIT, trace, Exit(n + 2, Exited(0)));
    trace' := trace + [Exit(n + 2, Exited(0))];
    Extend(c, INIT, trace', Deliver(Elsewhere));
    trace' := trace' + [Deliver(Elsewhere)];
    Extend(c, INIT, trace', Write(Elsewhere));
    trace' := trace' + [Write(Elsewhere)];
  }

  lemma FirstByte(c: Config) returns (trace: seq<Label>)
    requires c.capacity > 0
    ensures Valid(c, INIT, trace) && Filling(Final(c, INIT, trace), 0)
  {
    trace := [];
    assert Valid(c, INIT, trace) && Final(c, INIT, trace) == INIT;
    hide Valid, Final;
    Extend(c, INIT, trace, Exit(1, Exited(0)));
    trace := trace + [Exit(1, Exited(0))];
    Extend(c, INIT, trace, Deliver(Elsewhere));
    trace := trace + [Deliver(Elsewhere)];
    Extend(c, INIT, trace, Write(Elsewhere));
    trace := trace + [Write(Elsewhere)];
    Extend(c, INIT, trace, Read);
    trace := trace + [Read];
  }

  lemma {:induction false} FillPipe(c: Config, n: nat) returns (trace: seq<Label>)
    requires n <= c.capacity && c.capacity > 0
    ensures Valid(c, INIT, trace) && Filling(Final(c, INIT, trace), n)
    decreases n
  {
    hide Valid, Final, Filling;
    if n == 0 {
      trace := FirstByte(c);
    } else {
      trace := FillPipe(c, n - 1);
      trace := OneMoreByte(c, trace, n - 1);
    }
  }

  /** The handler interrupts the reaper while the pipe is full. */
  lemma ReaperDeadlocks(c: Config) returns (trace: seq<Label>)
    requires c.capacity > 0 && c.blocking && !c.reaperMasked
    ensures Valid(c, INIT, trace) && Deadlocked(c, Final(c, INIT, trace)) && Stopped(c, Final(c, INIT, trace))
    ensures Final(c, INIT, trace).zombies != map[]
  {
    trace := FillPipe(c, c.capacity);
    hide Valid, Final;
    Extend(c, INIT, trace, Exit(c.capacity + 2, Exited(0)));
    trace := trace + [Exit(c.capacity + 2, Exited(0))];
    Extend(c, INIT, trace, Deliver(OnReaper));
    trace := trace + [Deliver(OnReaper)];
    assert 1 in Final(c, INIT, trace).zombies;
  }

  /** The handler interrupts a lock holder while the pipe is full and the reaper has a child to record. */
  lemma HolderDeadlocks(c: Config) returns (trace: seq<Label>)
    requires c.capacity > 0 && c.blocking && c.locks > 0 && !c.holdersMasked
    ensures Valid(c, INIT, trace) && Deadlocked(c, Final(c, INIT, trace)) && Stopped(c, Final(c, INIT, trace))
    ensures Final(c, INIT, trace).zombies != map[] && !Final(c, INIT, trace).onReaper
  {
    trace := FillPipe(c, c.capacity);
    hide Valid, Final;
    Extend(c, INIT, trace, Collect(1));
    trace := trace + [Collect(1)];
    Extend(c, INIT, trace, Lock);
    trace := trace + [Lock];
    Extend(c, INIT, trace, Exit(c.capacity + 2, Exited(0)));
    trace := trace + [Exit(c.capacity + 2, Exited(0))];
    Extend(c, INIT, trace, Deliver(OnHolder));
    trace := trace + [Deliver(OnHolder)];
    assert c.capacity + 2 in Final(c, INIT, trace).zombies;
  }

  /** "Zombies never accumulate": wherever a run can only wait for others, every child is collected and recorded. */
  ghost predicate AlwaysDrains(c: Config) {
    forall trace :: Valid(c, INIT, trace) && Stopped(c, Final(c, INIT, trace)) ==> Idle(Final(c, INIT, trace))
  }

  /** The signal is kept off the reaper thread, and off every thread that holds a lock the drain loop takes. */
  predicate FullyMasked(c: Config) { c.reaperMasked && (c.holdersMasked || c.locks == 0) }

  /** For a pipe of any size, that holds exactly when the pipe does not block or both masks are in place. */
  lemma DrainsExactly(c: Config)
    requires c.capacity > 0
    ensures AlwaysDrains(c) <==> !c.blocking || FullyMasked(c)
  {
    hide Valid, Final, Stopped, Inv, Filling;
    if !c.blocking || FullyMasked(c) {
      forall trace | Valid(c, INIT, trace) && Stopped(c, Final(c, INIT, trace))
        ensures Idle(Final(c, INIT, trace))
      {
        EveryRun(c, trace);
        MaskedQuiet(c, Final(c, INIT, trace));
      }
    } else if !c.reaperMasked {
      var trace := ReaperDeadlocks(c);
      assert !Idle(Final(c, INIT, trace));
    } else {
      var trace := HolderDeadlocks(c);
      assert !Idle(Final(c, INIT, trace));
    }
  }

  lemma MaskedQuiet(c: Config, s: State)
    requires c.capacity > 0 && Inv(c, s) && Stopped(c, s) && (!c.blocking || FullyMasked(c))
    ensures Idle(s)
  {
    hide Stopped;
    StoppedIsQuiet(c, s);
  }

  // ------------------------------------------------------------- the drain loop

  /** What one waitpid call answers: a pid and a status word; a pid of zero or less means nobody is waiting. */
  type Answer = (int, nat)

  /** The answers before the first empty one. */
  ghost predicate IsBurst(answers: seq<Answer>, k: nat) {
    && k <= |answers|
    && (forall j :: 0 <= j < k ==> answers[j].0 > 0)
    && (k < |answers| ==> answers[k].0 <= 0)
  }

  ghost predicate NotAfter(burst: seq<Answer>, j: nat, pid: int) {
    forall k :: j <= k < |burst| ==> burst[k].0 != pid
  }

  /** Each answered pid has the code of its last answer, every other pid what it had. */
  ghost predicate Records(codes: map<int, int>, burst: seq<Answer>, codes': map<int, int>) {
    && (forall j :: 0 <= j < |burst| && NotAfter(burst, j + 1, burst[j].0) ==>
          burst[j].0 in codes' && codes'[burst[j].0] == Code(burst[j].1))
    && (forall pid :: NotAfter(burst, 0, pid) ==>
          (pid in codes' <==> pid in codes) && (pid in codes ==> codes'[pid] == codes[pid]))
  }

  lemma RecordsOneMore(codes: map<int, int>, burst: seq<Answer>, codes': map<int, int>, a: Answer)
    requires Records(codes, burst, codes')
    ensures Records(codes, burst + [a], codes'[a.0 := Code(a.1)])
  {
    var burst' := burst + [a];
    assert burst'[|burst|] == a;
    forall j | 0 <= j < |burst'| && NotAfter(burst', j + 1, burst'[j].0)
      ensures burst'[j].0 in codes'[a.0 := Code(a.1)] && codes'[a.0 := Code(a.1)][burst'[j].0] == Code(burst'[j].1)
    {
      if j < |burst| {
        assert burst'[|burst|].0 != burst'[j].0;
        forall k | j + 1 <= k < |burst| ensures burst[k].0 != burst[j].0 { assert burst'[k] == burst[k]; }
        assert NotAfter(burst, j + 1, burst[j].0);
      }
    }
    forall pid | NotAfter(burst', 0, pid) ensures NotAfter(burst, 0, pid) && pid != a.0 {
      forall k | 0 <= k < |burst| ensures burst[k].0 != pid { assert burst'[k] == burst[k]; }
      assert burst'[|burst|].0 != pid;
    }
  }

  /** The inner loop of `run_reaper`, over the answers of waitpid. */
  method DrainLoop(answers: seq<Answer>, codes: map<int, int>) returns (codes': map<int, int>, k: nat)
    ensures IsBurst(answers, k)
    ensures Records(codes, answers[..k], codes')
  {
    hide Records;
    codes' := codes;
    k := 0;
    NothingRecorded(codes);
    assert answers[..0] == [];
    while k < |answers|
      invariant 0 <= k <= |answers|
      invariant forall j :: 0 <= j < k ==> answers[j].0 > 0
      invariant Records(codes, answers[..k], codes')
    {
      var (pid, status) := answers[k];
      if pid <= 0 { break; }
      var code := if WIfExited(status) then WExitStatus(status)
                  else if WIfSignaled(status) then -WTermSig(status) else 0;
      RecordsOneMore(codes, answers[..k], codes', answers[k]);
      assert answers[..k + 1] == answers[..k] + [answers[k]];
      codes' := codes'[pid := code];
      k := k + 1;
    }
  }

  lemma NothingRecorded(codes: map<int, int>)
    ensures Records(codes, [], codes)
  {
  }

  lemma {:induction false} LastAnswer(burst: seq<Answer>, pid: int) returns (j: nat)
    requires !NotAfter(burst, 0, pid)
    ensures j < |burst| && burst[j].0 == pid && NotAfter(burst, j + 1, pid)
    decreases |burst|
  {
    var last := |burst| - 1;
    if burst[last].0 == pid {
      j := last;
    } else {
      var front := burst[..last];
      var k :| 0 <= k < |burst| && burst[k].0 == pid;
      assert front[k].0 == pid;
      j := LastAnswer(front, pid);
      forall k | j + 1 <= k < |burst| ensures burst[k].0 != pid { if k < last { assert front[k] == burst[k]; } }
    }
  }

  /** So a burst determines the map. */
  lemma RecordsUnique(codes: map<int, int>, burst: seq<Answer>, x: map<int, int>, y: map<int, int>)
    requires Records(codes, burst, x) && Records(codes, burst, y)
    ensures x == y
  {
    forall pid ensures (pid in x <==> pid in y) && (pid in x ==> x[pid] == y[pid]) {
      if !NotAfter(burst, 0, pid) { var j := LastAnswer(burst, pid); }
    }
  }

  /** Collecting and recording the children one after the other. */
  ghost function Reaps(pids: seq<Pid>): seq<Label> {
    if pids == [] then [] else [Collect(pids[0]), Record] + Reaps(pids[1..])
  }

  ghost function Answers(zombies: map<Pid, ExitStatus>, pids: seq<Pid>): (r: seq<Answer>)
    requires forall i :: 0 <= i < |pids| ==> pids[i] in zombies
    ensures |r| == |pids|
    ensures forall i {:trigger r[i]} :: 0 <= i < |r| ==> r[i] == (pids[i], WaitWord(zombies[pids[i]]))
  {
    seq(|pids|, i requires 0 <= i < |pids| => (pids[i] as int, WaitWord(zombies[pids[i]])))
  }

  lemma ReapOne(c: Config, s: State, pids: seq<Pid>)
    requires pids != [] && Valid(c, s, Reaps(pids))
    ensures Enabled(c, s, Collect(pids[0])) && Enabled(c, After(c, s, Collect(pids[0])), Record)
    ensures var s' := After(c, After(c, s, Collect(pids[0])), Record);
            Valid(c, s', Reaps(pids[1..])) && Final(c, s, Reaps(pids)) == Final(c, s', Reaps(pids[1..]))
  {
    hide Enabled, After;
    var trace := Reaps(pids);
    assert trace[0] == Collect(pids[0]) && trace[1..][0] == Record && trace[1..][1..] == Reaps(pids[1..]);
  }

  lemma ReapEffect(c: Config, s: State, pid: Pid)
    requires Enabled(c, s, Collect(pid)) && Enabled(c, After(c, s, Collect(pid)), Record)
    ensures var s' := After(c, After(c, s, Collect(pid)), Record);
            && pid in s.zombies && s'.codes == s.codes[pid := Code(WaitWord(s.zombies[pid]))]
            && pid !in s'.zombies && (forall p :: p in s'.zombies <==> p in s.zombies && p != pid)
            && (forall p :: p in s'.zombies ==> s'.zombies[p] == s.zombies[p])
  {
    hide Code, WaitWord;
  }

  /** A run of collecting and recording takes different zombies and stores each code. */
  lemma {:induction false} ReapRun(c: Config, s: State, pids: seq<Pid>)
    requires Valid(c, s, Reaps(pids))
    ensures forall i :: 0 <= i < |pids| ==> pids[i] in s.zombies
    ensures forall i, j :: 0 <= i < j < |pids| ==> pids[i] != pids[j]
    ensures var s' := Final(c, s, Reaps(pids));
            && (forall i :: 0 <= i < |pids| ==>
                  pids[i] in s'.codes && s'.codes[pids[i]] == Code(WaitWord(s.zombies[pids[i]])))
            && (forall pid :: pid !in pids ==>
                  (pid in s'.codes <==> pid in s.codes) && (pid in s.codes ==> s'.codes[pid] == s.codes[pid]))
            && (forall pid :: pid in s'.zombies <==> pid in s.zombies && pid !in pids)
    decreases |pids|
  {
    hide Code, WaitWord, Valid, Final, Enabled, After;
    if pids == [] {
      NothingReaped(c, s);
    } else {
      var rest := pids[1..];
      assert pids == [pids[0]] + rest;
      ReapOne(c, s, pids);
      ReapEffect(c, s, pids[0]);
      var s1 := After(c, After(c, s, Collect(pids[0])), Record);
      ReapRun(c, s1, rest);
      forall i | 1 <= i < |pids| ensures pids[i] == rest[i - 1] && pids[i] in s1.zombies {
      }
    }
  }

  lemma NothingReaped(c: Config, s: State)
    ensures Valid(c, s, Reaps([])) && Final(c, s, Reaps([])) == s
  {
  }

  /** The drain loop is such a run: from the answers to it the loop computes the map that the run leaves. */
  lemma DrainIsReaps(c: Config, s: State, pids: seq<Pid>, codes': map<int, int>)
    requires Valid(c, s, Reaps(pids))
    requires (forall i :: 0 <= i < |pids| ==> pids[i] in s.zombies)
        && Records(s.codes, Answers(s.zombies, pids), codes')
    ensures codes' == Final(c, s, Reaps(pids)).codes
  {
    ReapRun(c, s, pids);
    hide Code, WaitWord, Valid, Final;
    var burst := Answers(s.zombies, pids);
    var s' := Final(c, s, Reaps(pids));
    forall pid: int | NotAfter(burst, 0, pid) ensures pid !in pids {
      forall i | 0 <= i < |pids| ensures pids[i] != pid { assert burst[i].0 == pids[i]; }
    }
    RecordsUnique(s.codes, burst, codes', s'.codes);
  }
}
