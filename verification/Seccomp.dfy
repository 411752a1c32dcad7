/**
 Seccomp filters (quantra/src/process.rs): a list of syscall numbers is compiled
 to a classic BPF program, which the kernel checks and then runs on every
 syscall.  `Run` is the kernel's interpreter and `KernelAccepts` its static check;
 the theorems relate the emitted program to set membership.
 */
module Seccomp {
  import opened Bytes
  import opened Optional

  const BPF_LD: nat := 0x00
  const BPF_W: nat := 0x00
  const BPF_ABS: nat := 0x20
  const BPF_JMP: nat := 0x05
  const BPF_JEQ: nat := 0x10
  const BPF_K: nat := 0x00
  const BPF_RET: nat := 0x06
  // The flags of one instruction class are disjoint bits, so `|` is addition.
  const LOAD := BPF_LD + BPF_W + BPF_ABS
  const JUMP_EQ := BPF_JMP + BPF_JEQ + BPF_K
  const RETURN := BPF_RET + BPF_K

  const RET_KILL_PROCESS: U32 := 0x8000_0000
  const RET_ALLOW: U32 := 0x7fff_0000
  const RET_EPERM: U32 := 0x0005_0001
  const NR_OFFSET: U32 := 0
  const ARCH_OFFSET: U32 := 4

  /** `struct sock_filter`. */
  datatype Insn = Insn(code: nat, jt: Byte, jf: Byte, k: U32)

  /** The part of `struct seccomp_data` the filters load. */
  datatype Data = Data(nr: U32, arch: U32)

  function Stmt(code: nat, k: U32): Insn { Insn(code, 0, 0, k) }
  function Jump(code: nat, k: U32, jt: Byte, jf: Byte): Insn { Insn(code, jt, jf, k) }

  // ------------------------------------------------------------ the kernel

  /** Runs from pc with accumulator acc; None is a fault: an unknown instruction, a bad load or a jump off the end. */
  function Run(prog: seq<Insn>, pc: nat, acc: U32, data: Data): Option<U32>
    decreases |prog| - pc
  {
    if pc >= |prog| then None
    else
      var i := prog[pc];
      if i.code == RETURN then Some(i.k)
      else if i.code == JUMP_EQ then Run(prog, pc + 1 + (if acc == i.k then i.jt else i.jf), acc, data)
      else if i.code == LOAD && i.k == NR_OFFSET then Run(prog, pc + 1, data.nr, data)
      else if i.code == LOAD && i.k == ARCH_OFFSET then Run(prog, pc + 1, data.arch, data)
      else None
  }

  const BPF_MAXINSNS: nat := 4096

  predicate InsnOk(prog: seq<Insn>, pc: nat)
    requires pc < |prog|
  {
    var i := prog[pc];
    || i.code == RETURN
    || (i.code == JUMP_EQ && pc + 1 + i.jt < |prog| && pc + 1 + i.jf < |prog|)
    || (i.code == LOAD && (i.k == NR_OFFSET || i.k == ARCH_OFFSET))
  }

  /** What the kernel demands before it installs a filter: size, known instructions, jumps inside, a final return. */
  predicate KernelAccepts(prog: seq<Insn>) {
    && 1 <= |prog| <= BPF_MAXINSNS
    && (forall pc :: 0 <= pc < |prog| ==> InsnOk(prog, pc))
    && prog[|prog| - 1].code == RETURN
  }

  /** An accepted program always returns a verdict. */
  lemma {:induction false} AcceptedTerminates(prog: seq<Insn>, pc: nat, acc: U32, data: Data)
    requires KernelAccepts(prog) && pc < |prog|
    ensures Run(prog, pc, acc, data).Some?
    decreases |prog| - pc
  {
    var i := prog[pc];
    assert InsnOk(prog, pc);
    if i.code == JUMP_EQ {
      AcceptedTerminates(prog, pc + 1 + (if acc == i.k then i.jt else i.jf), acc, data);
    } else if i.code == LOAD {
      assert pc < |prog| - 1;
      AcceptedTerminates(prog, pc + 1, if i.k == NR_OFFSET then data.nr else data.arch, data);
    }
  }

  // ----------------------------------------------------------- the compilers

  /** What one call of `apply_seccomp_*` comes to before the kernel answers. */
  datatype Attempt = AlreadyOpen | Refused | Submitted(prog: seq<Insn>)

  /** The part of the buffer the kernel reads: `len` is stored in sixteen bits. */
  function Handed(filter: seq<Insn>): seq<Insn> { filter[..|filter| % 0x1_0000] }

  predicate InRange(nr: int) { 0 <= nr <= 0xFFFF_FFFF }

  /** `as u32` on a signed number. */
  function Truncated(nr: int): U32 { nr % 0x1_0000_0000 }

  function Prologue(arch: U32): seq<Insn> {
    [Stmt(LOAD, ARCH_OFFSET), Jump(JUMP_EQ, arch, 1, 0), Stmt(RETURN, RET_KILL_PROCESS), Stmt(LOAD, NR_OFFSET)]
  }

  /** One compare-and-return pair per number. */
  function Tests(nrs: seq<int>, verdict: U32): (r: seq<Insn>)
    ensures |r| == 2 * |nrs|
  {
    if nrs == [] then []
    else Tests(nrs[..|nrs| - 1], verdict) + [Jump(JUMP_EQ, Truncated(nrs[|nrs| - 1]), 0, 1), Stmt(RETURN, verdict)]
  }

  function Filter(arch: U32, nrs: seq<int>, hit: U32, miss: U32): (r: seq<Insn>)
    ensures |r| == 2 * |nrs| + 5
  {
    Prologue(arch) + Tests(nrs, hit) + [Stmt(RETURN, miss)]
  }

  /** `arch` is AUDIT_ARCH_NATIVE, 0 on an unsupported target. */
  method ApplyDenylist(arch: U32, denied: seq<int>) returns (r: Attempt)
    ensures denied == [] <==> r == AlreadyOpen
    ensures denied != [] && (arch == 0 || exists nr :: nr in denied && !InRange(nr)) <==> r == Refused
    ensures r.Submitted? ==> r.prog == Handed(Filter(arch, denied, RET_KILL_PROCESS, RET_ALLOW))
  {
    if denied == [] { return AlreadyOpen; }
    if arch == 0 { return Refused; }
    var filter := [];
    filter := filter + [Stmt(BPF_LD + BPF_W + BPF_ABS, ARCH_OFFSET)];
    filter := filter + [Jump(BPF_JMP + BPF_JEQ + BPF_K, arch, 1, 0)];
    filter := filter + [Stmt(BPF_RET + BPF_K, RET_KILL_PROCESS)];
    filter := filter + [Stmt(BPF_LD + BPF_W + BPF_ABS, NR_OFFSET)];
    for i := 0 to |denied|
      invariant filter == Prologue(arch) + Tests(denied[..i], RET_KILL_PROCESS)
      invariant forall j :: 0 <= j < i ==> InRange(denied[j])
    {
      var nr := denied[i];
      if nr < 0 || nr > 0xFFFF_FFFF {
        assert nr in denied && !InRange(nr);
        return Refused;
      }
      assert denied[..i + 1][..i] == denied[..i];
      filter := filter + [Jump(BPF_JMP + BPF_JEQ + BPF_K, nr, 0, 1)];
      filter := filter + [Stmt(BPF_RET + BPF_K, RET_KILL_PROCESS)];
    }
    assert denied[..|denied|] == denied;
    filter := filter + [Stmt(BPF_RET + BPF_K, RET_ALLOW)];
    return Submitted(filter[..|filter| % 0x1_0000]);
  }

  method ApplyAllowlist(arch: U32, allowed: seq<int>) returns (r: Attempt)
    ensures arch == 0 <==> r == Refused
    ensures arch != 0 ==> r == Submitted(Handed(Filter(arch, allowed, RET_ALLOW, RET_EPERM)))
  {
    if arch == 0 { return Refused; }
    var filter := [];
    filter := filter + [Stmt(BPF_LD + BPF_W + BPF_ABS, ARCH_OFFSET)];
    filter := filter + [Jump(BPF_JMP + BPF_JEQ + BPF_K, arch, 1, 0)];
    filter := filter + [Stmt(BPF_RET + BPF_K, RET_KILL_PROCESS)];
    filter := filter + [Stmt(BPF_LD + BPF_W + BPF_ABS, NR_OFFSET)];
    for i := 0 to |allowed|
      invariant filter == Prologue(arch) + Tests(allowed[..i], RET_ALLOW)
    {
      assert allowed[..i + 1][..i] == allowed[..i];
      filter := filter + [Jump(BPF_JMP + BPF_JEQ + BPF_K, Truncated(allowed[i]), 0, 1)];
      filter := filter + [Stmt(BPF_RET + BPF_K, RET_ALLOW)];
    }
    assert allowed[..|allowed|] == allowed;
    filter := filter + [Stmt(BPF_RET + BPF_K, RET_EPERM)];
    return Submitted(filter[..|filter| % 0x1_0000]);
  }

  // ---------------------------------------------------------------- layout

  lemma {:induction false} TestsAt(nrs: seq<int>, verdict: U32, i: nat)
    requires i < |nrs|
    ensures Tests(nrs, verdict)[2 * i] == Jump(JUMP_EQ, Truncated(nrs[i]), 0, 1)
    ensures Tests(nrs, verdict)[2 * i + 1] == Stmt(RETURN, verdict)
  {
    if i < |nrs| - 1 {
      TestsAt(nrs[..|nrs| - 1], verdict, i);
    }
  }

  lemma FilterAt(arch: U32, nrs: seq<int>, hit: U32, miss: U32, i: nat)
    requires i < |nrs|
    ensures Filter(arch, nrs, hit, miss)[4 + 2 * i] == Jump(JUMP_EQ, Truncated(nrs[i]), 0, 1)
    ensures Filter(arch, nrs, hit, miss)[5 + 2 * i] == Stmt(RETURN, hit)
  {
    TestsAt(nrs, hit, i);
  }

  /** The instructions in numbers: load the ABI, compare, kill; load the number; per entry compare and return;
      return. */
  lemma FilterNumbers(arch: U32, nrs: seq<int>, hit: U32, miss: U32)
    ensures Filter(arch, nrs, hit, miss)[..4] ==
            [Insn(0x20, 0, 0, 4), Insn(0x15, 1, 0, arch), Insn(0x06, 0, 0, 0x8000_0000), Insn(0x20, 0, 0, 0)]
    ensures forall i :: 0 <= i < |nrs| ==>
              && Filter(arch, nrs, hit, miss)[4 + 2 * i] == Insn(0x15, 0, 1, nrs[i] % 0x1_0000_0000)
              && Filter(arch, nrs, hit, miss)[5 + 2 * i] == Insn(0x06, 0, 0, hit)
    ensures Filter(arch, nrs, hit, miss)[4 + 2 * |nrs|..] == [Insn(0x06, 0, 0, miss)]
  {
    forall i | 0 <= i < |nrs|
      ensures Filter(arch, nrs, hit, miss)[4 + 2 * i] == Insn(0x15, 0, 1, nrs[i] % 0x1_0000_0000)
      ensures Filter(arch, nrs, hit, miss)[5 + 2 * i] == Insn(0x06, 0, 0, hit)
    {
      FilterAt(arch, nrs, hit, miss, i);
    }
  }

  // -------------------------------------------------------------- semantics

  predicate Listed(nrs: seq<int>, nr: U32) {
    exists i :: 0 <= i < |nrs| && Truncated(nrs[i]) == nr
  }

  /** From the test of number i on: hit exactly when one of the remaining numbers matches. */
  lemma {:induction false} RunTests(arch: U32, nrs: seq<int>, hit: U32, miss: U32, i: nat, data: Data)
    requires i <= |nrs|
    ensures Run(Filter(arch, nrs, hit, miss), 4 + 2 * i, data.nr, data)
            == Some(if exists j :: i <= j < |nrs| && Truncated(nrs[j]) == data.nr then hit else miss)
    decreases |nrs| - i
  {
    var prog := Filter(arch, nrs, hit, miss);
    if i == |nrs| {
      assert prog[4 + 2 * i] == Stmt(RETURN, miss);
    } else {
      FilterAt(arch, nrs, hit, miss, i);
      assert Run(prog, 5 + 2 * i, data.nr, data) == Some(hit);
      RunTests(arch, nrs, hit, miss, i + 1, data);
    }
  }

  /** The compiled filter is the decision it was compiled from. */
  lemma FilterMeaning(arch: U32, nrs: seq<int>, hit: U32, miss: U32, data: Data)
    ensures Run(Filter(arch, nrs, hit, miss), 0, 0, data)
            == Some(if data.arch != arch then RET_KILL_PROCESS else if Listed(nrs, data.nr) then hit else miss)
  {
    var prog := Filter(arch, nrs, hit, miss);
    assert prog[0] == Stmt(LOAD, ARCH_OFFSET) && prog[1] == Jump(JUMP_EQ, arch, 1, 0);
    assert prog[2] == Stmt(RETURN, RET_KILL_PROCESS) && prog[3] == Stmt(LOAD, NR_OFFSET);
    assert Run(prog, 0, 0, data) == Run(prog, 1, data.arch, data);
    if data.arch == arch {
      assert Run(prog, 1, data.arch, data) == Run(prog, 3, data.arch, data);
      assert Run(prog, 3, data.arch, data) == Run(prog, 4, data.nr, data);
      RunTests(arch, nrs, hit, miss, 0, data);
    } else {
      assert Run(prog, 1, data.arch, data) == Run(prog, 2, data.arch, data);
    }
  }

  // ------------------------------------------------------------- admission

  lemma FilterChecks(arch: U32, nrs: seq<int>, hit: U32, miss: U32, pc: nat)
    requires pc < 2 * |nrs| + 5
    ensures InsnOk(Filter(arch, nrs, hit, miss), pc)
  {
    var prog := Filter(arch, nrs, hit, miss);
    assert prog[0] == Stmt(LOAD, ARCH_OFFSET) && prog[1] == Jump(JUMP_EQ, arch, 1, 0);
    assert prog[2] == Stmt(RETURN, RET_KILL_PROCESS) && prog[3] == Stmt(LOAD, NR_OFFSET);
    assert prog[|prog| - 1] == Stmt(RETURN, miss);
    if 4 <= pc < |prog| - 1 {
      var i := (pc - 4) / 2;
      FilterAt(arch, nrs, hit, miss, i);
      assert pc == 4 + 2 * i || pc == 5 + 2 * i;
    }
  }

  /** A length that does not fit sixteen bits leaves a prefix that ends in a load, a compare or with a jump off
      the end. */
  lemma CutFilterFails(arch: U32, nrs: seq<int>, hit: U32, miss: U32)
    requires |Filter(arch, nrs, hit, miss)| >= 0x1_0000
    ensures !KernelAccepts(Handed(Filter(arch, nrs, hit, miss)))
  {
    var prog := Filter(arch, nrs, hit, miss);
    var cut := Handed(prog);
    assert |cut| % 2 == 1;
    assert prog[0] == Stmt(LOAD, ARCH_OFFSET) && prog[1] == Jump(JUMP_EQ, arch, 1, 0);
    if |cut| == 3 {
      assert cut[1] == prog[1];
      assert !InsnOk(cut, 1);
    } else if |cut| >= 5 {
      var i := (|cut| - 5) / 2;
      FilterAt(arch, nrs, hit, miss, i);
      assert cut[|cut| - 1] == prog[4 + 2 * i];
    }
  }

  /** The kernel takes the filter exactly when it has at most 4096 instructions, and then takes it whole. */
  lemma AcceptedExactly(arch: U32, nrs: seq<int>, hit: U32, miss: U32)
    ensures KernelAccepts(Handed(Filter(arch, nrs, hit, miss))) <==> 2 * |nrs| + 5 <= 4096
    ensures KernelAccepts(Handed(Filter(arch, nrs, hit, miss))) ==>
              Handed(Filter(arch, nrs, hit, miss)) == Filter(arch, nrs, hit, miss)
  {
    var prog := Filter(arch, nrs, hit, miss);
    if |prog| >= 0x1_0000 {
      CutFilterFails(arch, nrs, hit, miss);
    } else {
      assert Handed(prog) == prog;
      forall pc | 0 <= pc < |prog| ensures InsnOk(prog, pc) { FilterChecks(arch, nrs, hit, miss, pc); }
      assert prog[|prog| - 1] == Stmt(RETURN, miss);
    }
  }

  // ------------------------------------------------------------ main results

  /** Whatever denylist the kernel ends up enforcing kills the listed numbers and foreign ABIs, and nothing else. */
  lemma DenylistExact(arch: U32, denied: seq<int>, data: Data)
    requires forall i :: 0 <= i < |denied| ==> InRange(denied[i])
    requires KernelAccepts(Handed(Filter(arch, denied, RET_KILL_PROCESS, RET_ALLOW)))
    ensures Run(Handed(Filter(arch, denied, RET_KILL_PROCESS, RET_ALLOW)), 0, 0, data)
            == Some(if data.arch != arch || data.nr in denied then 0x8000_0000 else 0x7fff_0000)
  {
    AcceptedExactly(arch, denied, RET_KILL_PROCESS, RET_ALLOW);
    FilterMeaning(arch, denied, RET_KILL_PROCESS, RET_ALLOW, data);
    assert Listed(denied, data.nr) <==> data.nr in denied by {
      forall i | 0 <= i < |denied| ensures Truncated(denied[i]) == denied[i] { assert InRange(denied[i]); }
    }
  }

  /** An accepted allowlist admits the numbers whose low 32 bits are listed; the rest get EPERM. */
  lemma AllowlistMeaning(arch: U32, allowed: seq<int>, data: Data)
    requires KernelAccepts(Handed(Filter(arch, allowed, RET_ALLOW, RET_EPERM)))
    ensures Run(Handed(Filter(arch, allowed, RET_ALLOW, RET_EPERM)), 0, 0, data)
            == Some(if data.arch != arch then 0x8000_0000
                    else if Listed(allowed, data.nr) then 0x7fff_0000
                    else 0x0005_0001)
  {
    AcceptedExactly(arch, allowed, RET_ALLOW, RET_EPERM);
    FilterMeaning(arch, allowed, RET_ALLOW, RET_EPERM, data);
  }

  predicate Allows(arch: U32, allowed: seq<int>, nr: U32) {
    Run(Handed(Filter(arch, allowed, RET_ALLOW, RET_EPERM)), 0, 0, Data(nr, arch)) == Some(RET_ALLOW)
  }

  /** "Allows exactly the listed numbers", on the native ABI. */
  ghost predicate AllowsExactly(arch: U32, allowed: seq<int>) {
    forall nr: U32 :: Allows(arch, allowed, nr) <==> nr in allowed
  }

  /** Every out-of-range entry wraps to a number that is listed anyway. */
  predicate WrapsHarmlessly(allowed: seq<int>) {
    forall i :: 0 <= i < |allowed| && !InRange(allowed[i]) ==> Truncated(allowed[i]) in allowed
  }

  lemma HarmlessMeansListed(allowed: seq<int>, nr: U32)
    requires WrapsHarmlessly(allowed)
    ensures Listed(allowed, nr) <==> nr in allowed
  {
    if nr in allowed {
      var i :| 0 <= i < |allowed| && allowed[i] == nr;
      assert Truncated(allowed[i]) == nr;
    }
    if Listed(allowed, nr) {
      var i :| 0 <= i < |allowed| && Truncated(allowed[i]) == nr;
      assert InRange(allowed[i]) ==> allowed[i] == nr;
    }
  }

  /** Unlike the denylist, the allowlist does not check its numbers: it is exact if and only if they wrap harmlessly. */
  lemma AllowlistExactWhen(arch: U32, allowed: seq<int>)
    requires KernelAccepts(Handed(Filter(arch, allowed, RET_ALLOW, RET_EPERM)))
    ensures AllowsExactly(arch, allowed) <==> WrapsHarmlessly(allowed)
  {
    hide Run, Handed, Filter, KernelAccepts;
    forall nr: U32 ensures Allows(arch, allowed, nr) <==> Listed(allowed, nr) {
      AllowlistMeaning(arch, allowed, Data(nr, arch));
    }
    if WrapsHarmlessly(allowed) {
      forall nr: U32 ensures Allows(arch, allowed, nr) <==> nr in allowed { HarmlessMeansListed(allowed, nr); }
    } else {
      var i :| 0 <= i < |allowed| && !InRange(allowed[i]) && Truncated(allowed[i]) !in allowed;
      assert Listed(allowed, Truncated(allowed[i]));
      assert Allows(arch, allowed, Truncated(allowed[i]));
    }
  }

  /** An entry of -1 opens syscall number 0xFFFFFFFF. */
  lemma NegativeEntryOpens(arch: U32)
    ensures !AllowsExactly(arch, [-1])
  {
    AcceptedExactly(arch, [-1], RET_ALLOW, RET_EPERM);
    AllowlistExactWhen(arch, [-1]);
    assert !InRange([-1][0]) && Truncated([-1][0]) == 0xFFFF_FFFF;
  }
}
