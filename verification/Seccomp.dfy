/** The seccomp filter generator of the sandbox launcher, compiled to classic BPF. */
module Seccomp {
  import opened Bits
  import opened Prelude

  const BPF_LD_W_ABS := 0x20
  const BPF_JEQ_K := 0x15
  const BPF_JGE_K := 0x35
  const BPF_RET_K := 0x06

  const DATA_NR := 0
  const DATA_ARCH := 4
  const DATA_ARG0_LOW := 16

  const RET_ALLOW := 0x7FFF0000
  const RET_ERRNO := 0x00050000
  const X32_SYSCALL_BIT := 0x40000000
  const SYS_IO_URING_SETUP := 425
  const AF_INET := 2
  const AF_INET6 := 10
  const AF_NETLINK := 16
  const EPERM := 1
  const EACCES := 13
  const ENOSYS := 38

  datatype Instruction = Instruction(code: nat, jt: nat, jf: nat, k: nat)

  /** The words a filter may load: syscall number, audit architecture, low word of the first argument. */
  datatype SyscallData = SyscallData(nr: nat, arch: nat, arg0: nat)

  datatype Verdict = Return(k: nat) | Fault

  datatype Arch = Arch(
    auditArch: nat, socket: nat, bind: nat, listen: nat, setpgid: nat, setsid: nat, x32: bool)

  /** A denied syscall with the errno it fails with. */
  datatype Denial = Denial(number: nat, error: nat)

  datatype SandboxError = SandboxUnavailable

  const X86_64 := Arch(0xC000003E, 41, 49, 50, 109, 112, true)
  const AARCH64 := Arch(0xC00000B7, 198, 200, 201, 154, 157, false)

  /** The verdict that fails a call with an errno: the two are joined by or. */
  function Errno(error: nat): nat { BitOr(RET_ERRNO, error) }

  /** An errno that fits its 16 bits stays what it is. */
  lemma ErrnoJoins(error: nat)
    requires error < 0x10000
    ensures Errno(error) == RET_ERRNO + error
  {
    hide BitOr;
    assert Pow2(16) == 0x10000 by {
      assert Pow2(4) == 16 && Pow2(8) == 16 * Pow2(4) && Pow2(12) == 16 * Pow2(8) && Pow2(16) == 16 * Pow2(12);
    }
    OrJoins(5, error, 16);
  }

  // ---- The evaluator -------------------------------------------------------

  function Load(d: SyscallData, offset: nat): Option<nat> {
    if offset == DATA_NR then Some(d.nr)
    else if offset == DATA_ARCH then Some(d.arch)
    else if offset == DATA_ARG0_LOW then Some(d.arg0)
    else None
  }

  /** Classic BPF from instruction `pc`; leaving the program or an unknown opcode faults. */
  function Run(program: seq<Instruction>, pc: nat, acc: nat, d: SyscallData): Verdict
    decreases |program| - pc
  {
    if pc >= |program| then Fault else
    var i := program[pc];
    if i.code == BPF_LD_W_ABS then
      match Load(d, i.k)
      case Some(word) => Run(program, pc + 1, word, d)
      case None => Fault
    else if i.code == BPF_JEQ_K then
      Run(program, pc + 1 + (if acc == i.k then i.jt else i.jf), acc, d)
    else if i.code == BPF_JGE_K then
      Run(program, pc + 1 + (if acc >= i.k then i.jt else i.jf), acc, d)
    else if i.code == BPF_RET_K then
      Return(i.k)
    else
      Fault
  }

  ghost predicate IsJump(i: Instruction) {
    i.code == BPF_JEQ_K || i.code == BPF_JGE_K
  }

  const BPF_MAXINSNS := 4096

  /** What the kernel's verifier asks of a filter: at most 4096 instructions, known opcodes, loadable
      words, jumps that fit their 8 bits and land inside the program, and a RET as the last
      instruction. */
  ghost predicate WellFormed(program: seq<Instruction>) {
    && 0 < |program| <= BPF_MAXINSNS
    && program[|program| - 1].code == BPF_RET_K
    && forall pc {:trigger program[pc]} :: 0 <= pc < |program| ==>
      var i := program[pc];
      && (i.code == BPF_LD_W_ABS || IsJump(i) || i.code == BPF_RET_K)
      && (i.code == BPF_LD_W_ABS ==> Load(SyscallData(0, 0, 0), i.k).Some?)
      && i.jt < 256 && i.jf < 256
      && (IsJump(i) ==> pc + 1 + i.jt < |program| && pc + 1 + i.jf < |program|)
  }

  // ---- What the filter must decide -----------------------------------------

  function FirstDenial(denied: seq<Denial>, nr: nat): (r: Option<nat>)
    ensures r.None? <==> forall i :: 0 <= i < |denied| ==> denied[i].number != nr
    ensures r.Some? ==> exists i :: 0 <= i < |denied| && denied[i] == Denial(nr, r.value)
                                    && forall j :: 0 <= j < i ==> denied[j].number != nr
  {
    if denied == [] then None
    else if denied[0].number == nr then Some(denied[0].error)
    else
      var r := FirstDenial(denied[1..], nr);
      assert r.Some? ==> forall i :: 0 <= i < |denied| - 1 ==> denied[1..][i] == denied[i + 1];
      assert r.None? ==> forall i :: 1 <= i < |denied| ==> denied[i] == denied[1..][i - 1];
      assert r.Some? ==> exists i :: 0 <= i < |denied| && denied[i] == Denial(nr, r.value)
                                     && forall j :: 0 <= j < i ==> denied[j].number != nr by {
        if r.Some? {
          var i :| 0 <= i < |denied[1..]| && denied[1..][i] == Denial(nr, r.value)
                   && forall j :: 0 <= j < i ==> denied[1..][j].number != nr;
          assert denied[i + 1] == Denial(nr, r.value);
          assert forall j :: 1 <= j < i + 1 ==> denied[j] == denied[1..][j - 1];
        }
      }
      r
  }

  /** The decision table, first matching row wins. */
  function Decide(arch: Arch, denied: seq<Denial>, families: seq<nat>, d: SyscallData): nat {
    if d.arch != arch.auditArch then Errno(EPERM)
    else if arch.x32 && d.nr >= X32_SYSCALL_BIT then Errno(EPERM)
    else
      match FirstDenial(denied, d.nr)
      case Some(error) => Errno(error)
      case None =>
        if d.nr != arch.socket then RET_ALLOW
        else if d.arg0 in families then RET_ALLOW
        else Errno(EACCES)
  }

  // ---- The emitted program, for any denial list and any family list ---------

  function Ret(k: nat): Instruction { Instruction(BPF_RET_K, 0, 0, k) }

  function DenialBlock(denied: seq<Denial>): seq<Instruction> {
    if denied == [] then []
    else DenialBlock(denied[..|denied| - 1])
         + [Instruction(BPF_JEQ_K, 0, 1, denied[|denied| - 1].number), Ret(Errno(denied[|denied| - 1].error))]
  }

  function FamilyBlock(families: seq<nat>): seq<Instruction> {
    if families == [] then []
    else FamilyBlock(families[..|families| - 1])
         + [Instruction(BPF_JEQ_K, 0, 1, families[|families| - 1]), Ret(RET_ALLOW)]
  }

  function ArchBlock(arch: Arch): seq<Instruction> {
    [Instruction(BPF_LD_W_ABS, 0, 0, DATA_ARCH),
     Instruction(BPF_JEQ_K, 1, 0, arch.auditArch),
     Ret(Errno(EPERM)),
     Instruction(BPF_LD_W_ABS, 0, 0, DATA_NR)]
    + if arch.x32 then [Instruction(BPF_JGE_K, 0, 1, X32_SYSCALL_BIT), Ret(Errno(EPERM))] else []
  }

  function SocketBlock(arch: Arch): seq<Instruction> {
    [Instruction(BPF_JEQ_K, 1, 0, arch.socket),
     Ret(RET_ALLOW),
     Instruction(BPF_LD_W_ABS, 0, 0, DATA_ARG0_LOW)]
  }

  function Filter(arch: Arch, denied: seq<Denial>, families: seq<nat>): seq<Instruction> {
    ArchBlock(arch) + DenialBlock(denied) + SocketBlock(arch) + FamilyBlock(families)
    + [Ret(Errno(EACCES))]
  }

  /** Jumps are relative, so a program may be cut at the current instruction. */
  lemma {:induction false} RunFromSuffix(p: seq<Instruction>, q: seq<Instruction>, pc: nat, acc: nat, d: SyscallData)
    ensures Run(p + q, |p| + pc, acc, d) == Run(q, pc, acc, d)
    decreases |q| - pc
  {
    if pc < |q| {
      var i := q[pc];
      assert (p + q)[|p| + pc] == i;
      RunFromSuffix(p, q, pc + 1, acc, d);
      RunFromSuffix(p, q, pc + 1 + i.jt, acc, d);
      RunFromSuffix(p, q, pc + 1 + i.jf, acc, d);
      match Load(d, i.k)
      case Some(word) => RunFromSuffix(p, q, pc + 1, word, d);
      case None =>
    }
  }

  /** One test-and-return pair either returns or falls through to what follows it. */
  lemma RunPair(code: nat, k: nat, ret: nat, q: seq<Instruction>, acc: nat, d: SyscallData)
    requires code == BPF_JEQ_K || code == BPF_JGE_K
    ensures Run([Instruction(code, 0, 1, k), Ret(ret)] + q, 0, acc, d)
         == if (if code == BPF_JEQ_K then acc == k else acc >= k) then Return(ret) else Run(q, 0, acc, d)
  {
    RunFromSuffix([Instruction(code, 0, 1, k), Ret(ret)], q, 0, acc, d);
  }

  lemma {:induction false} RunDenialBlock(denied: seq<Denial>, q: seq<Instruction>, nr: nat, d: SyscallData)
    ensures Run(DenialBlock(denied) + q, 0, nr, d)
         == match FirstDenial(denied, nr)
            case Some(error) => Return(Errno(error))
            case None => Run(q, 0, nr, d)
  {
    hide Errno;
    if denied == [] {
      assert DenialBlock(denied) + q == q;
    } else {
      var init, last := denied[..|denied| - 1], denied[|denied| - 1];
      var pair := [Instruction(BPF_JEQ_K, 0, 1, last.number), Ret(Errno(last.error))];
      assert DenialBlock(denied) + q == DenialBlock(init) + (pair + q);
      RunDenialBlock(init, pair + q, nr, d);
      RunPair(BPF_JEQ_K, last.number, Errno(last.error), q, nr, d);
      FirstDenialSnoc(init, last, nr);
      assert denied == init + [last];
    }
  }

  lemma {:induction false} FirstDenialSnoc(init: seq<Denial>, last: Denial, nr: nat)
    ensures FirstDenial(init + [last], nr)
         == match FirstDenial(init, nr)
            case Some(error) => Some(error)
            case None => if last.number == nr then Some(last.error) else None
  {
    if init != [] {
      assert (init + [last])[1..] == init[1..] + [last];
      FirstDenialSnoc(init[1..], last, nr);
    }
  }

  lemma {:induction false} RunFamilyBlock(families: seq<nat>, q: seq<Instruction>, family: nat, d: SyscallData)
    ensures Run(FamilyBlock(families) + q, 0, family, d)
         == if family in families then Return(RET_ALLOW) else Run(q, 0, family, d)
  {
    hide Errno;
    if families == [] {
      assert FamilyBlock(families) + q == q;
    } else {
      var init, last := families[..|families| - 1], families[|families| - 1];
      var pair := [Instruction(BPF_JEQ_K, 0, 1, last), Ret(RET_ALLOW)];
      assert FamilyBlock(families) + q == FamilyBlock(init) + (pair + q);
      RunFamilyBlock(init, pair + q, family, d);
      RunPair(BPF_JEQ_K, last, RET_ALLOW, q, family, d);
      assert families == init + [last];
    }
  }

  lemma RunSocketBlock(arch: Arch, q: seq<Instruction>, nr: nat, d: SyscallData)
    ensures Run(SocketBlock(arch) + q, 0, nr, d)
         == if nr == arch.socket then Run(q, 0, d.arg0, d) else Return(RET_ALLOW)
  {
    hide Errno;
    var p := SocketBlock(arch) + q;
    assert p[0] == Instruction(BPF_JEQ_K, 1, 0, arch.socket) && p[1] == Ret(RET_ALLOW);
    assert p[2] == Instruction(BPF_LD_W_ABS, 0, 0, DATA_ARG0_LOW);
    RunFromSuffix(SocketBlock(arch), q, 0, d.arg0, d);
    if nr == arch.socket {
      assert Run(p, 0, nr, d) == Run(p, 2, nr, d) == Run(p, 3, d.arg0, d);
    } else {
      assert Run(p, 0, nr, d) == Run(p, 1, nr, d);
    }
  }

  lemma RunArchBlock(arch: Arch, q: seq<Instruction>, d: SyscallData)
    ensures Run(ArchBlock(arch) + q, 0, 0, d)
         == if d.arch != arch.auditArch || (arch.x32 && d.nr >= X32_SYSCALL_BIT) then Return(Errno(EPERM))
            else Run(q, 0, d.nr, d)
  {
    hide Errno;
    var x32 := [Instruction(BPF_JGE_K, 0, 1, X32_SYSCALL_BIT), Ret(Errno(EPERM))];
    var head := ArchBlock(arch)[..4];
    var rest := if arch.x32 then x32 + q else q;
    var p := ArchBlock(arch) + q;
    assert p == head + rest;
    assert p[0] == Instruction(BPF_LD_W_ABS, 0, 0, DATA_ARCH);
    assert p[1] == Instruction(BPF_JEQ_K, 1, 0, arch.auditArch) && p[2] == Ret(Errno(EPERM));
    assert p[3] == Instruction(BPF_LD_W_ABS, 0, 0, DATA_NR);
    RunFromSuffix(head, rest, 0, d.nr, d);
    assert Run(p, 0, 0, d) == Run(p, 1, d.arch, d);
    if d.arch == arch.auditArch {
      assert Run(p, 1, d.arch, d) == Run(p, 3, d.arch, d) == Run(p, 4, d.nr, d);
      if arch.x32 {
        RunPair(BPF_JGE_K, X32_SYSCALL_BIT, Errno(EPERM), q, d.nr, d);
      }
    } else {
      assert Run(p, 1, d.arch, d) == Run(p, 2, d.arch, d);
    }
  }

  /** The filter returns exactly the decision table, for every architecture, denial list,
      family list and system call: no run leaves the program or misses a RET. */
  lemma FilterDecides(arch: Arch, denied: seq<Denial>, families: seq<nat>, d: SyscallData)
    ensures Run(Filter(arch, denied, families), 0, 0, d) == Return(Decide(arch, denied, families, d))
  {
    hide Errno;
    var deny := [Ret(Errno(EACCES))];
    var afterSocket := FamilyBlock(families) + deny;
    var afterDenied := SocketBlock(arch) + afterSocket;
    var afterArch := DenialBlock(denied) + afterDenied;
    assert Filter(arch, denied, families) == ArchBlock(arch) + afterArch;
    RunArchBlock(arch, afterArch, d);
    RunDenialBlock(denied, afterDenied, d.nr, d);
    RunSocketBlock(arch, afterSocket, d.nr, d);
    RunFamilyBlock(families, deny, d.arg0, d);
  }

  /** Inside `left + right` a block keeps its jumps in range when something follows it. */
  ghost predicate Fragment(block: seq<Instruction>) {
    forall pc {:trigger block[pc]} :: 0 <= pc < |block| ==>
      var i := block[pc];
      && (i.code == BPF_LD_W_ABS || IsJump(i) || i.code == BPF_RET_K)
      && (i.code == BPF_LD_W_ABS ==> Load(SyscallData(0, 0, 0), i.k).Some?)
      && i.jt < 256 && i.jf < 256
      && (IsJump(i) ==> pc + 1 + i.jt <= |block| && pc + 1 + i.jf <= |block|)
  }

  lemma FragmentAppend(p: seq<Instruction>, q: seq<Instruction>)
    requires Fragment(p) && Fragment(q)
    ensures Fragment(p + q)
  {
    forall pc | 0 <= pc < |p + q|
      ensures var i := (p + q)[pc];
              && (i.code == BPF_LD_W_ABS || IsJump(i) || i.code == BPF_RET_K)
              && (i.code == BPF_LD_W_ABS ==> Load(SyscallData(0, 0, 0), i.k).Some?)
              && i.jt < 256 && i.jf < 256
              && (IsJump(i) ==> pc + 1 + i.jt <= |p + q| && pc + 1 + i.jf <= |p + q|)
    {
      if pc < |p| { assert (p + q)[pc] == p[pc]; } else { assert (p + q)[pc] == q[pc - |p|]; }
    }
  }

  lemma {:induction false} DenialFragment(denied: seq<Denial>)
    ensures Fragment(DenialBlock(denied))
  {
    hide Errno;
    if denied != [] {
      DenialFragment(denied[..|denied| - 1]);
      FragmentAppend(DenialBlock(denied[..|denied| - 1]), DenialBlock(denied)[|DenialBlock(denied)| - 2..]);
    }
  }

  lemma {:induction false} FamilyFragment(families: seq<nat>)
    ensures Fragment(FamilyBlock(families))
  {
    if families != [] {
      FamilyFragment(families[..|families| - 1]);
      FragmentAppend(FamilyBlock(families[..|families| - 1]), FamilyBlock(families)[|FamilyBlock(families)| - 2..]);
    }
  }

  lemma {:induction false} BlockSizes(denied: seq<Denial>, families: seq<nat>)
    ensures |DenialBlock(denied)| == 2 * |denied| && |FamilyBlock(families)| == 2 * |families|
  {
    if denied != [] { BlockSizes(denied[..|denied| - 1], families); }
    else if families != [] { BlockSizes(denied, families[..|families| - 1]); }
  }

  /** The kernel accepts the filter, with only forward jumps that land inside it and a RET last, if
      and only if the two lists are not too long together. */
  lemma FilterIsWellFormedExactly(arch: Arch, denied: seq<Denial>, families: seq<nat>)
    ensures WellFormed(Filter(arch, denied, families))
      <==> 2 * (|denied| + |families|) + (if arch.x32 then 10 else 8) <= 4096
  {
    hide Errno;
    var body := ArchBlock(arch) + DenialBlock(denied) + SocketBlock(arch) + FamilyBlock(families);
    DenialFragment(denied);
    FamilyFragment(families);
    FragmentAppend(ArchBlock(arch), DenialBlock(denied));
    FragmentAppend(ArchBlock(arch) + DenialBlock(denied), SocketBlock(arch));
    FragmentAppend(ArchBlock(arch) + DenialBlock(denied) + SocketBlock(arch), FamilyBlock(families));
    BlockSizes(denied, families);
    var p := Filter(arch, denied, families);
    assert p == body + [Ret(Errno(EACCES))];
    forall pc | 0 <= pc < |p|
      ensures p[pc].jt < 256 && p[pc].jf < 256
      ensures IsJump(p[pc]) ==> pc + 1 + p[pc].jt < |p| && pc + 1 + p[pc].jf < |p|
    {
      if pc < |body| { assert p[pc] == body[pc]; }
    }
  }

  // ---- The generator --------------------------------------------------------

  /** The audit architectures the generator knows. */
  function ArchOf(machine: string): Option<Arch> {
    if machine == "x86_64" then Some(X86_64)
    else if machine == "aarch64" then Some(AARCH64)
    else None
  }

  /** The denial list the generator builds for one architecture. */
  function Denials(arch: Arch): seq<Denial> {
    [Denial(SYS_IO_URING_SETUP, ENOSYS),
     Denial(arch.bind, EACCES),
     Denial(arch.listen, EACCES),
     Denial(arch.setsid, EPERM),
     Denial(arch.setpgid, EPERM)]
  }

  lemma DenialsTable(arch: Arch, nr: nat)
    ensures FirstDenial(Denials(arch), nr) ==
            if nr == SYS_IO_URING_SETUP then Some(ENOSYS)
            else if nr == arch.bind || nr == arch.listen then Some(EACCES)
            else if nr == arch.setsid || nr == arch.setpgid then Some(EPERM)
            else None
  {
    var d0 := Denials(arch);
    var d1 := d0[1..];
    var d2 := d1[1..];
    var d3 := d2[1..];
    var d4 := d3[1..];
    assert d4[1..] == [];
    assert FirstDenial(d4, nr) == if arch.setpgid == nr then Some(EPERM) else None;
    assert FirstDenial(d3, nr) == if arch.setsid == nr then Some(EPERM) else FirstDenial(d4, nr);
    assert FirstDenial(d2, nr) == if arch.listen == nr then Some(EACCES) else FirstDenial(d3, nr);
    assert FirstDenial(d1, nr) == if arch.bind == nr then Some(EACCES) else FirstDenial(d2, nr);
  }

  /** The families a socket may be opened for. */
  function Families(network: bool): seq<nat> {
    if network then [AF_NETLINK, AF_INET, AF_INET6] else [AF_NETLINK]
  }

  /** What an experiment may do, as the sandbox documents it: a call from a foreign ABI fails with
      EPERM, io_uring_setup with ENOSYS, bind and listen with EACCES, setsid and setpgid with EPERM;
      socket is allowed only for AF_NETLINK, plus AF_INET and AF_INET6 with network; everything else
      is allowed. */
  function Documented(arch: Arch, network: bool, d: SyscallData): nat {
    var foreign := d.arch != arch.auditArch || (arch.x32 && d.nr >= X32_SYSCALL_BIT);
    if foreign then RET_ERRNO + EPERM
    else if d.nr == SYS_IO_URING_SETUP then RET_ERRNO + ENOSYS
    else if d.nr == arch.bind || d.nr == arch.listen then RET_ERRNO + EACCES
    else if d.nr == arch.setsid || d.nr == arch.setpgid then RET_ERRNO + EPERM
    else if d.nr != arch.socket then RET_ALLOW
    else if d.arg0 == AF_NETLINK || (network && (d.arg0 == AF_INET || d.arg0 == AF_INET6)) then RET_ALLOW
    else RET_ERRNO + EACCES
  }

  lemma FilterIsDocumented(arch: Arch, network: bool, d: SyscallData)
    ensures Run(Filter(arch, Denials(arch), Families(network)), 0, 0, d) == Return(Documented(arch, network, d))
  {
    hide Run, Filter, Denials, FirstDenial, Errno;
    FilterDecides(arch, Denials(arch), Families(network), d);
    DenialsTable(arch, d.nr);
    ErrnoJoins(EPERM);
    ErrnoJoins(EACCES);
    ErrnoJoins(ENOSYS);
  }

  /** `seccomp_program`. */
  method SeccompProgram(network: bool, machine: string)
    returns (r: Result<seq<Instruction>, SandboxError>)
    ensures r.Err? <==> machine != "x86_64" && machine != "aarch64"
    ensures r.Ok? ==> WellFormed(r.value)
    ensures r.Ok? ==> forall d: SyscallData ::
      Run(r.value, 0, 0, d)
      == Return(Documented(if machine == "x86_64" then X86_64 else AARCH64, network, d))
  {
    hide Run, WellFormed, Documented;
    var found := ArchOf(machine);
    if found.None? {
      return Err(SandboxUnavailable);
    }
    var arch := found.value;
    var families := [AF_NETLINK];
    if network {
      families := families + [AF_INET, AF_INET6];
    }
    assert families == Families(network);
    var program := EmitFilter(arch, Denials(arch), families);
    FilterIsWellFormedExactly(arch, Denials(arch), families);
    forall d: SyscallData ensures Run(program, 0, 0, d) == Return(Documented(arch, network, d)) {
      FilterIsDocumented(arch, network, d);
    }
    return Ok(program);
  }

  /** The emitting loops of the generator. */
  method EmitFilter(arch: Arch, denied: seq<Denial>, families: seq<nat>) returns (program: seq<Instruction>)
    ensures program == Filter(arch, denied, families)
  {
    hide Errno;
    program := [
      Instruction(BPF_LD_W_ABS, 0, 0, DATA_ARCH),
      Instruction(BPF_JEQ_K, 1, 0, arch.auditArch),
      Ret(Errno(EPERM)),
      Instruction(BPF_LD_W_ABS, 0, 0, DATA_NR)];
    if arch.x32 {
      program := program + [Instruction(BPF_JGE_K, 0, 1, X32_SYSCALL_BIT), Ret(Errno(EPERM))];
    }
    assert program == ArchBlock(arch) + DenialBlock([]);
    for n := 0 to |denied|
      invariant program == ArchBlock(arch) + DenialBlock(denied[..n])
    {
      program := program + [Instruction(BPF_JEQ_K, 0, 1, denied[n].number), Ret(Errno(denied[n].error))];
      assert denied[..n + 1][..n] == denied[..n];
    }
    assert denied[..|denied|] == denied;
    ghost var front := program;
    program := program + [
      Instruction(BPF_JEQ_K, 1, 0, arch.socket),
      Ret(RET_ALLOW),
      Instruction(BPF_LD_W_ABS, 0, 0, DATA_ARG0_LOW)];
    assert program == front + SocketBlock(arch) + FamilyBlock([]);
    for n := 0 to |families|
      invariant program == front + SocketBlock(arch) + FamilyBlock(families[..n])
    {
      program := program + [Instruction(BPF_JEQ_K, 0, 1, families[n]), Ret(RET_ALLOW)];
      assert families[..n + 1][..n] == families[..n];
    }
    assert families[..|families|] == families;
    program := program + [Ret(Errno(EACCES))];
  }

  // ---- The programs themselves -----------------------------------------------------------------

  lemma Errnos()
    ensures Errno(EPERM) == 0x00050001 && Errno(EACCES) == 0x0005000D && Errno(ENOSYS) == 0x00050026
  {
    hide Errno;
    ErrnoJoins(EPERM);
    ErrnoJoins(EACCES);
    ErrnoJoins(ENOSYS);
  }

  lemma DenialBlockSnoc(init: seq<Denial>, last: Denial)
    ensures DenialBlock(init + [last])
         == DenialBlock(init) + [Instruction(BPF_JEQ_K, 0, 1, last.number), Ret(Errno(last.error))]
  {
    hide Errno;
    assert (init + [last])[..|init|] == init;
  }

  lemma DenialBlockOf(a: Denial, b: Denial, c: Denial, d: Denial, e: Denial)
    ensures DenialBlock([a, b, c, d, e])
         == [Instruction(BPF_JEQ_K, 0, 1, a.number), Ret(Errno(a.error)),
             Instruction(BPF_JEQ_K, 0, 1, b.number), Ret(Errno(b.error)),
             Instruction(BPF_JEQ_K, 0, 1, c.number), Ret(Errno(c.error)),
             Instruction(BPF_JEQ_K, 0, 1, d.number), Ret(Errno(d.error)),
             Instruction(BPF_JEQ_K, 0, 1, e.number), Ret(Errno(e.error))]
  {
    assert DenialBlock([]) == [];
    hide Errno, DenialBlock;
    DenialBlockSnoc([], a);
    DenialBlockSnoc([a], b);
    DenialBlockSnoc([a, b], c);
    DenialBlockSnoc([a, b, c], d);
    DenialBlockSnoc([a, b, c, d], e);
    assert [] + [a] == [a] && [a] + [b] == [a, b] && [a, b] + [c] == [a, b, c];
    assert [a, b, c] + [d] == [a, b, c, d] && [a, b, c, d] + [e] == [a, b, c, d, e];
  }

  lemma FamilyBlockOf(family: nat)
    ensures FamilyBlock([family]) == [Instruction(BPF_JEQ_K, 0, 1, family), Ret(RET_ALLOW)]
  {
    assert [family][..0] == [];
  }

  /** The filter of the x86_64 launcher without network, word for word. */
  lemma X86Program()
    ensures Filter(X86_64, Denials(X86_64), Families(false))
      == [
         Instruction(0x20, 0, 0, 4), Instruction(0x15, 1, 0, 0xC000003E),
         Instruction(0x06, 0, 0, 0x00050001), Instruction(0x20, 0, 0, 0),
         Instruction(0x35, 0, 1, 0x40000000), Instruction(0x06, 0, 0, 0x00050001),
         Instruction(0x15, 0, 1, 425), Instruction(0x06, 0, 0, 0x00050026),
         Instruction(0x15, 0, 1, 49), Instruction(0x06, 0, 0, 0x0005000D),
         Instruction(0x15, 0, 1, 50), Instruction(0x06, 0, 0, 0x0005000D),
         Instruction(0x15, 0, 1, 112), Instruction(0x06, 0, 0, 0x00050001),
         Instruction(0x15, 0, 1, 109), Instruction(0x06, 0, 0, 0x00050001),
         Instruction(0x15, 1, 0, 41), Instruction(0x06, 0, 0, 0x7FFF0000),
         Instruction(0x20, 0, 0, 16), Instruction(0x15, 0, 1, 16),
         Instruction(0x06, 0, 0, 0x7FFF0000), Instruction(0x06, 0, 0, 0x0005000D)]
  {
    hide Errno, DenialBlock, FamilyBlock;
    Errnos();
    var d := Denials(X86_64);
    assert d == [d[0], d[1], d[2], d[3], d[4]];
    DenialBlockOf(d[0], d[1], d[2], d[3], d[4]);
    FamilyBlockOf(AF_NETLINK);
  }

  /** The filter of the aarch64 launcher without network, word for word. */
  lemma Aarch64Program()
    ensures Filter(AARCH64, Denials(AARCH64), Families(false))
      == [
         Instruction(0x20, 0, 0, 4), Instruction(0x15, 1, 0, 0xC00000B7),
         Instruction(0x06, 0, 0, 0x00050001), Instruction(0x20, 0, 0, 0),
         Instruction(0x15, 0, 1, 425), Instruction(0x06, 0, 0, 0x00050026),
         Instruction(0x15, 0, 1, 200), Instruction(0x06, 0, 0, 0x0005000D),
         Instruction(0x15, 0, 1, 201), Instruction(0x06, 0, 0, 0x0005000D),
         Instruction(0x15, 0, 1, 157), Instruction(0x06, 0, 0, 0x00050001),
         Instruction(0x15, 0, 1, 154), Instruction(0x06, 0, 0, 0x00050001),
         Instruction(0x15, 1, 0, 198), Instruction(0x06, 0, 0, 0x7FFF0000),
         Instruction(0x20, 0, 0, 16), Instruction(0x15, 0, 1, 16),
         Instruction(0x06, 0, 0, 0x7FFF0000), Instruction(0x06, 0, 0, 0x0005000D)]
  {
    hide Errno, DenialBlock, FamilyBlock;
    Errnos();
    var d := Denials(AARCH64);
    assert d == [d[0], d[1], d[2], d[3], d[4]];
    DenialBlockOf(d[0], d[1], d[2], d[3], d[4]);
    FamilyBlockOf(AF_NETLINK);
  }

  /** With network two more families pass, IPv4 and IPv6, and nothing else does that did not before. */
  lemma NetworkAddsTwoFamilies(arch: Arch, d: SyscallData)
    ensures Documented(arch, true, d) != Documented(arch, false, d)
      ==> && d.nr == arch.socket && (d.arg0 == 2 || d.arg0 == 10)
          && Documented(arch, true, d) == 0x7FFF0000 && Documented(arch, false, d) == 0x0005000D
    ensures d.arch == arch.auditArch && d.nr == arch.socket && !(arch.x32 && d.nr >= 0x40000000)
            && d.nr !in {425, arch.bind, arch.listen, arch.setsid, arch.setpgid} && (d.arg0 == 2 || d.arg0 == 10)
      ==> Documented(arch, true, d) == 0x7FFF0000
  {
  }
}
