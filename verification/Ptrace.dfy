/** System call injection with ptrace (pkg/profiler/ptrace.go). The traced process is an object with
    memory, registers, scratch mappings and userfault descriptors; every kernel answer is an input.
    The question is what the process looks like after each exit of setupUffdWP and closeTargetUffd. */
module Ptrace {
  import opened Addresses
  import opened Options

  const WORD: nat := 8

  type Memory = map<nat, nat>

  datatype Regs = Regs(rip: nat, rax: int, rdi: int, rsi: int, rdx: int, r10: int, r8: int, r9: int, rest: int)

  datatype Syscall =
    | Mmap
    | Munmap(addr: nat)
    | Userfaultfd(userModeOnly: bool)
    | Close(fd: int)
    | Ioctl(fd: int, cmd: int, arg: nat, reply: seq<nat>)
    | Unknown

  /** A system call that ran, as the kernel saw it: an ioctl with the 64-bit words of its argument block. */
  datatype Traced = Called(call: Syscall, ret: int) | Asked(fd: int, cmd: int, words: seq<nat>, ret: int)

  /** How one injection goes: it fails before the call runs (no registers, not set, not stepped), the
      call runs but its result is lost (wait, stop or re-read fails), or it completes. */
  datatype Injection = NoRegs | NotSet | NotStepped | Lost(ran: int) | Done(ret: int)

  predicate Mapped(mem: Memory, addr: nat, len: nat) {
    forall a :: addr <= a < addr + len ==> a in mem
  }

  function Patched(mem: Memory, addr: nat, data: seq<nat>): Memory {
    map a | a in mem :: if addr <= a < addr + |data| then data[a - addr] else mem[a]
  }

  function Peek(mem: Memory, addr: nat): seq<nat>
    requires Mapped(mem, addr, WORD)
  {
    [mem[addr], mem[addr + 1], mem[addr + 2], mem[addr + 3], mem[addr + 4], mem[addr + 5], mem[addr + 6], mem[addr + 7]]
  }

  predicate InPage(page: nat, a: nat) {
    page <= a < page + PAGE
  }

  function WithPage(mem: Memory, page: nat): Memory {
    mem + map a | page <= a < page + PAGE && InPage(page, a) :: 0
  }

  function WithoutPage(mem: Memory, page: nat): Memory {
    map a | a in mem && !InPage(page, a) :: mem[a]
  }

  ghost predicate FreshPage(mem: Memory, page: nat) {
    forall a :: a in mem ==> !InPage(page, a)
  }

  class Target {
    var mem: Memory
    var regs: Regs
    /** Scratch pages and userfault descriptors that injected calls created. */
    var pages: set<nat>
    var uffds: set<int>
    var attached: bool
    /** The system calls that were run in it. */
    var trace: seq<Traced>

    method Poke(addr: nat, data: seq<nat>, works: bool) returns (ok: bool)
      modifies this`mem
      ensures ok == (works && Mapped(old(mem), addr, |data|))
      ensures mem == if ok then Patched(old(mem), addr, data) else old(mem)
    {
      ok := works && Mapped(mem, addr, |data|);
      if ok {
        mem := Patched(mem, addr, data);
      }
    }

    /** The system call that the registers ask for; it needs the syscall instruction at the instruction pointer. */
    method Step(ret: int, reply: seq<nat>)
      requires regs.rip in mem && regs.rip + 1 in mem && mem[regs.rip] == 0x0F && mem[regs.rip + 1] == 0x05
      modifies this`mem, this`regs, this`pages, this`uffds, this`trace
      ensures var call := CallOf(old(regs), reply);
              mem == MemAfter(call, ret, old(mem)) && pages == PagesAfter(call, ret, old(pages)) &&
              uffds == UffdsAfter(call, ret, old(uffds)) && trace == old(trace) + [TraceOf(call, ret, old(mem))]
      ensures regs.rax == ret
    {
      var call := CallOf(regs, reply);
      trace := trace + [TraceOf(call, ret, mem)];
      mem := MemAfter(call, ret, mem);
      pages := PagesAfter(call, ret, pages);
      uffds := UffdsAfter(call, ret, uffds);
      regs := regs.(rax := ret, rip := regs.rip + 2, rest := regs.rest + 1);
    }
  }

  /** What the kernel reads from the registers (x86-64 numbers): one private anonymous read-write page at an address
      of its choice, unmapping one page, a non-blocking close-on-exec userfault descriptor, close, ioctl. */
  function CallOf(regs: Regs, reply: seq<nat>): Syscall {
    if regs.rax == 9 && regs.rdi == 0 && regs.rsi == PAGE && regs.rdx == 3 && regs.r10 == 0x22 && regs.r8 == -1 &&
       regs.r9 == 0 then Mmap
    else if regs.rax == 11 && regs.rdi >= 0 && regs.rsi == PAGE then Munmap(regs.rdi)
    else if regs.rax == 323 && (regs.rdi == 0x80801 || regs.rdi == 0x80800) then Userfaultfd(regs.rdi == 0x80801)
    else if regs.rax == 3 then Close(regs.rdi)
    else if regs.rax == 16 && regs.rdx >= 0 then Ioctl(regs.rdi, regs.rsi, regs.rdx, reply)
    else Unknown
  }

  function ByteAt(mem: Memory, a: nat): nat {
    if a in mem then mem[a] else 0
  }

  /** The little-endian 64-bit number at an address. */
  function WordAt(mem: Memory, a: nat): nat {
    ByteAt(mem, a) + 0x100 * ByteAt(mem, a + 1) + 0x1_0000 * ByteAt(mem, a + 2) + 0x100_0000 * ByteAt(mem, a + 3) +
    0x1_0000_0000 * ByteAt(mem, a + 4) + 0x100_0000_0000 * ByteAt(mem, a + 5) +
    0x1_0000_0000_0000 * ByteAt(mem, a + 6) + 0x100_0000_0000_0000 * ByteAt(mem, a + 7)
  }

  const UFFDIO_API: int := 0xC018AA3F
  const UFFDIO_REGISTER: int := 0xC020AA00

  function TraceOf(call: Syscall, ret: int, mem: Memory): Traced {
    match call
    case Ioctl(fd, cmd, arg, _) =>
      Asked(fd, cmd, [WordAt(mem, arg), WordAt(mem, arg + 8), WordAt(mem, arg + 16)] +
                     if cmd == UFFDIO_API then [] else [WordAt(mem, arg + 24)], ret)
    case _ => Called(call, ret)
  }

  /** The ranges that the kernel agreed to write-protect on request (mode 2). */
  function Armed(trace: seq<Traced>): seq<AddrRange> {
    if trace == [] then []
    else
      var last := trace[|trace| - 1];
      Armed(trace[..|trace| - 1]) +
      if last.Asked? && last.cmd == UFFDIO_REGISTER && |last.words| == 4 && last.words[2] == 2 && last.ret >= 0
      then [AddrRange(last.words[0], last.words[0] + last.words[1])] else []
  }

  function MemAfter(call: Syscall, ret: int, mem: Memory): Memory {
    match call
    case Mmap => if ret >= 0 then WithPage(mem, ret) else mem
    case Munmap(addr) => if ret >= 0 then WithoutPage(mem, addr) else mem
    case Ioctl(_, _, arg, reply) => if ret >= 0 then Patched(mem, arg, reply) else mem
    case _ => mem
  }

  function PagesAfter(call: Syscall, ret: int, pages: set<nat>): set<nat> {
    match call
    case Mmap => if ret >= 0 then pages + {ret} else pages
    case Munmap(addr) => if ret >= 0 then pages - {addr} else pages
    case _ => pages
  }

  function UffdsAfter(call: Syscall, ret: int, uffds: set<int>): set<int> {
    match call
    case Userfaultfd(_) => if ret >= 0 then uffds + {ret} else uffds
    case Close(fd) => if ret >= 0 then uffds - {fd} else uffds
    case _ => uffds
  }

  // ---------------------------------------------------------------- writing

  /** The memory is unchanged outside [addr, addr + len). */
  ghost predicate SameOutside(before: Memory, after: Memory, addr: nat, len: nat) {
    before.Keys == after.Keys && forall a :: a in before && !(addr <= a < addr + len) ==> after[a] == before[a]
  }

  /** The whole words that cover `n` bytes, and the pokes and peeks needed to write them. */
  function RoundUp(n: nat): nat {
    (n + WORD - 1) / WORD * WORD
  }

  function Ops(n: nat): nat {
    n / WORD + if n % WORD == 0 then 0 else 2
  }

  /** writeToTarget, word by word; `fails` is the number of the poke or peek that goes wrong. On success
      exactly the bytes of `data` are written, also when the last word is partial. */
  method WriteToTarget(t: Target, addr: nat, data: seq<nat>, fails: Option<nat>) returns (ok: bool)
    modifies t`mem
    ensures ok ==> t.mem == Patched(old(t.mem), addr, data)
    ensures SameOutside(old(t.mem), t.mem, addr, |data|)
    ensures ok <==> Mapped(old(t.mem), addr, RoundUp(|data|)) && (fails.None? || fails.value >= Ops(|data|))
  {
    hide Patched;
    var words := |data| / WORD;
    ok := WriteWords(t, addr, data, words, fails);
    if !ok {
      return;
    }
    var i := words * WORD;
    PatchFrame(old(t.mem), addr, data, i);
    if i < |data| {
      assert RoundUp(|data|) == i + WORD && Ops(|data|) == words + 2;
      if fails == Some(words) || !Mapped(t.mem, addr + i, WORD) {
        return false;
      }
      var existing := Peek(t.mem, addr + i);
      var n := |data| - i;
      existing := data[i..] + existing[n..];
      ok := t.Poke(addr + i, existing, fails != Some(words + 1));
      if !ok {
        return;
      }
      PatchNext(old(t.mem), addr, data, i, n, existing);
      i := |data|;
    }
    assert data[..i] == data;
    PatchFrame(old(t.mem), addr, data, i);
  }

  /** The loop over full words. */
  method WriteWords(t: Target, addr: nat, data: seq<nat>, words: nat, fails: Option<nat>) returns (ok: bool)
    requires words * WORD <= |data|
    modifies t`mem
    ensures ok ==> t.mem == Patched(old(t.mem), addr, data[..words * WORD])
    ensures SameOutside(old(t.mem), t.mem, addr, |data|)
    ensures ok <==> Mapped(old(t.mem), addr, words * WORD) && (fails.None? || fails.value >= words)
  {
    hide Patched;
    var op := 0;
    PatchNothing(t.mem, addr, data);
    while op < words
      invariant op <= words && t.mem == Patched(old(t.mem), addr, data[..op * WORD])
      invariant Mapped(old(t.mem), addr, op * WORD) && (fails.None? || fails.value >= op)
    {
      var i := op * WORD;
      PatchFrame(old(t.mem), addr, data, i);
      ok := t.Poke(addr + i, data[i..i + WORD], fails != Some(op));
      if !ok {
        return;
      }
      PatchNext(old(t.mem), addr, data, i, WORD, data[i..i + WORD]);
      op := op + 1;
    }
    PatchFrame(old(t.mem), addr, data, words * WORD);
    return true;
  }

  lemma PatchNothing(mem: Memory, addr: nat, data: seq<nat>)
    ensures Patched(mem, addr, data[..0]) == mem
  {
  }

  lemma PatchFrame(mem: Memory, addr: nat, data: seq<nat>, i: nat)
    requires i <= |data|
    ensures SameOutside(mem, Patched(mem, addr, data[..i]), addr, |data|)
  {
  }

  /** Poking a word of which the first `n` bytes are data and the rest is what was there. */
  lemma PatchNext(mem: Memory, addr: nat, data: seq<nat>, i: nat, n: nat, word: seq<nat>)
    requires i + n <= |data| && n <= |word| && word[..n] == data[i..i + n]
    requires forall k :: n <= k < |word| && addr + i + k in mem ==> word[k] == mem[addr + i + k]
    ensures Patched(Patched(mem, addr, data[..i]), addr + i, word) == Patched(mem, addr, data[..i + n])
  {
  }

  // ---------------------------------------------------------------- injecting

  predicate Ran(how: Injection) {
    how.Lost? || how.Done?
  }

  function RetOf(how: Injection): int
    requires Ran(how)
  {
    if how.Lost? then how.ran else how.ret
  }

  function RanOf(how: Injection, call: Syscall, mem: Memory): seq<Traced> {
    if Ran(how) then [TraceOf(call, RetOf(how), mem)] else []
  }

  /** The same for a call without an argument block. */
  function Plain(how: Injection, call: Syscall): seq<Traced> {
    if Ran(how) then [Called(call, RetOf(how))] else []
  }

  /** And for an ioctl, by the words of its block. */
  function Ask(how: Injection, fd: int, cmd: int, words: seq<nat>): seq<Traced> {
    if Ran(how) then [Asked(fd, cmd, words, RetOf(how))] else []
  }

  predicate SyscallAt(mem: Memory, rip: nat) {
    rip in mem && rip + 1 in mem && mem[rip] == 0x0F && mem[rip + 1] == 0x05
  }

  /** injectSyscall: an error result does not mean that the call did not run. */
  method InjectSyscall(t: Target, saved: Regs, call: Syscall, how: Injection) returns (r: Option<int>)
    requires SyscallAt(t.mem, saved.rip) && !call.Unknown?
    modifies t`mem, t`regs, t`pages, t`uffds, t`trace
    ensures r == if how.Done? then Some(how.ret) else None
    ensures t.trace == old(t.trace) + RanOf(how, call, old(t.mem))
    ensures t.mem == if Ran(how) then MemAfter(call, RetOf(how), old(t.mem)) else old(t.mem)
    ensures t.pages == if Ran(how) then PagesAfter(call, RetOf(how), old(t.pages)) else old(t.pages)
    ensures t.uffds == if Ran(how) then UffdsAfter(call, RetOf(how), old(t.uffds)) else old(t.uffds)
  {
    if how.NoRegs? {
      return None;
    }
    var regs := t.regs;
    regs := regs.(rip := saved.rip);
    regs := WithCall(regs, call);
    if how.NotSet? {
      return None;
    }
    t.regs := regs;
    if how.NotStepped? {
      return None;
    }
    t.Step(RetOf(how), if call.Ioctl? then call.reply else []);
    if how.Lost? {
      return None;
    }
    return Some(t.regs.rax);
  }

  /** The argument registers of a call (x86-64 numbers). */
  function WithCall(regs: Regs, call: Syscall): (r: Regs)
    ensures r.rip == regs.rip
  {
    match call
    case Mmap => regs.(rax := 9, rdi := 0, rsi := PAGE, rdx := 3, r10 := 0x22, r8 := -1, r9 := 0)
    case Munmap(addr) => regs.(rax := 11, rdi := addr, rsi := PAGE, rdx := 0, r10 := 0, r8 := 0, r9 := 0)
    case Userfaultfd(user) => regs.(rax := 323, rdi := if user then 0x80801 else 0x80800, rsi := 0, rdx := 0, r10 := 0,
                                    r8 := 0, r9 := 0)
    case Close(fd) => regs.(rax := 3, rdi := fd, rsi := 0, rdx := 0, r10 := 0, r8 := 0, r9 := 0)
    case Ioctl(fd, cmd, arg, _) => regs.(rax := 16, rdi := fd, rsi := cmd, rdx := arg, r10 := 0, r8 := 0, r9 := 0)
    case Unknown => regs
  }

  // ---------------------------------------------------------------- setupUffdWP

  datatype Registration = Registration(writeFails: Option<nat>, ioctl: Injection, reply: seq<nat>)

  /** Every answer the kernel gives during setupUffdWP. */
  datatype Script = Script(
    seize: bool,
    interrupt: bool,
    wait: bool,
    getRegs: bool,
    peek: bool,
    poke: bool,
    mmap: Injection,
    uffd: Injection,
    uffdAgain: Injection,
    writeApi: Option<nat>,
    api: Injection,
    apiReply: seq<nat>,
    registrations: seq<Registration>,
    pidfd: bool,
    getFd: Option<int>,
    close: Injection,
    munmap: Injection,
    restorePoke: bool,
    restoreRegs: bool,
    detach: bool)

  /** The restoring pokes, register writes and injected cleanup calls succeed. */
  predicate CleanupWorks(s: Script) {
    s.restorePoke && s.restoreRegs && s.detach && s.close == Done(0) && s.munmap == Done(0)
  }

  predicate Succeeds(how: Injection) {
    how.Done? && how.ret >= 0
  }

  /** The attempt gets as far as injecting calls. */
  predicate Starts(s: Script, mem: Memory, rip: nat) {
    s.seize && s.interrupt && s.wait && s.getRegs && s.peek && s.poke && Mapped(mem, rip, WORD)
  }

  /** What is left behind: a page or descriptor whose creation ran but was reported as an error. */
  function LeakedPages(s: Script): set<nat> {
    if s.mmap.Lost? && s.mmap.ran >= 0 then {s.mmap.ran} else {}
  }

  function LeakedUffds(s: Script): set<int> {
    if !Succeeds(s.mmap) then {}
    else
      (if s.uffd.Lost? && s.uffd.ran >= 0 then {s.uffd.ran} else {}) +
      (if !Succeeds(s.uffd) && s.uffdAgain.Lost? && s.uffdAgain.ran >= 0 then {s.uffdAgain.ran} else {})
  }

  /** New pages and descriptors are really new. */
  ghost predicate KernelNames(s: Script, mem: Memory, pages: set<nat>, uffds: set<int>) {
    (Ran(s.mmap) && RetOf(s.mmap) >= 0 ==> FreshPage(mem, RetOf(s.mmap)) && RetOf(s.mmap) !in pages) &&
    UffdNames(s, uffds) &&
    |s.apiReply| <= 24 && forall i :: 0 <= i < |s.registrations| ==> |s.registrations[i].reply| <= 32
  }

  predicate UffdNames(s: Script, uffds: set<int>) {
    (Ran(s.uffd) && RetOf(s.uffd) >= 0 ==> RetOf(s.uffd) !in uffds) &&
    (Ran(s.uffdAgain) && RetOf(s.uffdAgain) >= 0 ==> RetOf(s.uffdAgain) !in uffds) &&
    (s.uffd.Lost? && s.uffd.ran >= 0 && Ran(s.uffdAgain) ==> RetOf(s.uffdAgain) != s.uffd.ran)
  }

  function Poked(mem: Memory, rip: nat): Memory {
    Patched(mem, rip, [0x0F, 0x05])
  }

  /** During the injection only the two code bytes and the scratch page differ from the original. */
  ghost predicate Working(mem: Memory, original: Memory, rip: nat, scratch: nat) {
    (forall a :: a in mem <==> a in original || InPage(scratch, a)) &&
    (forall a :: a in original ==> mem[a] == Poked(original, rip)[a])
  }

  /** Afterwards: detached, registers and memory as before. */
  ghost predicate Restored(t: Target, original: Memory, regs: Regs)
    reads t
  {
    !t.attached && t.regs == regs && t.mem == original
  }

  lemma RestoreCode(original: Memory, rip: nat, code: seq<nat>)
    requires Mapped(original, rip, WORD) && code == Peek(original, rip)
    ensures Poked(original, rip) == Patched(original, rip, [0x0F, 0x05] + code[2..])
    ensures SyscallAt(Poked(original, rip), rip)
    ensures Mapped(Poked(original, rip), rip, WORD) && Patched(Poked(original, rip), rip, code) == original
  {
  }

  lemma RestoreCodeBesidePage(original: Memory, rip: nat, code: seq<nat>, page: nat)
    requires Mapped(original, rip, WORD) && code == Peek(original, rip) && FreshPage(original, page)
    ensures Mapped(WithPage(Poked(original, rip), page), rip, WORD)
    ensures Patched(WithPage(Poked(original, rip), page), rip, code) == WithPage(original, page)
    ensures Working(WithPage(Poked(original, rip), page), original, rip, page)
  {
    forall a | rip <= a < rip + WORD
      ensures !InPage(page, a)
    {
      assert a in original;
    }
  }

  lemma WorkingMeans(mem: Memory, original: Memory, rip: nat, scratch: nat)
    requires Working(mem, original, rip, scratch) && FreshPage(original, scratch) && Mapped(original, rip, WORD)
    ensures SyscallAt(mem, rip) && Mapped(mem, scratch, PAGE)
    ensures WithoutPage(mem, scratch) == Poked(original, rip)
  {
    assert rip in original && rip + 1 in original;
    forall a | scratch <= a < scratch + PAGE
      ensures a in mem
    {
      assert InPage(scratch, a);
    }
  }

  /** Anything written inside the scratch page leaves the rest alone. */
  lemma WorkingKept(before: Memory, after: Memory, original: Memory, rip: nat, scratch: nat, len: nat)
    requires Working(before, original, rip, scratch) && FreshPage(original, scratch)
    requires SameOutside(before, after, scratch, len) && len <= PAGE
    ensures Working(after, original, rip, scratch)
  {
    forall a | a in original
      ensures after[a] == Poked(original, rip)[a]
    {
      assert !InPage(scratch, a);
    }
  }

  lemma PatchOutside(mem: Memory, addr: nat, data: seq<nat>)
    ensures SameOutside(mem, Patched(mem, addr, data), addr, |data|)
  {
  }

  /** The closure `restore`. */
  method Restore(t: Target, saved: Regs, code: seq<nat>, s: Script)
    requires |code| == WORD
    modifies t`mem, t`regs, t`attached
    ensures s.restorePoke && Mapped(old(t.mem), saved.rip, WORD) ==> t.mem == Patched(old(t.mem), saved.rip, code)
    ensures s.restoreRegs ==> t.regs == saved
    ensures s.detach ==> !t.attached
  {
    var _ := t.Poke(saved.rip, code, s.restorePoke);
    if s.restoreRegs {
      t.regs := saved;
    }
    if s.detach {
      t.attached := false;
    }
  }

  /** The closure `cleanupMmap`, also used on success. */
  method CleanupMmap(t: Target, saved: Regs, code: seq<nat>, s: Script, scratch: nat, ghost original: Memory)
    requires Mapped(original, saved.rip, WORD) && code == Peek(original, saved.rip)
    requires Working(t.mem, original, saved.rip, scratch) && FreshPage(original, scratch)
    modifies t`mem, t`regs, t`pages, t`uffds, t`trace, t`attached
    ensures t.uffds == old(t.uffds) && t.trace == old(t.trace) + Plain(s.munmap, Munmap(scratch))
    ensures CleanupWorks(s) ==> Restored(t, original, saved) && t.pages == old(t.pages) - {scratch}
  {
    WorkingMeans(t.mem, original, saved.rip, scratch);
    var _ := InjectSyscall(t, saved, Munmap(scratch), s.munmap);
    RestoreCode(original, saved.rip, code);
    Restore(t, saved, code, s);
  }

  /** The closure `cleanupUffd`. */
  method CleanupUffd(t: Target, saved: Regs, code: seq<nat>, s: Script, scratch: nat, uffd: int, ghost original: Memory)
    requires Mapped(original, saved.rip, WORD) && code == Peek(original, saved.rip)
    requires Working(t.mem, original, saved.rip, scratch) && FreshPage(original, scratch)
    modifies t`mem, t`regs, t`pages, t`uffds, t`trace, t`attached
    ensures t.trace == old(t.trace) + Plain(s.close, Close(uffd)) + Plain(s.munmap, Munmap(scratch))
    ensures CleanupWorks(s) ==>
              Restored(t, original, saved) && t.pages == old(t.pages) - {scratch} && t.uffds == old(t.uffds) - {uffd}
  {
    WorkingMeans(t.mem, original, saved.rip, scratch);
    var _ := InjectSyscall(t, saved, Close(uffd), s.close);
    CleanupMmap(t, saved, code, s, scratch, original);
  }

  /** A number as eight bytes, the lowest first. */
  function Bytes64(x: nat): (b: seq<nat>)
    ensures |b| == 8
  {
    var x1 := x / 256;
    var x2 := x1 / 256;
    var x3 := x2 / 256;
    var x4 := x3 / 256;
    var x5 := x4 / 256;
    var x6 := x5 / 256;
    var x7 := x6 / 256;
    [x % 256, x1 % 256, x2 % 256, x3 % 256, x4 % 256, x5 % 256, x6 % 256, x7 % 256]
  }

  function RegistrationOf(s: Script, i: nat): Registration {
    if i < |s.registrations| then s.registrations[i] else Registration(None, NoRegs, [])
  }

  predicate Registers(v: Vma, r: Registration) {
    v.WritableAnonymous() && (r.writeFails.None? || r.writeFails.value >= 4) && Succeeds(r.ioctl)
  }

  /** The VMAs whose registration was written and accepted, in order. */
  function Registered(vmas: seq<Vma>, s: Script): seq<AddrRange> {
    if vmas == [] then []
    else
      var last := |vmas| - 1;
      Registered(vmas[..last], s) +
      if Registers(vmas[last], RegistrationOf(s, last)) then [AddrRange(vmas[last].start, vmas[last].end)] else []
  }

  const TWO64: nat := 0x1_0000_0000_0000_0000

  /** What the kernel is asked for a VMA: its start, its length and write-protect mode, as 64-bit numbers. */
  function RegisterTrace(v: Vma, r: Registration, uffd: int): seq<Traced> {
    if r.writeFails.None? || r.writeFails.value >= 4
    then Ask(r.ioctl, uffd, 0xC020AA00, [v.start % TWO64, (v.end - v.start) % TWO64, 2, 0]) else []
  }

  function RegisterAllTrace(vmas: seq<Vma>, s: Script, uffd: int): seq<Traced> {
    if vmas == [] then []
    else
      var last := |vmas| - 1;
      RegisterAllTrace(vmas[..last], s, uffd) +
      if vmas[last].WritableAnonymous() then RegisterTrace(vmas[last], RegistrationOf(s, last), uffd) else []
  }

  /** The VMAs that the kernel agreed to write-protect, whether or not the answer came through. */
  function Protected(vmas: seq<Vma>, s: Script): seq<AddrRange> {
    if vmas == [] then []
    else
      var last := |vmas| - 1;
      Protected(vmas[..last], s) +
      if vmas[last].WritableAnonymous() && Agreed(RegistrationOf(s, last))
      then [AddrRange(vmas[last].start, vmas[last].end)] else []
  }

  predicate Agreed(r: Registration) {
    (r.writeFails.None? || r.writeFails.value >= 4) && Ran(r.ioctl) && RetOf(r.ioctl) >= 0
  }

  ghost predicate Addressable(vmas: seq<Vma>) {
    forall i :: 0 <= i < |vmas| ==> vmas[i].start <= vmas[i].end < TWO64
  }

  lemma {:induction false} ArmedBoth(a: seq<Traced>, b: seq<Traced>)
    ensures Armed(a + b) == Armed(a) + Armed(b)
  {
    if b == [] {
      assert a + b == a;
    } else {
      assert (a + b)[..|a + b| - 1] == a + b[..|b| - 1];
      ArmedBoth(a, b[..|b| - 1]);
    }
  }

  /** The ranges asked for are those of the VMAs, in order. */
  lemma {:induction false} ArmedAreProtected(vmas: seq<Vma>, s: Script, uffd: int)
    requires Addressable(vmas)
    ensures Armed(RegisterAllTrace(vmas, s, uffd)) == Protected(vmas, s)
  {
    if vmas != [] {
      var last := |vmas| - 1;
      var v, r := vmas[last], RegistrationOf(s, last);
      ArmedAreProtected(vmas[..last], s, uffd);
      if v.WritableAnonymous() {
        ArmedBoth(RegisterAllTrace(vmas[..last], s, uffd), RegisterTrace(v, r, uffd));
        ArmedOne(v, r, uffd);
      } else {
        assert RegisterAllTrace(vmas, s, uffd) == RegisterAllTrace(vmas[..last], s, uffd);
      }
    }
  }

  lemma ArmedOne(v: Vma, r: Registration, uffd: int)
    requires v.start <= v.end < TWO64
    ensures Armed(RegisterTrace(v, r, uffd)) == if Agreed(r) then [AddrRange(v.start, v.end)] else []
  {
    var trace := RegisterTrace(v, r, uffd);
    if trace != [] {
      assert trace[..0] == [];
    }
  }

  /** No agreed answer for a VMA was lost on the way back. */
  ghost predicate NoneLost(vmas: seq<Vma>, s: Script) {
    forall i :: 0 <= i < |vmas| && vmas[i].WritableAnonymous() && Agreed(RegistrationOf(s, i)) ==>
                  RegistrationOf(s, i).ioctl.Done?
  }

  lemma NoneLostNext(vmas: seq<Vma>, s: Script)
    requires vmas != []
    ensures var last := |vmas| - 1;
            NoneLost(vmas, s) <==>
            NoneLost(vmas[..last], s) &&
            (vmas[last].WritableAnonymous() && Agreed(RegistrationOf(s, last)) ==> RegistrationOf(s, last).ioctl.Done?)
  {
    var last := |vmas| - 1;
    assert forall i :: 0 <= i < last ==> vmas[..last][i] == vmas[i];
    hide RegistrationOf, Agreed;
  }

  /** What is reported as registered is what is write-protected, if and only if no agreed answer was lost. */
  lemma {:induction false} ReportedIff(vmas: seq<Vma>, s: Script)
    ensures |Registered(vmas, s)| <= |Protected(vmas, s)|
    ensures Registered(vmas, s) == Protected(vmas, s) <==> NoneLost(vmas, s)
  {
    if vmas != [] {
      var last := |vmas| - 1;
      ReportedIff(vmas[..last], s);
      NoneLostNext(vmas, s);
      hide NoneLost;
      var a, b := Registered(vmas[..last], s), Protected(vmas[..last], s);
      SameInit(a, b, AddrRange(vmas[last].start, vmas[last].end));
      assert a + [] == a && b + [] == b;
      if |a| == |b| && a + [] == b + [AddrRange(vmas[last].start, vmas[last].end)] {
        assert false;
      }
    }
  }

  lemma SameInit(a: seq<AddrRange>, b: seq<AddrRange>, r: AddrRange)
    ensures a + [r] == b + [r] ==> a == b
  {
    if a + [r] == b + [r] {
      assert (a + [r])[..|a|] == a && (b + [r])[..|b|] == b;
    }
  }

  /** The eight bytes of a number, read back. */
  lemma BytesRead(x: nat)
    ensures var b := Bytes64(x);
            b[0] + 0x100 * b[1] + 0x1_0000 * b[2] + 0x100_0000 * b[3] + 0x1_0000_0000 * b[4] +
            0x100_0000_0000 * b[5] + 0x1_0000_0000_0000 * b[6] + 0x100_0000_0000_0000 * b[7] == x % TWO64
  {
    var y := x / 256 / 256 / 256 / 256;
    FourBytes(x);
    FourBytes(y);
    var b := Bytes64(x);
    var sum := b[0] + 0x100 * b[1] + 0x1_0000 * b[2] + 0x100_0000 * b[3] + 0x1_0000_0000 * b[4] +
               0x100_0000_0000 * b[5] + 0x1_0000_0000_0000 * b[6] + 0x100_0000_0000_0000 * b[7];
    assert b == [x % 256, x / 256 % 256, x / 256 / 256 % 256, x / 256 / 256 / 256 % 256,
                 y % 256, y / 256 % 256, y / 256 / 256 % 256, y / 256 / 256 / 256 % 256];
    Remainder(x, sum, y / 256 / 256 / 256 / 256);
  }

  lemma FourBytes(x: nat)
    ensures x == x % 256 + 0x100 * (x / 256 % 256) + 0x1_0000 * (x / 256 / 256 % 256) +
                 0x100_0000 * (x / 256 / 256 / 256 % 256) + 0x1_0000_0000 * (x / 256 / 256 / 256 / 256)
  {
  }

  lemma Remainder(x: nat, low: nat, q: nat)
    requires low < TWO64 && x == low + TWO64 * q
    ensures x % TWO64 == low
  {
  }

  lemma WordWritten(mem: Memory, addr: nat, data: seq<nat>, k: nat, x: nat)
    requires Mapped(mem, addr, |data|) && 8 * k + 8 <= |data| && data[8 * k..8 * k + 8] == Bytes64(x)
    ensures WordAt(Patched(mem, addr, data), addr + 8 * k) == x % TWO64
  {
    BytesRead(x);
    var after, b := Patched(mem, addr, data), Bytes64(x);
    forall i | 0 <= i < 8
      ensures ByteAt(after, addr + 8 * k + i) == b[i]
    {
      assert addr + 8 * k + i in mem && data[8 * k..8 * k + 8][i] == data[8 * k + i];
    }
    hide Bytes64, Patched;
  }

  lemma FourSlices(a: seq<nat>, b: seq<nat>, c: seq<nat>, d: seq<nat>)
    requires |a| == |b| == |c| == 8
    ensures var s := a + b + c + d; s[0..8] == a && s[8..16] == b && s[16..24] == c && s[24..] == d
  {
  }

  /** An argument block written to the scratch page reads as its words. */
  lemma BlockWritten(mem: Memory, addr: nat, words: seq<nat>, data: seq<nat>)
    requires 3 <= |words| <= 4 && Mapped(mem, addr, |data|)
    requires data == Bytes64(words[0]) + Bytes64(words[1]) + Bytes64(words[2]) +
                     if |words| == 4 then Bytes64(words[3]) else []
    ensures var after := Patched(mem, addr, data);
            WordAt(after, addr) == words[0] % TWO64 && WordAt(after, addr + 8) == words[1] % TWO64 &&
            WordAt(after, addr + 16) == words[2] % TWO64 &&
            (|words| == 4 ==> WordAt(after, addr + 24) == words[3] % TWO64)
  {
    hide Bytes64, Patched, WordAt, Mapped;
    var last := if |words| == 4 then Bytes64(words[3]) else [];
    FourSlices(Bytes64(words[0]), Bytes64(words[1]), Bytes64(words[2]), last);
    WordWritten(mem, addr, data, 0, words[0]);
    WordWritten(mem, addr, data, 1, words[1]);
    WordWritten(mem, addr, data, 2, words[2]);
    if |words| == 4 {
      WordWritten(mem, addr, data, 3, words[3]);
    }
  }

  /** What an ioctl asks is what its argument block says. */
  lemma AskIs(how: Injection, fd: int, cmd: int, arg: nat, reply: seq<nat>, mem: Memory, words: seq<nat>)
    requires |words| == (if cmd == UFFDIO_API then 3 else 4)
    requires words[0] == WordAt(mem, arg) && words[1] == WordAt(mem, arg + 8) && words[2] == WordAt(mem, arg + 16)
    requires |words| == 4 ==> words[3] == WordAt(mem, arg + 24)
    ensures RanOf(how, Ioctl(fd, cmd, arg, reply), mem) == Ask(how, fd, cmd, words)
  {
    hide WordAt;
    var rest := if cmd == UFFDIO_API then [] else [WordAt(mem, arg + 24)];
    assert words == [WordAt(mem, arg), WordAt(mem, arg + 8), WordAt(mem, arg + 16)] + rest;
  }

  /** Step 7: register the writable anonymous VMAs; a failure only skips the VMA. */
  method RegisterVmas(t: Target, vmas: seq<Vma>, saved: Regs, s: Script, scratch: nat, uffd: int,
                      ghost original: Memory) returns (registered: seq<AddrRange>)
    requires Mapped(original, saved.rip, WORD)
    requires Working(t.mem, original, saved.rip, scratch) && FreshPage(original, scratch)
    requires forall i :: 0 <= i < |s.registrations| ==> |s.registrations[i].reply| <= 32
    modifies t`mem, t`regs, t`pages, t`uffds, t`trace
    ensures Working(t.mem, original, saved.rip, scratch) && t.pages == old(t.pages) && t.uffds == old(t.uffds)
    ensures registered == Registered(vmas, s) && t.trace == old(t.trace) + RegisterAllTrace(vmas, s, uffd)
  {
    hide Working, Patched, SameOutside, FreshPage, Mapped, RegisterTrace;
    registered := [];
    for i := 0 to |vmas|
      invariant t.trace == old(t.trace) + RegisterAllTrace(vmas[..i], s, uffd)
      invariant Working(t.mem, original, saved.rip, scratch) && t.pages == old(t.pages) && t.uffds == old(t.uffds)
      invariant registered == Registered(vmas[..i], s)
    {
      assert vmas[..i + 1][..i] == vmas[..i];
      if !vmas[i].WritableAnonymous() {
        continue;
      }
      var ok := RegisterOne(t, vmas[i], saved, RegistrationOf(s, i), scratch, uffd, original);
      if ok {
        registered := registered + [AddrRange(vmas[i].start, vmas[i].end)];
      }
    }
    assert vmas[..|vmas|] == vmas;
  }

  method RegisterOne(t: Target, v: Vma, saved: Regs, r: Registration, scratch: nat, uffd: int,
                     ghost original: Memory) returns (ok: bool)
    requires Mapped(original, saved.rip, WORD) && |r.reply| <= 32
    requires Working(t.mem, original, saved.rip, scratch) && FreshPage(original, scratch)
    modifies t`mem, t`regs, t`pages, t`uffds, t`trace
    ensures Working(t.mem, original, saved.rip, scratch) && t.pages == old(t.pages) && t.uffds == old(t.uffds)
    ensures ok == ((r.writeFails.None? || r.writeFails.value >= 4) && Succeeds(r.ioctl))
    ensures t.trace == old(t.trace) + RegisterTrace(v, r, uffd)
  {
    hide Patched, Bytes64, WordAt;
    WorkingMeans(t.mem, original, saved.rip, scratch);
    var len := (v.end - v.start) % TWO64;
    var data := Bytes64(v.start) + Bytes64(len) + Bytes64(2) + Bytes64(0);
    ok := WriteToTarget(t, scratch, data, r.writeFails);
    WorkingKept(old(t.mem), t.mem, original, saved.rip, scratch, 32);
    if !ok {
      return;
    }
    BlockWritten(old(t.mem), scratch, [v.start, len, 2, 0], data);
    AskIs(r.ioctl, uffd, 0xC020AA00, scratch, r.reply, t.mem, [v.start % TWO64, len % TWO64, 2, 0]);
    ok := InjectIoctl(t, saved, scratch, uffd, 0xC020AA00, r.ioctl, r.reply, original);
  }

  method InjectIoctl(t: Target, saved: Regs, scratch: nat, uffd: int, cmd: int, how: Injection, reply: seq<nat>,
                     ghost original: Memory) returns (ok: bool)
    requires Mapped(original, saved.rip, WORD) && |reply| <= 32
    requires Working(t.mem, original, saved.rip, scratch) && FreshPage(original, scratch)
    modifies t`mem, t`regs, t`pages, t`uffds, t`trace
    ensures Working(t.mem, original, saved.rip, scratch) && t.pages == old(t.pages) && t.uffds == old(t.uffds)
    ensures ok == Succeeds(how) && t.trace == old(t.trace) + RanOf(how, Ioctl(uffd, cmd, scratch, reply), old(t.mem))
  {
    WorkingMeans(t.mem, original, saved.rip, scratch);
    PatchOutside(t.mem, scratch, reply);
    WorkingKept(t.mem, Patched(t.mem, scratch, reply), original, saved.rip, scratch, |reply|);
    var r := InjectSyscall(t, saved, Ioctl(uffd, cmd, scratch, reply), how);
    ok := r.Some? && r.value >= 0;
  }

  datatype Saved = Saved(regs: Regs, code: seq<nat>)

  /** Steps 1 to 3: seize, stop, save, and poke the syscall instruction; every failure detaches. */
  method Attach(t: Target, s: Script) returns (saved: Option<Saved>)
    requires !t.attached
    modifies t`mem, t`attached
    ensures saved.Some? <==> Starts(s, old(t.mem), t.regs.rip)
    ensures saved.None? ==> t.mem == old(t.mem) && (s.detach ==> !t.attached)
    ensures saved.Some? ==> Mapped(old(t.mem), t.regs.rip, WORD) && t.mem == Poked(old(t.mem), t.regs.rip)
    ensures saved.Some? ==> saved.value == Saved(t.regs, Peek(old(t.mem), t.regs.rip))
    ensures saved.Some? ==> |saved.value.code| == WORD
  {
    saved := None;
    if !s.seize {
      return;
    }
    t.attached := true;
    if s.interrupt && s.wait && s.getRegs && s.peek && Mapped(t.mem, t.regs.rip, WORD) {
      var code := Peek(t.mem, t.regs.rip);
      RestoreCode(t.mem, t.regs.rip, code);
      var poked := t.Poke(t.regs.rip, [0x0F, 0x05] + code[2..], s.poke);
      if poked {
        return Some(Saved(t.regs, code));
      }
    }
    if s.detach {
      t.attached := false;
    }
  }

  /** Step 5: the descriptor, with the fallback that does not ask for user-mode-only. */
  method CreateUffd(t: Target, saved: Regs, s: Script) returns (uffd: Option<int>)
    requires SyscallAt(t.mem, saved.rip) && Succeeds(s.mmap) && UffdNames(s, t.uffds)
    modifies t`mem, t`regs, t`pages, t`uffds, t`trace
    ensures t.mem == old(t.mem) && t.pages == old(t.pages)
    ensures uffd == UffdOf(s)
    ensures uffd.None? ==> t.uffds == old(t.uffds) + LeakedUffds(s)
    ensures uffd.Some? ==> t.uffds == old(t.uffds) + LeakedUffds(s) + {uffd.value}
    ensures uffd.Some? ==> uffd.value !in old(t.uffds) && uffd.value !in LeakedUffds(s)
    ensures t.trace == old(t.trace) + UffdTrace(s)
  {
    uffd := TryUffd(t, saved, true, s.uffd);
    if uffd.None? {
      uffd := TryUffd(t, saved, false, s.uffdAgain);
    }
  }

  method TryUffd(t: Target, saved: Regs, userModeOnly: bool, how: Injection) returns (uffd: Option<int>)
    requires SyscallAt(t.mem, saved.rip)
    modifies t`mem, t`regs, t`pages, t`uffds, t`trace
    ensures t.mem == old(t.mem) && t.pages == old(t.pages)
    ensures uffd == if Succeeds(how) then Some(how.ret) else None
    ensures t.uffds == if Ran(how) && RetOf(how) >= 0 then old(t.uffds) + {RetOf(how)} else old(t.uffds)
    ensures t.trace == old(t.trace) + Plain(how, Userfaultfd(userModeOnly))
  {
    uffd := InjectSyscall(t, saved, Userfaultfd(userModeOnly), how);
    if uffd.None? || uffd.value < 0 {
      return None;
    }
  }

  /** The descriptor is first asked for in user-mode-only form, then, if that fails, without. */
  function UffdTrace(s: Script): seq<Traced> {
    Plain(s.uffd, Userfaultfd(true)) + if Succeeds(s.uffd) then [] else Plain(s.uffdAgain, Userfaultfd(false))
  }

  /** The descriptor of step 5. */
  function UffdOf(s: Script): Option<int> {
    if Succeeds(s.uffd) then Some(s.uffd.ret)
    else if Succeeds(s.uffdAgain) then Some(s.uffdAgain.ret)
    else None
  }

  /** The handshake of step 6 is written and accepted. */
  predicate Handshakes(s: Script) {
    (s.writeApi.None? || s.writeApi.value >= 3) && Succeeds(s.api)
  }

  /** The handshake names API version 0xAA and asks for asynchronous write protection (bit 15), also of pages that are
      not populated (bit 13). */
  function ApiTrace(s: Script, uffd: int): seq<Traced> {
    if s.writeApi.None? || s.writeApi.value >= 3 then Ask(s.api, uffd, 0xC018AA3F, [0xAA, 32768 + 8192, 0]) else []
  }

  /** Step 6. */
  method Handshake(t: Target, saved: Regs, s: Script, scratch: nat, uffd: int, ghost original: Memory)
    returns (ok: bool)
    requires Mapped(original, saved.rip, WORD) && |s.apiReply| <= 24
    requires Working(t.mem, original, saved.rip, scratch) && FreshPage(original, scratch)
    modifies t`mem, t`regs, t`pages, t`uffds, t`trace
    ensures Working(t.mem, original, saved.rip, scratch) && t.pages == old(t.pages) && t.uffds == old(t.uffds)
    ensures ok == Handshakes(s) && t.trace == old(t.trace) + ApiTrace(s, uffd)
    ensures ok ==> s.api.Done? && t.trace == old(t.trace) + [Asked(uffd, 0xC018AA3F, [0xAA, 0xA000, 0], s.api.ret)]
  {
    hide Patched, Bytes64, WordAt;
    WorkingMeans(t.mem, original, saved.rip, scratch);
    var data := Bytes64(0xAA) + Bytes64(0x8000 + 0x2000) + Bytes64(0);
    ok := WriteToTarget(t, scratch, data, s.writeApi);
    WorkingKept(old(t.mem), t.mem, original, saved.rip, scratch, 24);
    if ok {
      BlockWritten(old(t.mem), scratch, [0xAA, 0x8000 + 0x2000, 0], data);
      AskIs(s.api, uffd, 0xC018AA3F, scratch, s.apiReply, t.mem, [0xAA, 32768 + 8192, 0]);
      ok := InjectIoctl(t, saved, scratch, uffd, 0xC018AA3F, s.api, s.apiReply, original);
    }
  }

  /** What setupUffdWP reports. */
  datatype Setup = Setup(trackerFd: int, targetFd: int, registered: seq<AddrRange>)

  const FAILED: Setup := Setup(-1, -1, [])

  /** The whole setup is accepted. */
  predicate SetsUp(s: Script, vmas: seq<Vma>) {
    Succeeds(s.mmap) && UffdOf(s).Some? && Handshakes(s) && Registered(vmas, s) != [] && s.pidfd && s.getFd.Some?
  }

  /** A creating call ran although its injection was reported as an error: the one way to leave something behind. */
  predicate LosesCreation(s: Script) {
    var lost := (how: Injection) => how.Lost? && how.ran >= 0;
    lost(s.mmap) ||
    (Succeeds(s.mmap) && (lost(s.uffd) || (!Succeeds(s.uffd) && lost(s.uffdAgain))))
  }

  /** The calls of steps 6 to 8: the handshake, the registrations, and in the end the descriptor is closed unless all
      went well, and the scratch page unmapped. */
  function UseTrace(s: Script, vmas: seq<Vma>, scratch: nat, uffd: int): seq<Traced> {
    var asked := ApiTrace(s, uffd) + if Handshakes(s) then RegisterAllTrace(vmas, s, uffd) else [];
    var keeps := Handshakes(s) && Registered(vmas, s) != [] && s.pidfd && s.getFd.Some?;
    asked + (if keeps then [] else Plain(s.close, Close(uffd))) + Plain(s.munmap, Munmap(scratch))
  }

  /** All calls of a setup that starts. */
  function SetupTrace(s: Script, vmas: seq<Vma>): seq<Traced> {
    Plain(s.mmap, Mmap) +
    if !Succeeds(s.mmap) then []
    else
      UffdTrace(s) +
      if UffdOf(s).None? then Plain(s.munmap, Munmap(s.mmap.ret)) else UseTrace(s, vmas, s.mmap.ret, UffdOf(s).value)
  }

  /** What a setup has armed: the VMAs that the kernel agreed to protect, nothing else. */
  lemma SetupArms(s: Script, vmas: seq<Vma>)
    requires Addressable(vmas)
    ensures Armed(SetupTrace(s, vmas)) ==
            if Succeeds(s.mmap) && UffdOf(s).Some? && Handshakes(s) then Protected(vmas, s) else []
  {
    if Succeeds(s.mmap) {
      ArmedPlain(s.mmap, Mmap);
      ArmedPlain(s.uffd, Userfaultfd(true));
      ArmedPlain(s.uffdAgain, Userfaultfd(false));
      ArmedPlain(s.munmap, Munmap(s.mmap.ret));
      ArmedBoth(Plain(s.uffd, Userfaultfd(true)),
                if Succeeds(s.uffd) then [] else Plain(s.uffdAgain, Userfaultfd(false)));
      assert Armed(UffdTrace(s)) == [];
      if UffdOf(s).Some? {
        UseArms(s, vmas, s.mmap.ret, UffdOf(s).value);
      }
      hide Armed, UseTrace, UffdTrace, Plain, Protected;
      var rest := if UffdOf(s).None? then Plain(s.munmap, Munmap(s.mmap.ret))
                  else UseTrace(s, vmas, s.mmap.ret, UffdOf(s).value);
      ArmedBoth(UffdTrace(s), rest);
      ArmedBoth(Plain(s.mmap, Mmap), UffdTrace(s) + rest);
    } else {
      ArmedPlain(s.mmap, Mmap);
      assert SetupTrace(s, vmas) == Plain(s.mmap, Mmap);
    }
  }

  lemma ArmedPlain(how: Injection, call: Syscall)
    ensures Armed(Plain(how, call)) == [] && Armed([]) == []
  {
    var trace := Plain(how, call);
    if trace != [] {
      assert trace[..0] == [];
    }
  }

  lemma ApiArmsNothing(s: Script, uffd: int)
    ensures Armed(ApiTrace(s, uffd)) == [] && Armed([]) == []
  {
    if ApiTrace(s, uffd) != [] {
      assert ApiTrace(s, uffd)[..0] == [];
    }
  }

  lemma UseArms(s: Script, vmas: seq<Vma>, scratch: nat, uffd: int)
    requires Addressable(vmas)
    ensures Armed(UseTrace(s, vmas, scratch, uffd)) == if Handshakes(s) then Protected(vmas, s) else []
  {
    var api := ApiTrace(s, uffd);
    ApiArmsNothing(s, uffd);
    hide Armed, ApiTrace, RegisterAllTrace, Plain, Protected, Registered, Addressable, Handshakes;
    ArmedPlain(s.close, Close(uffd));
    ArmedPlain(s.munmap, Munmap(scratch));
    ArmedAreProtected(vmas, s, uffd);
    var all := if Handshakes(s) then RegisterAllTrace(vmas, s, uffd) else [];
    var keeps := Handshakes(s) && Registered(vmas, s) != [] && s.pidfd && s.getFd.Some?;
    var closing := if keeps then [] else Plain(s.close, Close(uffd));
    ArmedBoth(api, all);
    ArmedBoth(api + all, closing);
    ArmedBoth(api + all + closing, Plain(s.munmap, Munmap(scratch)));
  }

  /** Steps 6 to 8, once the page and the descriptor exist. */
  method UseUffd(t: Target, vmas: seq<Vma>, saved: Saved, s: Script, scratch: nat, uffd: int, ghost original: Memory)
    returns (ok: bool, r: Setup)
    requires Mapped(original, saved.regs.rip, WORD) && saved.code == Peek(original, saved.regs.rip)
    requires Working(t.mem, original, saved.regs.rip, scratch) && FreshPage(original, scratch)
    requires |s.apiReply| <= 24 && forall i :: 0 <= i < |s.registrations| ==> |s.registrations[i].reply| <= 32
    modifies t`mem, t`regs, t`pages, t`uffds, t`trace, t`attached
    ensures ok == (Handshakes(s) && Registered(vmas, s) != [] && s.pidfd && s.getFd.Some?)
    ensures r == if ok then Setup(s.getFd.value, uffd, Registered(vmas, s)) else FAILED
    ensures t.trace == old(t.trace) + UseTrace(s, vmas, scratch, uffd)
    ensures CleanupWorks(s) ==> Restored(t, original, saved.regs) && t.pages == old(t.pages) - {scratch}
    ensures CleanupWorks(s) ==> t.uffds == if ok then old(t.uffds) else old(t.uffds) - {uffd}
  {
    hide Working, FreshPage, Mapped, Restored, Peek, Plain, ApiTrace, RegisterAllTrace, Registered, Handshakes;
    hide CleanupWorks;
    var shaken := Handshake(t, saved.regs, s, scratch, uffd, original);
    if !shaken {
      CleanupUffd(t, saved.regs, saved.code, s, scratch, uffd, original);
      return false, FAILED;
    }
    var registered := RegisterVmas(t, vmas, saved.regs, s, scratch, uffd, original);
    if registered == [] || !s.pidfd || s.getFd.None? {
      CleanupUffd(t, saved.regs, saved.code, s, scratch, uffd, original);
      return false, FAILED;
    }
    CleanupMmap(t, saved.regs, saved.code, s, scratch, original);
    return true, Setup(s.getFd.value, uffd, registered);
  }

  /** What a run leaves in the target: the original plus whatever was created behind an error report. */
  function LeftMemory(s: Script, mem: Memory, rip: nat): Memory {
    if Starts(s, mem, rip) && s.mmap.Lost? && s.mmap.ran >= 0 then WithPage(mem, s.mmap.ran) else mem
  }

  function LeftPages(s: Script, mem: Memory, rip: nat, pages: set<nat>): set<nat> {
    if Starts(s, mem, rip) then pages + LeakedPages(s) else pages
  }

  function LeftUffds(s: Script, mem: Memory, rip: nat, uffds: set<int>): set<int> {
    if Starts(s, mem, rip) then uffds + LeakedUffds(s) else uffds
  }

  /** setupUffdWP. When the restoring calls work, the target ends detached with its registers and memory,
      and has exactly the returned descriptor on success and none on failure; the exception is spelled
      out by the three functions above and by TargetIntactIff. */
  method SetupUffdWP(t: Target, vmas: seq<Vma>, s: Script) returns (ok: bool, r: Setup)
    requires !t.attached && KernelNames(s, t.mem, t.pages, t.uffds)
    modifies t`mem, t`regs, t`pages, t`uffds, t`trace, t`attached
    ensures ok <==> Starts(s, old(t.mem), old(t.regs.rip)) && SetsUp(s, vmas)
    ensures ok ==> r == Setup(s.getFd.value, UffdOf(s).value, Registered(vmas, s)) && r.targetFd !in old(t.uffds)
    ensures !ok ==> r == FAILED
    ensures t.trace == old(t.trace) + if Starts(s, old(t.mem), old(t.regs.rip)) then SetupTrace(s, vmas) else []
    ensures ok && Addressable(vmas) ==> Armed(t.trace) == Armed(old(t.trace)) + Protected(vmas, s)
    ensures CleanupWorks(s) ==> !t.attached && t.regs == old(t.regs)
    ensures CleanupWorks(s) ==> t.mem == LeftMemory(s, old(t.mem), old(t.regs.rip))
    ensures CleanupWorks(s) ==> t.pages == LeftPages(s, old(t.mem), old(t.regs.rip), old(t.pages))
    ensures CleanupWorks(s) ==>
              t.uffds == LeftUffds(s, old(t.mem), old(t.regs.rip), old(t.uffds)) + if ok then {r.targetFd} else {}
  {
    hide *;
    ok, r := SetUp(t, vmas, s);
    if ok && Addressable(vmas) {
      SetupArms(s, vmas);
      ArmedBoth(old(t.trace), SetupTrace(s, vmas));
      SetsUpMeans(s, vmas);
    }
  }

  lemma SetsUpMeans(s: Script, vmas: seq<Vma>)
    ensures SetsUp(s, vmas) ==> Succeeds(s.mmap) && UffdOf(s).Some? && Handshakes(s)
  {
  }

  method SetUp(t: Target, vmas: seq<Vma>, s: Script) returns (ok: bool, r: Setup)
    requires !t.attached && KernelNames(s, t.mem, t.pages, t.uffds)
    modifies t`mem, t`regs, t`pages, t`uffds, t`trace, t`attached
    ensures ok <==> Starts(s, old(t.mem), old(t.regs.rip)) && SetsUp(s, vmas)
    ensures ok ==> r == Setup(s.getFd.value, UffdOf(s).value, Registered(vmas, s)) && r.targetFd !in old(t.uffds)
    ensures !ok ==> r == FAILED
    ensures t.trace == old(t.trace) + if Starts(s, old(t.mem), old(t.regs.rip)) then SetupTrace(s, vmas) else []
    ensures CleanupWorks(s) ==> !t.attached && t.regs == old(t.regs)
    ensures CleanupWorks(s) ==> t.mem == LeftMemory(s, old(t.mem), old(t.regs.rip))
    ensures CleanupWorks(s) ==> t.pages == LeftPages(s, old(t.mem), old(t.regs.rip), old(t.pages))
    ensures CleanupWorks(s) ==>
              t.uffds == LeftUffds(s, old(t.mem), old(t.regs.rip), old(t.uffds)) + if ok then {r.targetFd} else {}
  {
    hide Working, Mapped, Patched, FreshPage, WithPage, UffdTrace, UseTrace, Registered, Handshakes, Plain, UffdOf;
    hide UffdNames, Peek;
    ghost var original := t.mem;
    var saved := Attach(t, s);
    if saved.None? {
      return false, FAILED;
    }
    var Saved(regs, code) := saved.value;
    RestoreCode(original, regs.rip, code);
    var page := MapScratch(t, regs, s.mmap);
    if Ran(s.mmap) && RetOf(s.mmap) >= 0 {
      RestoreCodeBesidePage(original, regs.rip, code, RetOf(s.mmap));
      WorkingMeans(t.mem, original, regs.rip, RetOf(s.mmap));
    }
    if page.None? || page.value < 0 {
      Restore(t, regs, code, s);
      return false, FAILED;
    }
    ok, r := SetupInPage(t, vmas, saved.value, s, page.value, original);
  }

  /** Step 4. */
  method MapScratch(t: Target, saved: Regs, how: Injection) returns (page: Option<int>)
    requires SyscallAt(t.mem, saved.rip)
    modifies t`mem, t`regs, t`pages, t`uffds, t`trace
    ensures page == if how.Done? then Some(how.ret) else None
    ensures t.uffds == old(t.uffds) && t.trace == old(t.trace) + Plain(how, Mmap)
    ensures if Ran(how) && RetOf(how) >= 0
            then t.mem == WithPage(old(t.mem), RetOf(how)) && t.pages == old(t.pages) + {RetOf(how)}
            else t.mem == old(t.mem) && t.pages == old(t.pages)
  {
    page := InjectSyscall(t, saved, Mmap, how);
  }

  /** Steps 5 to 8, once the scratch page exists. */
  method SetupInPage(t: Target, vmas: seq<Vma>, saved: Saved, s: Script, scratch: nat, ghost original: Memory)
    returns (ok: bool, r: Setup)
    requires Mapped(original, saved.regs.rip, WORD) && saved.code == Peek(original, saved.regs.rip)
    requires Working(t.mem, original, saved.regs.rip, scratch) && FreshPage(original, scratch)
    requires Succeeds(s.mmap) && s.mmap.ret == scratch && UffdNames(s, t.uffds)
    requires |s.apiReply| <= 24 && forall i :: 0 <= i < |s.registrations| ==> |s.registrations[i].reply| <= 32
    modifies t`mem, t`regs, t`pages, t`uffds, t`trace, t`attached
    ensures ok <==> SetsUp(s, vmas)
    ensures ok ==> r == Setup(s.getFd.value, UffdOf(s).value, Registered(vmas, s)) && r.targetFd !in old(t.uffds)
    ensures !ok ==> r == FAILED
    ensures t.trace == old(t.trace) + UffdTrace(s) +
                       if UffdOf(s).None? then Plain(s.munmap, Munmap(scratch))
                       else UseTrace(s, vmas, scratch, UffdOf(s).value)
    ensures CleanupWorks(s) ==> Restored(t, original, saved.regs) && t.pages == old(t.pages) - {scratch}
    ensures CleanupWorks(s) ==> t.uffds == old(t.uffds) + LeakedUffds(s) + if ok then {r.targetFd} else {}
  {
    WorkingMeans(t.mem, original, saved.regs.rip, scratch);
    hide Working, Mapped, FreshPage, UffdTrace, UseTrace, Registered, Handshakes, Plain;
    var uffd := CreateUffd(t, saved.regs, s);
    if uffd.None? {
      CleanupMmap(t, saved.regs, saved.code, s, scratch, original);
      return false, FAILED;
    }
    ok, r := UseUffd(t, vmas, saved, s, scratch, uffd.value, original);
  }

  /** The target is as it was, up to the returned descriptor, if and only if no creating call ran behind an
      error report. */
  lemma TargetIntactIff(s: Script, mem: Memory, rip: nat, pages: set<nat>, uffds: set<int>)
    requires KernelNames(s, mem, pages, uffds)
    ensures (LeftMemory(s, mem, rip) == mem && LeftPages(s, mem, rip, pages) == pages &&
             LeftUffds(s, mem, rip, uffds) == uffds) <==>
            !(Starts(s, mem, rip) && LosesCreation(s))
  {
    hide Mapped;
    if Starts(s, mem, rip) && s.mmap.Lost? && s.mmap.ran >= 0 {
      assert s.mmap.ran in LeftPages(s, mem, rip, pages);
    }
    var left := LeftUffds(s, mem, rip, uffds);
    if Starts(s, mem, rip) && Succeeds(s.mmap) && s.uffd.Lost? && s.uffd.ran >= 0 {
      assert s.uffd.ran in left;
    }
    if Starts(s, mem, rip) && Succeeds(s.mmap) && !Succeeds(s.uffd) && s.uffdAgain.Lost? && s.uffdAgain.ran >= 0 {
      assert s.uffdAgain.ran in left;
    }
  }

  /** Such a run exists: the first userfaultfd call creates descriptor 5, the stop after it is not a SIGTRAP,
      and the fallback's descriptor 6 is the only one that is closed again. */
  lemma LostResultLeaks()
    ensures exists s: Script, mem: Memory ::
              KernelNames(s, mem, {}, {}) && Starts(s, mem, 0) && CleanupWorks(s) && LeftUffds(s, mem, 0, {}) == {5}
  {
    var mem := map a | 0 <= a < 8 && InPage(0, a) :: 0;
    var s := Script(true, true, true, true, true, true, Done(PAGE), Lost(5), Done(6), None, Done(-22), [], [], true,
                    None, Done(0), Done(0), true, true, true);
    assert KernelNames(s, mem, {}, {}) && Starts(s, mem, 0) && CleanupWorks(s);
    assert LeftUffds(s, mem, 0, {}) == {5};
  }

  // ---------------------------------------------------------------- closeTargetUffd

  /** closeTargetUffd: whatever the injected close does, the target is detached with its code and
      registers; success means the descriptor is gone, and only a lost result hides that it is. */
  method CloseTargetUffd(t: Target, targetFd: int, s: Script) returns (ok: bool)
    requires !t.attached
    modifies t`mem, t`regs, t`pages, t`uffds, t`trace, t`attached
    ensures t.pages == old(t.pages)
    ensures t.trace ==
            old(t.trace) + if Starts(s, old(t.mem), old(t.regs.rip)) then Plain(s.close, Close(targetFd)) else []
    ensures ok <==> Starts(s, old(t.mem), old(t.regs.rip)) && Succeeds(s.close)
    ensures s.restorePoke && s.restoreRegs && s.detach ==> !t.attached && t.regs == old(t.regs) && t.mem == old(t.mem)
    ensures t.uffds == if ok || (Starts(s, old(t.mem), old(t.regs.rip)) && s.close.Lost? && s.close.ran >= 0)
                       then old(t.uffds) - {targetFd} else old(t.uffds)
  {
    hide Mapped, Patched;
    ghost var original := t.mem;
    var saved := Attach(t, s);
    if saved.None? {
      return false;
    }
    var Saved(regs, code) := saved.value;
    RestoreCode(original, regs.rip, code);
    var result := InjectSyscall(t, regs, Close(targetFd), s.close);
    Restore(t, regs, code, s);
    return result.Some? && result.value >= 0;
  }
}
