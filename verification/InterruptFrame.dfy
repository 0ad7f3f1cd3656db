/** The interrupt stubs: building the frame a handler sees, and resuming from it. */
module InterruptFrame {

  // stack_state_t, lowest address first.
  datatype Frame = Frame(gs: int, fs: int, es: int, ds: int, edi: int, esi: int, ebp: int, edx: int,
                         ecx: int, ebx: int, eax: int, intNum: int, errCode: int,
                         eip: int, cs: int, eflags: int, esp: int, ss: int)

  // What a segment register holds.
  type Selector = x: int | 0 <= x < 0x10000

  // A frame as the processor takes it: of a word for a segment register it loads the low half.
  function Loaded(f: Frame): Frame {
    f.(gs := f.gs % 0x10000, fs := f.fs % 0x10000, es := f.es % 0x10000, ds := f.ds % 0x10000,
       cs := f.cs % 0x10000, ss := f.ss % 0x10000)
  }

  type Memory = map<int, int>

  function Word(m: Memory, a: int): int {
    if a in m then m[a] else 0
  }

  // Memory from address a on is as it was.
  ghost predicate KeptFrom(m: Memory, m': Memory, a: int) {
    forall b: int :: b >= a ==> Word(m', b) == Word(m, b)
  }

  // The same, but for the words in [lo, hi).
  ghost predicate KeptOutside(m: Memory, m': Memory, a: int, lo: int, hi: int) {
    forall b: int :: b >= a && !(lo <= b < hi) ==> Word(m', b) == Word(m, b)
  }

  // The low half of a frame: what the stub pushes and pops.
  predicate SavedAt(m: Memory, a: int, f: Frame) {
    && Word(m, a) == f.gs && Word(m, a + 4) == f.fs && Word(m, a + 8) == f.es && Word(m, a + 12) == f.ds
    && Word(m, a + 16) == f.edi && Word(m, a + 20) == f.esi && Word(m, a + 24) == f.ebp && Word(m, a + 28) == f.edx
    && Word(m, a + 32) == f.ecx && Word(m, a + 36) == f.ebx && Word(m, a + 40) == f.eax
  }

  // What iret and revert_change_stack read.
  predicate ReturnAt(m: Memory, a: int, f: Frame) {
    && Word(m, a) == f.eip && Word(m, a + 4) == f.cs && Word(m, a + 8) == f.eflags
    && Word(m, a + 12) == f.esp && Word(m, a + 16) == f.ss
  }

  // The interrupt number, the error code and what the processor pushes on a privilege change.
  predicate PushedAt(m: Memory, a: int, f: Frame) {
    && Word(m, a) == f.intNum && Word(m, a + 4) == f.errCode
    && Word(m, a + 8) == f.eip && Word(m, a + 12) == f.cs && Word(m, a + 16) == f.eflags
    && Word(m, a + 20) == f.esp && Word(m, a + 24) == f.ss
  }

  predicate FrameAt(m: Memory, a: int, f: Frame) {
    SavedAt(m, a, f) && PushedAt(m, a + 44, f)
  }

  class Cpu {
    var mem: Memory
    var eax: int
    var ebx: int
    var ecx: int
    var edx: int
    var ebp: int
    var esi: int
    var edi: int
    var ds: Selector
    var es: Selector
    var fs: Selector
    var gs: Selector
    var ss: Selector
    var esp: int
    var eip: int
    var cs: Selector
    var eflags: int

    // Everything a program can see of the processor, as the frame that would describe it.
    function Visible(intNum: int, errCode: int): Frame
      reads this
    {
      Frame(gs, fs, es, ds, edi, esi, ebp, edx, ecx, ebx, eax, intNum, errCode, eip, cs, eflags, esp, ss)
    }

    // The stack pointer an interrupt starts from: the interrupted one, or the kernel's after a privilege change.
    function Top(kernelEsp: int): int
      reads this`esp, this`cs
    {
      if cs % 4 == 0 then esp else kernelEsp
    }

    // movl: one word written, all others kept.
    method Store(a: int, w: int)
      modifies this`mem
      ensures Word(mem, a) == w
      ensures forall b: int :: b != a ==> Word(mem, b) == Word(old(mem), b)
    {
      mem := mem[a := w];
    }

    method Push(w: int)
      modifies this`mem, this`esp
      ensures esp == old(esp) - 4 && Word(mem, esp) == w
      ensures forall b: int :: b != esp ==> Word(mem, b) == Word(old(mem), b)
    {
      esp := esp - 4;
      Store(esp, w);
    }

    method Push2(first: int, second: int)
      modifies this`mem, this`esp
      ensures esp == old(esp) - 8 && Word(mem, esp + 4) == first && Word(mem, esp) == second
      ensures KeptFrom(old(mem), mem, old(esp))
    {
      Push(first);
      Push(second);
    }

    method Push3(first: int, second: int, third: int)
      modifies this`mem, this`esp
      ensures esp == old(esp) - 12
      ensures Word(mem, esp + 8) == first && Word(mem, esp + 4) == second && Word(mem, esp) == third
      ensures KeptFrom(old(mem), mem, old(esp))
    {
      Push2(first, second);
      Push(third);
    }

    method Pop() returns (w: int)
      modifies this`esp
      ensures esp == old(esp) + 4 && w == Word(mem, old(esp))
    {
      w := Word(mem, esp);
      esp := esp + 4;
    }

    method PopSelector() returns (s: Selector)
      modifies this`esp
      ensures esp == old(esp) + 4 && s == Word(mem, old(esp)) % 0x10000
    {
      var w := Pop();
      s := w % 0x10000;
    }

    // Section 6.12.1 of the Intel SDM Vol. 3A: SS and ESP are pushed only on a privilege change, after a
    // switch to the kernel stack. The error code is pushed by the processor or as 0 by the stub.
    method Deliver(intNum: int, errCode: int, kernelEsp: int, kernelSs: Selector, handler: int)
      modifies this`mem, this`esp, this`ss, this`cs, this`eip
      ensures cs == 0x08 && eip == handler
      ensures old(cs) % 4 == 0 ==>
                && esp == old(esp) - 20 && ss == old(ss)
                && Word(mem, esp) == intNum && Word(mem, esp + 4) == errCode && Word(mem, esp + 8) == old(eip)
                && Word(mem, esp + 12) == old(cs) && Word(mem, esp + 16) == old(eflags)
      ensures old(cs) % 4 != 0 ==>
                && esp == kernelEsp - 28 && ss == kernelSs
                && PushedAt(mem, esp, old(Visible(intNum, errCode)))
      ensures KeptFrom(old(mem), mem, old(Top(kernelEsp)))
    {
      if cs % 4 != 0 {
        var userEsp, userSs := esp, ss;
        esp, ss := kernelEsp, kernelSs;
        Push2(userSs, userEsp);
      }
      Push3(eflags, cs, eip);
      Push2(errCode, intNum);
      cs, eip := 0x08, handler;
    }

    // change_stack: slide the five words down by eight bytes, with overlapping moves, and put SS:ESP
    // where the processor would have put them.
    method ChangeStack()
      modifies this`mem, this`esp, this`eax
      ensures eax == old(eax) && esp == old(esp) - 8
      ensures Word(mem, esp) == Word(old(mem), old(esp)) && Word(mem, esp + 4) == Word(old(mem), old(esp) + 4)
      ensures Word(mem, esp + 8) == Word(old(mem), old(esp) + 8) && Word(mem, esp + 12) == Word(old(mem), old(esp) + 12)
      ensures Word(mem, esp + 16) == Word(old(mem), old(esp) + 16)
      ensures Word(mem, esp + 20) == old(esp) + 20 && Word(mem, esp + 24) == ss
      ensures KeptFrom(old(mem), mem, old(esp) + 20)
    {
      SlideCodes();
      SlideReturn();
      PutStack();
    }

    // EAX put aside; the interrupt number and the error code down by eight bytes.
    method SlideCodes()
      modifies this`mem, this`eax
      ensures Word(mem, esp - 12) == old(eax)
      ensures Word(mem, esp - 8) == Word(old(mem), esp) && Word(mem, esp - 4) == Word(old(mem), esp + 4)
      ensures KeptFrom(old(mem), mem, esp)
    {
      Store(esp - 4 - 8, eax);
      eax := Word(mem, esp);
      Store(esp - 8, eax);
      eax := Word(mem, esp + 4);
      Store(esp - 4, eax);
    }

    // SS:ESP behind the words moved down, and EAX back from where it was put aside.
    method PutStack()
      modifies this`mem, this`esp, this`eax
      ensures esp == old(esp) - 8 && eax == Word(old(mem), old(esp) - 12)
      ensures Word(mem, old(esp) + 12) == old(esp) + 20 && Word(mem, old(esp) + 16) == ss
      ensures forall b: int :: b != old(esp) + 12 && b != old(esp) + 16 ==> Word(mem, b) == Word(old(mem), b)
    {
      eax := esp;
      eax := eax + 5 * 4;
      Store(esp + 12, eax);
      eax := ss;
      Store(esp + 16, eax);
      esp := esp - 8;
      eax := Word(mem, esp - 4);
    }

    // EIP, CS and EFLAGS down by eight bytes, onto the words just moved and onto EIP itself.
    method SlideReturn()
      modifies this`mem, this`eax
      ensures Word(mem, esp) == Word(old(mem), esp + 8) && Word(mem, esp + 4) == Word(old(mem), esp + 12)
      ensures Word(mem, esp + 8) == Word(old(mem), esp + 16)
      ensures forall b: int :: b < esp || esp + 12 <= b ==> Word(mem, b) == Word(old(mem), b)
    {
      eax := Word(mem, esp + 8);
      Store(esp, eax);
      eax := Word(mem, esp + 12);
      Store(esp + 4, eax);
      eax := Word(mem, esp + 16);
      Store(esp + 8, eax);
    }

    // The pushes of common_isr, then kernel data segments.
    method SaveRegisters(ghost f: Frame)
      requires f.gs == gs && f.fs == fs && f.es == es && f.ds == ds && f.edi == edi && f.esi == esi
      requires f.ebp == ebp && f.edx == edx && f.ecx == ecx && f.ebx == ebx && f.eax == eax
      requires PushedAt(mem, esp, f)
      modifies this`mem, this`esp, this`edx, this`ds, this`es, this`fs, this`gs
      ensures esp == old(esp) - 44 && FrameAt(mem, esp, f) && KeptFrom(old(mem), mem, old(esp))
    {
      Push3(eax, ebx, ecx);
      Push2(edx, ebp);
      Push2(esi, edi);
      SaveSegments(f);
    }

    method SaveSegments(ghost f: Frame)
      requires f.gs == gs && f.fs == fs && f.es == es && f.ds == ds
      modifies this`mem, this`esp, this`edx, this`ds, this`es, this`fs, this`gs
      ensures esp == old(esp) - 16 && KeptFrom(old(mem), mem, old(esp))
      ensures Word(mem, esp) == f.gs && Word(mem, esp + 4) == f.fs
      ensures Word(mem, esp + 8) == f.es && Word(mem, esp + 12) == f.ds
    {
      Push2(ds, es);
      Push2(fs, gs);
      edx := 0x10;
      ds, es, fs, gs := edx % 0x10000, edx % 0x10000, edx % 0x10000, edx % 0x10000;
    }

    // From the interrupted program to the call of isr_handler: the frame describes that program, SS:ESP
    // included, whether or not the processor pushed them, and is 72 bytes below the stack pointer it used;
    // from there up the stack is untouched.
    method Enter(intNum: int, errCode: int, kernelEsp: int, kernelSs: Selector, handler: int)
      modifies this
      ensures esp == old(Top(kernelEsp)) - 72
      ensures KeptFrom(old(mem), mem, old(Top(kernelEsp)))
      ensures FrameAt(mem, esp, old(Visible(intNum, errCode)))
    {
      ghost var f := Visible(intNum, errCode);
      Deliver(intNum, errCode, kernelEsp, kernelSs, handler);
      if Word(mem, esp + 12) % 4 == 0 {
        ChangeStack();
      }
      SaveRegisters(f);
    }

    // The pops of common_isr; addl $8 drops the interrupt number and the error code.
    method RestoreRegisters(ghost f: Frame)
      requires SavedAt(mem, esp, f)
      modifies this`esp, this`eax, this`ebx, this`ecx, this`edx, this`ebp, this`esi, this`edi,
               this`ds, this`es, this`fs, this`gs
      ensures esp == old(esp) + 52
      ensures eax == f.eax && ebx == f.ebx && ecx == f.ecx && edx == f.edx
      ensures ebp == f.ebp && esi == f.esi && edi == f.edi
      ensures ds == f.ds % 0x10000 && es == f.es % 0x10000 && fs == f.fs % 0x10000 && gs == f.gs % 0x10000
    {
      RestoreSegments(f);
      RestoreIndex(f);
      RestoreData(f);
      esp := esp + 8;
    }

    method RestoreSegments(ghost f: Frame)
      requires Word(mem, esp) == f.gs && Word(mem, esp + 4) == f.fs
      requires Word(mem, esp + 8) == f.es && Word(mem, esp + 12) == f.ds
      modifies this`esp, this`ds, this`es, this`fs, this`gs
      ensures esp == old(esp) + 16
      ensures ds == f.ds % 0x10000 && es == f.es % 0x10000 && fs == f.fs % 0x10000 && gs == f.gs % 0x10000
    {
      gs := PopSelector();
      fs := PopSelector();
      es := PopSelector();
      ds := PopSelector();
    }

    method RestoreIndex(ghost f: Frame)
      requires Word(mem, esp) == f.edi && Word(mem, esp + 4) == f.esi && Word(mem, esp + 8) == f.ebp
      modifies this`esp, this`ebp, this`esi, this`edi
      ensures esp == old(esp) + 12 && ebp == f.ebp && esi == f.esi && edi == f.edi
    {
      edi := Pop();
      esi := Pop();
      ebp := Pop();
    }

    method RestoreData(ghost f: Frame)
      requires Word(mem, esp) == f.edx && Word(mem, esp + 4) == f.ecx
      requires Word(mem, esp + 8) == f.ebx && Word(mem, esp + 12) == f.eax
      modifies this`esp, this`eax, this`ebx, this`ecx, this`edx
      ensures esp == old(esp) + 16 && eax == f.eax && ebx == f.ebx && ecx == f.ecx && edx == f.edx
    {
      edx := Pop();
      ecx := Pop();
      ebx := Pop();
      eax := Pop();
    }

    // revert_change_stack: six words copied below the stack pointer to resume with, in this order.
    method RevertChangeStack(ghost f: Frame)
      requires ReturnAt(mem, esp, f)
      requires eax == f.eax && ebx == f.ebx && ecx == f.ecx
      modifies this`mem, this`esp, this`ss, this`eax, this`ebx, this`ecx
      ensures esp == f.esp - 12 && ss == f.ss % 0x10000
      ensures var g := Landed(f, f.esp - 12 - old(esp));
              && eax == g.eax && ebx == g.ebx && ecx == g.ecx
              && Word(mem, esp) == g.eip && Word(mem, esp + 4) == g.cs && Word(mem, esp + 8) == g.eflags
      ensures KeptOutside(old(mem), mem, f.esp, old(esp) - 12, old(esp))
    {
      Spill();
      ebx := Word(mem, esp + 12);
      ecx := Word(mem, esp + 16);
      ebx := ebx - 3 * 4;
      MoveFrame(f);
      SwitchStack(Landed(f, ebx - esp));
    }

    method SwitchStack(ghost g: Frame)
      requires Word(mem, ebx - 12) == g.eax && Word(mem, ebx - 16) == g.ebx && Word(mem, ebx - 20) == g.ecx
      modifies this`esp, this`ss, this`eax, this`ebx, this`ecx
      ensures esp == old(ebx) && ss == old(ecx) % 0x10000 && eax == g.eax && ebx == g.ebx && ecx == g.ecx
    {
      ss := ecx % 0x10000;
      esp := ebx;
      eax := Word(mem, esp - 12);
      ebx := Word(mem, esp - 16);
      ecx := Word(mem, esp - 20);
    }

    method Spill()
      modifies this`mem
      ensures Word(mem, esp - 4) == eax && Word(mem, esp - 8) == ebx && Word(mem, esp - 12) == ecx
      ensures forall b: int :: b < esp - 12 || esp <= b ==> Word(mem, b) == Word(old(mem), b)
    {
      Store(esp - 4, eax);
      Store(esp - 8, ebx);
      Store(esp - 12, ecx);
    }

    // Six words from the old stack to the new one at EBX.
    method MoveFrame(ghost f: Frame)
      requires Word(mem, esp - 4) == f.eax && Word(mem, esp - 8) == f.ebx && Word(mem, esp - 12) == f.ecx
      requires Word(mem, esp) == f.eip && Word(mem, esp + 4) == f.cs && Word(mem, esp + 8) == f.eflags
      modifies this`mem, this`eax
      ensures var g := Landed(f, ebx - esp);
              && Word(mem, ebx) == g.eip && Word(mem, ebx + 4) == g.cs && Word(mem, ebx + 8) == g.eflags
              && Word(mem, ebx - 12) == g.eax && Word(mem, ebx - 16) == g.ebx && Word(mem, ebx - 20) == g.ecx
      ensures KeptFrom(old(mem), mem, ebx + 12)
    {
      MoveSaved(f);
      MovePushed(f);
    }

    method MoveSaved(ghost f: Frame)
      requires Word(mem, esp - 4) == f.eax && Word(mem, esp - 8) == f.ebx && Word(mem, esp - 12) == f.ecx
      modifies this`mem, this`eax
      ensures var g := Landed(f, ebx - esp);
              && Word(mem, ebx - 12) == g.eax && Word(mem, ebx - 16) == g.ebx && Word(mem, ebx - 20) == g.ecx
              && forall b: int :: b != ebx - 12 && b != ebx - 16 && b != ebx - 20 ==> Word(mem, b) == Word(old(mem), b)
    {
      eax := Word(mem, esp - 4);
      Store(ebx - 12, eax);
      eax := Word(mem, esp - 8);
      Store(ebx - 16, eax);
      eax := Word(mem, esp - 12);
      Store(ebx - 20, eax);
    }

    method MovePushed(ghost f: Frame)
      requires var g := Landed(f, ebx - esp);
               Word(mem, ebx - 12) == g.eax && Word(mem, ebx - 16) == g.ebx && Word(mem, ebx - 20) == g.ecx
      requires esp != ebx - 12 && esp != ebx - 16 && esp != ebx - 20 ==> Word(mem, esp) == f.eip
      requires esp + 4 != ebx - 12 && esp + 4 != ebx - 16 && esp + 4 != ebx - 20 ==> Word(mem, esp + 4) == f.cs
      requires esp + 8 != ebx - 12 && esp + 8 != ebx - 16 && esp + 8 != ebx - 20 ==> Word(mem, esp + 8) == f.eflags
      modifies this`mem, this`eax
      ensures var g := Landed(f, ebx - esp);
              && Word(mem, ebx) == g.eip && Word(mem, ebx + 4) == g.cs && Word(mem, ebx + 8) == g.eflags
              && Word(mem, ebx - 12) == g.eax && Word(mem, ebx - 16) == g.ebx && Word(mem, ebx - 20) == g.ecx
      ensures KeptFrom(old(mem), mem, ebx + 12)
    {
      eax := Word(mem, esp + 8);
      Store(ebx + 8, eax);
      eax := Word(mem, esp + 4);
      Store(ebx + 4, eax);
      eax := Word(mem, esp);
      Store(ebx, eax);
    }

    // iret from ring 0: SS:ESP are popped too when the code segment returned to is not ring 0.
    method Iret()
      modifies this`eip, this`cs, this`eflags, this`esp, this`ss
      ensures eip == Word(mem, old(esp)) && eflags == Word(mem, old(esp) + 8)
      ensures cs == Word(mem, old(esp) + 4) % 0x10000
      ensures cs % 4 == 0 ==> esp == old(esp) + 12 && ss == old(ss)
      ensures cs % 4 != 0 ==> esp == Word(mem, old(esp) + 12) && ss == Word(mem, old(esp) + 16) % 0x10000
    {
      eip := Pop();
      cs := PopSelector();
      eflags := Pop();
      if cs % 4 != 0 {
        var newEsp := Pop();
        ss := PopSelector();
        esp := newEsp;
      }
    }

    // fini_isr after revert_change_stack.
    method RevertAndReturn(ghost f: Frame)
      requires ReturnAt(mem, esp, f)
      requires eax == f.eax && ebx == f.ebx && ecx == f.ecx
      modifies this`mem, this`esp, this`ss, this`eax, this`ebx, this`ecx, this`eip, this`cs, this`eflags
      ensures var g := Landed(f, f.esp - 12 - old(esp));
              && eax == g.eax && ebx == g.ebx && ecx == g.ecx && eip == g.eip && eflags == g.eflags
              && cs == g.cs % 0x10000
              && (g.cs % 4 == 0 ==> esp == f.esp && ss == f.ss % 0x10000)
      ensures KeptOutside(old(mem), mem, f.esp, old(esp) - 12, old(esp))
    {
      RevertChangeStack(f);
      Iret();
    }

    // The registers the stub pops hold what the frame says.
    ghost predicate Restored(f: Frame)
      reads this
    {
      && eax == f.eax && ebx == f.ebx && ecx == f.ecx && edx == f.edx && ebp == f.ebp && esi == f.esi && edi == f.edi
      && ds == f.ds % 0x10000 && es == f.es % 0x10000 && fs == f.fs % 0x10000 && gs == f.gs % 0x10000
    }

    // fini_isr to an outer ring.
    method ReturnOuter(ghost f: Frame)
      requires Restored(f) && ReturnAt(mem, esp, f) && f.cs % 4 != 0
      modifies this`esp, this`ss, this`eip, this`cs, this`eflags
      ensures Visible(f.intNum, f.errCode) == Loaded(f)
    {
      Iret();
    }

    method ReturnInner(ghost f: Frame)
      requires Restored(f) && ReturnAt(mem, esp, f)
      modifies this`mem, this`esp, this`ss, this`eax, this`ebx, this`ecx, this`eip, this`cs, this`eflags
      ensures var g := Landed(f, f.esp - 12 - old(esp)); g.cs % 4 == 0 ==> Visible(f.intNum, f.errCode) == Loaded(g)
      ensures KeptOutside(old(mem), mem, f.esp, old(esp) - 12, old(esp))
    {
      RevertAndReturn(f);
    }

    // From the return of isr_handler to the program it resumes. From its stack pointer up its memory is as the
    // handler left it, but for three words of the old frame used as scratch.
    method Leave(ghost f: Frame)
      requires FrameAt(mem, esp, f) && (f.cs % 4 == 0 ==> (f.esp - esp) % 4 == 0)
      modifies this
      ensures f.cs % 4 != 0 ==> Visible(f.intNum, f.errCode) == Loaded(f) && mem == old(mem)
      ensures var g := Landed(f, f.esp - 64 - old(esp));
              f.cs % 4 == 0 && g.cs % 4 == 0 ==> Visible(f.intNum, f.errCode) == Loaded(g)
      ensures KeptOutside(old(mem), mem, f.esp, old(esp) + 40, old(esp) + 52)
    {
      RestoreRegisters(f);
      if Word(mem, esp + 4) % 4 == 0 {
        ReturnInner(f);
      } else {
        ReturnOuter(f);
      }
    }

    // A whole interrupt: entry, a handler that leaves memory as it likes with frame f on the stack, and
    // the way back.
    method Interrupt(intNum: int, errCode: int, kernelEsp: int, kernelSs: Selector, handler: int,
                     after: Memory, ghost f: Frame)
      requires var top := Top(kernelEsp);
               FrameAt(after, top - 72, f) && (f.cs % 4 == 0 ==> (f.esp - top) % 4 == 0)
      modifies this
      // a frame for ring 3 is installed as it is
      ensures f.cs % 4 != 0 ==> Visible(f.intNum, f.errCode) == Loaded(f) && mem == after
      // a frame for ring 0 is, when the copies to its stack do not run over each other
      ensures var top := old(Top(kernelEsp));
              f.cs % 4 == 0 && !Clobbers(f.esp - top + 8) ==> Visible(f.intNum, f.errCode) == Loaded(f)
      // and its memory from there up is as the handler left it, outside the old frame
      ensures var top := old(Top(kernelEsp)); KeptOutside(after, mem, f.esp, top - 32, top - 20)
      // a frame left alone resumes the interrupted program with everything as it was
      ensures f == old(Visible(intNum, errCode)) ==>
                Visible(intNum, errCode) == f && (f.cs % 4 == 0 ==> KeptFrom(after, mem, old(esp)))
    {
      Enter(intNum, errCode, kernelEsp, kernelSs, handler);
      mem := after;
      LandsIntactExactly(f.esp - 64 - esp);
      LandsIntactExactly(8);
      Leave(f);
    }
  }

  // What the copies of revert_change_stack bring across when they move the frame by d bytes: a word
  // copied early may land on one that is still to be read.
  function Landed(f: Frame, d: int): Frame {
    var ebx := if d == 4 then f.eax else f.ebx;
    var ecx := if d == 4 then ebx else if d == 0 then f.eax else f.ecx;
    var eflags := if d == 20 then f.eax else if d == 24 then ebx else if d == 28 then ecx else f.eflags;
    var cs := if d == -4 then eflags
              else if d == 16 then f.eax else if d == 20 then ebx else if d == 24 then ecx else f.cs;
    var eip := if d == -4 then cs else if d == -8 then eflags
               else if d == 12 then f.eax else if d == 16 then ebx else if d == 20 then ecx else f.eip;
    f.(ebx := ebx, ecx := ecx, eflags := eflags, cs := cs, eip := eip)
  }

  // The distances at which some word is overwritten before it is read.
  predicate Clobbers(d: int) {
    d in {-8, -4, 0, 4, 12, 16, 20, 24, 28}
  }

  // Every frame comes across intact exactly at all other distances; eight bytes, a return to the
  // interrupted stack, is one of them.
  lemma {:induction false} LandsIntactExactly(d: int)
    ensures (forall f: Frame :: Landed(f, d) == f) <==> !Clobbers(d)
    ensures !Clobbers(8)
  {
    if Clobbers(d) {
      var f := Frame(0, 0, 0, 0, 0, 0, 0, 0, 12, 8, 4, 0, 0, 24, 20, 16, 0, 0);
      assert Landed(f, d) != f;
    }
  }
}
