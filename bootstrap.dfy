/**
 * The boot flow from power-on to the terminal idle loop, as one board whose
 * state the reset handler (boot.cpp) and the runtime bootstrap
 * (startup.cpp) change in turn.
 */
module Bootstrap {
  import opened Machine
  import Boot
  import opened Runtime

  /** Every action from reset to the end: the reset handler's, then `__startup`'s. */
  function BootTrace(top: Address, bssStart: nat, bssEnd: nat, mainReturns: bool): seq<Action> {
    Boot.ResetSteps(top) + StartupSteps(bssStart, bssEnd, mainReturns)
  }

  /** The actions of a routine whose body is an idle loop. */
  function TrapSteps(r: Routine): seq<Action>
    requires IsTrap(r)
  {
    match r
    case DefaultHandler => Boot.DefaultHandlerSteps()
    case InfiniteLoop => Boot.InfiniteLoopSteps()
    case CxaPureVirtual => PureVirtualSteps()
    case CxaDeletedVirtual => DeletedVirtualSteps()
  }

  /** The two trap routines of boot.cpp end in the idle loop: `infinite_loop`
      enters it at once, and `default_handler` after exactly one call, to
      `infinite_loop`. */
  lemma HandlerTrapsEndIdle(r: Routine)
    requires r == DefaultHandler || r == InfiniteLoop
    ensures var t := TrapSteps(r); 1 <= |t| <= 2 && t[|t| - 1] == Idle
    ensures forall i :: 0 <= i < |TrapSteps(r)| - 1 ==> TrapSteps(r)[i] == Call(InfiniteLoop)
    ensures r == DefaultHandler ==> TrapSteps(r) == [Call(InfiniteLoop)] + TrapSteps(InfiniteLoop)
  {
  }

  /** The two C++ ABI traps of startup.cpp spin in an idle loop of their own:
      they call nothing before it. */
  lemma AbiTrapsEndIdle(r: Routine)
    requires r == CxaPureVirtual || r == CxaDeletedVirtual
    ensures TrapSteps(r) == [Idle]
  {
  }

  /** The stack pointer is the first thing set, is set to the stack top, is
      set exactly once, and control then branches to `__startup`. */
  lemma StackPointerSetFirst(top: Address, bssStart: nat, bssEnd: nat, mainReturns: bool)
    ensures var t := BootTrace(top, bssStart, bssEnd, mainReturns);
      && |t| >= 2 && t[0] == SetSp(top) && t[1] == Branch(StartupEntry)
      && forall i :: 1 <= i < |t| ==> !t[i].SetSp?
  {
    ZeroWritesSpec(bssStart, bssEnd);
    var t := BootTrace(top, bssStart, bssEnd, mainReturns);
    var s := StartupSteps(bssStart, bssEnd, mainReturns);
    assert t == [SetSp(top), Branch(StartupEntry)] + s;
    forall i | 1 <= i < |t| ensures !t[i].SetSp? {
      if i >= 2 {
        assert t[i] == s[i - 2];
      }
    }
  }

  /** Between the branch to `__startup` and the call to `main` the flow writes
      zero to each BSS word exactly once, in ascending order, and does
      nothing else; no BSS write happens after `main` is called. */
  lemma BssZeroedBeforeMain(top: Address, bssStart: nat, bssEnd: nat, mainReturns: bool)
    ensures var t := BootTrace(top, bssStart, bssEnd, mainReturns);
      var n := if bssStart < bssEnd then bssEnd - bssStart else 0;
      && |t| > n + 2
      && (forall i :: 2 <= i < 2 + n ==> t[i] == WriteZero(bssStart + i - 2))
      && t[2 + n] == Call(AppMain)
      && (forall i :: 2 + n < i < |t| ==> !t[i].WriteZero?)
  {
    ZeroWritesSpec(bssStart, bssEnd);
    var t := BootTrace(top, bssStart, bssEnd, mainReturns);
    var w := ZeroWrites(bssStart, bssEnd);
    var tail := if mainReturns then [Idle] else [Call(InfiniteLoop), Idle];
    assert t == [SetSp(top), Branch(StartupEntry)] + w + [Call(AppMain)] + tail;
    forall i | 2 <= i < 2 + |w| ensures t[i] == WriteZero(bssStart + i - 2) {
      assert t[i] == w[i - 2];
    }
    forall i | 2 + |w| < i < |t| ensures !t[i].WriteZero? {
      assert t[i] == tail[i - 3 - |w|];
    }
  }

  /** The boot flow never returns: its last action is the idle loop and no
      earlier action is. */
  lemma BootEndsIdle(top: Address, bssStart: nat, bssEnd: nat, mainReturns: bool)
    ensures var t := BootTrace(top, bssStart, bssEnd, mainReturns);
      && t[|t| - 1] == Idle
      && forall i :: 0 <= i < |t| - 1 ==> !t[i].Idle?
  {
    StartupEndsIdle(bssStart, bssEnd, mainReturns);
    var t := BootTrace(top, bssStart, bssEnd, mainReturns);
    var s := StartupSteps(bssStart, bssEnd, mainReturns);
    assert t == [SetSp(top), Branch(StartupEntry)] + s;
    forall i | 0 <= i < |t| - 1 ensures !t[i].Idle? {
      if i >= 2 {
        assert t[i] == s[i - 2];
      }
    }
  }

  /**
   * The core and memory as the boot code sees them. `mem` is the RAM the BSS
   * lives in, `sp` the stack pointer, `trace` every action so far, `history`
   * every phase entered so far, and `mainView` memory as `main` found it.
   */
  class Board {
    const mem: array<Word>
    const bssStart: nat
    const bssEnd: nat
    const stackTop: Address
    var sp: Address
    var phase: Phase
    ghost var history: seq<Phase>
    ghost var trace: seq<Action>
    ghost var mainView: seq<Word>

    ghost predicate Valid()
      reads this
    {
      && bssEnd <= mem.Length
      && stackTop % Boot.STACK_ALIGNMENT == 0
      && IsRun(history)
      && history[|history| - 1] == phase
    }

    /** Power-on reset: the stack pointer holds whatever it holds. */
    constructor PowerOn(memory: array<Word>, bssStart: nat, bssEnd: nat, stackBase: nat, resetSp: Address)
      requires bssEnd <= memory.Length
      requires Boot.StackPlacement(stackBase)
      ensures Valid()
      ensures mem == memory && this.bssStart == bssStart && this.bssEnd == bssEnd
      ensures stackTop == Boot.StackTop(stackBase)
      ensures sp == resetSp && phase == OutOfReset && history == [OutOfReset]
      ensures trace == [] && mainView == []
    {
      mem := memory;
      this.bssStart := bssStart;
      this.bssEnd := bssEnd;
      stackTop := Boot.StackTop(stackBase);
      sp := resetSp;
      phase := OutOfReset;
      history := [OutOfReset];
      trace := [];
      mainView := [];
    }

    /** `reset_handler`, the routine table entry 0 names: set `sp` to the stack top,
        then branch to `__startup`. It touches no memory. */
    method RunResetHandler()
      requires Valid() && phase == OutOfReset
      modifies this
      ensures Valid()
      ensures sp == stackTop && phase == StackSet
      ensures history == old(history) + [StackSet]
      ensures trace == old(trace) + Boot.ResetSteps(stackTop)
      ensures mainView == old(mainView) && mem[..] == old(mem[..])
    {
      sp := stackTop;
      trace := trace + [SetSp(stackTop)];
      phase := StackSet;
      history := history + [StackSet];
      trace := trace + [Branch(StartupEntry)];
    }

    /** `__startup`: zero the BSS, then call `main` on the zeroed memory; if
        `main` returns, idle forever. In either case the board ends halted. */
    method RunStartup(mainReturns: bool)
      requires Valid() && phase == StackSet
      modifies this, mem
      ensures Valid()
      ensures phase == Halted
      ensures history == old(history) + [BssZeroed, InMain, Halted]
      ensures mem[..] == ZeroFill(old(mem[..]), bssStart, bssEnd)
      ensures mainView == mem[..]
      ensures trace == old(trace) + StartupSteps(bssStart, bssEnd, mainReturns)
      ensures sp == old(sp)
    {
      var writes := ZeroBss(mem, bssStart, bssEnd);
      trace := trace + writes;
      phase := BssZeroed;
      history := history + [BssZeroed];
      trace := trace + [Call(AppMain)];
      mainView := mem[..];
      phase := InMain;
      history := history + [InMain];
      if mainReturns {
        trace := trace + [Idle];
      } else {
        trace := trace + [Call(InfiniteLoop), Idle];
      }
      phase := Halted;
      history := history + [Halted];
    }

    /** Entering a trap routine, from any phase, halts the board for good. */
    method Trap(r: Routine)
      requires Valid() && IsTrap(r)
      modifies this
      ensures Valid()
      ensures phase == Halted
      ensures history == old(history) + [Halted]
      ensures trace == old(trace) + TrapSteps(r)
      ensures sp == old(sp) && mainView == old(mainView) && mem[..] == old(mem[..])
    {
      trace := trace + TrapSteps(r);
      phase := Halted;
      history := history + [Halted];
    }

    /** An exception other than reset, taken as the table means it: control
        reaches the routine its entry names, the default handler, which halts
        the board. */
    method TakeException(e: Boot.ExceptionClass)
      requires Valid() && e != Boot.Reset
      modifies this
      ensures Valid()
      ensures phase == Halted
      ensures history == old(history) + [Halted]
      ensures trace == old(trace) + Boot.DefaultHandlerSteps()
      ensures sp == old(sp) && mainView == old(mainView) && mem[..] == old(mem[..])
    {
      var handler := Boot.Dispatch(e);
      Trap(handler);
    }
  }

  /** Power-on to halt: the whole flow, with BSS zero when `main` is entered. */
  method RunBoot(memory: array<Word>, bssStart: nat, bssEnd: nat, stackBase: nat, resetSp: Address,
                 mainReturns: bool) returns (b: Board)
    requires bssEnd <= memory.Length
    requires Boot.StackPlacement(stackBase)
    modifies memory
    ensures fresh(b)
    ensures b.Valid() && b.mem == memory
    ensures b.bssStart == bssStart && b.bssEnd == bssEnd && b.stackTop == Boot.StackTop(stackBase)
    ensures memory[..] == b.mainView
    ensures b.history == [OutOfReset, StackSet, BssZeroed, InMain, Halted]
    ensures forall k :: 0 <= k < |b.history| ==> b.history[k] == Advance(OutOfReset, k)
    ensures b.trace == BootTrace(Boot.StackTop(stackBase), bssStart, bssEnd, mainReturns)
    ensures b.sp == Boot.StackTop(stackBase)
    ensures |b.mainView| == memory.Length
    ensures forall i :: 0 <= i < |b.mainView| && bssStart <= i < bssEnd ==> b.mainView[i] == 0
    ensures forall i :: 0 <= i < |b.mainView| && !(bssStart <= i < bssEnd) ==> b.mainView[i] == old(memory[i])
  {
    b := new Board.PowerOn(memory, bssStart, bssEnd, stackBase, resetSp);
    b.RunResetHandler();
    b.RunStartup(mainReturns);
    ZeroFillSpec(old(memory[..]), bssStart, bssEnd);
    BootReachesHalted(OutOfReset, 4);
    assert Advance(OutOfReset, 1) == StackSet;
    assert Advance(OutOfReset, 2) == BssZeroed;
    assert Advance(OutOfReset, 3) == InMain;
  }
}
