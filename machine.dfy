/**
 * Vocabulary shared by the boot code of the Cortex-A7: the machine word, the
 * code routines control passes through between reset and the application,
 * the observable actions of the boot flow, and the boot phases.
 */
module Machine {

  /** A 32-bit memory word or register value. */
  type Word = bv32

  /** A byte address of the 32-bit address space. */
  type Address = a: int | 0 <= a < 0x1_0000_0000

  /** The routines the boot flow transfers control to, named after their symbols. */
  datatype Routine =
    | ResetHandler      // reset_handler
    | DefaultHandler    // default_handler
    | InfiniteLoop      // infinite_loop
    | StartupEntry      // __startup
    | AppMain           // main
    | CxaPureVirtual    // __cxa_pure_virtual
    | CxaDeletedVirtual // __cxa_deleted_virtual

  /** The routines whose body is a fail-stop idle loop (directly or through a call). */
  predicate IsTrap(r: Routine) {
    r.DefaultHandler? || r.InfiniteLoop? || r.CxaPureVirtual? || r.CxaDeletedVirtual?
  }

  /**
   * One observable action of the boot flow. `Idle` stands for entering a
   * non-terminating `while (1) nop` loop: nothing ever follows it.
   */
  datatype Action =
    | SetSp(value: Address)
    | Branch(target: Routine)
    | Call(target: Routine)
    | WriteZero(index: nat)
    | Idle

  /** Boot phases, in the order the flow passes through them. `Halted` is the
      single terminal state every idle loop ends in. */
  datatype Phase = OutOfReset | StackSet | BssZeroed | InMain | Halted

  function Rank(p: Phase): (n: nat)
    ensures n <= 4
    ensures n == 4 <==> p == Halted
  {
    match p
    case OutOfReset => 0
    case StackSet => 1
    case BssZeroed => 2
    case InMain => 3
    case Halted => 4
  }

  /** The phase that follows `p` in a normal boot; `Halted` is absorbing. */
  function Successor(p: Phase): (q: Phase)
    ensures p == Halted ==> q == Halted
    ensures p != Halted ==> Rank(q) == Rank(p) + 1
  {
    match p
    case OutOfReset => StackSet
    case StackSet => BssZeroed
    case BssZeroed => InMain
    case InMain => Halted
    case Halted => Halted
  }

  /** A phase change the system can make: the next boot step, or fail-stop. */
  predicate CanStep(p: Phase, q: Phase) {
    q == Successor(p) || q == Halted
  }

  /** A history of phases that starts at reset and only makes allowed steps. */
  predicate IsRun(h: seq<Phase>) {
    && |h| > 0
    && h[0] == OutOfReset
    && forall i :: 0 < i < |h| ==> CanStep(h[i - 1], h[i])
  }

  /** The phase reached after `n` normal boot steps from `p`. */
  function Advance(p: Phase, n: nat): Phase
    decreases n
  {
    if n == 0 then p else Advance(Successor(p), n - 1)
  }

  /** Once halted, no number of steps ever leaves the idle loop. */
  lemma {:induction false} HaltedIsTerminal(n: nat)
    ensures Advance(Halted, n) == Halted
  {
    if n > 0 {
      HaltedIsTerminal(n - 1);
    }
  }

  /** Four steps from reset, and fewer from a later phase, reach the terminal state. */
  lemma {:induction false} BootReachesHalted(p: Phase, n: nat)
    requires Rank(p) + n >= 4
    ensures Advance(p, n) == Halted
    decreases n
  {
    if p == Halted {
      HaltedIsTerminal(n);
    } else {
      BootReachesHalted(Successor(p), n - 1);
    }
  }

  /** A run never goes back to an earlier phase, and never leaves `Halted`. */
  lemma {:induction false} RunNeverGoesBack(h: seq<Phase>)
    requires IsRun(h)
    ensures forall i, j :: 0 <= i <= j < |h| ==> Rank(h[i]) <= Rank(h[j])
    ensures forall i, j :: 0 <= i <= j < |h| && h[i] == Halted ==> h[j] == Halted
  {
    if |h| > 1 {
      var h' := h[..|h| - 1];
      assert IsRun(h') by {
        forall i | 0 < i < |h'| ensures CanStep(h'[i - 1], h'[i]) {
          assert h'[i - 1] == h[i - 1] && h'[i] == h[i];
        }
      }
      RunNeverGoesBack(h');
      assert CanStep(h[|h| - 2], h[|h| - 1]);
    }
  }
}
