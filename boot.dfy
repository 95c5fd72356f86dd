/**
 * The reset entry of boot.cpp: the statically allocated execution stack and
 * its top address, the eight-entry ARM exception vector table, and the
 * actions of the reset handler and of the default handler.
 */
module Boot {
  import opened Wrappers
  import opened Machine

  /** Size in bytes of the statically allocated stack (4 KB). */
  const STACK_SIZE: nat := 0x1000
  /** The stack array is declared `alignas(8)`: the AAPCS stack alignment. */
  const STACK_ALIGNMENT: nat := 8
  /** Number of bytes addressable with a 32-bit pointer. */
  const ADDRESS_SPACE: nat := 0x1_0000_0000

  /** Where the linker may put the stack array: 8-byte aligned, and with its
      one-past-the-end address still a 32-bit address. */
  predicate StackPlacement(base: nat) {
    base % STACK_ALIGNMENT == 0 && base + STACK_SIZE < ADDRESS_SPACE
  }

  /** `stack_top`, the address one past the last byte of the stack array
      (the initial stack pointer of a full-descending stack). */
  function StackTop(base: nat): (top: Address)
    requires StackPlacement(base)
    ensures top - STACK_SIZE == base
    ensures top % STACK_ALIGNMENT == 0
  {
    base + STACK_SIZE
  }

  /** The ARMv7-A exception classes, in vector order. */
  datatype ExceptionClass =
    | Reset
    | UndefinedInstruction
    | SupervisorCall
    | PrefetchAbort
    | DataAbort
    | Reserved
    | Irq
    | Fiq

  /** `vector_table`: the reset handler first, then the default handler for
      every other exception class. */
  const VECTOR_TABLE: seq<Routine> := [
    ResetHandler,
    DefaultHandler,
    DefaultHandler,
    DefaultHandler,
    DefaultHandler,
    DefaultHandler,
    DefaultHandler,
    DefaultHandler
  ]

  /** The table has exactly eight entries, entry 0 is the reset handler and
      entries 1 to 7 are the default handler. */
  lemma VectorTableShape()
    ensures |VECTOR_TABLE| == 8
    ensures VECTOR_TABLE[0] == ResetHandler
    ensures forall i :: 1 <= i < |VECTOR_TABLE| ==> VECTOR_TABLE[i] == DefaultHandler
  {
  }

  /** The index of an exception class's entry in the vector table. */
  function ExceptionNumber(e: ExceptionClass): (n: nat)
    ensures n < |VECTOR_TABLE|
    ensures n == 0 <==> e == Reset
  {
    match e
    case Reset => 0
    case UndefinedInstruction => 1
    case SupervisorCall => 2
    case PrefetchAbort => 3
    case DataAbort => 4
    case Reserved => 5
    case Irq => 6
    case Fiq => 7
  }

  /** The exception class whose entry has index `n`, if there is one. */
  function ExceptionOfNumber(n: nat): (e: Option<ExceptionClass>)
    ensures e.Some? <==> n < |VECTOR_TABLE|
  {
    if n == 0 then Some(Reset)
    else if n == 1 then Some(UndefinedInstruction)
    else if n == 2 then Some(SupervisorCall)
    else if n == 3 then Some(PrefetchAbort)
    else if n == 4 then Some(DataAbort)
    else if n == 5 then Some(Reserved)
    else if n == 6 then Some(Irq)
    else if n == 7 then Some(Fiq)
    else None
  }

  /** Numbering the exception classes is a bijection onto the table indices. */
  lemma ExceptionNumbering(e: ExceptionClass, n: nat)
    ensures ExceptionOfNumber(ExceptionNumber(e)) == Some(e)
    ensures n < |VECTOR_TABLE| ==> ExceptionNumber(ExceptionOfNumber(n).value) == n
  {
    match e
    case Reset =>
    case UndefinedInstruction =>
    case SupervisorCall =>
    case PrefetchAbort =>
    case DataAbort =>
    case Reserved =>
    case Irq =>
    case Fiq =>
  }

  /** The routine the table names for class `e`. */
  function Dispatch(e: ExceptionClass): (r: Routine)
    ensures r == ResetHandler <==> e == Reset
    ensures e != Reset ==> r == DefaultHandler
  {
    VECTOR_TABLE[ExceptionNumber(e)]
  }

  /** The byte offset of an exception class's entry (0x00, 0x04, ..., 0x1C). */
  function VectorOffset(e: ExceptionClass): (offset: nat)
    ensures offset % 4 == 0 && offset <= 0x1C
    ensures offset / 4 == ExceptionNumber(e)
  {
    4 * ExceptionNumber(e)
  }

  /** Distinct exception classes have distinct entries. */
  lemma VectorOffsetsDistinct(e1: ExceptionClass, e2: ExceptionClass)
    requires VectorOffset(e1) == VectorOffset(e2)
    ensures e1 == e2
  {
    ExceptionNumbering(e1, 0);
    ExceptionNumbering(e2, 0);
  }

  /** A link of the program assigns every routine a code address; code never
      sits at address zero. */
  predicate Linked(address: Routine -> Word) {
    forall r: Routine :: address(r) != 0
  }

  /** The bit-exact contents of `vector_table`: one 32-bit address per entry. */
  function TableImage(address: Routine -> Word): (image: seq<Word>)
    requires Linked(address)
    ensures |image| == |VECTOR_TABLE|
    ensures forall i :: 0 <= i < |image| ==> image[i] != 0
    ensures image[0] == address(ResetHandler)
    ensures forall i :: 1 <= i < |image| ==> image[i] == address(DefaultHandler)
  {
    seq(|VECTOR_TABLE|, i requires 0 <= i < |VECTOR_TABLE| => address(VECTOR_TABLE[i]))
  }

  /** The word stored at byte `offset` of an image of words, if any. */
  function EntryAtOffset(image: seq<Word>, offset: nat): Option<Word> {
    if offset % 4 == 0 && offset / 4 < |image| then Some(image[offset / 4]) else None
  }

  /** Reading the linked table: offset 0x00 gives the reset handler's address,
      offsets 0x04, 0x08, ..., 0x1C give the default handler's, and every other
      offset (unaligned, or past the eighth entry) gives nothing. */
  lemma TableReads(address: Routine -> Word, offset: nat)
    requires Linked(address)
    ensures offset == 0 ==> EntryAtOffset(TableImage(address), offset) == Some(address(ResetHandler))
    ensures 0 < offset <= 0x1C && offset % 4 == 0 ==>
      EntryAtOffset(TableImage(address), offset) == Some(address(DefaultHandler))
    ensures offset % 4 != 0 || offset > 0x1C ==> EntryAtOffset(TableImage(address), offset) == None
  {
  }

  /** The entry at the offset of class `e` holds the address of the routine
      the table means for `e`: the reset handler for reset, the (non-null)
      default handler for every other class. The entries are read as handler
      addresses, as the source intends them. */
  lemma EntryNamesHandler(address: Routine -> Word, e: ExceptionClass)
    requires Linked(address)
    ensures EntryAtOffset(TableImage(address), VectorOffset(e)) == Some(address(Dispatch(e)))
    ensures address(Dispatch(e)) != 0
  {
    var image := TableImage(address);
    assert VectorOffset(e) / 4 == ExceptionNumber(e);
    assert image[ExceptionNumber(e)] == address(VECTOR_TABLE[ExceptionNumber(e)]);
  }

  /** What `reset_handler` does, in order: load `sp` with the stack top, then
      branch (without linking) to `__startup`. */
  function ResetSteps(top: Address): seq<Action> {
    [SetSp(top), Branch(StartupEntry)]
  }

  /** `infinite_loop`: enter the idle loop. */
  function InfiniteLoopSteps(): seq<Action> {
    [Idle]
  }

  /** `default_handler`: call `infinite_loop`. */
  function DefaultHandlerSteps(): seq<Action> {
    [Call(InfiniteLoop)] + InfiniteLoopSteps()
  }
}
