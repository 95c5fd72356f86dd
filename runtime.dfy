/**
 * The C++ runtime bootstrap of startup.cpp: zero-filling the BSS words,
 * handing off to `main`, the fail-stop ABI traps, placement `new` and the
 * `delete` no-ops.
 *
 * Memory is word-addressed: the linker symbols `__bss_start` and `__bss_end`
 * become indices of 32-bit words, so the word alignment the loop relies on
 * holds by construction.
 */
module Runtime {
  import opened Machine

  /** Memory after the zero-fill loop has run from word `p` up to (not
      including) word `bssEnd`, writing one word at a time, upwards. */
  function ZeroFill(m: seq<Word>, p: nat, bssEnd: nat): seq<Word>
    requires bssEnd <= |m|
    decreases bssEnd - p
  {
    if p < bssEnd then ZeroFill(m[p := 0], p + 1, bssEnd) else m
  }

  /** Zero-filling leaves every word of `[p, bssEnd)` zero and every other
      word as it was; when `p >= bssEnd` nothing changes. */
  lemma {:induction false} ZeroFillSpec(m: seq<Word>, p: nat, bssEnd: nat)
    requires bssEnd <= |m|
    ensures |ZeroFill(m, p, bssEnd)| == |m|
    ensures forall i :: 0 <= i < |m| && p <= i < bssEnd ==> ZeroFill(m, p, bssEnd)[i] == 0
    ensures forall i :: 0 <= i < |m| && !(p <= i < bssEnd) ==> ZeroFill(m, p, bssEnd)[i] == m[i]
    decreases bssEnd - p
  {
    if p < bssEnd {
      ZeroFillSpec(m[p := 0], p + 1, bssEnd);
    }
  }

  /** The word writes the loop makes, in the order it makes them. */
  function ZeroWrites(bssStart: nat, p: nat): seq<Action>
    decreases p
  {
    if bssStart < p then ZeroWrites(bssStart, p - 1) + [WriteZero(p - 1)] else []
  }

  /** The loop makes exactly `bssEnd - bssStart` writes (none when
      `bssStart >= bssEnd`), to consecutive words from `bssStart` upwards. */
  lemma {:induction false} ZeroWritesSpec(bssStart: nat, bssEnd: nat)
    ensures |ZeroWrites(bssStart, bssEnd)| == if bssStart < bssEnd then bssEnd - bssStart else 0
    ensures forall k :: 0 <= k < |ZeroWrites(bssStart, bssEnd)| ==>
              ZeroWrites(bssStart, bssEnd)[k] == WriteZero(bssStart + k)
    decreases bssEnd
  {
    if bssStart < bssEnd {
      ZeroWritesSpec(bssStart, bssEnd - 1);
    }
  }

  /** The BSS loop of `__startup`: `bss` walks from `__bss_start` and stores a
      zero word while `bss < __bss_end`. Returns the writes it made. */
  method ZeroBss(mem: array<Word>, bssStart: nat, bssEnd: nat) returns (writes: seq<Action>)
    requires bssEnd <= mem.Length
    modifies mem
    ensures mem[..] == ZeroFill(old(mem[..]), bssStart, bssEnd)
    ensures writes == ZeroWrites(bssStart, bssEnd)
  {
    var bss := bssStart;
    writes := [];
    while bss < bssEnd
      invariant bssStart <= bss
      invariant bss <= bssEnd || bss == bssStart
      invariant ZeroFill(mem[..], bss, bssEnd) == ZeroFill(old(mem[..]), bssStart, bssEnd)
      invariant writes == ZeroWrites(bssStart, bss)
      decreases bssEnd - bss
    {
      ghost var before := mem[..];
      mem[bss] := 0;
      assert mem[..] == before[bss := 0];
      writes := writes + [WriteZero(bss)];
      bss := bss + 1;
    }
  }

  /** What `__startup` does once the stack is set: zero the BSS, call `main`,
      and, when `main` returns, enter the idle loop. The demo's `main` never
      returns: it ends by calling `infinite_loop` itself. */
  function StartupSteps(bssStart: nat, bssEnd: nat, mainReturns: bool): seq<Action> {
    ZeroWrites(bssStart, bssEnd) + [Call(AppMain)]
      + (if mainReturns then [Idle] else [Call(InfiniteLoop), Idle])
  }

  /** Every BSS write comes before the call to `main`, only BSS words are
      written, and `main` is called exactly once. */
  lemma ZeroingPrecedesMain(bssStart: nat, bssEnd: nat, mainReturns: bool)
    ensures var t := StartupSteps(bssStart, bssEnd, mainReturns);
      && (forall i, j :: 0 <= i < |t| && 0 <= j < |t| && t[i].WriteZero? && t[j] == Call(AppMain) ==> i < j)
      && (forall i :: 0 <= i < |t| && t[i].WriteZero? ==> bssStart <= t[i].index < bssEnd)
      && (forall i, j :: 0 <= i < |t| && 0 <= j < |t| && t[i] == Call(AppMain) && t[j] == Call(AppMain) ==> i == j)
  {
    ZeroWritesSpec(bssStart, bssEnd);
  }

  /** `__startup` never returns: its last action is entering the idle loop,
      and nothing before that is an idle loop. */
  lemma StartupEndsIdle(bssStart: nat, bssEnd: nat, mainReturns: bool)
    ensures var t := StartupSteps(bssStart, bssEnd, mainReturns);
      && |t| > 0 && t[|t| - 1] == Idle
      && forall i :: 0 <= i < |t| - 1 ==> !t[i].Idle?
  {
    ZeroWritesSpec(bssStart, bssEnd);
  }

  /** `__cxa_pure_virtual`: enter the idle loop. */
  function PureVirtualSteps(): seq<Action> {
    [Idle]
  }

  /** `__cxa_deleted_virtual`: enter the idle loop. */
  function DeletedVirtualSteps(): seq<Action> {
    [Idle]
  }

  /** The two placement forms: `operator new` and `operator new[]`. */
  datatype NewForm = Scalar | Array

  /** Placement `new`: returns the storage it was given, for every size,
      and allocates nothing. */
  function PlacementNew(form: NewForm, size: Word, ptr: Address): (r: Address)
    ensures r == ptr
  {
    ptr
  }

  /** The four `delete` operators: unsized and sized, scalar and array. */
  datatype DeleteForm = Unsized(form: NewForm) | Sized(form: NewForm, size: Word)

  /** Every `delete` operator is a no-op: memory after the call is memory
      before it. */
  function Delete(kind: DeleteForm, ptr: Address, mem: seq<Word>): (after: seq<Word>)
    ensures after == mem
  {
    mem
  }
}
