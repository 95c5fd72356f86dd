# STM32MP135 bare-metal boot, modelled in Dafny

This project models the boot path of a bare-metal C++ demo for the STM32MP135
(Cortex-A7), and proves properties of the model. The path runs from the
exception vector table and the reset handler, through the C++ runtime
bootstrap (BSS zero-fill, then `main`), to the fail-stop idle loop. The project
also models the demo application's register helper and loops, and the pure
decisions of the SD-card flasher script.

Modules, one per source component:

- `Machine` (`machine.dfy`): the shared vocabulary. It defines the 32-bit word,
  the routines control passes through, the actions a boot trace records, and
  the boot phases `OutOfReset → StackSet → BssZeroed → InMain → Halted`.
  `Halted` is the one terminal state that every idle loop ends in.
- `Boot` (`boot.dfy`, boot.cpp): the 4 KB stack and its top address, the
  eight-entry vector table read as the handler addresses it is meant to hold, and the
  actions of `reset_handler`, `default_handler` and `infinite_loop`.
- `Runtime` (`runtime.dfy`, startup.cpp): the BSS zero-fill loop as a method
  on an `array<bv32>`, proved against a recursive specification; the actions
  of `__startup`; the ABI traps; placement `new`; the `delete` no-ops.
- `Bootstrap` (`bootstrap.dfy`): a `Board` class whose state (stack pointer,
  memory, phase, phase history, action trace, memory as `main` sees it)
  `reset_handler` and then `__startup` change in turn. Lemmas about the whole
  boot trace go here.
- `Flasher` (`flasher.dfy`, scripts/stm32flash.py): the image-header check;
  the Windows drive-mask loop (a method proved against a specification
  function); the drive menu; the `dd` seek; the Linux drive size.
- `Demo` (`demo.dfy`, main.cpp): `Register` as a class over one word, with
  bit-operation functions that specify it; `delay`; the counter loop of
  `main`.
- `Wrappers` (`wrappers.dfy`): `Option`.

Three facts about the code shape the model:

- startup.cpp has no table of static constructors and no one-time
  initialisation guard. Lines 33-34 are only a TODO comment, so the bootstrap
  goes straight from the BSS loop to `main`.
- The BSS loop stores 32-bit words (startup.cpp:28-31), so memory is modelled
  as an array of words indexed by word.
- The loop runs while `bss < &__bss_end`, so it writes nothing when
  `__bss_start >= __bss_end`. The model therefore does not require the start
  to be below the end.

## Model

| member | source | states |
|---|---|---|
| `Machine.Successor` | startup.cpp:19-44 | each boot step moves one phase on, and `Halted` is absorbing |
| `Machine.HaltedIsTerminal` | startup.cpp:40-43 | no number of steps leaves the idle loop once it is entered |
| `Machine.BootReachesHalted` | startup.cpp:19-44 | from any phase, `4 - rank` boot steps reach `Halted` |
| `Machine.RunNeverGoesBack` | startup.cpp:36-43 | in any run of phases (boot steps or fail-stop), the phase never goes back, and once `Halted` it stays `Halted` |
| `Boot.StackTop` | boot.cpp:10-15 | `stack_top` is the stack base plus 0x1000, and is 8-byte aligned when the base is |
| `Boot.VECTOR_TABLE` | boot.cpp:44-53 | definition of `vector_table`, no contract; its properties are in `Boot.VectorTableShape` and `Boot.Dispatch` |
| `Boot.VectorTableShape` | boot.cpp:44-53 | the table has exactly 8 entries: entry 0 is `reset_handler`, entries 1-7 are `default_handler` |
| `Boot.ExceptionNumber` | boot.cpp:45-52 | each exception class has an index below 8, and index 0 belongs to reset alone |
| `Boot.ExceptionOfNumber` | boot.cpp:45-52 | an index names an exception class exactly when it is below 8 |
| `Boot.ExceptionNumbering` | boot.cpp:45-52 | class to index and index to class are inverse bijections |
| `Boot.Dispatch` | boot.cpp:44-53 | the table sends reset, and only reset, to `reset_handler`; every other class goes to `default_handler` |
| `Boot.VectorOffset` | boot.cpp:45-52 | an entry's byte offset is 4 times its index: a multiple of 4 from 0x00 to 0x1C |
| `Boot.VectorOffsetsDistinct` | boot.cpp:45-52 | distinct exception classes have distinct offsets |
| `Boot.TableImage` | boot.cpp:43-53 | the linked table is 8 non-null words: word 0 is the reset handler's address, the others the default handler's |
| `Boot.EntryAtOffset` | boot.cpp:45-52 | definition of reading the word stored at a byte offset of the table, no contract; its properties are in `Boot.TableReads` and `Boot.EntryNamesHandler` |
| `Boot.TableReads` | boot.cpp:44-53 | reads at offsets 0x00, 0x04, ..., 0x1C give the table's eight words (reset handler at 0x00, default handler at the other seven), and every other offset gives nothing |
| `Boot.EntryNamesHandler` | boot.cpp:41-53 | the entry at each class's offset holds the non-null address of the routine the table means for that class |
| `Boot.ResetSteps` | boot.cpp:21-33 | definition of what `reset_handler` does, no contract; its properties are in `Bootstrap.StackPointerSetFirst` and `Bootstrap.Board.RunResetHandler` |
| `Boot.DefaultHandlerSteps` | boot.cpp:35-39 | definition of what `default_handler` does, no contract; its properties are in `Bootstrap.HandlerTrapsEndIdle` |
| `Boot.InfiniteLoopSteps` | boot.cpp:55-60 | definition of what `infinite_loop` does, no contract; its properties are in `Bootstrap.HandlerTrapsEndIdle` |
| `Runtime.ZeroFillSpec` | startup.cpp:27-31 | after the loop every word in `[__bss_start, __bss_end)` is zero and every other word is unchanged; nothing changes when start >= end |
| `Runtime.ZeroWritesSpec` | startup.cpp:28-31 | the loop makes exactly `end - start` writes (none when start >= end), to consecutive words in ascending order |
| `Runtime.ZeroBss` | startup.cpp:27-31 | the in-place loop leaves the array equal to the zero-fill specification and reports exactly the writes it made |
| `Runtime.StartupSteps` | startup.cpp:19-44 | definition of what `__startup` does, no contract; its properties are in `Runtime.ZeroingPrecedesMain`, `Runtime.StartupEndsIdle` and `Bootstrap.BssZeroedBeforeMain` |
| `Runtime.ZeroingPrecedesMain` | startup.cpp:27-38 | every BSS write comes before the call to `main`, only BSS words are written, and `main` is called once |
| `Runtime.StartupEndsIdle` | startup.cpp:36-43 | `__startup` never returns: its last action is the idle loop, and no earlier action is |
| `Runtime.PureVirtualSteps` | startup.cpp:48-53 | definition of what `__cxa_pure_virtual` does, no contract; its properties are in `Bootstrap.AbiTrapsEndIdle` |
| `Runtime.DeletedVirtualSteps` | startup.cpp:56-61 | definition of what `__cxa_deleted_virtual` does, no contract; its properties are in `Bootstrap.AbiTrapsEndIdle` |
| `Runtime.PlacementNew` | startup.cpp:64-71 | placement `new` and `new[]` return exactly the pointer passed, for every size |
| `Runtime.Delete` | startup.cpp:73-77 | all four `delete` operators leave memory exactly as it was |
| `Bootstrap.HandlerTrapsEndIdle` | boot.cpp:35-60 | `infinite_loop` enters the idle loop at once; `default_handler` first makes exactly one call, to `infinite_loop`, then idles |
| `Bootstrap.AbiTrapsEndIdle` | startup.cpp:46-61 | `__cxa_pure_virtual` and `__cxa_deleted_virtual` each spin in an idle loop of their own and call nothing |
| `Bootstrap.BootTrace` | boot.cpp:21-33 | definition of the boot flow's actions (`reset_handler`'s, then `__startup`'s), no contract; its properties are in `Bootstrap.StackPointerSetFirst`, `Bootstrap.BssZeroedBeforeMain` and `Bootstrap.BootEndsIdle` |
| `Bootstrap.StackPointerSetFirst` | boot.cpp:21-33 | the first boot action sets SP to `stack_top`, the second branches to `__startup`, and SP is never set again |
| `Bootstrap.BssZeroedBeforeMain` | startup.cpp:27-38 | between the branch and the call to `main`, each BSS word is written once in ascending order and nothing else happens; after the call no BSS word is written |
| `Bootstrap.BootEndsIdle` | startup.cpp:36-43 | the whole boot flow ends in the idle loop and enters it only once |
| `Bootstrap.Board.PowerOn` | boot.cpp:45 | power-on reset: the phase is `OutOfReset`, SP holds an arbitrary value, and nothing has happened yet |
| `Bootstrap.Board.RunResetHandler` | boot.cpp:21-33 | SP becomes `stack_top`, then control branches to `__startup`; no memory is touched |
| `Bootstrap.Board.RunStartup` | startup.cpp:19-44 | BSS is zeroed before `main` runs; `main` sees the zero-filled memory; the board ends `Halted` whether or not `main` returns |
| `Bootstrap.Board.Trap` | startup.cpp:46-61 | entering a trap routine from any phase halts the board and changes nothing else |
| `Bootstrap.Board.TakeException` | boot.cpp:35-39 | an exception other than reset, taken as the table means it, reaches `default_handler`, which halts the board |
| `Bootstrap.RunBoot` | startup.cpp:19-44 | from power-on, a fresh board keeps the given BSS bounds and stack top and passes through all five phases in order (exactly the phases that 0 to 4 boot steps reach), records the boot trace, and `main` finds every BSS word zero and every other word unchanged; memory at the end is what `main` found |
| `Flasher.U32LE` | scripts/stm32flash.py:70 | a `<I` field decodes to an unsigned 32-bit value |
| `Flasher.DecodeEncodeU32` | scripts/stm32flash.py:70 | decoding the little-endian encoding of a 32-bit value gives the value back |
| `Flasher.EncodeDecodeU32` | scripts/stm32flash.py:70 | encoding a decoded field gives back its four bytes |
| `Flasher.UnpackHeader` | scripts/stm32flash.py:70 | `<IIII` yields four unsigned 32-bit fields: magic, entry point, reserved, image size |
| `Flasher.UnpackPack` | scripts/stm32flash.py:70 | unpacking a packed header gives back magic, entry point, reserved and image size, in that order, whatever bytes follow |
| `Flasher.PackUnpack` | scripts/stm32flash.py:70 | packing the unpacked header gives back the first 16 bytes |
| `Flasher.VerifyStm32Header` | scripts/stm32flash.py:65-81 | accepts if and only if the image is at least 256 bytes long and its first four bytes are 01 00 00 00 (little-endian magic 1) |
| `Flasher.VerdictIgnoresBytesAfterMagic` | scripts/stm32flash.py:70-81 | for images of at least 256 bytes, only the first four bytes decide the verdict |
| `Flasher.PackedHeaderVerdict` | scripts/stm32flash.py:65-81 | an image of at least 256 bytes that starts with a packed header is accepted if and only if the header's magic is 1 |
| `Flasher.DriveLetter` | scripts/stm32flash.py:25-26 | letter number `k` is the letter with `ord(letter) - ord('A') == k`, between A and Z |
| `Flasher.ListedUpToSound` | scripts/stm32flash.py:24-35 | every listed drive is `X:\` for a letter whose mask bit is set, that is removable and whose size query succeeded, and it carries that size |
| `Flasher.ListedUpToSorted` | scripts/stm32flash.py:25-33 | the list is in strictly alphabetical order of drive letter, so no letter appears twice |
| `Flasher.ListedUpToComplete` | scripts/stm32flash.py:24-35 | every letter whose mask bit is set, that is removable and whose size query succeeds is in the list |
| `Flasher.WindowsRemovableDrives` | scripts/stm32flash.py:20-35 | the loop over A to Z builds exactly the specified list |
| `Flasher.SelectDrive` | scripts/stm32flash.py:150-177 | with no drives the script stops; choice 0 cancels; a non-integer, or a choice outside 1..len(drives), is invalid; otherwise the result is `drives[choice-1]`'s path |
| `Flasher.MenuNumberSelectsDrive` | scripts/stm32flash.py:158-173 | the number shown for drive `i`, `i + 1`, selects exactly that drive |
| `Flasher.SeekBlocks` | scripts/stm32flash.py:107 | the seek is the floor of `offset / 512`: a whole number of blocks at or just below the offset |
| `Flasher.DefaultSeek` | scripts/stm32flash.py:83 | the default offset 0x4400 gives seek 34 |
| `Flasher.SeekPositionIsOffsetIffAligned` | scripts/stm32flash.py:101-126 | `dd` writes at the offset itself, as the Windows branch does, exactly when the offset is a multiple of 512 |
| `Flasher.LinuxDriveSize` | scripts/stm32flash.py:48 | a Linux drive size is the sysfs sector count times 512 |
| `Demo.WithBitsSet` | main.cpp:23 | `old \| m` has every bit of `m` set and every other bit as in `old` |
| `Demo.WithBitsCleared` | main.cpp:24 | `old & ~m` has every bit of `m` clear and every other bit as in `old` |
| `Demo.WithBitsSetUnique` | main.cpp:23 | those two properties determine the result of setting bits |
| `Demo.WithBitsClearedUnique` | main.cpp:24 | those two properties determine the result of clearing bits |
| `Demo.BitOperationsIdempotent` | main.cpp:23-24 | setting (or clearing) the same mask twice is the same as once |
| `Demo.Register.constructor` | main.cpp:20 | a register starts out holding the word stored at its address |
| `Demo.Register.Read` | main.cpp:21 | definition of `read()`, no contract; its properties are in `Demo.Register.Write`, `Demo.Register.SetBits` and `Demo.Register.ClearBits` |
| `Demo.Register.Write` | main.cpp:21-22 | after `write(v)`, `read()` returns `v` |
| `Demo.Register.SetBits` | main.cpp:23 | `setBits(m)` makes the value `old \| m` |
| `Demo.Register.ClearBits` | main.cpp:24 | `clearBits(m)` makes the value `old & ~m` |
| `Demo.Delay` | main.cpp:33-38 | `delay(count)` runs exactly `count` iterations and changes no other state |
| `Demo.SumBelowClosedForm` | main.cpp:46-52 | 0 + 1 + ... + (n - 1) equals n(n - 1)/2 |
| `Demo.CounterLoop` | main.cpp:45-52 | after the ten iterations, `counter` is 0 + 1 + ... + 9 = 45, with 32-bit wrap-around written out |

## Left out

- An ARMv7-A core does not run the vector table the way the model reads it.
  Such a core, like the Cortex-A7, takes an exception by setting the program
  counter to the vector base (VBAR, or the high-vector base) plus the offset,
  and it executes the word there as an instruction. boot.cpp:44-53 stores
  handler addresses in those slots instead, as an M-profile table does, and
  neither boot.cpp nor startup.cpp writes VBAR. The model reads each entry as
  the handler address the source means it to be (`Boot.EntryNamesHandler`,
  `Bootstrap.Board.TakeException`). It does not capture what the core would
  actually do on executing those words, or where the vector base lies.
- Inline assembly is not modelled as instructions. This covers the `ldr sp` / `b` encoding,
  the `nop` in each idle loop, and the `naked`, `section` and `used`
  attributes (boot.cpp:22-33, boot.cpp:36, boot.cpp:43). The reset handler's
  effect is kept as a trace of two actions.
- Where the linker places the `.vectors` section is not modelled, and neither is `keep_vectors` (boot.cpp:43,
  boot.cpp:63-64). Both are build-layout concerns. Routine addresses are a
  parameter of the table image.
- The ROM-to-RAM copy of initialised data (startup.cpp:20-25) is commented out in the
  code, so it is not modelled.
- Static constructors and one-time-initialisation guards do not exist in the
  code (startup.cpp:33-34), so they are not modelled.
- The linker symbols `__bss_start` and `__bss_end` are modelled as word indices into
  memory, not as byte addresses. This builds in word alignment of both symbols.
- Non-terminating loops are modelled as the terminal phase `Halted` and a final
  `Idle` action. Their running forever is not modelled step by step.
- Bootstrap.Board.RunStartup: what `main` does is not modelled. Its only
  modelled effect is whether it returns (the `mainReturns` parameter). The
  model assumes it leaves the modelled memory and `sp` as it found them. The
  demo's `main` never returns. Its locals live on the stack, and the stack
  lies in the BSS.
- The stack is not modelled as part of the BSS, although it is. The stack
  array (boot.cpp:12) has no initialiser, so it is zero-initialised static
  storage and is placed in `.bss`. The linker script is not part of this
  model. With that usual placement, the loop at startup.cpp:28-31 zeroes the
  stack that `__startup` itself runs on. The model keeps `sp` and the stack
  separate from `mem`, and so assumes `__startup` keeps nothing live in
  memory across the loop. A build that keeps the loop pointer `bss` on the
  stack would break that assumption.
- Call frames are not modelled. The calls `__startup` → `main` → `delay` and
  `infinite_loop` push frames, and `main`'s `volatile` counter (main.cpp:46)
  lives in one. In the model, `sp` keeps the value `reset_handler` loaded
  (`Bootstrap.Board.RunStartup`, `Bootstrap.RunBoot`). It is not the lower
  value the real stack pointer has when the idle loop runs.
- Interrupts that arrive during boot are not modelled. The core leaves reset with
  them masked.
- Volatile and memory-mapped I/O effects are not modelled, and neither is
  `RCC_BASE` or the register's address (main.cpp:13, main.cpp:18-20). A
  register is an ordinary word. Only `Register<uint32_t>` is modelled, not
  other template arguments.
- Demo.Register.Read is a function with no contract of its own. What `read()`
  returns is stated by the contracts of `Write`, `SetBits` and `ClearBits`.
- The flasher's foreign calls, platform queries and user interaction are not modelled.
  This covers `platform.system()`, the Linux `/sys/block` walk (except the
  size arithmetic) and the macOS `diskutil` plist walk. It covers
  `subprocess` and `sudo dd`, the Windows raw write, and unmounting. It covers
  `os.path.exists`, `argparse` with `int(x, 0)` parsing of the offset,
  `print`, `sys.exit`, the "Continue anyway?" prompt, the final "yes"
  confirmation, and the floating-point GB display (scripts/stm32flash.py:160).
  On Windows, `GetDriveType` and `GetDiskFreeSpaceEx` become function
  parameters; a size query that raises is `None`.
- Flasher.SelectDrive: `int(input(...))` is not modelled as string parsing.
  The choice arrives as `Option<int>`; `None` stands for input that is not
  an integer, or for an interrupted prompt.
