/**
 * The pure decisions of the SD-card flasher script: the STM32 image-header
 * check, the Windows drive-letter mask decode, the drive-menu selection, the
 * `dd` seek in 512-byte blocks, and the Linux drive size.
 */
module Flasher {
  import opened Wrappers

  type Byte = b: int | 0 <= b < 0x100

  /** `struct` format `<I`: an unsigned 32-bit value. */
  predicate IsU32(v: int) {
    0 <= v < 0x1_0000_0000
  }

  /** Images shorter than this are rejected outright. */
  const HEADER_MIN_SIZE: nat := 256
  /** The magic word the header check accepts. */
  const STM32_MAGIC: nat := 0x00000001
  /** `dd` block size. */
  const BLOCK_SIZE: nat := 512
  /** Default byte offset of the image on the card. */
  const DEFAULT_OFFSET: int := 0x4400
  /** Bytes per sector in a Linux sysfs `size` file. */
  const SECTOR_SIZE: int := 512

  /** The little-endian 32-bit value of the four bytes at `at`. */
  function U32LE(data: seq<Byte>, at: nat): (v: int)
    requires at + 4 <= |data|
    ensures IsU32(v)
  {
    var b0: int, b1: int, b2: int, b3: int := data[at], data[at + 1], data[at + 2], data[at + 3];
    b0 + 0x100 * b1 + 0x1_0000 * b2 + 0x100_0000 * b3
  }

  /** The four little-endian bytes of a 32-bit value. */
  function EncodeU32LE(v: int): (b: seq<Byte>)
    requires IsU32(v)
    ensures |b| == 4
  {
    [v % 0x100, (v / 0x100) % 0x100, (v / 0x1_0000) % 0x100, v / 0x100_0000]
  }

  lemma DecodeEncodeU32(v: int)
    requires IsU32(v)
    ensures U32LE(EncodeU32LE(v), 0) == v
  {
    var b := EncodeU32LE(v);
    assert v == b[0] + 0x100 * (v / 0x100);
    assert v / 0x100 == b[1] + 0x100 * (v / 0x1_0000);
    assert v / 0x1_0000 == b[2] + 0x100 * (v / 0x100_0000);
  }

  lemma EncodeDecodeU32(data: seq<Byte>, at: nat)
    requires at + 4 <= |data|
    ensures EncodeU32LE(U32LE(data, at)) == data[at..at + 4]
  {
    var v := U32LE(data, at);
    var b0: int, b1: int, b2: int, b3: int := data[at], data[at + 1], data[at + 2], data[at + 3];
    var hi := b1 + 0x100 * b2 + 0x1_0000 * b3;
    assert v == b0 + 0x100 * hi;
    assert v % 0x100 == b0 && v / 0x100 == hi;
    var hi2 := b2 + 0x100 * b3;
    assert hi == b1 + 0x100 * hi2;
    assert v / 0x1_0000 == hi / 0x100 == hi2;
    assert v / 0x100_0000 == hi2 / 0x100 == b3;
  }

  /** The four words that start an STM32 image. */
  datatype Stm32Header = Stm32Header(magic: int, entryPoint: int, reserved: int, imageSize: int)

  predicate WellFormed(h: Stm32Header) {
    IsU32(h.magic) && IsU32(h.entryPoint) && IsU32(h.reserved) && IsU32(h.imageSize)
  }

  /** `struct.unpack("<IIII", data[:16])`: four little-endian words, in order
      magic, entry point, reserved, image size. */
  function UnpackHeader(data: seq<Byte>): (h: Stm32Header)
    requires |data| >= 16
    ensures WellFormed(h)
  {
    Stm32Header(U32LE(data, 0), U32LE(data, 4), U32LE(data, 8), U32LE(data, 12))
  }

  /** The sixteen bytes of a header. */
  function PackHeader(h: Stm32Header): (b: seq<Byte>)
    requires WellFormed(h)
    ensures |b| == 16
  {
    EncodeU32LE(h.magic) + EncodeU32LE(h.entryPoint) + EncodeU32LE(h.reserved) + EncodeU32LE(h.imageSize)
  }

  /** Unpacking the bytes of a packed header gives the header back, whatever follows it. */
  lemma UnpackPack(h: Stm32Header, rest: seq<Byte>)
    requires WellFormed(h)
    ensures UnpackHeader(PackHeader(h) + rest) == h
  {
    var data := PackHeader(h) + rest;
    DecodeEncodeU32(h.magic);
    DecodeEncodeU32(h.entryPoint);
    DecodeEncodeU32(h.reserved);
    DecodeEncodeU32(h.imageSize);
    assert data[0..4] == EncodeU32LE(h.magic);
    assert data[4..8] == EncodeU32LE(h.entryPoint);
    assert data[8..12] == EncodeU32LE(h.reserved);
    assert data[12..16] == EncodeU32LE(h.imageSize);
    U32LEOfSlice(data, 0);
    U32LEOfSlice(data, 4);
    U32LEOfSlice(data, 8);
    U32LEOfSlice(data, 12);
  }

  /** Packing the unpacked header gives back the first sixteen bytes. */
  lemma PackUnpack(data: seq<Byte>)
    requires |data| >= 16
    ensures PackHeader(UnpackHeader(data)) == data[..16]
  {
    EncodeDecodeU32(data, 0);
    EncodeDecodeU32(data, 4);
    EncodeDecodeU32(data, 8);
    EncodeDecodeU32(data, 12);
    assert data[..16] == data[0..4] + data[4..8] + data[8..12] + data[12..16];
  }

  /** The value at `at` depends only on the four bytes there. */
  lemma U32LEOfSlice(data: seq<Byte>, at: nat)
    requires at + 4 <= |data|
    ensures U32LE(data, at) == U32LE(data[at..at + 4], 0)
  {
  }

  /** `verify_stm32_header`: accept when the image is at least 256 bytes long
      and its first word, read little-endian, is the magic 1; that is, when
      its first four bytes are 01 00 00 00. */
  function VerifyStm32Header(data: seq<Byte>): (ok: bool)
    ensures ok <==> |data| >= HEADER_MIN_SIZE && data[0] == 1 && data[1] == 0 && data[2] == 0 && data[3] == 0
  {
    if |data| < HEADER_MIN_SIZE then false
    else UnpackHeader(data[..16]).magic == STM32_MAGIC
  }

  /** Only the length and the magic word decide: two long-enough images with
      the same first four bytes get the same verdict, whatever else they hold. */
  lemma VerdictIgnoresBytesAfterMagic(a: seq<Byte>, b: seq<Byte>)
    requires |a| >= HEADER_MIN_SIZE && |b| >= HEADER_MIN_SIZE
    requires a[..4] == b[..4]
    ensures VerifyStm32Header(a) == VerifyStm32Header(b)
  {
    assert a[0] == a[..4][0] && a[1] == a[..4][1] && a[2] == a[..4][2] && a[3] == a[..4][3];
    assert b[0] == b[..4][0] && b[1] == b[..4][1] && b[2] == b[..4][2] && b[3] == b[..4][3];
  }

  /** An image made of a header whose magic is 1 and at least 240 more bytes
      is accepted; a header with any other magic is rejected. */
  lemma PackedHeaderVerdict(h: Stm32Header, rest: seq<Byte>)
    requires WellFormed(h)
    requires |rest| + 16 >= HEADER_MIN_SIZE
    ensures VerifyStm32Header(PackHeader(h) + rest) <==> h.magic == STM32_MAGIC
  {
    var data := PackHeader(h) + rest;
    UnpackPack(h, rest);
    UnpackPack(h, []);
    assert data[..16] == PackHeader(h) + [];
    assert UnpackHeader(data[..16]) == h;
  }

  /** A drive the flasher lists: its path and its size in bytes. */
  datatype Drive = Drive(path: string, size: int)

  /** `get_removable_drives` walks the letters "A" to "Z", in order. */
  const LETTER_COUNT: nat := 26

  /** Letter number `k`, counting from "A" = 0. */
  function DriveLetter(k: nat): (c: char)
    requires k < LETTER_COUNT
    ensures 'A' <= c <= 'Z' && c as int - 'A' as int == k
  {
    ('A' as int + k) as char
  }

  /** `f"{letter}:\\"`, the root of a Windows drive. */
  function DrivePath(letter: char): string {
    [letter, ':', '\\']
  }

  /** `1 << (ord(letter) - ord('A'))` for letter number `k`. */
  function Mask(k: nat): bv32
    requires k < 32
  {
    1 << k
  }

  /** Python's truth value of `drive_bits & mask`. */
  predicate Overlaps(driveBits: bv32, mask: bv32) {
    driveBits & mask != 0
  }

  /** Bit `k` of the `GetLogicalDrives` mask is set. */
  predicate BitSet(driveBits: bv32, k: nat)
    requires k < 32
  {
    Overlaps(driveBits, Mask(k))
  }

  /** Letter number `k` is listed: its bit is set in the mask, the drive is
      removable, and the free-space query for it did not raise. */
  predicate Listed(driveBits: bv32, removable: char -> bool, diskSize: char -> Option<int>, k: nat)
    requires k < LETTER_COUNT
  {
    BitSet(driveBits, k) && removable(DriveLetter(k)) && diskSize(DriveLetter(k)).Some?
  }

  function Entry(driveBits: bv32, removable: char -> bool, diskSize: char -> Option<int>, k: nat): Drive
    requires k < LETTER_COUNT && Listed(driveBits, removable, diskSize, k)
  {
    Drive(DrivePath(DriveLetter(k)), diskSize(DriveLetter(k)).value)
  }

  /** The drives the Windows branch lists from the letters before number `n`. */
  function ListedUpTo(driveBits: bv32, removable: char -> bool, diskSize: char -> Option<int>, n: nat): seq<Drive>
    requires n <= LETTER_COUNT
  {
    if n == 0 then []
    else
      var before := ListedUpTo(driveBits, removable, diskSize, n - 1);
      if Listed(driveBits, removable, diskSize, n - 1) then before + [Entry(driveBits, removable, diskSize, n - 1)]
      else before
  }

  /** The number of the letter a listed drive's path starts with. */
  function LetterNumber(d: Drive): int
    requires |d.path| > 0
  {
    d.path[0] as int - 'A' as int
  }

  /** Every entry of the Windows listing is the entry of a listed letter
      with a smaller number than `n`, carrying its queried size. */
  lemma {:induction false} ListedUpToSound(driveBits: bv32, removable: char -> bool, diskSize: char -> Option<int>,
                                           n: nat, ds: seq<Drive>)
    requires n <= LETTER_COUNT
    requires ds == ListedUpTo(driveBits, removable, diskSize, n)
    ensures forall i :: 0 <= i < |ds| ==>
              && |ds[i].path| == 3
              && 0 <= LetterNumber(ds[i]) < n
              && Listed(driveBits, removable, diskSize, LetterNumber(ds[i]))
              && ds[i] == Entry(driveBits, removable, diskSize, LetterNumber(ds[i]))
  {
    if n > 0 {
      var before := ListedUpTo(driveBits, removable, diskSize, n - 1);
      ListedUpToSound(driveBits, removable, diskSize, n - 1, before);
      if Listed(driveBits, removable, diskSize, n - 1) {
        var e := Entry(driveBits, removable, diskSize, n - 1);
        assert LetterNumber(e) == n - 1;
        assert ds == before + [e];
        forall i | 0 <= i < |ds|
          ensures |ds[i].path| == 3 && 0 <= LetterNumber(ds[i]) < n
          ensures Listed(driveBits, removable, diskSize, LetterNumber(ds[i]))
          ensures ds[i] == Entry(driveBits, removable, diskSize, LetterNumber(ds[i]))
        {
          if i < |before| {
            assert ds[i] == before[i];
          }
        }
      } else {
        assert ds == before;
      }
    }
  }

  /** The Windows listing is in strictly alphabetical order of drive letter,
      so no letter appears twice. */
  lemma {:induction false} ListedUpToSorted(driveBits: bv32, removable: char -> bool, diskSize: char -> Option<int>,
                                            n: nat, ds: seq<Drive>)
    requires n <= LETTER_COUNT
    requires ds == ListedUpTo(driveBits, removable, diskSize, n)
    ensures forall i :: 0 <= i < |ds| ==> |ds[i].path| > 0
    ensures forall i, j :: 0 <= i < j < |ds| ==> ds[i].path[0] < ds[j].path[0]
  {
    ListedUpToSound(driveBits, removable, diskSize, n, ds);
    if n > 0 {
      var before := ListedUpTo(driveBits, removable, diskSize, n - 1);
      ListedUpToSorted(driveBits, removable, diskSize, n - 1, before);
      ListedUpToSound(driveBits, removable, diskSize, n - 1, before);
      if Listed(driveBits, removable, diskSize, n - 1) {
        var e := Entry(driveBits, removable, diskSize, n - 1);
        assert ds == before + [e];
        forall i, j | 0 <= i < j < |ds| ensures ds[i].path[0] < ds[j].path[0] {
          if j < |before| {
            assert ds[i] == before[i] && ds[j] == before[j];
          } else {
            assert ds[i] == before[i] && ds[j] == e;
            assert LetterNumber(before[i]) < n - 1;
          }
        }
      } else {
        assert ds == before;
      }
    }
  }

  /** Every listed letter below `n` has its entry in the Windows listing. */
  lemma {:induction false} ListedUpToComplete(driveBits: bv32, removable: char -> bool, diskSize: char -> Option<int>,
                                              n: nat, ds: seq<Drive>)
    requires n <= LETTER_COUNT
    requires ds == ListedUpTo(driveBits, removable, diskSize, n)
    ensures forall k :: 0 <= k < n && Listed(driveBits, removable, diskSize, k) ==>
              Entry(driveBits, removable, diskSize, k) in ds
  {
    if n > 0 {
      var before := ListedUpTo(driveBits, removable, diskSize, n - 1);
      ListedUpToComplete(driveBits, removable, diskSize, n - 1, before);
      if Listed(driveBits, removable, diskSize, n - 1) {
        var e := Entry(driveBits, removable, diskSize, n - 1);
        assert ds == before + [e];
        forall k | 0 <= k < n && Listed(driveBits, removable, diskSize, k)
          ensures Entry(driveBits, removable, diskSize, k) in ds
        {
          if k < n - 1 {
            assert Entry(driveBits, removable, diskSize, k) in before;
          }
        }
      } else {
        assert ds == before;
        forall k | 0 <= k < n && Listed(driveBits, removable, diskSize, k)
          ensures Entry(driveBits, removable, diskSize, k) in ds
        {
          assert k < n - 1;
        }
      }
    }
  }

  /** The Windows branch of `get_removable_drives`: walk the letters A to Z
      and list each one whose mask bit is set, that is removable, and whose
      size query succeeds. The two queries are the operating system's and
      come in as parameters. */
  method WindowsRemovableDrives(driveBits: bv32, removable: char -> bool, diskSize: char -> Option<int>)
    returns (drives: seq<Drive>)
    ensures drives == ListedUpTo(driveBits, removable, diskSize, LETTER_COUNT)
  {
    drives := [];
    for k := 0 to LETTER_COUNT
      invariant drives == ListedUpTo(driveBits, removable, diskSize, k)
    {
      ghost var before := drives;
      var letter := DriveLetter(k);
      var mask := Mask(letter as int - 'A' as int);
      if Overlaps(driveBits, mask) {
        if removable(letter) {
          var size := diskSize(letter);
          if size.Some? {
            drives := drives + [Drive(DrivePath(letter), size.value)];
          }
        }
      }
      assert drives == if Listed(driveBits, removable, diskSize, k)
                       then before + [Entry(driveBits, removable, diskSize, k)] else before;
    }
  }

  /** The outcome of the drive menu. */
  datatype Selection = NoDrives | Cancelled | Invalid | Selected(path: string)

  /** The menu of `main`: no drives stops the script; otherwise choice 0
      cancels, a choice outside 1 to the number of drives (or input that is
      not an integer, `None`) is invalid, and choice `c` picks the path of the
      `c`-th listed drive. */
  function SelectDrive(drives: seq<Drive>, choice: Option<int>): (s: Selection)
    ensures s == NoDrives <==> drives == []
    ensures s == Cancelled <==> drives != [] && choice == Some(0)
    ensures s.Selected? <==> drives != [] && choice.Some? && 1 <= choice.value <= |drives|
    ensures s.Selected? ==> s.path == drives[choice.value - 1].path
  {
    if drives == [] then NoDrives
    else match choice
      case None => Invalid
      case Some(c) =>
        if c == 0 then Cancelled
        else if c < 1 || c > |drives| then Invalid
        else Selected(drives[c - 1].path)
  }

  /** The menu shows drive `i` as number `i + 1`; entering that number
      selects exactly that drive. */
  lemma MenuNumberSelectsDrive(drives: seq<Drive>, i: nat)
    requires i < |drives|
    ensures SelectDrive(drives, Some(i + 1)) == Selected(drives[i].path)
  {
  }

  /** `offset // 512`: the number of whole blocks before the byte offset
      (Python's floor division, which for a positive divisor is Dafny's). */
  function SeekBlocks(offset: int): (blocks: int)
    ensures blocks * BLOCK_SIZE <= offset < blocks * BLOCK_SIZE + BLOCK_SIZE
  {
    offset / BLOCK_SIZE
  }

  /** The default offset 0x4400 is block 34. */
  lemma DefaultSeek()
    ensures SeekBlocks(DEFAULT_OFFSET) == 34
  {
  }

  /** `dd` writes at `seek * 512`, the Windows branch at `offset` itself: the
      two agree exactly when the offset is a multiple of 512. */
  lemma SeekPositionIsOffsetIffAligned(offset: int)
    ensures SeekBlocks(offset) * BLOCK_SIZE == offset <==> offset % BLOCK_SIZE == 0
  {
  }

  /** The Linux size of a drive: the sysfs sector count times 512 bytes. */
  function LinuxDriveSize(sectors: int): (bytes: int)
    ensures bytes % SECTOR_SIZE == 0 && bytes / SECTOR_SIZE == sectors
  {
    sectors * SECTOR_SIZE
  }
}
