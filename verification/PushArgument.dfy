/** push_argument (userprog/process.c): the arguments of a program laid out on its zeroed stack
    page, and the reader that gets them back. */
module PushArgument {
  import opened Bytes

  const PGSIZE := 4096
  const PHYS_BASE := 0xc000_0000
  const WORD := 0x1_0000_0000

  /** The address of the stack page; positions below are offsets from it. */
  const PAGE := PHYS_BASE - PGSIZE

  // ----- Words in memory -----

  function WordOf(b0: int, b1: int, b2: int, b3: int): int {
    b0 + 0x100 * (b1 + 0x100 * (b2 + 0x100 * b3))
  }

  /** A little-endian word. */
  function ReadWord(mem: seq<Byte>, at: int): int
    requires 0 <= at && at + 4 <= |mem|
  {
    WordOf(mem[at], mem[at + 1], mem[at + 2], mem[at + 3])
  }

  function WordBytes(v: int): (r: seq<Byte>)
    requires 0 <= v < WORD
    ensures |r| == 4 && WordOf(r[0], r[1], r[2], r[3]) == v
  {
    [v % 0x100, v / 0x100 % 0x100, v / 0x100 / 0x100 % 0x100, v / 0x100 / 0x100 / 0x100]
  }

  lemma {:induction false} WordRoundTrip(mem: seq<Byte>, at: int, v: int)
    requires 0 <= at && at + 4 <= |mem| && 0 <= v < WORD && mem[at..at + 4] == WordBytes(v)
    ensures ReadWord(mem, at) == v
  {
    var b := mem[at..at + 4];
    assert b[0] == mem[at] && b[1] == mem[at + 1] && b[2] == mem[at + 2] && b[3] == mem[at + 3];
  }

  // ----- The layout -----

  /** The bytes of the strings with their terminators. */
  function Length(argv: seq<CString>): nat {
    if argv == [] then 0 else |argv[0]| + 1 + Length(argv[1..])
  }

  /** Where string `i` goes: the last string is at the top of the page. */
  function StringPos(argv: seq<CString>, i: nat): int
    requires i <= |argv|
  {
    PGSIZE - Length(argv[i..])
  }

  function Align(argv: seq<CString>): (r: int)
    ensures 1 <= r <= 4
  {
    4 - Length(argv) % 4
  }

  /** Where argv[0] goes. */
  function PointerPos(argv: seq<CString>): int {
    StringPos(argv, 0) - Align(argv) - 4 - 4 * |argv|
  }

  /** The encoding fits the page. */
  predicate Fits(argv: seq<CString>) {
    PointerPos(argv) - 12 >= 0
  }

  /** Each string ends, with its terminator, where the next begins, and the last at the top of the page. */
  lemma {:induction false} NextString(argv: seq<CString>, i: nat)
    requires i < |argv|
    ensures StringPos(argv, i + 1) == StringPos(argv, i) + |argv[i]| + 1 && StringPos(argv, |argv|) == PGSIZE
  {
    assert argv[i..][1..] == argv[i + 1..];
  }

  lemma {:induction false} StringsAscend(argv: seq<CString>, i: nat, j: nat)
    requires i <= j <= |argv|
    ensures StringPos(argv, i) <= StringPos(argv, j) <= PGSIZE
    decreases j - i
  {
    if i < j {
      StringsAscend(argv, i + 1, j);
      NextString(argv, i);
    } else {
      assert Length(argv[i..]) >= 0;
    }
  }

  /** The stack pointer ends up aligned, above what was written at the bottom. */
  lemma {:induction false} StackIsAligned(argv: seq<CString>)
    ensures (PAGE + PointerPos(argv) - 12) % 4 == 0
  {
    assert argv[0..] == argv;
  }

  // ----- What memory holds -----

  ghost predicate StringIn(mem: seq<Byte>, argv: seq<CString>, j: nat)
    requires j < |argv|
  {
    var at := StringPos(argv, j);
    0 <= at && at + |argv[j]| + 1 <= |mem| && mem[at..at + |argv[j]| + 1] == argv[j] + [0]
  }

  ghost predicate PointerIn(mem: seq<Byte>, argv: seq<CString>, j: nat)
    requires j < |argv|
  {
    var at := PointerPos(argv) + 4 * j;
    && 0 <= at && at + 4 <= |mem| && 0 <= PAGE + StringPos(argv, j) < WORD
    && mem[at..at + 4] == WordBytes(PAGE + StringPos(argv, j))
  }

  ghost predicate ZeroBelow(mem: seq<Byte>, at: int) {
    at <= |mem| && forall k :: 0 <= k < at ==> mem[k] == 0
  }

  /** Copies string `i` to its place, below the strings after it. */
  method PushString(argv: seq<CString>, i: nat, at: int, mem: array<Byte>)
    requires mem.Length == PGSIZE && i < |argv| && at == StringPos(argv, i) >= 0 && ZeroBelow(mem[..], StringPos(argv, i + 1))
    requires forall j: nat :: i < j < |argv| ==> StringIn(mem[..], argv, j)
    modifies mem
    ensures (forall j: nat :: i <= j < |argv| ==> StringIn(mem[..], argv, j)) && ZeroBelow(mem[..], StringPos(argv, i))
  {
    ghost var before := mem[..];
    var bytes := argv[i] + [0];
    NextString(argv, i);
    StringsAscend(argv, i + 1, |argv|);
    Write(mem, at, bytes);
    WrittenPart(before, mem[..], at, bytes);
    forall j: nat | i < j < |argv| ensures StringIn(mem[..], argv, j) {
      assert StringIn(before, argv, j);
      StringsAscend(argv, i + 1, j);
      KeptPart(before, mem[..], at, bytes, StringPos(argv, j), StringPos(argv, j) + |argv[j]| + 1);
    }
  }

  /** The first loop pushes the strings, last to first; `esp` is the offset of string 0. */
  method PushStrings(argv: seq<CString>, mem: array<Byte>) returns (addr: seq<int>, esp: int, wordLength: int)
    requires mem.Length == PGSIZE && Fits(argv) && ZeroBelow(mem[..], PGSIZE)
    modifies mem
    ensures |addr| == |argv| && (forall j: nat :: j < |argv| ==> addr[j] == PAGE + StringPos(argv, j))
    ensures esp == StringPos(argv, 0) && wordLength == Length(argv)
    ensures (forall j: nat :: j < |argv| ==> StringIn(mem[..], argv, j)) && ZeroBelow(mem[..], esp)
  {
    var i := |argv|;
    addr, esp, wordLength := [], PGSIZE, 0;
    while i > 0
      invariant 0 <= i <= |argv| && esp == StringPos(argv, i) && wordLength == PGSIZE - esp
      invariant |addr| == |argv| - i && (forall j: nat :: i <= j < |argv| ==> addr[j - i] == PAGE + StringPos(argv, j))
      invariant forall j: nat :: i <= j < |argv| ==> StringIn(mem[..], argv, j)
      invariant ZeroBelow(mem[..], esp)
    {
      i := i - 1;
      NextString(argv, i);
      StringsAscend(argv, 0, i);
      var length := |argv[i]| + 1;
      esp, wordLength := esp - length, wordLength + length;
      PushString(argv, i, esp, mem);
      addr := [PAGE + esp] + addr;
    }
    assert argv[0..] == argv;
  }

  /** What holds once the strings are there and pointers from `i` on: the gap above the pointers,
      which holds argv[argc], is still zero, and so is everything below. */
  ghost predicate Laid(mem: seq<Byte>, argv: seq<CString>, i: nat, low: int) {
    && |mem| == PGSIZE && i <= |argv| && low <= PointerPos(argv) + 4 * i
    && (forall j: nat :: j < |argv| ==> StringIn(mem, argv, j))
    && (forall j: nat :: i <= j < |argv| ==> PointerIn(mem, argv, j))
    && (forall k :: 0 <= k < |mem| && (k < low || PointerPos(argv) + 4 * |argv| <= k < StringPos(argv, 0)) ==> mem[k] == 0)
  }

  /** A word written in the zero part keeps what is laid out above. */
  lemma {:induction false} WordKeepsLaid(before: seq<Byte>, after: seq<Byte>, argv: seq<CString>, i: nat, low: int, bytes: seq<Byte>)
    requires Fits(argv) && Laid(before, argv, i, low) && 4 <= low && |bytes| == 4
    requires after == before[..low - 4] + bytes + before[low..]
    ensures Laid(after, argv, i, low - 4) && after[low - 4..low] == bytes
  {
    WrittenPart(before, after, low - 4, bytes);
    forall j: nat | j < |argv| ensures StringIn(after, argv, j) {
      assert StringIn(before, argv, j);
      StringsAscend(argv, 0, j);
      KeptPart(before, after, low - 4, bytes, StringPos(argv, j), StringPos(argv, j) + |argv[j]| + 1);
    }
    forall j: nat | i <= j < |argv| ensures PointerIn(after, argv, j) {
      assert PointerIn(before, argv, j);
      KeptPart(before, after, low - 4, bytes, PointerPos(argv) + 4 * j, PointerPos(argv) + 4 * j + 4);
    }
    forall k | 0 <= k < |after| && (k < low - 4 || PointerPos(argv) + 4 * |argv| <= k < StringPos(argv, 0)) ensures after[k] == 0 {
    }
  }

  lemma {:induction false} AddressFits(argv: seq<CString>, j: nat)
    requires Fits(argv) && j < |argv|
    ensures 0 <= PAGE + StringPos(argv, j) < WORD && 0 <= StringPos(argv, j) < PGSIZE
  {
    StringsAscend(argv, 0, j);
    NextString(argv, j);
    StringsAscend(argv, j + 1, |argv|);
  }

  /** The second loop pushes the pointers to the strings, last to first. */
  method PushPointers(argv: seq<CString>, addr: seq<int>, mem: array<Byte>) returns (esp: int)
    requires mem.Length == PGSIZE && Fits(argv) && Laid(mem[..], argv, |argv|, PointerPos(argv) + 4 * |argv|)
    requires |addr| == |argv| && (forall j: nat :: j < |argv| ==> addr[j] == PAGE + StringPos(argv, j))
    modifies mem
    ensures esp == PointerPos(argv) && Laid(mem[..], argv, 0, esp)
  {
    var i := |argv|;
    esp := PointerPos(argv) + 4 * |argv|;
    while i > 0
      invariant 0 <= i <= |argv| && esp == PointerPos(argv) + 4 * i && Laid(mem[..], argv, i, esp)
    {
      i := i - 1;
      esp := esp - 4;
      ghost var before := mem[..];
      AddressFits(argv, i);
      Write(mem, esp, WordBytes(addr[i]));
      WordKeepsLaid(before, mem[..], argv, i + 1, esp + 4, WordBytes(addr[i]));
      assert PointerIn(mem[..], argv, i);
    }
  }

  /** push_argument; `esp` is the offset of the new stack pointer. */
  method PushArguments(argv: seq<CString>, mem: array<Byte>) returns (esp: int)
    requires mem.Length == PGSIZE && Fits(argv) && ZeroBelow(mem[..], PGSIZE)
    modifies mem
    ensures esp == PointerPos(argv) - 12 && Laid(mem[..], argv, 0, esp + 4)
    ensures ReadWord(mem[..], esp + 4) == |argv| && ReadWord(mem[..], esp + 8) == PAGE + PointerPos(argv)
  {
    var addr, top, wordLength := PushStrings(argv, mem);
    var align := 4 - wordLength % 4;
    esp := top - (align + 4);
    assert Laid(mem[..], argv, |argv|, esp);
    esp := PushPointers(argv, addr, mem);
    var argvAddr := PAGE + esp;
    esp := esp - 4;
    ghost var before := mem[..];
    Write(mem, esp, WordBytes(argvAddr));
    WordKeepsLaid(before, mem[..], argv, 0, esp + 4, WordBytes(argvAddr));
    esp := esp - 4;
    ghost var middle := mem[..];
    Write(mem, esp, WordBytes(|argv|));
    WordKeepsLaid(middle, mem[..], argv, 0, esp + 4, WordBytes(|argv|));
    KeptPart(middle, mem[..], esp, WordBytes(|argv|), esp + 4, esp + 8);
    WordRoundTrip(mem[..], esp, |argv|);
    WordRoundTrip(mem[..], esp + 4, argvAddr);
    esp := esp - 4;
  }

  // ----- Reading the arguments back -----

  /** The C string at `at`. */
  function StringAt(mem: seq<Byte>, at: int): seq<Byte>
    decreases |mem| - at
  {
    if 0 <= at < |mem| && mem[at] != 0 then [mem[at]] + StringAt(mem, at + 1) else []
  }

  /** `n` strings through the pointers at `at`. */
  function ArgumentsAt(mem: seq<Byte>, at: int, n: nat): seq<seq<Byte>>
    decreases n
  {
    if n == 0 || at < 0 || at + 4 > |mem| then []
    else [StringAt(mem, ReadWord(mem, at) - PAGE)] + ArgumentsAt(mem, at + 4, n - 1)
  }

  lemma {:induction false} StringReads(mem: seq<Byte>, at: int, s: CString)
    requires 0 <= at && at + |s| + 1 <= |mem| && mem[at..at + |s| + 1] == s + [0]
    ensures StringAt(mem, at) == s
    decreases |s|
  {
    assert mem[at] == mem[at..at + |s| + 1][0];
    if s != [] {
      var rest := s[1..];
      assert mem[at + 1..at + 1 + |rest| + 1] == mem[at..at + |s| + 1][1..] == rest + [0];
      StringReads(mem, at + 1, rest);
      assert s == [s[0]] + rest;
    }
  }

  lemma {:induction false} ArgumentsRead(mem: seq<Byte>, argv: seq<CString>, i: nat)
    requires Fits(argv) && |mem| == PGSIZE && i <= |argv|
    requires forall j: nat :: j < |argv| ==> StringIn(mem, argv, j) && PointerIn(mem, argv, j)
    ensures ArgumentsAt(mem, PointerPos(argv) + 4 * i, |argv| - i) == argv[i..]
    decreases |argv| - i
  {
    if i < |argv| {
      assert StringIn(mem, argv, i) && PointerIn(mem, argv, i);
      WordRoundTrip(mem, PointerPos(argv) + 4 * i, PAGE + StringPos(argv, i));
      StringReads(mem, StringPos(argv, i), argv[i]);
      ArgumentsRead(mem, argv, i + 1);
      assert argv[i..] == [argv[i]] + argv[i + 1..];
    }
  }

  /** From the stack that push_argument leaves, a program reads its arguments, and then a null
      pointer. */
  lemma {:induction false} ArgumentsComeBack(mem: seq<Byte>, argv: seq<CString>, esp: int)
    requires Fits(argv) && esp == PointerPos(argv) - 12 && Laid(mem, argv, 0, esp + 4)
    requires ReadWord(mem, esp + 4) == |argv| && ReadWord(mem, esp + 8) == PAGE + PointerPos(argv)
    ensures (PAGE + esp) % 4 == 0
    ensures ArgumentsAt(mem, ReadWord(mem, esp + 8) - PAGE, ReadWord(mem, esp + 4)) == argv
    ensures ReadWord(mem, esp + 12 + 4 * |argv|) == 0
  {
    StackIsAligned(argv);
    ArgumentsRead(mem, argv, 0);
    assert argv[0..] == argv;
  }
}
