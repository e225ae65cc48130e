/** Headers of ustar archives (lib/ustar.c): what ustar_make_header writes, ustar_parse_header
    reads back. */
module Ustar {
  import opened Common
  import opened Bytes
  import opened Octal

  const SLASH: Byte := 47
  const DOT: Byte := 46
  const REGULAR: Byte := 48
  const DIRECTORY: Byte := 53
  const HEADER_SIZE := 512
  const INT_MAX := 0x7fff_ffff
  const WORD := 0x1_0000_0000

  // Where the fields are.
  const NAME := 0
  const MODE := 100
  const UID := 108
  const GID := 116
  const SIZE := 124
  const MTIME := 136
  const CHKSUM := 148
  const TYPEFLAG := 156
  const MAGIC := 257
  const VERSION := 263
  const UNAME := 265
  const GNAME := 297
  const PREFIX := 345

  const USTAR: seq<Byte> := [117, 115, 116, 97, 114]
  const ROOT: seq<Byte> := [114, 111, 111, 116]
  const MODIFIED := 1136102400

  // ----- Names -----

  /** The name starts with "/", "./" or "../". */
  predicate Antisocial(s: seq<Byte>) {
    || (|s| >= 1 && s[0] == SLASH)
    || (|s| >= 2 && s[0] == DOT && s[1] == SLASH)
    || (|s| >= 3 && s[0] == DOT && s[1] == DOT && s[2] == SLASH)
  }

  /** What is left when the antisocial prefixes have been stripped. */
  predicate Social(s: seq<Byte>) {
    !Antisocial(s) && s != [] && s != [DOT, DOT]
  }

  /** `r` is what is left of `s` after some of its first bytes. */
  ghost predicate IsSuffix(r: seq<Byte>, s: seq<Byte>) {
    exists k :: 0 <= k <= |s| && r == s[k..]
  }

  /** What follows the first slash. */
  function AfterSlash(s: CString): CString
    requires SLASH in s
  {
    if s[0] == SLASH then s[1..] else AfterSlash(s[1..])
  }

  lemma {:induction false} AfterSlashIsShorter(s: CString)
    requires SLASH in s
    ensures |AfterSlash(s)| < |s| && AfterSlash(s) == s[|s| - |AfterSlash(s)|..]
  {
    if s[0] != SLASH {
      AfterSlashIsShorter(s[1..]);
    }
  }

  function Strip(s: CString): (r: CString)
    decreases |s|
  {
    if Antisocial(s) then
      assert SLASH in s;
      AfterSlashIsShorter(s);
      Strip(AfterSlash(s))
    else if s == [] || s == [DOT, DOT] then [DOT]
    else s
  }

  /** strip_antisocial_prefixes: a suffix of the name without such a prefix, or ".", and the name itself if
      it has none. */
  method StripPrefixes(s: CString) returns (r: CString)
    ensures r == Strip(s) && Social(r) && (r == [DOT] || IsSuffix(r, s)) && (Social(s) ==> r == s)
  {
    r := s;
    ghost var k := 0;
    while Antisocial(r)
      invariant Strip(r) == Strip(s) && 0 <= k <= |s| && r == s[k..] && (k > 0 ==> Antisocial(s))
      decreases |r|
    {
      assert SLASH in r;
      AfterSlashIsShorter(r);
      k := |s| - |AfterSlash(r)|;
      r := AfterSlash(r);
    }
    if r == [] || r == [DOT, DOT] {
      r := [DOT];
    }
  }

  /** Stripping is idempotent, and leaves a name without such a prefix that is no longer than the
      given one, or ".". */
  lemma {:induction false} StripTwice(s: CString)
    ensures Strip(Strip(s)) == Strip(s)
    ensures Social(Strip(s)) && (Strip(s) == [DOT] || |Strip(s)| <= |s|)
    decreases |s|
  {
    if Antisocial(s) {
      assert SLASH in s;
      AfterSlashIsShorter(s);
      StripTwice(AfterSlash(s));
    }
  }

  // ----- Where a name leads -----

  /** The parts of a name between its slashes. */
  function Components(s: seq<Byte>): (cs: seq<seq<Byte>>)
    ensures |cs| >= 1
  {
    if s == [] then [[]]
    else if s[0] == SLASH then [[]] + Components(s[1..])
    else var rest := Components(s[1..]); [[s[0]] + rest[0]] + rest[1..]
  }

  /** A component that names something, unlike the empty one, "." and "..". */
  predicate Ordinary(c: seq<Byte>) {
    c != [] && c != [DOT] && c != [DOT, DOT]
  }

  /** How far below its start the first `n` components lead; below 0 is above the start. */
  function Level(cs: seq<seq<Byte>>, n: nat): int
    requires n <= |cs|
  {
    if n == 0 then 0
    else Level(cs, n - 1) + if Ordinary(cs[n - 1]) then 1 else if cs[n - 1] == [DOT, DOT] then -1 else 0
  }

  /** The name is absolute, or leads above the directory it is taken from. */
  ghost predicate Escapes(s: seq<Byte>) {
    (s != [] && s[0] == SLASH) || exists n :: 0 <= n <= |Components(s)| && Level(Components(s), n) < 0
  }

  /** How many components come before the first ordinary one. */
  function Lead(cs: seq<seq<Byte>>): (n: nat)
    ensures n <= |cs|
  {
    if cs == [] || Ordinary(cs[0]) then 0 else 1 + Lead(cs[1..])
  }

  /** After its first ordinary component the path leads, at some point, above where it was before. */
  ghost predicate Wanders(cs: seq<seq<Byte>>) {
    exists n :: Lead(cs) <= n <= |cs| && Level(cs, n) < Level(cs, Lead(cs))
  }

  lemma {:induction false} LevelOfRest(cs: seq<seq<Byte>>, n: nat)
    requires 1 <= n <= |cs|
    ensures Level(cs, n) == Level(cs, 1) + Level(cs[1..], n - 1)
  {
    if n > 1 {
      LevelOfRest(cs, n - 1);
    }
  }

  /** Dropping a leading component that is not ordinary makes no difference. */
  lemma {:induction false} WandersLater(cs: seq<seq<Byte>>)
    requires cs != [] && !Ordinary(cs[0])
    ensures Wanders(cs) <==> Wanders(cs[1..])
  {
    var rest := cs[1..];
    LevelOfRest(cs, Lead(cs));
    if n :| Lead(cs) <= n <= |cs| && Level(cs, n) < Level(cs, Lead(cs)) {
      LevelOfRest(cs, n);
      assert Lead(rest) <= n - 1 <= |rest| && Level(rest, n - 1) < Level(rest, Lead(rest));
    }
    if n :| Lead(rest) <= n <= |rest| && Level(rest, n) < Level(rest, Lead(rest)) {
      LevelOfRest(cs, n + 1);
      assert Level(cs, n + 1) < Level(cs, Lead(cs));
    }
  }

  lemma {:induction false} OneComponent(s: seq<Byte>)
    requires SLASH !in s
    ensures Components(s) == [s]
  {
    if s != [] {
      OneComponent(s[1..]);
      assert s == [s[0]] + s[1..];
    }
  }

  /** A name is cut at its first slash. */
  lemma {:induction false} FirstComponent(s: CString) returns (p: CString)
    requires SLASH in s
    ensures s == p + [SLASH] + AfterSlash(s) && SLASH !in p && Components(s) == [p] + Components(AfterSlash(s))
  {
    if s[0] == SLASH {
      p := [];
      assert s == p + [SLASH] + s[1..];
    } else {
      var q := FirstComponent(s[1..]);
      p := [s[0]] + q;
      assert s == [s[0]] + s[1..];
    }
  }

  /** An antisocial prefix is a component that is not ordinary; a name without one starts with an
      ordinary component, or is a single other one. */
  lemma {:induction false} FirstIsOrdinary(s: CString)
    ensures Antisocial(s) ==> SLASH in s && !Ordinary(Components(s)[0]) && Components(s)[1..] == Components(AfterSlash(s))
    ensures !Antisocial(s) ==> if Ordinary(Components(s)[0]) then Strip(s) == s else Components(s) == [s] && Strip(s) == [DOT]
  {
    if SLASH in s {
      var p := FirstComponent(s);
      assert s[|p|] == SLASH && forall i :: 0 <= i < |p| ==> s[i] == p[i] && p[i] in p;
    } else {
      OneComponent(s);
      assert forall i :: 0 <= i < |s| ==> s[i] in s;
    }
  }

  /** A stripped name leads out of the directory if and only if the given one wanders. */
  lemma {:induction false} StripEscapes(s: CString)
    ensures Escapes(Strip(s)) <==> Wanders(Components(s))
    decreases |s|
  {
    FirstIsOrdinary(s);
    if Antisocial(s) {
      AfterSlashIsShorter(s);
      WandersLater(Components(s));
      StripEscapes(AfterSlash(s));
    } else if !Ordinary(Components(s)[0]) {
      OneComponent([DOT]);
      assert Level([[DOT]], 0) == 0;
      assert Level([[DOT]], 1) == 0;
      assert Lead(Components(s)[1..]) == 0;
    }
  }

  /** Stripping drops the components before the first ordinary one, and gives "." if there is none. */
  lemma {:induction false} StripDropsLead(s: CString)
    ensures var cs := Components(s);
      if Lead(cs) == |cs| then Strip(s) == [DOT] else Components(Strip(s)) == cs[Lead(cs)..]
    decreases |s|
  {
    FirstIsOrdinary(s);
    var cs := Components(s);
    if Antisocial(s) {
      AfterSlashIsShorter(s);
      StripDropsLead(AfterSlash(s));
      assert Lead(cs) == 1 + Lead(cs[1..]) && cs[1..][Lead(cs[1..])..] == cs[Lead(cs)..];
    } else if !Ordinary(cs[0]) {
      assert Lead(cs[1..]) == 0;
    } else {
      assert cs[0..] == cs;
    }
  }

  /** Stripping does not prevent that: "a/../../b" is left as it is, and so is every name that starts
      with an ordinary component and then goes up twice. */
  lemma {:induction false} StrippedMayEscape(p: CString, rest: CString)
    requires Ordinary(p) && SLASH !in p
    ensures var s: CString := p + [SLASH] + ([DOT, DOT] + [SLASH] + ([DOT, DOT] + [SLASH] + rest));
      Strip(s) == s && Escapes(s)
  {
    var u: CString := [DOT, DOT] + [SLASH] + rest;
    var t: CString := [DOT, DOT] + [SLASH] + u;
    var s: CString := p + [SLASH] + t;
    CutAt([DOT, DOT], rest);
    CutAt([DOT, DOT], u);
    CutAt(p, t);
    FirstIsOrdinary(s);
    UpTwice(Components(s));
  }

  lemma {:induction false} UpTwice(cs: seq<seq<Byte>>)
    requires |cs| >= 3 && Ordinary(cs[0]) && cs[1] == cs[2] == [DOT, DOT]
    ensures Level(cs, 3) == -1
  {
    assert Level(cs, 1) == 1;
    assert Level(cs, 2) == 0;
  }

  lemma {:induction false} CutAt(p: CString, t: CString)
    requires SLASH !in p
    ensures Components(p + [SLASH] + t) == [p] + Components(t)
  {
    var s := p + [SLASH] + t;
    if p == [] {
      assert s[1..] == t;
    } else {
      CutAt(p[1..], t);
      assert s[1..] == p[1..] + [SLASH] + t && p == [p[0]] + p[1..];
    }
  }

  /** The C string at the start of a field. */
  function CStr(s: seq<Byte>): CString {
    if s == [] || s[0] == 0 then [] else [s[0]] + CStr(s[1..])
  }

  lemma {:induction false} CStrStops(s: seq<Byte>, k: nat)
    requires k < |s| && s[k] == 0
    ensures |CStr(s)| <= k
  {
    if k > 0 && s[0] != 0 {
      CStrStops(s[1..], k - 1);
    }
  }

  lemma {:induction false} CStrOfPadded(name: CString, s: seq<Byte>)
    requires |name| < |s| && s[..|name|] == name && s[|name|] == 0
    ensures CStr(s) == name
  {
    if name != [] {
      assert s[0] == s[..|name|][0];
      var rest := name[1..];
      assert s[1..][..|rest|] == s[..|name|][1..];
      CStrOfPadded(rest, s[1..]);
      assert name == [name[0]] + rest;
    }
  }

  // ----- Checksums -----

  predicate InChksum(i: int) {
    CHKSUM <= i < CHKSUM + 8
  }

  /** The sum of the first `n` bytes, with the checksum field read as spaces. */
  function Sum(h: seq<Byte>, n: nat): (r: nat)
    requires n <= |h|
    ensures r <= 255 * n
  {
    if n == 0 then 0 else Sum(h, n - 1) + if InChksum(n - 1) then SPACE else h[n - 1]
  }

  /** The sum of all bytes. */
  function Total(s: seq<Byte>): nat {
    if s == [] then 0 else s[0] + Total(s[1..])
  }

  lemma {:induction false} TotalOfLast(s: seq<Byte>, x: Byte)
    ensures Total(s + [x]) == Total(s) + x
  {
    if s != [] {
      assert (s + [x])[1..] == s[1..] + [x];
      TotalOfLast(s[1..], x);
    }
  }

  lemma {:induction false} SumByParts(h: seq<Byte>, n: nat)
    requires n <= |h|
    ensures Sum(h, n) ==
      if n <= CHKSUM then Total(h[..n])
      else if n <= CHKSUM + 8 then Total(h[..CHKSUM]) + (n - CHKSUM) * SPACE
      else Total(h[..CHKSUM]) + 8 * SPACE + Total(h[CHKSUM + 8..n])
  {
    if n > 0 {
      SumByParts(h, n - 1);
      if n <= CHKSUM {
        assert h[..n] == h[..n - 1] + [h[n - 1]];
        TotalOfLast(h[..n - 1], h[n - 1]);
      } else if n > CHKSUM + 8 {
        assert h[CHKSUM + 8..n] == h[CHKSUM + 8..n - 1] + [h[n - 1]];
        TotalOfLast(h[CHKSUM + 8..n - 1], h[n - 1]);
      }
    }
  }

  /** The bytes before and after the checksum field, and eight spaces. */
  lemma {:induction false} SumIsTotal(h: seq<Byte>)
    requires |h| == HEADER_SIZE
    ensures Sum(h, HEADER_SIZE) == Total(h[..148]) + 8 * 32 + Total(h[156..])
  {
    SumByParts(h, HEADER_SIZE);
    assert h[CHKSUM + 8..HEADER_SIZE] == h[156..];
  }

  /** calculate_chksum. */
  method CalculateChksum(h: seq<Byte>) returns (chksum: nat)
    requires |h| == HEADER_SIZE
    ensures chksum == Sum(h, HEADER_SIZE) == Total(h[..148]) + 8 * 32 + Total(h[156..])
  {
    SumIsTotal(h);
    chksum := 0;
    for i := 0 to HEADER_SIZE
      invariant chksum == Sum(h, i)
    {
      chksum := chksum + if InChksum(i) then SPACE else h[i];
    }
  }

  /** Changing one byte outside the checksum field changes the sum. */
  lemma {:induction false} SumSeesByte(h: seq<Byte>, g: seq<Byte>, i: nat, n: nat)
    requires |h| == |g| && i < n <= |h| && !InChksum(i) && forall j :: 0 <= j < |h| && j != i ==> h[j] == g[j]
    ensures Sum(g, n) == Sum(h, n) + g[i] - h[i]
  {
    if n - 1 == i {
      SumIgnoresField(h, g, i);
    } else {
      SumSeesByte(h, g, i, n - 1);
    }
  }

  /** The checksum does not depend on its own field. */
  lemma {:induction false} SumIgnoresField(h: seq<Byte>, g: seq<Byte>, n: nat)
    requires n <= |h| && n <= |g| && forall i :: 0 <= i < n && !InChksum(i) ==> h[i] == g[i]
    ensures Sum(h, n) == Sum(g, n)
  {
    if n > 0 {
      SumIgnoresField(h, g, n - 1);
    }
  }

  lemma {:induction false} Powers()
    ensures Pow8(7) == 0x20_0000 && Pow8(11) == 0x2_0000_0000
  {
    assert Pow8(1) == 8;
    assert Pow8(2) == 64;
    assert Pow8(3) == 512;
    assert Pow8(4) == 0x1000;
    assert Pow8(5) == 0x8000;
    assert Pow8(6) == 0x4_0000;
    assert Pow8(7) == 0x20_0000;
    assert Pow8(8) == 0x100_0000;
    assert Pow8(9) == 0x800_0000;
    assert Pow8(10) == 0x4000_0000;
  }

  // ----- Making a header -----

  function Zeros(n: nat): (r: seq<Byte>)
    ensures |r| == n
  {
    seq(n, _ => 0)
  }

  /** A C string in a field of `n` bytes. */
  function Padded(s: seq<Byte>, n: nat): (r: seq<Byte>)
    requires |s| <= n
    ensures |r| == n
  {
    s + Zeros(n - |s|)
  }

  /** A number in octal, with a null byte. */
  function Number(v: nat, n: nat): (r: seq<Byte>)
    ensures |r| == n + 1
  {
    Digits(v, n) + [0]
  }

  /** A size as the unsigned 32-bit number that snprintf prints. */
  function Unsigned(size: int): nat {
    size % WORD
  }

  /** The fields before the checksum: name, mode, user and group, size and time. */
  function Front(name: CString, typeflag: Byte, size: int): (r: seq<Byte>)
    requires |name| <= 99
    ensures |r| == CHKSUM
  {
    Padded(name, 100) + Number(if typeflag == REGULAR then 420 else 493, 7) + Padded(seq(7, _ => ZERO), 8)
    + Padded(seq(7, _ => ZERO), 8) + Number(Unsigned(size), 11) + Number(MODIFIED, 11)
  }

  /** The fields between the checksum and the user name: type, link, magic and version. */
  function Middle(typeflag: Byte): (r: seq<Byte>)
    ensures |r| == UNAME - TYPEFLAG
  {
    [typeflag] + Zeros(100) + (USTAR + [0]) + [ZERO, ZERO]
  }

  /** The fields after the version: user and group name, and null bytes. */
  function Rear(): (r: seq<Byte>)
    ensures |r| == HEADER_SIZE - UNAME
  {
    Padded(ROOT, 32) + (Padded(ROOT, 32) + Zeros(183))
  }

  /** All 512 bytes of the header for a name, type and size. */
  ghost predicate Made(h: seq<Byte>, name: CString, typeflag: Byte, size: int) {
    && |h| == HEADER_SIZE && |name| <= 99
    && h == Joined([Front(name, typeflag, size), Number(Sum(h, HEADER_SIZE), 7), Middle(typeflag), Rear()])
  }

  function Joined(parts: seq<seq<Byte>>): seq<Byte> {
    if parts == [] then [] else parts[0] + Joined(parts[1..])
  }

  lemma {:induction false} JoinFour(a: seq<Byte>, b: seq<Byte>, c: seq<Byte>, d: seq<Byte>)
    ensures Joined([a, b, c, d]) == a + b + (c + d)
  {
    assert [a, b, c, d][1..] == [b, c, d] && [b, c, d][1..] == [c, d] && [c, d][1..] == [d] && [d][1..] == [];
    assert Joined([c, d]) == c + Joined([d]) && Joined([d]) == d + [] == d;
    Assoc(a, b, c + d);
  }

  lemma {:induction false} Assoc(a: seq<Byte>, b: seq<Byte>, c: seq<Byte>)
    ensures a + b + c == a + (b + c)
  {
  }

  lemma {:induction false} ZerosSplit(m: nat, n: nat)
    ensures Zeros(m + n) == Zeros(m) + Zeros(n)
  {
  }

  /** Writes a field where there are only null bytes. */
  method Put(h: array<Byte>, bytes: seq<Byte>, at: nat, ghost a: seq<Byte>, ghost n: nat, ghost b: seq<Byte>)
    requires h[..] == a + Zeros(n) + b && |a| == at && |bytes| <= n
    modifies h
    ensures h[..] == a + bytes + (Zeros(n - |bytes|) + b)
  {
    ZerosSplit(|bytes|, n - |bytes|);
    Write(h, at, bytes);
  }

  /** Writes the next field; only null bytes follow. */
  method Append(h: array<Byte>, bytes: seq<Byte>, at: nat, ghost a: seq<Byte>)
    requires at + |bytes| <= h.Length && h[..] == a + Zeros(h.Length - at) && |a| == at
    modifies h
    ensures h[..] == a + bytes + Zeros(h.Length - at - |bytes|)
  {
    assert h[..] == a + Zeros(h.Length - at) + [];
    Put(h, bytes, at, a, h.Length - at, []);
    assert Zeros(h.Length - at - |bytes|) + [] == Zeros(h.Length - at - |bytes|);
  }

  /** Leaves null bytes. */
  lemma {:induction false} Skip(h: seq<Byte>, a: seq<Byte>, n: nat)
    requires |a| + n <= |h| && h == a + Zeros(|h| - |a|)
    ensures h == a + Zeros(n) + Zeros(|h| - |a| - n)
  {
    ZerosSplit(n, |h| - |a| - n);
    Assoc(a, Zeros(n), Zeros(|h| - |a| - n));
  }

  /** The fields before the checksum. */
  method PutFront(name: CString, typeflag: Byte, size: int, h: array<Byte>)
    requires h.Length == HEADER_SIZE && |name| <= 99 && h[..] == Zeros(HEADER_SIZE)
    modifies h
    ensures h[..] == Front(name, typeflag, size) + Zeros(HEADER_SIZE - CHKSUM)
  {
    assert h[..] == [] + Zeros(HEADER_SIZE);
    Append(h, name + [0], NAME, []);
    ghost var a := Padded(name, 100);
    assert h[..] == a + Zeros(HEADER_SIZE - MODE);
    Powers();
    var mode := Format(if typeflag == REGULAR then 420 else 493, 7);
    Append(h, mode + [0], MODE, a);
    a := a + Number(if typeflag == REGULAR then 420 else 493, 7);
    ghost var id := Padded(seq(7, _ => ZERO), 8);
    Append(h, seq(7, _ => ZERO) + [0], UID, a);
    assert seq(7, _ => ZERO) + [0] == id;
    a := a + id;
    Append(h, seq(7, _ => ZERO) + [0], GID, a);
    a := a + id;
    var digits := Format(Unsigned(size), 11);
    Append(h, digits + [0], SIZE, a);
    a := a + Number(Unsigned(size), 11);
    var mtime := Format(MODIFIED, 11);
    Append(h, mtime + [0], MTIME, a);
  }

  /** The fields after the checksum up to the version. */
  method PutMiddle(typeflag: Byte, h: array<Byte>, ghost front: seq<Byte>)
    requires h.Length == HEADER_SIZE && |front| == TYPEFLAG && h[..] == front + Zeros(HEADER_SIZE - TYPEFLAG)
    modifies h
    ensures h[..] == front + Middle(typeflag) + Zeros(HEADER_SIZE - UNAME)
  {
    Append(h, [typeflag], TYPEFLAG, front);
    ghost var a := front + [typeflag];
    Skip(h[..], a, 100);
    a := a + Zeros(100);
    Append(h, USTAR + [0], MAGIC, a);
    a := a + (USTAR + [0]);
    Append(h, [ZERO, ZERO], VERSION, a);
    JoinMiddle(front, [typeflag], Zeros(100), USTAR + [0], [ZERO, ZERO]);
  }

  lemma {:induction false} JoinMiddle(f: seq<Byte>, a: seq<Byte>, b: seq<Byte>, c: seq<Byte>, d: seq<Byte>)
    ensures f + a + b + c + d == f + (a + b + c + d)
  {
    Assoc(f, a, b);
    Assoc(f, a + b, c);
    Assoc(f, a + b + c, d);
  }

  /** Group and user name, in that order. */
  method PutRear(h: array<Byte>, ghost front: seq<Byte>)
    requires h.Length == HEADER_SIZE && |front| == UNAME && h[..] == front + Zeros(HEADER_SIZE - UNAME)
    modifies h
    ensures h[..] == front + Rear()
  {
    Skip(h[..], front, 32);
    Append(h, ROOT + [0], GNAME, front + Zeros(32));
    ghost var rest := Padded(ROOT, 32) + Zeros(183);
    assert h[..] == front + Zeros(32) + rest;
    Put(h, ROOT + [0], UNAME, front, 32, rest);
    Assoc(front, ROOT + [0], Zeros(27) + rest);
    assert ROOT + [0] + (Zeros(27) + rest) == Rear();
  }

  /** ustar_make_header. */
  method MakeHeader(fileName: CString, typeflag: Byte, size: int, h: array<Byte>) returns (ok: bool)
    requires h.Length == HEADER_SIZE && (typeflag == REGULAR || typeflag == DIRECTORY)
    modifies h
    ensures ok <==> |Strip(fileName)| <= 99
    ensures ok ==> Made(h[..], Strip(fileName), typeflag, size)
    ensures !ok ==> h[..] == old(h[..])
  {
    var name := StripPrefixes(fileName);
    if |name| > 99 {
      return false;
    }
    Fill(name, typeflag, size, h);
    var chksum := CalculateChksum(h[..]);
    Powers();
    var digits := Format(chksum, 7);
    ghost var before, front, rear := h[..], Front(name, typeflag, size), Middle(typeflag) + Rear();
    Put(h, digits + [0], CHKSUM, front, 8, rear);
    assert Zeros(0) + rear == rear;
    SumIgnoresField(before, h[..], HEADER_SIZE);
    JoinFour(front, digits + [0], Middle(typeflag), Rear());
    return true;
  }

  /** Everything but the checksum. */
  method Fill(name: CString, typeflag: Byte, size: int, h: array<Byte>)
    requires h.Length == HEADER_SIZE && |name| <= 99
    modifies h
    ensures h[..] == Front(name, typeflag, size) + Zeros(8) + (Middle(typeflag) + Rear())
  {
    forall i | 0 <= i < HEADER_SIZE {
      h[i] := 0;
    }
    assert h[..] == Zeros(HEADER_SIZE);
    PutFront(name, typeflag, size, h);
    ghost var front := Front(name, typeflag, size);
    Skip(h[..], front, 8);
    PutMiddle(typeflag, h, front + Zeros(8));
    PutRear(h, front + Zeros(8) + Middle(typeflag));
    Assoc(front + Zeros(8), Middle(typeflag), Rear());
  }

  // ----- Parsing a header -----

  predicate FieldIs(h: seq<Byte>, at: int, bytes: seq<Byte>) {
    0 <= at && at + |bytes| <= |h| && h[at..at + |bytes|] == bytes
  }

  datatype Parsed = Failed(message: string) | EndOfArchive | Entry(name: CString, typeflag: Byte, size: nat)

  /** ustar_parse_header. */
  function Parse(h: seq<Byte>): Parsed
    requires |h| == HEADER_SIZE
  {
    if forall i :: 0 <= i < HEADER_SIZE ==> h[i] == 0 then EndOfArchive
    else if h[MAGIC..MAGIC + 6] != USTAR + [0] then Failed("not a ustar archive")
    else if h[VERSION] != ZERO || h[VERSION + 1] != ZERO then Failed("invalid ustar version")
    else
      var chksum := Meaning(h[CHKSUM..CHKSUM + 8]);
      if chksum.None? then Failed("corrupt chksum field")
      else if chksum.value != Sum(h, HEADER_SIZE) then Failed("checksum mismatch")
      else if h[NAME + 99] != 0 || h[PREFIX] != 0 then Failed("file name too long")
      else if h[TYPEFLAG] != REGULAR && h[TYPEFLAG] != DIRECTORY then Failed("unimplemented file type")
      else if h[TYPEFLAG] == DIRECTORY then Entry(Strip(CStr(h[NAME..NAME + 100])), DIRECTORY, 0)
      else
        var size := Meaning(h[SIZE..SIZE + 12]);
        if size.None? then Failed("corrupt file size field")
        else if size.value > INT_MAX then Failed("file too large")
        else Entry(Strip(CStr(h[NAME..NAME + 100])), REGULAR, size.value)
  }

  method IsAllZeros(block: seq<Byte>) returns (r: bool)
    ensures r <==> forall i :: 0 <= i < |block| ==> block[i] == 0
  {
    var i := 0;
    while i < |block|
      invariant 0 <= i <= |block| && forall j :: 0 <= j < i ==> block[j] == 0
    {
      if block[i] != 0 {
        return false;
      }
      i := i + 1;
    }
    return true;
  }

  /** What an entry promises. */
  ghost predicate Bounded(e: Parsed) {
    e.Entry? ==> Social(e.name) && |e.name| <= 99 && (e.typeflag == REGULAR || e.typeflag == DIRECTORY) && e.size <= INT_MAX
  }

  /** Whatever the 512 bytes are, an entry read from them has a name, type and size within bounds.
      The name leads out of the directory exactly when the one in the header wanders. */
  lemma {:induction false} ParsedIsBounded(h: seq<Byte>)
    requires |h| == HEADER_SIZE
    ensures Bounded(Parse(h))
    ensures Parse(h) == EndOfArchive <==> forall i :: 0 <= i < HEADER_SIZE ==> h[i] == 0
    ensures Parse(h).Entry? ==> Denotes(h[CHKSUM..CHKSUM + 8], DigitCount(h[CHKSUM..CHKSUM + 8]), Sum(h, HEADER_SIZE))
    ensures Parse(h).Entry? ==> IsSuffix(Parse(h).name, CStr(h[NAME..NAME + 100])) || Parse(h).name == [DOT]
    ensures Parse(h).Entry? ==> (Escapes(Parse(h).name) <==> Wanders(Components(CStr(h[NAME..NAME + 100]))))
  {
    var name := CStr(h[NAME..NAME + 100]);
    StripTwice(name);
    StripIsSuffix(name);
    StripEscapes(name);
    if Parse(h).Entry? {
      CStrStops(h[NAME..NAME + 100], 99);
    }
  }

  /** The field is a number in octal, and that is `v`. */
  ghost predicate Says(field: seq<Byte>, v: int) {
    exists n :: Denotes(field, n, v)
  }

  /** When a header is that of a file or directory: magic, version, a checksum that is right, a name that
      fits, a known type and, for a file, a size that fits an int. */
  ghost predicate Acceptable(h: seq<Byte>)
    requires |h| == HEADER_SIZE
  {
    && FieldIs(h, 257, USTAR + [0]) && FieldIs(h, 263, [ZERO, ZERO])
    && Says(h[148..156], Total(h[..148]) + 8 * 32 + Total(h[156..]))
    && h[99] == 0 && h[345] == 0
    && (h[156] == DIRECTORY || (h[156] == REGULAR && exists size :: Says(h[124..136], size) && size <= INT_MAX))
  }

  /** A header is taken for an entry exactly when it is acceptable, and then gives the name in its first
      field, stripped, its type, and the size that its size field denotes, or 0 for a directory. */
  lemma {:induction false} ParsesExactly(h: seq<Byte>)
    requires |h| == HEADER_SIZE
    ensures Parse(h).Entry? <==> Acceptable(h)
    ensures Parse(h).Entry? ==>
      && Parse(h).name == Strip(CStr(h[..100])) && Parse(h).typeflag == h[156]
      && if h[156] == DIRECTORY then Parse(h).size == 0 else Says(h[124..136], Parse(h).size)
  {
    SumIsTotal(h);
    var version := h[VERSION..VERSION + 2];
    assert version == [h[VERSION], h[VERSION + 1]];
    assert FieldIs(h, 263, [ZERO, ZERO]) <==> h[VERSION] == ZERO && h[VERSION + 1] == ZERO;
    assert FieldIs(h, 257, USTAR + [0]) <==> h[MAGIC..MAGIC + 6] == USTAR + [0];
    assert h[NAME..NAME + 100] == h[..100];
    SaysIsMeaning(h[SIZE..SIZE + 12]);
    SaysIsMeaning(h[CHKSUM..CHKSUM + 8]);
    assert Meaning(h[CHKSUM..CHKSUM + 8]) == Some(Sum(h, HEADER_SIZE)) <==> Says(h[148..156], Total(h[..148]) + 8 * 32 + Total(h[156..]));
    assert Acceptable(h) ==> h[VERSION] != 0;
    if Parse(h).Entry? && h[TYPEFLAG] == REGULAR {
      assert Says(h[124..136], Parse(h).size);
    }
  }

  lemma {:induction false} SaysIsMeaning(s: seq<Byte>)
    ensures forall v: int :: Says(s, v) <==> Meaning(s).Some? && Meaning(s).value == v
  {
    forall v: int ensures Says(s, v) <==> Meaning(s).Some? && Meaning(s).value == v {
      if Says(s, v) {
        var n: nat :| Denotes(s, n, v);
        ValueGrows(s, 0, n);
        assert Meaning(s) == Some(v);
      }
      if Meaning(s).Some? {
        var m := Meaning(s).value;
        assert Meaning(s) == Some(m);
      }
    }
  }

  lemma {:induction false} StripIsSuffix(s: CString)
    ensures Strip(s) == [DOT] || IsSuffix(Strip(s), s)
    decreases |s|
  {
    if Antisocial(s) {
      assert SLASH in s;
      AfterSlashIsShorter(s);
      var rest := AfterSlash(s);
      StripIsSuffix(rest);
      if Strip(rest) != [DOT] {
        var k :| 0 <= k <= |rest| && Strip(rest) == rest[k..];
        assert Strip(s) == s[|s| - |rest| + k..];
      }
    } else if Strip(s) == s {
      assert s == s[0..];
    }
  }

  /** The checksum catches every change of a single byte outside its own field. */
  lemma {:induction false} OneByteIsCaught(h: seq<Byte>, g: seq<Byte>, i: nat)
    requires |h| == |g| == HEADER_SIZE && Parse(h).Entry?
    requires i < HEADER_SIZE && !InChksum(i) && g == h[i := g[i]] && g[i] != h[i]
    ensures Parse(g).Failed?
  {
    SumSeesByte(h, g, i, HEADER_SIZE);
    assert g[CHKSUM..CHKSUM + 8] == h[CHKSUM..CHKSUM + 8];
    assert h[VERSION] != 0 && h[VERSION + 1] != 0;
    assert g[VERSION] != 0 || g[VERSION + 1] != 0;
  }

  /** ustar_parse_header, for every 512 bytes. */
  method ParseHeader(h: seq<Byte>) returns (r: Parsed)
    requires |h| == HEADER_SIZE
    ensures r == Parse(h) && Bounded(r) && (r.Entry? <==> Acceptable(h))
    ensures r == EndOfArchive <==> forall i :: 0 <= i < HEADER_SIZE ==> h[i] == 0
  {
    ParsedIsBounded(h);
    ParsesExactly(h);
    var zeros := IsAllZeros(h);
    if zeros {
      return EndOfArchive;
    }
    if h[MAGIC..MAGIC + 6] != USTAR + [0] {
      return Failed("not a ustar archive");
    }
    if h[VERSION] != ZERO || h[VERSION + 1] != ZERO {
      return Failed("invalid ustar version");
    }
    var chksum := ParseField(h[CHKSUM..CHKSUM + 8]);
    if chksum.None? {
      return Failed("corrupt chksum field");
    }
    var sum := CalculateChksum(h);
    if chksum.value != sum {
      return Failed("checksum mismatch");
    }
    if h[NAME + 99] != 0 || h[PREFIX] != 0 {
      return Failed("file name too long");
    }
    if h[TYPEFLAG] != REGULAR && h[TYPEFLAG] != DIRECTORY {
      return Failed("unimplemented file type");
    }
    var size: nat := 0;
    if h[TYPEFLAG] == REGULAR {
      var field := ParseField(h[SIZE..SIZE + 12]);
      if field.None? {
        return Failed("corrupt file size field");
      }
      if field.value > INT_MAX {
        return Failed("file too large");
      }
      size := field.value;
    }
    var name := StripPrefixes(CStr(h[NAME..NAME + 100]));
    return Entry(name, h[TYPEFLAG], size);
  }

  // ----- The round trip -----

  /** What the parser looks at, apart from the checksum. */
  ghost predicate Filled(h: seq<Byte>, name: CString, typeflag: Byte, size: int) {
    && |h| == HEADER_SIZE && |name| <= 99
    && FieldIs(h, NAME, Padded(name, 100))
    && FieldIs(h, SIZE, Number(Unsigned(size), 11))
    && h[TYPEFLAG] == typeflag
    && FieldIs(h, MAGIC, USTAR + [0])
    && h[VERSION] == ZERO && h[VERSION + 1] == ZERO
    && h[PREFIX] == 0
  }

  lemma {:induction false} FrontFields(name: CString, typeflag: Byte, size: int)
    requires |name| <= 99
    ensures FieldIs(Front(name, typeflag, size), NAME, Padded(name, 100))
    ensures FieldIs(Front(name, typeflag, size), SIZE, Number(Unsigned(size), 11))
  {
  }

  lemma {:induction false} MiddleFields(typeflag: Byte)
    ensures Middle(typeflag)[0] == typeflag && FieldIs(Middle(typeflag), MAGIC - TYPEFLAG, USTAR + [0])
    ensures Middle(typeflag)[VERSION - TYPEFLAG] == Middle(typeflag)[VERSION + 1 - TYPEFLAG] == ZERO
  {
  }

  lemma {:induction false} FieldOfPart(a: seq<Byte>, b: seq<Byte>, c: seq<Byte>, at: int, bytes: seq<Byte>)
    requires FieldIs(b, at, bytes)
    ensures FieldIs(a + b + c, |a| + at, bytes)
  {
    var h := a + b + c;
    assert h[|a| + at..|a| + at + |bytes|] == b[at..at + |bytes|];
  }

  lemma {:induction false} FilledByParts(front: seq<Byte>, sum: seq<Byte>, middle: seq<Byte>, rear: seq<Byte>,
                                         name: CString, typeflag: Byte, size: int)
    requires |name| <= 99 && front == Front(name, typeflag, size) && |sum| == 8 && middle == Middle(typeflag) && rear == Rear()
    ensures var h := front + sum + (middle + rear);
      Filled(h, name, typeflag, size) && FieldIs(h, CHKSUM, sum)
  {
    var h := front + sum + (middle + rear);
    FrontFields(name, typeflag, size);
    MiddleFields(typeflag);
    assert h == [] + front + (sum + (middle + rear));
    FieldOfPart([], front, sum + (middle + rear), NAME, Padded(name, 100));
    FieldOfPart([], front, sum + (middle + rear), SIZE, Number(Unsigned(size), 11));
    assert sum[0..0 + |sum|] == sum;
    FieldOfPart(front, sum, middle + rear, 0, sum);
    assert h == front + sum + middle + rear;
    FieldOfPart(front + sum, middle, rear, MAGIC - TYPEFLAG, USTAR + [0]);
    assert h[TYPEFLAG] == middle[0] && h[VERSION] == middle[VERSION - TYPEFLAG] && h[VERSION + 1] == middle[VERSION + 1 - TYPEFLAG];
    assert h[PREFIX] == rear[PREFIX - UNAME];
    RearIsZero();
  }

  lemma {:induction false} RearIsZero()
    ensures Rear()[PREFIX - UNAME] == 0
  {
  }

  lemma {:induction false} MadeIsFilled(h: seq<Byte>, name: CString, typeflag: Byte, size: int)
    requires Made(h, name, typeflag, size)
    ensures Filled(h, name, typeflag, size) && FieldIs(h, CHKSUM, Number(Sum(h, HEADER_SIZE), 7))
  {
    JoinFour(Front(name, typeflag, size), Number(Sum(h, HEADER_SIZE), 7), Middle(typeflag), Rear());
    FilledByParts(Front(name, typeflag, size), Number(Sum(h, HEADER_SIZE), 7), Middle(typeflag), Rear(), name, typeflag, size);
  }

  lemma {:induction false} ChksumParses(h: seq<Byte>, name: CString, typeflag: Byte, size: int)
    requires Made(h, name, typeflag, size)
    ensures Meaning(h[CHKSUM..CHKSUM + 8]) == Some(Sum(h, HEADER_SIZE))
  {
    MadeIsFilled(h, name, typeflag, size);
    Powers();
    ParseUndoesPrint(Sum(h, HEADER_SIZE), 7, h[CHKSUM..CHKSUM + 8]);
  }

  lemma {:induction false} SizeParses(h: seq<Byte>, name: CString, typeflag: Byte, size: int)
    requires Filled(h, name, typeflag, size)
    ensures Meaning(h[SIZE..SIZE + 12]) == Some(Unsigned(size))
  {
    Powers();
    ParseUndoesPrint(Unsigned(size), 11, h[SIZE..SIZE + 12]);
  }

  lemma {:induction false} NameParses(h: seq<Byte>, name: CString, typeflag: Byte, size: int)
    requires Filled(h, name, typeflag, size)
    ensures CStr(h[NAME..NAME + 100]) == name
  {
    CStrOfPadded(name, h[NAME..NAME + 100]);
  }

  lemma {:induction false} FilledParses(h: seq<Byte>, name: CString, typeflag: Byte, size: int)
    requires typeflag == REGULAR || typeflag == DIRECTORY
    requires Filled(h, name, typeflag, size) && Meaning(h[CHKSUM..CHKSUM + 8]) == Some(Sum(h, HEADER_SIZE))
    ensures Parse(h) ==
      if typeflag == DIRECTORY then Entry(Strip(name), DIRECTORY, 0)
      else if Unsigned(size) > INT_MAX then Failed("file too large")
      else Entry(Strip(name), REGULAR, Unsigned(size))
  {
    SizeParses(h, name, typeflag, size);
    NameParses(h, name, typeflag, size);
    assert h[NAME..NAME + 100][99] == 0;
    assert h[VERSION] != 0;
    assert h[MAGIC..MAGIC + |USTAR + [0]|] == USTAR + [0];
  }

  lemma {:induction false} MadeParses(h: seq<Byte>, name: CString, typeflag: Byte, size: int)
    requires typeflag == REGULAR || typeflag == DIRECTORY
    requires Made(h, name, typeflag, size)
    ensures Parse(h) ==
      if typeflag == DIRECTORY then Entry(Strip(name), DIRECTORY, 0)
      else if Unsigned(size) > INT_MAX then Failed("file too large")
      else Entry(Strip(name), REGULAR, Unsigned(size))
  {
    MadeIsFilled(h, name, typeflag, size);
    ChksumParses(h, name, typeflag, size);
    FilledParses(h, name, typeflag, size);
  }

  lemma {:induction false} UnsignedMeans(size: int)
    requires -0x8000_0000 <= size <= INT_MAX
    ensures Unsigned(size) == if size < 0 then size + WORD else size
  {
  }

  /** A made header parses to the stripped name, its type and, for a regular file, its size; a
      negative size is refused, and a directory's size is not kept. */
  lemma {:induction false} MadeHeaderParses(h: seq<Byte>, fileName: CString, typeflag: Byte, size: int)
    requires typeflag == REGULAR || typeflag == DIRECTORY
    requires |Strip(fileName)| <= 99 && Made(h, Strip(fileName), typeflag, size)
    requires -0x8000_0000 <= size <= INT_MAX
    ensures Parse(h) ==
      if typeflag == DIRECTORY then Entry(Strip(fileName), DIRECTORY, 0)
      else if size < 0 then Failed("file too large")
      else Entry(Strip(fileName), REGULAR, size)
  {
    StripTwice(fileName);
    MadeParses(h, Strip(fileName), typeflag, size);
    UnsignedMeans(size);
  }

  /** So a header gives back what it was made from exactly when the size is that of a regular file,
      or the empty size of a directory. */
  lemma {:induction false} RoundTrip(h: seq<Byte>, fileName: CString, typeflag: Byte, size: int)
    requires typeflag == REGULAR || typeflag == DIRECTORY
    requires |Strip(fileName)| <= 99 && Made(h, Strip(fileName), typeflag, size)
    requires -0x8000_0000 <= size <= INT_MAX
    ensures (size >= 0 && Parse(h) == Entry(Strip(fileName), typeflag, size)) <==>
      (if typeflag == REGULAR then size >= 0 else size == 0)
  {
    MadeHeaderParses(h, fileName, typeflag, size);
  }

  /** An entry read from any header at all, written to a new header and read again, is the same. */
  lemma {:induction false} ParseMakeParse(h: seq<Byte>, g: seq<Byte>)
    requires |h| == HEADER_SIZE && Parse(h).Entry?
    requires Made(g, Strip(Parse(h).name), Parse(h).typeflag, Parse(h).size)
    ensures Parse(g) == Parse(h)
  {
    ParsedIsBounded(h);
    StripTwice(CStr(h[NAME..NAME + 100]));
    MadeHeaderParses(g, Parse(h).name, Parse(h).typeflag, Parse(h).size);
  }
}
