/** The page of arguments and environment of a process: it is filled in a kernel buffer, copied to
    its final address, and its pointers are then moved from the one address to the other.

    The page starts with argc, then one pointer for every argument string and every environment
    string, a NULL pointer, and the strings themselves in the same order. */
module ArgsPage {
  import opened Common

  /** sizeof(int) and sizeof(char *) */
  const WORD: nat := 4
  const ADDRESSES: nat := 0x1_0000_0000

  datatype Errno = NoError | EINVAL | ENOMEM

  /** A C string without its terminator. */
  ghost predicate CString(s: seq<byte>) {
    0 !in s
  }

  ghost predicate CStrings(strs: seq<seq<byte>>) {
    forall s :: s in strs ==> CString(s)
  }

  // ----- little-endian words -----

  function Word(b: seq<byte>, p: int): (w: int)
    requires 0 <= p && p + 4 <= |b|
    ensures 0 <= w < ADDRESSES
  {
    var b0: int, b1: int, b2: int, b3: int := b[p], b[p + 1], b[p + 2], b[p + 3];
    b0 + 0x100 * b1 + 0x1_0000 * b2 + 0x100_0000 * b3
  }

  function LittleEndian(w: int): (b: seq<byte>)
    requires 0 <= w < ADDRESSES
    ensures |b| == 4
  {
    [w % 0x100, w / 0x100 % 0x100, w / 0x100 / 0x100 % 0x100, w / 0x100 / 0x100 / 0x100]
  }

  function Overwrite(b: seq<byte>, p: nat, with: seq<byte>): (r: seq<byte>)
    requires p + |with| <= |b|
    ensures |r| == |b|
    ensures forall x :: 0 <= x < |b| ==> r[x] == if p <= x < p + |with| then with[x - p] else b[x]
  {
    b[..p] + with + b[p + |with|..]
  }

  lemma WordWritten(b: seq<byte>, p: nat, w: int)
    requires p + 4 <= |b| && 0 <= w < ADDRESSES
    ensures Word(Overwrite(b, p, LittleEndian(w)), p) == w
  {
  }

  // ----- layout -----

  /** The offset of pointer i; argc is before pointer 0. */
  function Slot(i: nat): nat {
    WORD + WORD * i
  }

  /** Where the strings start when there are n pointers and a NULL. */
  function Header(n: nat): nat {
    Slot(n + 1)
  }

  /** The offset of string i; Off(strs, |strs|) is the end of the encoding. */
  function Off(strs: seq<seq<byte>>, i: nat): nat
    requires i <= |strs|
  {
    if i == 0 then Header(|strs|) else Off(strs, i - 1) + |strs[i - 1]| + 1
  }

  function Total(strs: seq<seq<byte>>): nat {
    Off(strs, |strs|)
  }

  lemma {:induction false} OffMonotone(strs: seq<seq<byte>>, i: nat, j: nat)
    requires i <= j <= |strs|
    ensures Off(strs, i) <= Off(strs, j)
    ensures i < j ==> Off(strs, i) + |strs[i]| + 1 <= Off(strs, j)
    ensures Header(|strs|) <= Off(strs, i)
    decreases j
  {
    if i < j {
      OffMonotone(strs, i, j - 1);
    } else if i > 0 {
      OffMonotone(strs, i - 1, i - 1);
    }
  }

  ghost predicate StringIn(b: seq<byte>, p: nat, s: seq<byte>) {
    && p + |s| < |b|
    && b[p + |s|] == 0
    && forall x :: 0 <= x < |s| ==> b[p + x] == s[x]
  }

  /** Pointer i and string i are in place, for a buffer at address `base`. */
  ghost predicate Placed(b: seq<byte>, base: int, strs: seq<seq<byte>>, i: nat)
    requires i < |strs|
  {
    && Slot(i) + 4 <= |b|
    && Word(b, Slot(i)) == base + Off(strs, i)
    && StringIn(b, Off(strs, i), strs[i])
  }

  /** The first k strings are placed, and everything else of the page is still zero. */
  ghost predicate Laid(b: seq<byte>, base: int, argc: int, strs: seq<seq<byte>>, k: nat) {
    && k <= |strs|
    && |b| >= PAGE_SIZE && |b| >= Total(strs)
    && Word(b, 0) == argc
    && (forall i: nat :: i < k ==> Placed(b, base, strs, i))
    && (forall x :: Slot(k) <= x < Header(|strs|) && x < PAGE_SIZE ==> b[x] == 0)
    && (forall x :: Off(strs, k) <= x < PAGE_SIZE ==> b[x] == 0)
  }

  /** A complete page: argc, the pointers, NULL, the strings, and zeros. */
  ghost predicate Encoded(b: seq<byte>, base: int, argc: int, strs: seq<seq<byte>>) {
    && |b| == PAGE_SIZE && Total(strs) <= PAGE_SIZE
    && Word(b, 0) == argc
    && (forall i: nat :: i < |strs| ==> Placed(b, base, strs, i))
    && (OffMonotone(strs, 0, |strs|); Word(b, Slot(|strs|)) == 0)
    && (forall x :: Total(strs) <= x < PAGE_SIZE ==> b[x] == 0)
  }

  // ----- the decoder -----

  /** The bytes up to the next zero; None when the page ends first. */
  function StringAt(b: seq<byte>, p: int): Option<seq<byte>>
    decreases |b| - p
  {
    if p < 0 || p >= |b| then None
    else if b[p] == 0 then Some([])
    else
      var rest := StringAt(b, p + 1);
      if rest.None? then None else Some([b[p]] + rest.value)
  }

  function Cons(s: Option<seq<byte>>, rest: Option<seq<seq<byte>>>): Option<seq<seq<byte>>> {
    if s.None? || rest.None? then None else Some([s.value] + rest.value)
  }

  /** The strings of n pointers from offset p on. */
  function DecodeArgs(b: seq<byte>, base: int, p: nat, n: nat): Option<seq<seq<byte>>>
    requires p + 4 * n <= |b|
    decreases n
  {
    if n == 0 then Some([]) else Cons(StringAt(b, Word(b, p) - base), DecodeArgs(b, base, p + 4, n - 1))
  }

  /** The strings of the pointers from offset p on, up to NULL. */
  function DecodeEnv(b: seq<byte>, base: int, p: nat): Option<seq<seq<byte>>>
    decreases |b| - p
  {
    if p + 4 > |b| then None
    else if Word(b, p) == 0 then Some([])
    else Cons(StringAt(b, Word(b, p) - base), DecodeEnv(b, base, p + 4))
  }

  datatype Args = Args(argv: seq<seq<byte>>, env: seq<seq<byte>>)

  /** What a program reads from the page at address `base`; None when argc, a pointer table or a
      string leaves the page. */
  function Decode(b: seq<byte>, base: int): Option<Args>
    requires |b| >= 4
  {
    var argc := Word(b, 0);
    if 4 + 4 * argc > |b| then None
    else
      var argv, env := DecodeArgs(b, base, 4, argc), DecodeEnv(b, base, 4 + 4 * argc);
      if argv.None? || env.None? then None else Some(Args(argv.value, env.value))
  }

  lemma {:induction false} StringAtIs(b: seq<byte>, p: nat, s: seq<byte>)
    requires StringIn(b, p, s) && CString(s)
    ensures StringAt(b, p) == Some(s)
    decreases |s|
  {
    if s != [] {
      assert b[p + 0] == s[0];
      assert forall x {:trigger s[1..][x]} :: 0 <= x < |s[1..]| ==> s[1..][x] == s[x + 1] == b[p + (x + 1)];
      StringAtIs(b, p + 1, s[1..]);
      assert s == [s[0]] + s[1..];
    }
  }

  lemma {:induction false} StringCut(b: seq<byte>, p: nat)
    requires forall x :: p <= x < |b| ==> b[x] != 0
    ensures StringAt(b, p) == None
    decreases |b| - p
  {
    if p < |b| {
      StringCut(b, p + 1);
    }
  }

  lemma {:induction false} DecodeArgsIs(b: seq<byte>, base: int, argc: nat, strs: seq<seq<byte>>, i: nat)
    requires Encoded(b, base, argc, strs) && CStrings(strs) && i <= argc <= |strs|
    ensures Slot(i) + 4 * (argc - i) <= |b|
    ensures DecodeArgs(b, base, Slot(i), argc - i) == Some(strs[i..argc])
    decreases argc - i
  {
    EncodedNull(b, base, argc, strs);
    if i < argc {
      PlacedString(b, base, argc, strs, i);
      DecodeArgsIs(b, base, argc, strs, i + 1);
      FirstOf(strs, i, argc);
    } else {
      assert strs[i..argc] == [];
    }
  }

  lemma FirstOf(strs: seq<seq<byte>>, i: nat, j: nat)
    requires i < j <= |strs|
    ensures strs[i..j] == [strs[i]] + strs[i + 1..j]
  {
  }

  lemma PlacedString(b: seq<byte>, base: int, argc: int, strs: seq<seq<byte>>, i: nat)
    requires Encoded(b, base, argc, strs) && CStrings(strs) && i < |strs|
    ensures Slot(i) + 4 <= |b| && StringAt(b, Word(b, Slot(i)) - base) == Some(strs[i])
    ensures Word(b, Slot(i)) > base
  {
    assert Placed(b, base, strs, i);
    OffMonotone(strs, i, i);
    StringAtIs(b, Off(strs, i), strs[i]);
  }

  lemma {:induction false} DecodeEnvIs(b: seq<byte>, base: int, argc: int, strs: seq<seq<byte>>, i: nat)
    requires Encoded(b, base, argc, strs) && CStrings(strs) && i <= |strs| && base > 0
    ensures DecodeEnv(b, base, Slot(i)) == Some(strs[i..])
    decreases |strs| - i
  {
    EncodedNull(b, base, argc, strs);
    if i < |strs| {
      PlacedString(b, base, argc, strs, i);
      DecodeEnvIs(b, base, argc, strs, i + 1);
      assert strs[i..] == [strs[i]] + strs[i + 1..];
    } else {
      assert strs[i..] == [];
    }
  }

  lemma EncodedNull(b: seq<byte>, base: int, argc: int, strs: seq<seq<byte>>)
    requires Encoded(b, base, argc, strs)
    ensures Slot(|strs|) + 4 <= |b| && Word(b, Slot(|strs|)) == 0
  {
    OffMonotone(strs, 0, |strs|);
  }

  /** Decoding is the inverse of the encoding. */
  lemma {:induction false} DecodeEncoded(b: seq<byte>, base: int, argv: seq<seq<byte>>, env: seq<seq<byte>>)
    requires Encoded(b, base, |argv|, argv + env) && CStrings(argv + env) && base > 0
    ensures Decode(b, base) == Some(Args(argv, env))
  {
    DecodeArgsIs(b, base, |argv|, argv + env, 0);
    DecodeEnvIs(b, base, |argv|, argv + env, |argv|);
    assert (argv + env)[0..|argv|] == argv && (argv + env)[|argv|..] == env;
  }

  /** Every pointer of the page points into the page, at a string that ends in the page. */
  lemma {:induction false} PointersInPage(b: seq<byte>, base: int, argc: int, strs: seq<seq<byte>>, i: nat)
    requires Encoded(b, base, argc, strs) && i < |strs|
    ensures Slot(i) + 4 <= Header(|strs|) <= PAGE_SIZE
    ensures Header(|strs|) <= Word(b, Slot(i)) - base
    ensures Word(b, Slot(i)) - base + |strs[i]| < PAGE_SIZE
    ensures b[Word(b, Slot(i)) - base..][..|strs[i]| + 1] == strs[i] + [0]
  {
    assert Placed(b, base, strs, i);
    OffMonotone(strs, i, |strs|);
  }

  // ----- placing one string -----

  lemma {:induction false} PlacedFrame(b: seq<byte>, b2: seq<byte>, base: int, strs: seq<seq<byte>>, i: nat)
    requires i < |strs| && Placed(b, base, strs, i) && |b2| == |b|
    requires forall x :: Slot(i) <= x < Slot(i) + 4 ==> b2[x] == b[x]
    requires forall x :: Off(strs, i) <= x <= Off(strs, i) + |strs[i]| ==> b2[x] == b[x]
    ensures Placed(b2, base, strs, i)
  {
    assert Word(b2, Slot(i)) == Word(b, Slot(i));
  }

  /** Pointer k and string k, written one after the other. */
  ghost function PlacedAt(b: seq<byte>, base: int, strs: seq<seq<byte>>, k: nat): (r: seq<byte>)
    requires k < |strs| && Slot(k) + 4 <= |b| && Off(strs, k) + |strs[k]| < |b|
    requires 0 <= base && base + Off(strs, k) < ADDRESSES
    ensures |r| == |b|
  {
    Overwrite(Overwrite(b, Slot(k), LittleEndian(base + Off(strs, k))), Off(strs, k), strs[k] + [0])
  }

  lemma {:induction false} PlaceRoom(b: seq<byte>, base: int, argc: int, strs: seq<seq<byte>>, k: nat)
    requires k < |strs| && Total(strs) <= |b|
    ensures Slot(k) + 4 <= Header(|strs|) <= Off(strs, k)
    ensures Off(strs, k) + |strs[k]| + 1 == Off(strs, k + 1) <= Total(strs)
  {
    OffMonotone(strs, k, |strs|);
    OffMonotone(strs, k + 1, |strs|);
  }

  lemma {:induction false} PlaceNew(b: seq<byte>, base: int, argc: int, strs: seq<seq<byte>>, k: nat)
    requires k < |strs| && Total(strs) <= |b|
    requires 0 <= base && base + Total(strs) <= ADDRESSES
    requires Slot(k) + 4 <= Header(|strs|) <= Off(strs, k) && Off(strs, k) + |strs[k]| < Total(strs)
    ensures Placed(PlacedAt(b, base, strs, k), base, strs, k)
  {
  }

  lemma PlaceZeros(b: seq<byte>, base: int, argc: int, strs: seq<seq<byte>>, k: nat)
    requires Laid(b, base, argc, strs, k) && k < |strs|
    requires 0 <= base && base + Total(strs) <= ADDRESSES
    requires Slot(k) + 4 <= Header(|strs|) <= Off(strs, k)
    requires Off(strs, k) + |strs[k]| + 1 == Off(strs, k + 1) <= Total(strs)
    ensures var b2 := PlacedAt(b, base, strs, k);
            && Word(b2, 0) == argc
            && (forall x :: Slot(k + 1) <= x < Header(|strs|) && x < PAGE_SIZE ==> b2[x] == 0)
            && (forall x :: Off(strs, k + 1) <= x < PAGE_SIZE ==> b2[x] == 0)
  {
    assert Word(PlacedAt(b, base, strs, k), 0) == Word(b, 0);
  }

  /** Placing string k clobbers no pointer and no earlier string. */
  lemma {:induction false} PlaceKeeps(b: seq<byte>, base: int, argc: int, strs: seq<seq<byte>>, k: nat)
    requires Laid(b, base, argc, strs, k) && k < |strs|
    requires 0 <= base && base + Total(strs) <= ADDRESSES
    requires Slot(k) + 4 <= Header(|strs|) <= Off(strs, k)
    requires Off(strs, k) + |strs[k]| + 1 == Off(strs, k + 1) <= Total(strs)
    ensures Laid(PlacedAt(b, base, strs, k), base, argc, strs, k + 1)
  {
    var b2 := PlacedAt(b, base, strs, k);
    PlaceNew(b, base, argc, strs, k);
    PlaceZeros(b, base, argc, strs, k);
    forall i: nat | i < k
      ensures Placed(b2, base, strs, i)
    {
      OffMonotone(strs, i, k);
      assert Placed(b, base, strs, i);
      PlacedFrame(b, b2, base, strs, i);
    }
  }

  /** After argc and the NULL of the pointer table are written, nothing is placed yet. */
  lemma {:induction false} LaidAtFirst(b: seq<byte>, base: int, argc: int, strs: seq<seq<byte>>)
    requires |b| >= PAGE_SIZE && |b| >= Total(strs) && Word(b, 0) == argc
    requires forall x :: 4 <= x < PAGE_SIZE ==> b[x] == 0
    ensures Laid(b, base, argc, strs, 0)
  {
  }

  lemma {:induction false} LaidIsEncoded(b: seq<byte>, base: int, argc: int, strs: seq<seq<byte>>)
    requires Laid(b, base, argc, strs, |strs|) && |b| == PAGE_SIZE
    ensures Encoded(b, base, argc, strs)
  {
    OffMonotone(strs, 0, |strs|);
    assert Slot(|strs|) + 4 == Header(|strs|);
  }

  // ----- the code -----

  method WriteWord(buf: array<byte>, p: nat, w: int)
    requires p + 4 <= buf.Length && 0 <= w < ADDRESSES
    modifies buf
    ensures buf[..] == Overwrite(old(buf[..]), p, LittleEndian(w))
  {
    var le := LittleEndian(w);
    buf[p], buf[p + 1], buf[p + 2], buf[p + 3] := le[0], le[1], le[2], le[3];
    assert buf[..] == Overwrite(old(buf[..]), p, le);
  }

  method StrCpy(buf: array<byte>, p: nat, s: seq<byte>)
    requires p + |s| < buf.Length
    modifies buf
    ensures buf[..] == Overwrite(old(buf[..]), p, s + [0])
  {
    for x := 0 to |s|
      invariant forall y :: 0 <= y < buf.Length ==> buf[y] == if p <= y < p + x then s[y - p] else old(buf[y])
    {
      buf[p + x] := s[x];
    }
    buf[p + |s|] := 0;
    assert buf[..] == Overwrite(old(buf[..]), p, s + [0]);
  }

  method MemSetZero(buf: array<byte>, n: nat)
    requires n <= buf.Length
    modifies buf
    ensures forall y :: 0 <= y < n ==> buf[y] == 0
  {
    for x := 0 to n
      invariant forall y :: 0 <= y < x ==> buf[y] == 0
    {
      buf[x] := 0;
    }
  }

  /** The strings that the page will hold: the process name stands in for missing arguments. */
  function ArgStrings(argv: seq<seq<byte>>, name: seq<byte>): seq<seq<byte>> {
    if argv == [] then [name] else argv
  }

  /** The size check follows every argument string and every environment string, but not the process
      name put in for missing arguments. */
  ghost predicate Overflows(argv: seq<seq<byte>>, env: seq<seq<byte>>, name: seq<byte>) {
    (argv != [] || env != []) && Total(ArgStrings(argv, name) + env) > PAGE_SIZE
  }

  /** A process name that does not fit. */
  predicate NameTooLong(argv: seq<seq<byte>>, env: seq<seq<byte>>, name: seq<byte>) {
    argv == [] && env == [] && |name| > PAGE_SIZE - 13
  }

  /** The check misses exactly one family: no arguments, no environment, and a process name that
      does not fit. */
  lemma {:induction false} CheckMisses(argv: seq<seq<byte>>, env: seq<seq<byte>>, name: seq<byte>)
    ensures !Overflows(argv, env, name) && Total(ArgStrings(argv, name) + env) > PAGE_SIZE
            <==> NameTooLong(argv, env, name)
  {
    if argv == [] && env == [] {
      assert ArgStrings(argv, name) + env == [name];
      assert Off([name], 1) == Off([name], 0) + |name| + 1;
    }
  }

  /** Copies string k and its pointer; `slot` and `str` are the advancing pointers of the code. */
  method PlaceString(buf: array<byte>, base: nat, slot: nat, str: nat, ghost argc: int,
                     ghost strs: seq<seq<byte>>, ghost k: nat, s: seq<byte>) returns (next: nat)
    requires k < |strs| && s == strs[k] && slot == Slot(k) && str == Off(strs, k)
    requires Laid(buf[..], base, argc, strs, k) && base + Total(strs) <= ADDRESSES
    modifies buf
    ensures Laid(buf[..], base, argc, strs, k + 1) && next == Off(strs, k + 1)
  {
    ghost var b := buf[..];
    PlaceRoom(b, base, argc, strs, k);
    PlaceKeeps(b, base, argc, strs, k);
    WriteWord(buf, slot, base + str);
    StrCpy(buf, str, s);
    assert buf[..] == PlacedAt(b, base, strs, k);
    next := str + |s| + 1;
  }

  /** argc, the room for the pointers, and the NULL that ends them; returns where the strings start. */
  method WriteHeader(buf: array<byte>, ghost base: int, argc: nat, envp: Option<seq<seq<byte>>>,
                     ghost strs: seq<seq<byte>>) returns (p: nat)
    requires |strs| == (if argc == 0 then 1 else argc) + if envp.Some? then |envp.value| else 0
    requires buf.Length >= PAGE_SIZE && Total(strs) <= buf.Length && Total(strs) <= ADDRESSES
    requires forall x :: 0 <= x < PAGE_SIZE ==> buf[x] == 0
    modifies buf
    ensures Laid(buf[..], base, if argc == 0 then 1 else argc, strs, 0) && p == Off(strs, 0)
  {
    OffMonotone(strs, 0, |strs|);
    var n := if argc == 0 then 1 else argc;
    WriteWord(buf, 0, n);
    WordWritten(old(buf[..]), 0, n);
    ghost var b1 := buf[..];
    p := WORD;
    if argc == 0 {
      p := p + WORD;
    } else {
      p := p + WORD * argc;
    }
    if envp.None? {
      WriteWord(buf, p, 0);
      assert Word(buf[..], 0) == Word(b1, 0);
      p := p + WORD;
    } else {
      var i, more := 0, true;
      while more
        invariant i <= |envp.value| + 1 && p == Slot(n) + WORD * i
        invariant more <==> i <= |envp.value|
        decreases |envp.value| + 1 - i
      {
        p := p + WORD;
        more := i < |envp.value|;
        i := i + 1;
      }
    }
    LaidAtFirst(buf[..], base, n, strs);
  }

  /** The argument strings; without arguments, the process name, whose size is not checked. */
  method PlaceArgs(buf: array<byte>, base: nat, argc: nat, argv: seq<seq<byte>>, name: seq<byte>,
                   start: nat, ghost strs: seq<seq<byte>>) returns (str: nat, tooLong: bool)
    requires |argv| == argc && ArgStrings(argv, name) <= strs && base + Total(strs) <= ADDRESSES
    requires Laid(buf[..], base, |ArgStrings(argv, name)|, strs, 0) && start == Off(strs, 0)
    modifies buf
    ensures tooLong <==> argc > 0 && Off(strs, |ArgStrings(argv, name)|) > PAGE_SIZE
    ensures !tooLong ==>
              && Laid(buf[..], base, |ArgStrings(argv, name)|, strs, |ArgStrings(argv, name)|)
              && str == Off(strs, |ArgStrings(argv, name)|)
  {
    str := start;
    if argc == 0 {
      str := PlaceString(buf, base, WORD, str, 1, strs, 0, name);
    }
    for i := 0 to argc
      invariant argc > 0 ==> Laid(buf[..], base, argc, strs, i) && str == Off(strs, i)
      invariant argc == 0 ==> Laid(buf[..], base, 1, strs, 1) && str == Off(strs, 1)
      invariant i > 0 ==> str <= PAGE_SIZE
    {
      str := PlaceString(buf, base, WORD + WORD * i, str, argc, strs, i, argv[i]);
      if str > PAGE_SIZE {
        OffMonotone(strs, i + 1, argc);
        return str, true;
      }
    }
    return str, false;
  }

  /** The environment strings. The place of their pointers is computed from the argc in the buffer. */
  method PlaceEnv(buf: array<byte>, base: nat, env: seq<seq<byte>>, start: nat,
                  ghost n: nat, ghost strs: seq<seq<byte>>) returns (tooLong: bool)
    requires n + |env| == |strs| && strs[n..] == env && base + Total(strs) <= ADDRESSES
    requires Laid(buf[..], base, n, strs, n) && start == Off(strs, n)
    modifies buf
    ensures tooLong <==> env != [] && Total(strs) > PAGE_SIZE
    ensures !tooLong ==> Laid(buf[..], base, n, strs, |strs|)
  {
    var table := WORD + WORD * Word(buf[..], 0);
    var str := start;
    var i := 0;
    ghost var k := n;
    while i < |env|
      invariant k == n + i <= |strs| && Laid(buf[..], base, n, strs, k) && str == Off(strs, k)
      invariant i > 0 ==> str <= PAGE_SIZE
    {
      str := PlaceString(buf, base, table + WORD * i, str, n, strs, k, env[i]);
      i, k := i + 1, k + 1;
      if str > PAGE_SIZE {
        OffMonotone(strs, k, |strs|);
        return true;
      }
    }
    return false;
  }

  function OrEmpty(strs: Option<seq<seq<byte>>>): seq<seq<byte>> {
    if strs.Some? then strs.value else []
  }

  /** A buffer that is complete for the address `from`.  It is longer than a page only for a process
      name that is too long. */
  ghost predicate Prepared(b: seq<byte>, from: int, args: seq<seq<byte>>, env: seq<seq<byte>>) {
    && Laid(b, from, |args|, args + env, |args + env|)
    && if Total(args + env) <= PAGE_SIZE then |b| == PAGE_SIZE else |args| == 1 && env == []
  }

  /** The bytes of the strings with their terminators. */
  function Bytes(strs: seq<seq<byte>>): nat {
    if strs == [] then 0 else Bytes(strs[..|strs| - 1]) + |strs[|strs| - 1]| + 1
  }

  /** argc, a pointer for every string, NULL, and the strings. */
  function EncodedSize(argc: nat, argv: Option<seq<seq<byte>>>, envp: Option<seq<seq<byte>>>, name: seq<byte>): nat {
    var args, env := if argc == 0 then [name] else OrEmpty(argv), OrEmpty(envp);
    4 + 4 * (|args| + |env| + 1) + Bytes(args) + Bytes(env)
  }

  lemma {:induction false} OffIs(strs: seq<seq<byte>>, i: nat)
    requires i <= |strs|
    ensures Off(strs, i) == 4 + 4 * (|strs| + 1) + Bytes(strs[..i])
  {
    if i > 0 {
      OffIs(strs, i - 1);
      assert strs[..i][..i - 1] == strs[..i - 1];
    }
  }

  lemma {:induction false} BytesConcat(a: seq<seq<byte>>, b: seq<seq<byte>>)
    ensures Bytes(a + b) == Bytes(a) + Bytes(b)
  {
    if b == [] {
      assert a + b == a;
    } else {
      BytesConcat(a, b[..|b| - 1]);
      assert (a + b)[..|a + b| - 1] == a + b[..|b| - 1];
    }
  }

  lemma TotalIs(argc: nat, argv: Option<seq<seq<byte>>>, envp: Option<seq<seq<byte>>>, name: seq<byte>)
    requires argv.Some? ==> |argv.value| == argc
    requires argc == 0 || argv.Some?
    ensures Total(ArgStrings(OrEmpty(argv), name) + OrEmpty(envp)) == EncodedSize(argc, argv, envp, name)
  {
    var strs := ArgStrings(OrEmpty(argv), name) + OrEmpty(envp);
    OffIs(strs, |strs|);
    assert strs[..|strs|] == strs;
    BytesConcat(ArgStrings(OrEmpty(argv), name), OrEmpty(envp));
  }

  /** argv and envp are NULL or hold argc strings, and strings up to NULL.  The buffer is at address
      `base`; it is as long as all that is written to it, because the code copies a string before it
      checks the size, but only the page is cleared.  Null stands for NULL with an errno. */
  method PreserveArgsAndEnv(argc: nat, argv: Option<seq<seq<byte>>>, envp: Option<seq<seq<byte>>>,
                            name: seq<byte>, base: nat) returns (args: array?<byte>, errno: Errno)
    requires argv.Some? ==> |argv.value| == argc
    requires 0 < base && base + PAGE_SIZE <= ADDRESSES
    requires base + Total(ArgStrings(OrEmpty(argv), name) + OrEmpty(envp)) <= ADDRESSES
    ensures args != null ==> fresh(args) && args.Length >= PAGE_SIZE
    ensures argc > 0 && argv.None? ==> args == null && errno == EINVAL
    ensures argc == 0 || argv.Some? ==>
              && (args == null <==> Overflows(OrEmpty(argv), OrEmpty(envp), name))
              && (args == null <==> (argc > 0 || OrEmpty(envp) != [])
                                    && EncodedSize(argc, argv, envp, name) > 4096)
              && errno == (if args == null then ENOMEM else NoError)
    ensures args != null ==> Prepared(args[..], base, ArgStrings(OrEmpty(argv), name), OrEmpty(envp))
  {
    if argc > 0 && argv.None? {
      return null, EINVAL;
    }
    TotalIs(argc, argv, envp, name);
    var strs := ArgStrings(OrEmpty(argv), name) + OrEmpty(envp);
    ghost var n := |ArgStrings(OrEmpty(argv), name)|;
    var buf := new byte[if Total(strs) > PAGE_SIZE then Total(strs) else PAGE_SIZE];
    MemSetZero(buf, PAGE_SIZE);
    var p := WriteHeader(buf, base, argc, envp, strs);
    var str, tooLong := PlaceArgs(buf, base, argc, OrEmpty(argv), name, p, strs);
    OffMonotone(strs, n, |strs|);
    if tooLong {
      return null, ENOMEM;
    }
    if envp.Some? {
      tooLong := PlaceEnv(buf, base, envp.value, str, n, strs);
      if tooLong {
        return null, ENOMEM;
      }
    }
    CheckMisses(OrEmpty(argv), OrEmpty(envp), name);
    return buf, NoError;
  }

  // ----- relocation -----

  /** The page with the first k pointers moved to address `base`. */
  ghost predicate Moved(b: seq<byte>, b0: seq<byte>, from: int, base: int, strs: seq<seq<byte>>, k: nat) {
    && |b| == |b0| == PAGE_SIZE && k <= |strs| && Header(|strs|) <= PAGE_SIZE
    && (forall i: nat {:trigger Slot(i)} :: i < |strs| ==> Word(b, Slot(i)) == (if i < k then base else from) + Off(strs, i))
    && (forall x :: 0 <= x < 4 || Slot(|strs|) <= x < PAGE_SIZE ==> b[x] == b0[x])
  }

  lemma {:induction false} MoveOne(b: seq<byte>, b0: seq<byte>, from: int, base: int, strs: seq<seq<byte>>, k: nat)
    requires Moved(b, b0, from, base, strs, k) && k < |strs|
    requires 0 <= base && base + Off(strs, k) < ADDRESSES
    ensures Moved(Overwrite(b, Slot(k), LittleEndian(base + Off(strs, k))), b0, from, base, strs, k + 1)
  {
  }

  /** A pointer table in a page, to strings that all start in the page. */
  ghost predicate Pointers(b: seq<byte>, base: int, argc: int, strs: seq<seq<byte>>) {
    && |b| == PAGE_SIZE && Header(|strs|) <= PAGE_SIZE && 0 <= argc <= |strs|
    && Word(b, 0) == argc && Word(b, Slot(|strs|)) == 0
    && forall i: nat {:trigger Slot(i)} :: i < |strs| ==>
         Off(strs, i) < PAGE_SIZE && Word(b, Slot(i)) == base + Off(strs, i)
  }

  lemma EncodedPointers(b: seq<byte>, base: int, argc: int, strs: seq<seq<byte>>)
    requires Encoded(b, base, argc, strs) && 0 <= argc <= |strs|
    ensures Pointers(b, base, argc, strs)
  {
    EncodedNull(b, base, argc, strs);
    OffMonotone(strs, 0, |strs|);
    forall i: nat | i < |strs|
      ensures Off(strs, i) < PAGE_SIZE && Word(b, Slot(i)) == base + Off(strs, i)
    {
      assert Placed(b, base, strs, i);
    }
  }

  lemma PreparedPointers(b: seq<byte>, from: int, args: seq<seq<byte>>, env: seq<seq<byte>>)
    requires Prepared(b, from, args, env)
    ensures |b| >= PAGE_SIZE && Pointers(b[..PAGE_SIZE], from, |args|, args + env)
  {
    if Total(args + env) <= PAGE_SIZE {
      LaidIsEncoded(b, from, |args|, args + env);
      EncodedPointers(b, from, |args|, args + env);
      assert b[..PAGE_SIZE] == b;
    } else {
      assert args + env == args;
      assert Placed(b, from, args, 0);
    }
  }

  lemma {:induction false} MovedEncoded(b: seq<byte>, b0: seq<byte>, from: int, base: int, argc: int, strs: seq<seq<byte>>)
    requires Encoded(b0, from, argc, strs) && Moved(b, b0, from, base, strs, |strs|)
    ensures Encoded(b, base, argc, strs)
  {
    OffMonotone(strs, 0, |strs|);
    assert Word(b, 0) == Word(b0, 0);
    assert Word(b, Slot(|strs|)) == Word(b0, Slot(|strs|));
    forall i: nat | i < |strs|
      ensures Placed(b, base, strs, i)
    {
      assert Placed(b0, from, strs, i);
      OffMonotone(strs, i, |strs|);
    }
  }

  /** Moves one pointer in place, by 32-bit pointer arithmetic. */
  method MovePointer(page: array<byte>, slot: nat, from: nat, base: nat,
                     ghost b0: seq<byte>, ghost strs: seq<seq<byte>>, ghost k: nat)
    requires k < |strs| && slot == Slot(k) && Moved(page[..], b0, from, base, strs, k)
    requires base + Off(strs, k) < ADDRESSES
    modifies page
    ensures Moved(page[..], b0, from, base, strs, k + 1)
  {
    MoveOne(page[..], b0, from, base, strs, k);
    var w := Word(page[..], slot);
    assert w == from + Off(strs, k);
    PointerShift(w, from, base, Off(strs, k));
    WriteWord(page, slot, (w - from + base) % ADDRESSES);
  }

  lemma PointerShift(w: int, from: int, base: int, off: int)
    requires w == from + off && 0 <= base + off < ADDRESSES
    ensures (w - from + base) % ADDRESSES == base + off
  {
    assert w - from + base == base + off;
  }

  /** What the relocated page says to the program: everything, or nothing when the process name is cut
      at the end of the page. */
  lemma MovedMeaning(page: seq<byte>, b: seq<byte>, from: int, base: int,
                     args: seq<seq<byte>>, env: seq<seq<byte>>)
    requires Prepared(b, from, args, env) && CStrings(args + env) && base > 0
    requires |b| >= PAGE_SIZE && Moved(page, b[..PAGE_SIZE], from, base, args + env, |args + env|)
    ensures Decode(page, base) == if Total(args + env) <= PAGE_SIZE then Some(Args(args, env)) else None
    ensures Total(args + env) <= PAGE_SIZE ==> Encoded(page, base, |args|, args + env)
  {
    if Total(args + env) <= PAGE_SIZE {
      LaidIsEncoded(b, from, |args|, args + env);
      assert b[..PAGE_SIZE] == b;
      MovedEncoded(page, b, from, base, |args|, args + env);
      DecodeEncoded(page, base, args, env);
    } else {
      assert args + env == args;
      NameCut(page, b, from, base, args);
    }
  }

  lemma NameCut(page: seq<byte>, b: seq<byte>, from: int, base: int, args: seq<seq<byte>>)
    requires |args| == 1 && CString(args[0]) && Total(args) > PAGE_SIZE && |b| >= PAGE_SIZE
    requires Laid(b, from, 1, args, 1) && Moved(page, b[..PAGE_SIZE], from, base, args, 1)
    ensures Decode(page, base) == None
  {
    assert Placed(b, from, args, 0);
    assert Word(page, Slot(0)) == base + Off(args, 0);
    assert Word(page, 0) == Word(b, 0) == 1;
    forall x | Off(args, 0) <= x < PAGE_SIZE
      ensures page[x] != 0
    {
      assert page[x] == b[x] == args[0][x - Off(args, 0)];
    }
    StringCut(page, Off(args, 0));
  }

  /** `page` is the mapped page at address `base`; `argsEnv` the buffer filled at address `from`, of
      which one page is copied. */
  method PostSetupImage(page: array<byte>, base: nat, argsEnv: array<byte>, from: nat,
                        ghost args: seq<seq<byte>>, ghost env: seq<seq<byte>>)
    requires page != argsEnv && page.Length == PAGE_SIZE && Prepared(argsEnv[..], from, args, env)
    requires 0 < from && 0 < base && base + PAGE_SIZE <= ADDRESSES && CStrings(args + env)
    modifies page
    ensures Total(args + env) <= PAGE_SIZE ==> Encoded(page[..], base, |args|, args + env)
    ensures Decode(page[..], base) == if Total(args + env) <= PAGE_SIZE then Some(Args(args, env)) else None
  {
    ghost var b := argsEnv[..];
    ghost var strs := args + env;
    PreparedPointers(b, from, args, env);
    forall x | 0 <= x < PAGE_SIZE {
      page[x] := argsEnv[x];
    }
    assert page[..] == b[..PAGE_SIZE];
    assert Moved(page[..], b[..PAGE_SIZE], from, base, strs, 0);
    var n := MoveArgs(page, base, from, |args|, b[..PAGE_SIZE], strs);
    MoveEnv(page, base, from, n, b[..PAGE_SIZE], strs);
    MovedMeaning(page[..], b, from, base, args, env);
  }

  /** The first relocation loop. */
  method MoveArgs(page: array<byte>, base: nat, from: nat, ghost argc: int,
                  ghost b0: seq<byte>, ghost strs: seq<seq<byte>>) returns (n: nat)
    requires Moved(page[..], b0, from, base, strs, 0) && Pointers(b0, from, argc, strs)
    requires base + PAGE_SIZE <= ADDRESSES
    modifies page
    ensures n == argc && Moved(page[..], b0, from, base, strs, n)
  {
    assert Word(page[..], 0) == Word(b0, 0);
    n := Word(page[..], 0);
    for i := 0 to n
      invariant Moved(page[..], b0, from, base, strs, i)
    {
      assert Slot(i) == WORD + WORD * i;
      MovePointer(page, WORD + WORD * i, from, base, b0, strs, i);
    }
  }

  /** The second relocation loop: from pointer n up to NULL. */
  method MoveEnv(page: array<byte>, base: nat, from: nat, n: nat,
                 ghost b0: seq<byte>, ghost strs: seq<seq<byte>>)
    requires Moved(page[..], b0, from, base, strs, n) && Pointers(b0, from, n, strs)
    requires 0 < from && base + PAGE_SIZE <= ADDRESSES
    modifies page
    ensures Moved(page[..], b0, from, base, strs, |strs|)
  {
    var table, i := WORD + n * WORD, 0;
    ghost var k := n;
    MovedNull(page[..], b0, from, base, strs, n);
    var more := NotNull(page, table, b0, from, base, strs, n);
    while more
      invariant table + WORD * i == Slot(k) && k <= |strs|
      invariant AtPointer(page[..], b0, from, base, strs, k)
      invariant more <==> k < |strs|
      decreases |strs| - k
    {
      MoveEnvPointer(page, base, from, table + WORD * i, n, b0, strs, k);
      i, k := i + 1, k + 1;
      more := NotNull(page, table + WORD * i, b0, from, base, strs, k);
    }
  }

  /** The test of the loop. */
  method NotNull(page: array<byte>, slot: nat, ghost b0: seq<byte>, ghost from: int, ghost base: int,
                 ghost strs: seq<seq<byte>>, ghost k: nat) returns (more: bool)
    requires slot == Slot(k) && AtPointer(page[..], b0, from, base, strs, k)
    ensures more <==> k < |strs|
  {
    return Word(page[..], slot) != 0;
  }

  method MoveEnvPointer(page: array<byte>, base: nat, from: nat, slot: nat, ghost argc: int,
                        ghost b0: seq<byte>, ghost strs: seq<seq<byte>>, ghost k: nat)
    requires k < |strs| && slot == Slot(k) && AtPointer(page[..], b0, from, base, strs, k)
    requires Pointers(b0, from, argc, strs) && 0 < from && base + PAGE_SIZE <= ADDRESSES
    modifies page
    ensures AtPointer(page[..], b0, from, base, strs, k + 1)
  {
    MovePointer(page, slot, from, base, b0, strs, k);
    MovedNull(page[..], b0, from, base, strs, k + 1);
  }

  /** k pointers are moved, and pointer k is NULL only when it is the one after the last. */
  ghost predicate AtPointer(b: seq<byte>, b0: seq<byte>, from: int, base: int, strs: seq<seq<byte>>, k: nat) {
    && Moved(b, b0, from, base, strs, k)
    && Slot(k) + 4 <= PAGE_SIZE
    && (Word(b, Slot(k)) == 0 <==> k == |strs|)
  }

  /** The walk over the environment pointers stops at the NULL slot and nowhere before. */
  lemma {:induction false} MovedNull(b: seq<byte>, b0: seq<byte>, from: int, base: int,
                                     strs: seq<seq<byte>>, k: nat)
    requires Moved(b, b0, from, base, strs, k) && 0 < from
    requires Slot(|strs|) + 4 <= PAGE_SIZE && Word(b0, Slot(|strs|)) == 0
    ensures AtPointer(b, b0, from, base, strs, k)
  {
  }

  /** Both halves: unless NULL was returned, the program finds in its page exactly its arguments (its
      name when there are none) and its environment, if and only if the name is not too long. */
  method SetupArgs(argc: nat, argv: Option<seq<seq<byte>>>, envp: Option<seq<seq<byte>>>,
                   name: seq<byte>, from: nat, base: nat) returns (page: array?<byte>, errno: Errno)
    requires argv.Some? ==> |argv.value| == argc
    requires 0 < from && from + PAGE_SIZE <= ADDRESSES && 0 < base && base + PAGE_SIZE <= ADDRESSES
    requires CStrings(OrEmpty(argv)) && CStrings(OrEmpty(envp)) && CString(name)
    requires from + Total(ArgStrings(OrEmpty(argv), name) + OrEmpty(envp)) <= ADDRESSES
    ensures argc > 0 && argv.None? ==> page == null && errno == EINVAL
    ensures argc == 0 || argv.Some? ==>
              (page == null <==> (argc > 0 || OrEmpty(envp) != []) && EncodedSize(argc, argv, envp, name) > 4096)
    ensures page != null ==>
              && page.Length == PAGE_SIZE
              && Decode(page[..], base) ==
                 if NameTooLong(OrEmpty(argv), OrEmpty(envp), name) then None
                 else Some(Args(if argc == 0 then [name] else OrEmpty(argv), OrEmpty(envp)))
  {
    var argsEnv: array?<byte>;
    argsEnv, errno := PreserveArgsAndEnv(argc, argv, envp, name, from);
    CheckMisses(OrEmpty(argv), OrEmpty(envp), name);
    if argsEnv == null {
      return null, errno;
    }
    page := new byte[PAGE_SIZE];
    PostSetupImage(page, base, argsEnv, from, ArgStrings(OrEmpty(argv), name), OrEmpty(envp));
  }

  // ----- as exec calls it -----

  /** What exec is given, the name of the process, and the address of the kernel buffer. */
  datatype ExecArgs = ExecArgs(argc: nat, argv: Option<seq<seq<byte>>>, envp: Option<seq<seq<byte>>>,
                               name: seq<byte>, buffer: nat) {
    function Strings(): Args { Args(ArgStrings(OrEmpty(argv), name), OrEmpty(envp)) }
  }

  ghost predicate Callable(c: ExecArgs) {
    && (c.argv.Some? ==> |c.argv.value| == c.argc)
    && 0 < c.buffer && c.buffer + PAGE_SIZE <= ADDRESSES
    && c.buffer + Total(c.Strings().argv + c.Strings().env) <= ADDRESSES
    && CStrings(OrEmpty(c.argv)) && CStrings(OrEmpty(c.envp)) && CString(c.name)
  }

  /** preserve_args_and_env answers NULL. */
  ghost predicate Refused(c: ExecArgs) {
    (c.argc > 0 && c.argv.None?) || Overflows(OrEmpty(c.argv), OrEmpty(c.envp), c.name)
  }

  /** What the argument page says after exec, if it said `before` before: nothing new if the arguments
      were refused, and everything else exactly. */
  ghost predicate PageAfterExec(page: seq<byte>, before: seq<byte>, base: int, c: ExecArgs) {
    && |page| == |before| == PAGE_SIZE
    && (Refused(c) ==> page == before)
    && (!Refused(c) ==>
         Decode(page, base) ==
         if NameTooLong(OrEmpty(c.argv), OrEmpty(c.envp), c.name) then None
         else Some(Args(if c.argc == 0 then [c.name] else OrEmpty(c.argv), OrEmpty(c.envp))))
  }

  /** The page holds the arguments exactly when they were not refused, and the name was not too long. */
  lemma PageIsRight(page: seq<byte>, before: seq<byte>, base: int, c: ExecArgs)
    requires Callable(c) && PageAfterExec(page, before, base, c) && Decode(before, base) != Some(c.Strings())
    ensures Decode(page, base) == Some(c.Strings()) <==>
            !Refused(c) && !NameTooLong(OrEmpty(c.argv), OrEmpty(c.envp), c.name)
  {
  }

  /** Where the buffer is; 0 when the arguments are refused. */
  method PreserveFor(c: ExecArgs) returns (argsEnv: array?<byte>, address: nat)
    requires Callable(c)
    ensures argsEnv == null <==> Refused(c)
    ensures address == if argsEnv == null then 0 else c.buffer
    ensures argsEnv != null ==>
              fresh(argsEnv) && Prepared(argsEnv[..], c.buffer, c.Strings().argv, c.Strings().env)
  {
    var errno;
    argsEnv, errno := PreserveArgsAndEnv(c.argc, c.argv, c.envp, c.name, c.buffer);
    address := if argsEnv == null then 0 else c.buffer;
  }

  /** The end of exec. */
  method FillArgsPage(page: array<byte>, base: nat, argsEnv: array?<byte>, ghost c: ExecArgs, address: nat)
    requires Callable(c) && (argsEnv == null <==> Refused(c)) && (argsEnv != null ==> address == c.buffer)
    requires argsEnv != null ==> argsEnv != page && Prepared(argsEnv[..], c.buffer, c.Strings().argv, c.Strings().env)
    requires page.Length == PAGE_SIZE && 0 < base && base + PAGE_SIZE <= ADDRESSES
    modifies page
    ensures PageAfterExec(page[..], old(page[..]), base, c)
  {
    if argsEnv != null {
      CheckMisses(OrEmpty(c.argv), OrEmpty(c.envp), c.name);
      PostSetupImage(page, base, argsEnv, address, c.Strings().argv, c.Strings().env);
    }
  }

  /** One argument as long as a page. */
  function Oversized(): ExecArgs {
    ExecArgs(1, Some([seq(PAGE_SIZE, _ => 1)]), None, [], PAGE_SIZE)
  }

  lemma OversizedIsRefused()
    ensures Callable(Oversized()) && Refused(Oversized())
  {
    var argv := OrEmpty(Oversized().argv);
    assert argv + [] == argv;
    assert Off(argv, 1) == Off(argv, 0) + |argv[0]| + 1;
  }
}
