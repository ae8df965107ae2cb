/** The initial user stack: argument strings, the pointer table below them, and the program entry that reads them back. */
module Arguments {
  import opened Base
  import opened Frames
  import opened Paging
  import opened AddressSpaces
  import opened UserMemory
  import opened Elf
  import opened ElfLoader

  const MAX_ARGC: int := 16
  const MAX_ARG_STRING: nat := 128

  /** A C string: its bytes before the terminating zero. */
  ghost predicate IsString(s: seq<nat>) {
    forall c :: c in s ==> 0 < c < 256
  }

  // ------------------------------------------------ where things go

  /** The address of the i-th string when they are laid down from the last to the first below `top`. */
  function Ptr(args: seq<seq<nat>>, top: int, i: nat): (p: int)
    requires i <= |args|
    ensures p <= top
    decreases |args| - i
  {
    if i == |args| then top else Ptr(args, top, i + 1) - (|args[i]| + 1)
  }

  function AlignDown4(p: int): (r: int)
    ensures r % 4 == 0 && p - 4 < r <= p
  {
    p - p % 4
  }

  /** The stack pointer the process starts with. */
  function InitialEsp(args: seq<seq<nat>>, top: int): int {
    AlignDown4(Ptr(args, top, 0)) - 4 * (|args| + 3)
  }

  /** argc, the argv pointers, the null that ends them and the null environment. */
  function StackTable(args: seq<seq<nat>>, top: int): seq<int> {
    [|args|] + PtrsFrom(args, top, 0) + [0, 0]
  }

  function PtrsFrom(args: seq<seq<nat>>, top: int, i: nat): (ps: seq<int>)
    requires i <= |args|
    ensures |ps| == |args| - i && forall k :: 0 <= k < |ps| ==> ps[k] == Ptr(args, top, i + k)
    decreases |args| - i
  {
    if i == |args| then [] else [Ptr(args, top, i)] + PtrsFrom(args, top, i + 1)
  }

  lemma {:induction false} PtrOrder(args: seq<seq<nat>>, top: int, i: nat, j: nat)
    requires i < j <= |args|
    ensures Ptr(args, top, i) + |args[i]| + 1 <= Ptr(args, top, j)
    decreases j - i
  {
    if i + 1 < j { PtrOrder(args, top, i + 1, j); }
  }

  lemma {:induction false} PtrBound(args: seq<seq<nat>>, top: int, i: nat)
    requires i <= |args| && forall j :: 0 <= j < |args| ==> |args[j]| < MAX_ARG_STRING
    ensures Ptr(args, top, i) >= top - MAX_ARG_STRING * (|args| - i)
    decreases |args| - i
  {
    if i < |args| { PtrBound(args, top, i + 1); }
  }

  /** The bytes the strings take, each with its zero. */
  function StringBytes(args: seq<seq<nat>>): nat {
    if args == [] then 0 else |args[0]| + 1 + StringBytes(args[1..])
  }

  lemma {:induction false} PtrIs(args: seq<seq<nat>>, top: int, i: nat)
    requires i <= |args|
    ensures Ptr(args, top, i) == top - StringBytes(args[i..])
    decreases |args| - i
  {
    if i < |args| {
      PtrIs(args, top, i + 1);
      assert args[i..][1..] == args[i + 1..];
    }
  }

  /** Where the stack pointer starts: below the strings, rounded down to a word, and below the words for argc, the argv
      pointers and the two nulls. */
  lemma EspIs(args: seq<seq<nat>>, top: nat)
    requires StringBytes(args) <= top
    ensures InitialEsp(args, top) == (top - StringBytes(args)) / 4 * 4 - 12 - 4 * |args|
  {
    PtrIs(args, top, 0);
    assert args[0..] == args;
  }

  /** On the 4096-byte stack of a loaded program all argument lists within the limits fit, with room to spare. */
  lemma ElfStackFits(args: seq<seq<nat>>)
    requires |args| <= 16 && forall j :: 0 <= j < |args| ==> |args[j]| < 128
    ensures InitialEsp(args, 0x7000_0000) >= 0x6FFF_F000 + 8
  {
    PtrBound(args, STACK_TOP, 0);
  }

  // ------------------------------------------------ words in memory

  function Bytes32(w: int): (b: seq<nat>)
    requires 0 <= w < U32
    ensures |b| == 4 && b[0] + 0x100 * b[1] + 0x1_0000 * b[2] + 0x100_0000 * b[3] == w
    ensures b[0] < 256 && b[1] < 256 && b[2] < 256 && b[3] < 256
  {
    var w1 := w / 0x100;
    var w2 := w1 / 0x100;
    [w % 0x100, w1 % 0x100, w2 % 0x100, w2 / 0x100]
  }

  predicate Words(ws: seq<int>) {
    forall k :: 0 <= k < |ws| ==> 0 <= ws[k] < U32
  }

  function WordBytes(ws: seq<int>): (b: seq<nat>)
    requires Words(ws)
    ensures |b| == 4 * |ws|
  {
    if ws == [] then [] else Bytes32(ws[0]) + WordBytes(ws[1..])
  }

  lemma {:induction false} WordBytesAt(ws: seq<int>, k: nat)
    requires Words(ws) && k < |ws|
    ensures WordBytes(ws)[4 * k..4 * k + 4] == Bytes32(ws[k])
    decreases k
  {
    var t := WordBytes(ws[1..]);
    if k > 0 {
      WordBytesAt(ws[1..], k - 1);
      assert WordBytes(ws)[4 * k..4 * k + 4] == t[4 * (k - 1)..4 * (k - 1) + 4];
    }
  }

  /** The 32-bit word user code reads at an address. */
  function WordAt(m: Machine, bytes: Bytes, sid: Sid, x: nat): nat {
    ByteAt(m, bytes, sid, x) + 0x100 * ByteAt(m, bytes, sid, x + 1)
    + 0x1_0000 * ByteAt(m, bytes, sid, x + 2) + 0x100_0000 * ByteAt(m, bytes, sid, x + 3)
  }

  /** The C string user code reads at an address. */
  ghost predicate StringAt(m: Machine, bytes: Bytes, sid: Sid, p: int, s: seq<nat>) {
    && p >= 0
    && (forall k: nat :: k < |s| ==> ByteAt(m, bytes, sid, p + k) == s[k])
    && ByteAt(m, bytes, sid, p + |s|) == 0
  }

  /** What the program entry finds: it passes the word at the stack pointer as argc and the address above it as argv. */
  ghost predicate EntrySees(m: Machine, bytes: Bytes, sid: Sid, esp: nat, args: seq<seq<nat>>) {
    && WordAt(m, bytes, sid, esp) == |args|
    && (forall i: nat :: i < |args| ==> StringAt(m, bytes, sid, WordAt(m, bytes, sid, esp + 4 + 4 * i), args[i]))
    && WordAt(m, bytes, sid, esp + 4 + 4 * |args|) == 0 && WordAt(m, bytes, sid, esp + 8 + 4 * |args|) == 0
  }

  /** No two lists are seen alike: what the entry sees determines the arguments. */
  lemma EntrySeesOne(m: Machine, bytes: Bytes, sid: Sid, esp: nat, a: seq<seq<nat>>, b: seq<seq<nat>>)
    requires EntrySees(m, bytes, sid, esp, a) && EntrySees(m, bytes, sid, esp, b)
    requires (forall s :: s in a ==> IsString(s)) && (forall s :: s in b ==> IsString(s))
    ensures a == b
  {
    forall i: nat | i < |a| ensures a[i] == b[i] {
      assert a[i] in a && b[i] in b;
      var p := WordAt(m, bytes, sid, esp + 4 + 4 * i);
      SameString(m, bytes, sid, p, a[i], b[i]);
    }
  }

  lemma SameString(m: Machine, bytes: Bytes, sid: Sid, p: int, s: seq<nat>, t: seq<nat>)
    requires StringAt(m, bytes, sid, p, s) && StringAt(m, bytes, sid, p, t) && IsString(s) && IsString(t)
    ensures s == t
  {
    NotLonger(m, bytes, sid, p, s, t);
    NotLonger(m, bytes, sid, p, t, s);
  }

  lemma NotLonger(m: Machine, bytes: Bytes, sid: Sid, p: int, s: seq<nat>, t: seq<nat>)
    requires StringAt(m, bytes, sid, p, s) && StringAt(m, bytes, sid, p, t) && IsString(t)
    ensures |t| <= |s|
  {
    if |s| < |t| { CharNotZero(m, bytes, sid, p, t, |s|); }
  }

  lemma CharNotZero(m: Machine, bytes: Bytes, sid: Sid, p: int, t: seq<nat>, k: nat)
    requires StringAt(m, bytes, sid, p, t) && IsString(t) && k < |t|
    ensures ByteAt(m, bytes, sid, p + k) != 0
  {
    assert t[k] in t;
  }

  // ------------------------------------------------ laying the stack down

  ghost predicate StackReady(m: Machine, sid: Sid, base: nat, top: nat) {
    base <= top <= USER_TOP && AllMapped(m, sid, base, top - base)
  }

  /** The strings stand where `Ptr` says. */
  ghost predicate Placed(m: Machine, bytes: Bytes, sid: Sid, args: seq<seq<nat>>, top: nat) {
    forall k: nat :: k < |args| ==> StringAt(m, bytes, sid, Ptr(args, top, k), args[k])
  }

  /** Only the process's own stack has changed. */
  ghost predicate OnlyStack(m: Machine, bytes: Bytes, bytes': Bytes, sid: Sid, base: nat, top: nat) {
    forall s: Sid, x: nat :: UserAddr(x) && !(s == sid && base <= x < top) ==> ByteAt(m, bytes', s, x) == ByteAt(m, bytes, s, x)
  }

  lemma OnlyStackMore(m: Machine, b: Bytes, b1: Bytes, b2: Bytes, sid: Sid, base: nat, top: nat, va: nat, data: seq<nat>)
    requires OnlyStack(m, b, b1, sid, base, top) && Stored(m, b1, b2, sid, va, data) && base <= va && va + |data| <= top
    ensures OnlyStack(m, b, b2, sid, base, top)
  {
  }

  lemma {:induction false} PtrCons(s: seq<nat>, args: seq<seq<nat>>, top: int, k: nat)
    requires k <= |args|
    ensures Ptr([s] + args, top, k + 1) == Ptr(args, top, k)
    decreases |args| - k
  {
    if k < |args| { PtrCons(s, args, top, k + 1); }
  }

  lemma StringStays(m: Machine, b: Bytes, b': Bytes, sid: Sid, base: nat, top: nat, va: nat, data: seq<nat>, p: int, s: seq<nat>)
    requires StackReady(m, sid, base, top) && Stored(m, b, b', sid, va, data) && StringAt(m, b, sid, p, s)
    requires base <= va && va + |data| <= p && p + |s| < top
    ensures StringAt(m, b', sid, p, s)
  {
    forall x: nat | p <= x <= p + |s| ensures ByteAt(m, b', sid, x) == ByteAt(m, b, sid, x) { assert UserAddr(x); }
  }

  lemma StringWritten(m: Machine, b: Bytes, b': Bytes, sid: Sid, base: nat, top: nat, va: nat, s: seq<nat>)
    requires StackReady(m, sid, base, top) && Stored(m, b, b', sid, va, s + [0]) && base <= va && va + |s| < top
    ensures StringAt(m, b', sid, va, s)
  {
    var data := s + [0];
    forall k: nat | k <= |s| ensures ByteAt(m, b', sid, va + k) == data[k] { assert UserAddr(va + k); }
    assert data[|s|] == 0 && forall k: nat :: k < |s| ==> data[k] == s[k];
    assert ByteAt(m, b', sid, va + |s|) == 0;
    forall k: nat | k < |s| ensures ByteAt(m, b', sid, va + k) == s[k] { assert ByteAt(m, b', sid, va + k) == data[k]; }
  }

  /** One more string below the others. */
  lemma PlacedCons(m: Machine, b: Bytes, b': Bytes, sid: Sid, base: nat, top: nat, s: seq<nat>, args: seq<seq<nat>>)
    requires StackReady(m, sid, base, top) && Placed(m, b, sid, args, top)
    requires base <= Ptr(args, top, 0) - |s| - 1 && Stored(m, b, b', sid, Ptr(args, top, 0) - |s| - 1, s + [0])
    ensures Placed(m, b', sid, [s] + args, top)
  {
    hide StackReady, Stored, StringAt, Ptr;
    var all := [s] + args;
    PtrHead(s, args, top);
    forall k: nat | k < |all| ensures StringAt(m, b', sid, Ptr(all, top, k), all[k]) {
      if k == 0 {
        StringWritten(m, b, b', sid, base, top, Ptr(all, top, 0), s);
      } else {
        PtrCons(s, args, top, k - 1);
        PtrInside(args, top, k - 1);
        StringStays(m, b, b', sid, base, top, Ptr(all, top, 0), s + [0], Ptr(args, top, k - 1), args[k - 1]);
      }
    }
  }

  lemma PtrHead(s: seq<nat>, args: seq<seq<nat>>, top: int)
    ensures Ptr([s] + args, top, 0) == Ptr(args, top, 0) - |s| - 1
  {
    PtrCons(s, args, top, 0);
  }

  lemma PtrInside(args: seq<seq<nat>>, top: int, k: nat)
    requires k < |args|
    ensures Ptr(args, top, 0) <= Ptr(args, top, k) && Ptr(args, top, k) + |args[k]| < top
  {
    if k > 0 { PtrOrder(args, top, 0, k); }
    PtrOrder(args, top, k, k + 1);
  }

  lemma EspBelow(args: seq<seq<nat>>, top: int)
    ensures InitialEsp(args, top) + 4 * (|args| + 3) <= Ptr(args, top, 0) <= top && InitialEsp(args, top) % 4 == 0
  {
  }

  lemma TableIsWords(args: seq<seq<nat>>, base: nat, top: nat)
    requires base <= InitialEsp(args, top) && top < U32 && |args| < U32
    ensures Words(StackTable(args, top)) && |StackTable(args, top)| == |args| + 3
  {
    var ws, ps := StackTable(args, top), PtrsFrom(args, top, 0);
    forall k | 0 <= k < |ws| ensures 0 <= ws[k] < U32 {
      if 1 <= k <= |args| {
        assert ws[k] == ps[k - 1];
        PtrInside(args, top, k - 1);
      }
    }
  }

  /** A word of the table, read back. */
  lemma WordWritten(m: Machine, b: Bytes, b': Bytes, sid: Sid, base: nat, top: nat, va: nat, ws: seq<int>, k: nat)
    requires StackReady(m, sid, base, top) && Words(ws) && k < |ws|
    requires Stored(m, b, b', sid, va, WordBytes(ws)) && base <= va && va + 4 * |ws| <= top
    ensures WordAt(m, b', sid, va + 4 * k) == ws[k]
  {
    WordBytesAt(ws, k);
    var data := WordBytes(ws);
    forall x: nat | va + 4 * k <= x < va + 4 * k + 4 ensures ByteAt(m, b', sid, x) == data[x - va] { assert UserAddr(x); }
    assert data[4 * k..4 * k + 4] == [data[4 * k], data[4 * k + 1], data[4 * k + 2], data[4 * k + 3]];
  }

  /** With the strings placed and the table below them, the program entry reads the arguments back. */
  lemma TableWritten(m: Machine, b: Bytes, b': Bytes, sid: Sid, base: nat, top: nat, args: seq<seq<nat>>, esp: nat)
    requires StackReady(m, sid, base, top) && Placed(m, b, sid, args, top) && |args| < U32
    requires base <= esp == InitialEsp(args, top) && Words(StackTable(args, top))
    requires Stored(m, b, b', sid, esp, WordBytes(StackTable(args, top)))
    ensures EntrySees(m, b', sid, esp, args)
  {
    hide StackReady, Stored, StringAt, Ptr, WordBytes, InitialEsp, WordAt;
    EspBelow(args, top);
    var ws, ps := StackTable(args, top), PtrsFrom(args, top, 0);
    assert |ws| == |args| + 3;
    WordWritten(m, b, b', sid, base, top, esp, ws, 0);
    WordWritten(m, b, b', sid, base, top, esp, ws, 1 + |args|);
    WordWritten(m, b, b', sid, base, top, esp, ws, 2 + |args|);
    forall i: nat | i < |args| ensures StringAt(m, b', sid, WordAt(m, b', sid, esp + 4 + 4 * i), args[i]) {
      WordWritten(m, b, b', sid, base, top, esp, ws, 1 + i);
      assert ws[1 + i] == ps[i] == Ptr(args, top, i);
      PtrInside(args, top, i);
      StringStays(m, b, b', sid, base, top, esp, WordBytes(ws), Ptr(args, top, i), args[i]);
    }
  }

  // ------------------------------------------------ process_setup_arguments

  type Argv = Option<seq<Option<seq<nat>>>>

  ghost predicate Acceptable(argc: int, argv: Argv) {
    && 0 <= argc <= 16
    && (argc > 0 ==> argv.Some? && argc <= |argv.value|)
    && forall i :: 0 <= i < argc ==> Short(argv.value[i])
  }

  ghost predicate Short(arg: Option<seq<nat>>) {
    arg.Some? && |arg.value| < 128
  }

  /** The strings from index i up to argc. */
  ghost function Strings(argc: int, argv: Argv, i: nat): (r: seq<seq<nat>>)
    requires Acceptable(argc, argv) && i <= argc
    ensures |r| == argc - i && forall k :: 0 <= k < |r| ==> argv.value[i + k] == Some(r[k])
    decreases argc - i
  {
    if i == argc then [] else [argv.value[i].value] + Strings(argc, argv, i + 1)
  }

  /** Measuring a string as C does: up to its zero, giving up at the limit. */
  method Measure(arg: seq<nat>) returns (len: Option<nat>)
    requires IsString(arg)
    ensures len == if |arg| < 128 then Some(|arg|) else None
  {
    var text := arg + [0];
    forall k | 0 <= k < |arg| ensures text[k] != 0 { assert arg[k] in arg; }
    var n := 0;
    while text[n] != 0
      invariant n <= |arg| && n < MAX_ARG_STRING
      decreases |arg| - n
    {
      n := n + 1;
      if n >= MAX_ARG_STRING { return None; }
    }
    return Some(n);
  }

  /** Strings done from index i up to argc. */
  ghost predicate DoneFrom(argc: nat, args: seq<Option<seq<nat>>>, i: nat, done: seq<seq<nat>>) {
    && i <= argc <= |args| && |done| == argc - i
    && forall k :: 0 <= k < |done| ==> args[i + k] == Some(done[k]) && |done[k]| < MAX_ARG_STRING
  }

  lemma DoneIsStrings(argc: nat, args: seq<Option<seq<nat>>>, i: nat, done: seq<seq<nat>>)
    requires Acceptable(argc, Some(args)) && DoneFrom(argc, args, i, done)
    ensures done == Strings(argc, Some(args), i)
  {
    var r := Strings(argc, Some(args), i);
    forall k | 0 <= k < |r| ensures done[k] == r[k] { assert args[i + k] == Some(r[k]); }
  }

  lemma {:induction false} LowestPtr(argc: nat, argv: Argv, i: nat, top: int)
    requires Acceptable(argc, argv) && i <= argc
    ensures Ptr(Strings(argc, argv, 0), top, 0) <= Ptr(Strings(argc, argv, i), top, 0)
    decreases i
  {
    if i > 0 {
      LowestPtr(argc, argv, i - 1, top);
      PtrHead(argv.value[i - 1].value, Strings(argc, argv, i), top);
    }
  }

  /** The strings cannot all be laid down: one is missing or too long, or the stack is too small. */
  ghost predicate Hopeless(argc: nat, args: seq<Option<seq<nat>>>, base: int, top: int) {
    Acceptable(argc, Some(args)) ==> Ptr(Strings(argc, Some(args), 0), top, 0) < base
  }

  lemma NoRoom(argc: nat, args: seq<Option<seq<nat>>>, i: nat, s: seq<nat>, done: seq<seq<nat>>, base: int, top: int)
    requires i < argc && DoneFrom(argc, args, i, [s] + done) && Ptr(done, top, 0) < base + |s| + 1
    ensures Hopeless(argc, args, base, top)
  {
    if Acceptable(argc, Some(args)) {
      DoneIsStrings(argc, args, i, [s] + done);
      LowestPtr(argc, Some(args), i, top);
      PtrHead(s, done, top);
    }
  }

  method PushStrings(p: Process, argc: nat, args: seq<Option<seq<nat>>>)
    returns (code: int, sp: nat, ptrs: seq<int>, ghost done: seq<seq<nat>>)
    requires p.Valid() && argc <= |args| && StackReady(p.memory.spaces.m, p.sid, p.stackBase, p.stackTop)
    requires forall i :: 0 <= i < argc && args[i].Some? ==> IsString(args[i].value)
    modifies p.memory
    ensures p.Valid() && OnlyStack(p.memory.spaces.m, old(p.memory.bytes), p.memory.bytes, p.sid, p.stackBase, p.stackTop)
    ensures code == OK || code == FAILED
    ensures code == OK ==>
              && DoneFrom(argc, args, 0, done) && Placed(p.memory.spaces.m, p.memory.bytes, p.sid, done, p.stackTop)
              && p.stackBase <= sp == Ptr(done, p.stackTop, 0) && ptrs == PtrsFrom(done, p.stackTop, 0)
    ensures code == FAILED ==> Hopeless(argc, args, p.stackBase, p.stackTop)
  {
    hide Inv, StackReady, Stored, StringAt, OnlyStack;
    ghost var m, b := p.memory.spaces.m, p.memory.bytes;
    OnlyStackStart(m, b, p.sid, p.stackBase, p.stackTop);
    StackBounds(m, p.sid, p.stackBase, p.stackTop);
    var i: nat := argc;
    code, sp, ptrs, done := OK, p.stackTop, [], [];
    while i > 0
      invariant DoneFrom(argc, args, i, done) && Placed(m, p.memory.bytes, p.sid, done, p.stackTop)
      invariant p.stackBase <= sp == Ptr(done, p.stackTop, 0) && ptrs == PtrsFrom(done, p.stackTop, 0)
      invariant code == OK && OnlyStack(m, b, p.memory.bytes, p.sid, p.stackBase, p.stackTop)
    {
      i := i - 1;
      if args[i].None? {
        assert !Short(args[i]);
        code := FAILED;
        return;
      }
      var arg := args[i].value;
      var len := Measure(arg);
      if len.None? {
        assert !Short(args[i]);
        code := FAILED;
        return;
      }
      assert DoneFrom(argc, args, i, [arg] + done);
      if sp < p.stackBase + len.value + 1 {
        NoRoom(argc, args, i, arg, done, p.stackBase, p.stackTop);
        code := FAILED;
        return;
      }
      sp := sp - (len.value + 1);
      ghost var b1 := p.memory.bytes;
      StackPart(m, p.sid, p.stackBase, p.stackTop, sp, len.value + 1);
      p.memory.Store(p.sid, sp, arg + [0]);
      PlacedCons(m, b1, p.memory.bytes, p.sid, p.stackBase, p.stackTop, arg, done);
      OnlyStackMore(m, b, b1, p.memory.bytes, p.sid, p.stackBase, p.stackTop, sp, arg + [0]);
      PtrHead(arg, done, p.stackTop);
      PtrsCons(arg, done, p.stackTop);
      ptrs, done := [sp] + ptrs, [arg] + done;
    }
  }

  lemma OnlyStackStart(m: Machine, b: Bytes, sid: Sid, base: nat, top: nat)
    ensures OnlyStack(m, b, b, sid, base, top)
  {
  }

  lemma StackBounds(m: Machine, sid: Sid, base: nat, top: nat)
    requires StackReady(m, sid, base, top)
    ensures base <= top <= USER_TOP
  {
  }

  lemma StackPart(m: Machine, sid: Sid, base: nat, top: nat, va: nat, size: nat)
    requires StackReady(m, sid, base, top) && base <= va && va + size <= top
    ensures AllMapped(m, sid, va, size)
  {
  }

  lemma PtrsCons(s: seq<nat>, args: seq<seq<nat>>, top: int)
    ensures PtrsFrom([s] + args, top, 0) == [Ptr(args, top, 0) - |s| - 1] + PtrsFrom(args, top, 0)
  {
    var all := [s] + args;
    var ps, qs := PtrsFrom(all, top, 0), PtrsFrom(args, top, 0);
    PtrHead(s, args, top);
    forall k | 1 <= k < |ps| ensures ps[k] == qs[k - 1] { PtrCons(s, args, top, k - 1); }
  }

  /** `process_setup_arguments`.  It succeeds exactly when the arguments are within the limits and fit the stack, and then
      the program entry reads the same argument list back.  Whatever it returns, only the process's own stack changes. */
  method SetupArguments(p: Process, argc: int, argv: Argv) returns (code: int)
    requires p.Valid() && (argc > 0 && argv.Some? ==> argc <= |argv.value|)
    requires argv.Some? ==> forall i :: 0 <= i < |argv.value| && argv.value[i].Some? ==> IsString(argv.value[i].value)
    requires p.stackBase != 0 && p.stackTop != 0 ==> StackReady(p.memory.spaces.m, p.sid, p.stackBase, p.stackTop)
    modifies p.memory, p`initialEsp
    ensures p.Valid()
    ensures OnlyStack(p.memory.spaces.m, old(p.memory.bytes), p.memory.bytes, p.sid, p.stackBase, p.stackTop)
    ensures code == OK || code == FAILED
    ensures code == OK <==>
              && Acceptable(argc, argv) && p.stackBase != 0 && p.stackTop != 0
              && p.stackBase <= InitialEsp(Strings(argc, argv, 0), p.stackTop)
    ensures code == OK ==>
              && p.initialEsp == InitialEsp(Strings(argc, argv, 0), p.stackTop) && p.initialEsp % 4 == 0
              && EntrySees(p.memory.spaces.m, p.memory.bytes, p.sid, p.initialEsp, Strings(argc, argv, 0))
  {
    hide Inv, StackReady, Stored, StringAt, OnlyStack, EntrySees;
    OnlyStackStart(p.memory.spaces.m, p.memory.bytes, p.sid, p.stackBase, p.stackTop);
    if argc < 0 || argc > MAX_ARGC { return FAILED; }
    if argc > 0 && argv.None? { return FAILED; }
    if p.stackBase == 0 || p.stackTop == 0 { return FAILED; }
    var args := if argc == 0 then [] else argv.value;
    SameArguments(argc, argv, args);
    var sp, ptrs;
    ghost var done;
    code, sp, ptrs, done := PushStrings(p, argc, args);
    if code != OK {
      if Acceptable(argc, argv) { EspBelow(Strings(argc, argv, 0), p.stackTop); }
      return;
    }
    DoneIsAll(argc, args, done);
    code := PushTable(p, argc, sp, ptrs, done, old(p.memory.bytes));
  }

  lemma SameArguments(argc: nat, argv: Argv, args: seq<Option<seq<nat>>>)
    requires argc > 0 ==> argv == Some(args)
    requires argc == 0 ==> args == []
    ensures Acceptable(argc, argv) <==> Acceptable(argc, Some(args))
    ensures Acceptable(argc, argv) ==> Strings(argc, argv, 0) == Strings(argc, Some(args), 0)
  {
  }

  lemma DoneIsAll(argc: nat, args: seq<Option<seq<nat>>>, done: seq<seq<nat>>)
    requires argc <= MAX_ARGC && DoneFrom(argc, args, 0, done)
    ensures Acceptable(argc, Some(args)) && done == Strings(argc, Some(args), 0)
  {
    forall i | 0 <= i < argc ensures Short(args[i]) { assert args[0 + i] == Some(done[i]); }
    DoneIsStrings(argc, args, 0, done);
  }

  /** The end of `process_setup_arguments`: alignment and the pointer table. */
  method PushTable(p: Process, argc: nat, sp0: nat, ptrs: seq<int>, ghost args: seq<seq<nat>>, ghost was: Bytes) returns (code: int)
    requires p.Valid() && StackReady(p.memory.spaces.m, p.sid, p.stackBase, p.stackTop) && argc == |args| <= MAX_ARGC
    requires Placed(p.memory.spaces.m, p.memory.bytes, p.sid, args, p.stackTop)
    requires p.stackBase <= sp0 == Ptr(args, p.stackTop, 0) && ptrs == PtrsFrom(args, p.stackTop, 0)
    requires OnlyStack(p.memory.spaces.m, was, p.memory.bytes, p.sid, p.stackBase, p.stackTop)
    modifies p.memory, p`initialEsp
    ensures p.Valid() && OnlyStack(p.memory.spaces.m, was, p.memory.bytes, p.sid, p.stackBase, p.stackTop)
    ensures code == (if p.stackBase <= InitialEsp(args, p.stackTop) then OK else FAILED)
    ensures code == OK ==>
              && p.initialEsp == InitialEsp(args, p.stackTop) && p.initialEsp % 4 == 0
              && EntrySees(p.memory.spaces.m, p.memory.bytes, p.sid, p.initialEsp, args)
  {
    hide Inv, StackReady, Stored, StringAt, OnlyStack, EntrySees, Ptr, WordBytes;
    StackBounds(p.memory.spaces.m, p.sid, p.stackBase, p.stackTop);
    EspBelow(args, p.stackTop);
    var sp := sp0 - sp0 % 4;
    var tableBytes := (1 + argc + 1 + 1) * 4;
    if sp < p.stackBase + tableBytes { return FAILED; }
    sp := sp - tableBytes;
    TableIsWords(args, p.stackBase, p.stackTop);
    var table := [argc] + ptrs + [0, 0];
    ghost var b1 := p.memory.bytes;
    StackPart(p.memory.spaces.m, p.sid, p.stackBase, p.stackTop, sp, tableBytes);
    p.memory.Store(p.sid, sp, WordBytes(table));
    TableWritten(p.memory.spaces.m, b1, p.memory.bytes, p.sid, p.stackBase, p.stackTop, args, sp);
    OnlyStackMore(p.memory.spaces.m, was, b1, p.memory.bytes, p.sid, p.stackBase, p.stackTop, sp, WordBytes(table));
    p.initialEsp := sp;
    return OK;
  }

  lemma LoadedStackReady(m: Machine, bytes: Bytes, sid: Sid)
    requires StackClear(m, bytes, sid)
    ensures StackReady(m, sid, STACK_TOP - STACK_BYTES, STACK_TOP)
  {
  }

  /** Segments clear of the stack are not disturbed by what happens on it. */
  lemma SegmentsUndisturbed(m: Machine, b: Bytes, b': Bytes, sid: Sid, img: Image)
    requires HeaderOk(img) && HeadersOk(img, PhNum(img)) && SegmentsLoaded(m, b, sid, img, PhNum(img))
    requires SegmentsOffStack(img, PhNum(img)) && OnlyStack(m, b, b', sid, STACK_TOP - STACK_BYTES, STACK_TOP)
    ensures SegmentsLoaded(m, b', sid, img, PhNum(img))
  {
    forall i: nat | i < PhNum(img) && PhdrAt(img, i).kind == PT_LOAD ensures SegmentLoaded(m, b', sid, img, PhdrAt(img, i)) {
      var ph := PhdrAt(img, i);
      assert OffStack(ph) && SegmentLoaded(m, b, sid, img, ph);
    }
  }

  /** `elf_create_process` up to its start: once the image is loaded, every argument list within the limits is accepted;
      the process then holds its segments, its entry point and a stack from which the entry reads the arguments. */
  method Prepare(p: Process, img: Image, argc: int, argv: Argv) returns (loaded: int, placed: int)
    requires p.Valid() && IsImage(img) && Acceptable(argc, argv)
    requires argv.Some? ==> forall i :: 0 <= i < |argv.value| && argv.value[i].Some? ==> IsString(argv.value[i].value)
    modifies p, p.memory, p.memory.spaces
    ensures p.Valid()
    ensures (ImageOk(img) && !Clash(old(p.memory.spaces.m), p.sid, img) && 0x0100_0000 <= Entry32(img) < 0xC000_0000
             && old(p.LowFrames()) >= 2 * (PagesOfSegments(img, PhNum(img)) + 2)) ==> loaded == OK
    ensures loaded == OK ==>
              && placed == OK && HeaderOk(img) && HeadersOk(img, PhNum(img)) && p.userEntry == Entry32(img)
              && SegmentsLoaded(p.memory.spaces.m, p.memory.bytes, p.sid, img, PhNum(img))
              && EntrySees(p.memory.spaces.m, p.memory.bytes, p.sid, p.initialEsp, Strings(argc, argv, 0))
  {
    hide Inv, SegmentsLoaded, EntrySees, StackClear, StackReady, OnlyStack, BytesKept, HeadersOk, SegmentsOffStack, Clash,
         OutOfMemory, PagesOfSegments, Claims;
    loaded := p.Load(img);
    if loaded != OK { return loaded, FAILED; }
    ghost var b := p.memory.bytes;
    LoadedStackReady(p.memory.spaces.m, b, p.sid);
    StringsShort(argc, argv);
    ElfStackFits(Strings(argc, argv, 0));
    placed := SetupArguments(p, argc, argv);
    SegmentsUndisturbed(p.memory.spaces.m, b, p.memory.bytes, p.sid, img);
  }

  lemma StringsShort(argc: int, argv: Argv)
    requires Acceptable(argc, argv)
    ensures forall k :: 0 <= k < argc ==> |Strings(argc, argv, 0)[k]| < MAX_ARG_STRING
  {
    forall k | 0 <= k < argc ensures |Strings(argc, argv, 0)[k]| < MAX_ARG_STRING {
      assert Short(argv.value[k]) && argv.value[0 + k] == Some(Strings(argc, argv, 0)[k]);
    }
  }
}
