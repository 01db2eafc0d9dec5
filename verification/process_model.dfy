/** Processes as values: the process list, the reference counts of physical pages, and what each
    system call does to them.  `ProcessKernel` proves the code against these functions; this module
    proves what they keep over every run. */
module ProcessModel {
  import opened Common

  /** The sizes that other parts of the kernel fix: pages of the stack, HEAP_SIZE in bytes, and the
      address of the page of arguments. */
  datatype Config = Config(stackSize: nat, heapSize: nat, argsBase: nat)

  function PagesFor(size: nat): nat {
    (size + PAGE_SIZE - 1) / PAGE_SIZE
  }

  datatype State = NEW | READY | RUNNING | WAITING | ZOMBIE

  /** A PCB.  `parent` is the pid of the parent, None for the root process; `joined` says that the
      main thread is gone; `pages` is the page list. */
  datatype Proc = Proc(pid: nat, parent: Option<nat>, state: State, joined: bool, exitStatus: int,
                       pages: seq<nat>, pageCount: int, stackTop: int, heapBase: int, heapPointer: int,
                       entry: int)

  /** `procs` is the process list; frame f has reference count refcount[f], and the page allocator
      holds the frames in `free`. */
  datatype Kern = Kern(procs: seq<Proc>, pidCurrent: nat, refcount: seq<int>, free: set<nat>)

  predicate Listed(k: Kern, i: int) { 0 <= i < |k.procs| }

  // ----- pages -----

  function AddPage(k: Kern, i: nat, f: nat): Kern
    requires Listed(k, i) && f < |k.refcount|
  {
    var p := k.procs[i];
    k.(procs := k.procs[i := p.(pages := p.pages + [f])],
       refcount := k.refcount[f := k.refcount[f] + 1],
       free := k.free - {f})
  }

  /** Takes the first entry off the page list of process i; the last entry of a frame frees it. */
  function DropPage(k: Kern, i: nat): Kern
    requires Listed(k, i) && k.procs[i].pages != [] && k.procs[i].pages[0] < |k.refcount|
  {
    var p := k.procs[i];
    var f := p.pages[0];
    var count := k.refcount[f] - 1;
    k.(procs := k.procs[i := p.(pages := p.pages[1..])],
       refcount := k.refcount[f := count],
       free := if count == 0 then k.free + {f} else k.free)
  }

  ghost predicate InRange(fs: seq<nat>, n: nat) {
    forall x :: 0 <= x < |fs| ==> fs[x] < n
  }

  function AddPages(k: Kern, i: nat, fs: seq<nat>): (r: Kern)
    requires Listed(k, i) && InRange(fs, |k.refcount|)
    ensures |r.procs| == |k.procs| && |r.refcount| == |k.refcount|
  {
    if fs == [] then k
    else AddPage(AddPages(k, i, fs[..|fs| - 1]), i, fs[|fs| - 1])
  }

  function DropPages(k: Kern, i: nat): (r: Kern)
    requires Listed(k, i) && InRange(k.procs[i].pages, |k.refcount|)
    ensures |r.procs| == |k.procs| && |r.refcount| == |k.refcount|
    decreases |k.procs[i].pages|
  {
    if k.procs[i].pages == [] then k else DropPages(DropPage(k, i), i)
  }

  ghost function Elems(fs: seq<nat>): set<nat> {
    set f | f in fs
  }

  /** Different frames, all taken from the free ones; `left` are the frames still free. */
  ghost predicate TakenFrom(free: set<nat>, fs: seq<nat>, left: set<nat>) {
    && (forall x, y :: 0 <= x < y < |fs| ==> fs[x] != fs[y])
    && Elems(fs) <= free && left == free - Elems(fs)
  }

  lemma TakenSnoc(free: set<nat>, fs: seq<nat>, left: set<nat>, f: nat)
    requires TakenFrom(free, fs, left) && f in left
    ensures TakenFrom(free, fs + [f], left - {f})
  {
    assert Elems(fs + [f]) == Elems(fs) + {f};
  }

  lemma TakenConcat(free: set<nat>, a: seq<nat>, mid: set<nat>, b: seq<nat>, left: set<nat>)
    requires TakenFrom(free, a, mid) && TakenFrom(mid, b, left)
    ensures TakenFrom(free, a + b, left)
  {
    assert Elems(a + b) == Elems(a) + Elems(b);
    forall x, y | 0 <= x < y < |a + b|
      ensures (a + b)[x] != (a + b)[y]
    {
      if x < |a| <= y {
        assert (a + b)[x] in Elems(a) && (a + b)[y] in Elems(b);
      }
    }
  }

  // ----- reference counts -----

  /** The entries for frame f in all page lists. */
  ghost function Entries(procs: seq<Proc>, f: nat): nat {
    if procs == [] then 0
    else Entries(procs[..|procs| - 1], f) + multiset(procs[|procs| - 1].pages)[f]
  }

  ghost predicate RefInv(k: Kern) {
    && (forall i :: 0 <= i < |k.procs| ==> InRange(k.procs[i].pages, |k.refcount|))
    && (forall f: nat :: f < |k.refcount| ==> k.refcount[f] == Entries(k.procs, f))
    && (forall f: nat :: f in k.free <==> f < |k.refcount| && k.refcount[f] == 0)
  }

  lemma {:induction false} EntriesUpdate(procs: seq<Proc>, i: nat, p: Proc, f: nat)
    requires i < |procs|
    ensures Entries(procs[i := p], f) ==
            Entries(procs, f) - multiset(procs[i].pages)[f] + multiset(p.pages)[f]
  {
    var n := |procs| - 1;
    if i == n {
      assert procs[i := p][..n] == procs[..n];
    } else {
      EntriesUpdate(procs[..n], i, p, f);
      assert procs[i := p][..n] == procs[..n][i := p];
    }
  }

  lemma {:induction false} EntriesRemove(procs: seq<Proc>, i: nat, f: nat)
    requires i < |procs|
    ensures Entries(procs[..i] + procs[i + 1..], f) == Entries(procs, f) - multiset(procs[i].pages)[f]
  {
    var n := |procs| - 1;
    var r := procs[..i] + procs[i + 1..];
    if i == n {
      assert r == procs[..n];
    } else {
      EntriesRemove(procs[..n], i, f);
      assert r[..|r| - 1] == procs[..n][..i] + procs[..n][i + 1..];
      assert r[|r| - 1] == procs[n];
    }
  }

  lemma {:induction false} EntriesPositive(procs: seq<Proc>, i: nat, f: nat)
    requires i < |procs| && f in procs[i].pages
    ensures Entries(procs, f) > 0
  {
    if i < |procs| - 1 {
      EntriesPositive(procs[..|procs| - 1], i, f);
    }
  }

  /** Nobody holds a free frame, and a frame in some list is not free. */
  lemma FreeMeansUnreferenced(k: Kern, i: nat, f: nat)
    requires RefInv(k) && Listed(k, i) && f in k.procs[i].pages
    ensures f < |k.refcount| && k.refcount[f] > 0 && f !in k.free
  {
    EntriesPositive(k.procs, i, f);
  }

  // ----- who owns a frame -----

  /** Nobody but process i refers to the frame, with one entry. */
  ghost predicate SoleOwner(k: Kern, i: nat, f: nat) {
    && Listed(k, i) && f < |k.refcount| && k.refcount[f] == 1
    && multiset(k.procs[i].pages)[f] == 1
    && forall j :: 0 <= j < |k.procs| && j != i ==> f !in k.procs[j].pages
  }

  /** Process i holds all references to the frame, if there are any. */
  ghost predicate Available(k: Kern, i: nat, f: nat) {
    Listed(k, i) && f < |k.refcount| && k.refcount[f] == multiset(k.procs[i].pages)[f]
  }

  lemma {:induction false} EntriesOfTwo(procs: seq<Proc>, i: nat, j: nat, f: nat)
    requires i < j < |procs|
    ensures Entries(procs, f) >= multiset(procs[i].pages)[f] + multiset(procs[j].pages)[f]
  {
    var n := |procs| - 1;
    if j < n {
      EntriesOfTwo(procs[..n], i, j, f);
    } else {
      EntriesOfOne(procs[..n], i, f);
    }
  }

  lemma {:induction false} EntriesOfOne(procs: seq<Proc>, i: nat, f: nat)
    requires i < |procs|
    ensures Entries(procs, f) >= multiset(procs[i].pages)[f]
  {
    if i < |procs| - 1 {
      EntriesOfOne(procs[..|procs| - 1], i, f);
    }
  }

  lemma OneReference(k: Kern, i: nat, f: nat)
    requires RefInv(k) && Listed(k, i) && f in k.procs[i].pages && f < |k.refcount| && k.refcount[f] == 1
    ensures SoleOwner(k, i, f)
  {
    assert multiset(k.procs[i].pages)[f] >= 1;
    EntriesOfOne(k.procs, i, f);
    forall j | 0 <= j < |k.procs| && j != i
      ensures f !in k.procs[j].pages
    {
      EntriesOfTwo(k.procs, if i < j then i else j, if i < j then j else i, f);
    }
  }

  lemma AddPageKeeps(k: Kern, i: nat, f: nat)
    requires RefInv(k) && Listed(k, i) && f < |k.refcount|
    ensures RefInv(AddPage(k, i, f))
  {
    var k' := AddPage(k, i, f);
    var p, p' := k.procs[i], k'.procs[i];
    assert multiset(p'.pages) == multiset(p.pages) + multiset{f};
    forall g: nat | g < |k'.refcount|
      ensures k'.refcount[g] == Entries(k'.procs, g)
    {
      EntriesUpdate(k.procs, i, p', g);
    }
  }

  lemma DropPageCounts(k: Kern, i: nat)
    requires RefInv(k) && Listed(k, i) && k.procs[i].pages != [] && k.procs[i].pages[0] < |k.refcount|
    ensures forall g: nat :: g < |k.refcount| ==> DropPage(k, i).refcount[g] == Entries(DropPage(k, i).procs, g)
  {
    var p := k.procs[i];
    var p' := p.(pages := p.pages[1..]);
    assert multiset(p.pages) == multiset{p.pages[0]} + multiset(p'.pages) by {
      assert p.pages == [p.pages[0]] + p'.pages;
    }
    forall g: nat | g < |k.refcount|
      ensures DropPage(k, i).refcount[g] == Entries(DropPage(k, i).procs, g)
    {
      EntriesUpdate(k.procs, i, p', g);
    }
  }

  /** A frame goes back to the allocator exactly when its last entry goes: it was not there before,
      and afterwards it is there if and only if no list holds it. */
  lemma DropPageKeeps(k: Kern, i: nat)
    requires RefInv(k) && Listed(k, i) && k.procs[i].pages != []
    ensures k.procs[i].pages[0] < |k.refcount| && k.procs[i].pages[0] !in k.free
    ensures RefInv(DropPage(k, i))
    ensures k.procs[i].pages[0] in DropPage(k, i).free <==> Entries(DropPage(k, i).procs, k.procs[i].pages[0]) == 0
  {
    FreeMeansUnreferenced(k, i, k.procs[i].pages[0]);
    DropPageCounts(k, i);
    var k' := DropPage(k, i);
    assert forall j :: 0 <= j < |k'.procs| && j != i ==> k'.procs[j] == k.procs[j];
  }

  lemma {:induction false} AddPagesKeeps(k: Kern, i: nat, fs: seq<nat>)
    requires RefInv(k) && Listed(k, i) && InRange(fs, |k.refcount|)
    ensures RefInv(AddPages(k, i, fs))
  {
    if fs != [] {
      AddPagesKeeps(k, i, fs[..|fs| - 1]);
      AddPageKeeps(AddPages(k, i, fs[..|fs| - 1]), i, fs[|fs| - 1]);
    }
  }

  /** Adding pages touches the page list of the process and nothing else of the process list. */
  lemma {:induction false} AddPagesProcs(k: Kern, i: nat, fs: seq<nat>)
    requires Listed(k, i) && InRange(fs, |k.refcount|)
    ensures var p := k.procs[i];
            AddPages(k, i, fs).procs == k.procs[i := p.(pages := p.pages + fs)]
    ensures AddPages(k, i, fs).pidCurrent == k.pidCurrent
  {
    if fs == [] {
      assert k.procs[i].pages + fs == k.procs[i].pages;
    } else {
      AddPagesProcs(k, i, fs[..|fs| - 1]);
      assert k.procs[i].pages + fs == k.procs[i].pages + fs[..|fs| - 1] + [fs[|fs| - 1]];
    }
  }

  lemma {:induction false} DropPagesProcs(k: Kern, i: nat)
    requires Listed(k, i) && InRange(k.procs[i].pages, |k.refcount|)
    ensures DropPages(k, i).procs == k.procs[i := k.procs[i].(pages := [])]
    ensures DropPages(k, i).pidCurrent == k.pidCurrent
    decreases |k.procs[i].pages|
  {
    if k.procs[i].pages == [] {
      assert k.procs[i].(pages := []) == k.procs[i];
    } else {
      DropPagesProcs(DropPage(k, i), i);
    }
  }

  lemma {:induction false} DropPagesKeeps(k: Kern, i: nat)
    requires RefInv(k) && Listed(k, i)
    ensures InRange(k.procs[i].pages, |k.refcount|)
    ensures RefInv(DropPages(k, i))
    decreases |k.procs[i].pages|
  {
    if k.procs[i].pages != [] {
      DropPageKeeps(k, i);
      DropPagesKeeps(DropPage(k, i), i);
    }
  }

  /** Once a process has released its pages, the frames that nobody else refers to are free. */
  lemma DropPagesFrees(k: Kern, i: nat)
    requires RefInv(k) && Listed(k, i) && InRange(k.procs[i].pages, |k.refcount|)
    ensures forall f :: f in DropPages(k, i).free <==> Available(k, i, f)
  {
    DropPagesKeeps(k, i);
    DropPagesProcs(k, i);
    var p := k.procs[i].(pages := []);
    forall f: nat
      ensures f in DropPages(k, i).free <==> Available(k, i, f)
    {
      EntriesUpdate(k.procs, i, p, f);
    }
  }

  // ----- the calls -----

  function WithProc(k: Kern, i: nat, p: Proc): Kern
    requires Listed(k, i)
  {
    k.(procs := k.procs[i := p])
  }

  function NewChild(k: Kern, parent: Proc): Proc {
    Proc(k.pidCurrent, Some(parent.pid), NEW, false, 0, [], parent.pageCount, parent.stackTop,
         parent.heapBase, parent.heapPointer, 0)
  }

  /** The user space of the parent is duplicated by adding the frames fs, new or shared, to the child. */
  function Forked(k: Kern, i: nat, fs: seq<nat>): (r: Kern)
    requires Listed(k, i) && InRange(fs, |k.refcount|)
    ensures |r.procs| == |k.procs| + 1
  {
    var k1 := k.(procs := k.procs + [NewChild(k, k.procs[i])], pidCurrent := k.pidCurrent + 1);
    var k2 := AddPages(k1, |k.procs|, fs);
    WithProc(k2, |k.procs|, k2.procs[|k.procs|].(state := READY))
  }

  function Exited(k: Kern, i: nat, status: int): Kern
    requires Listed(k, i) && InRange(k.procs[i].pages, |k.refcount|)
  {
    DropPages(WithProc(k, i, k.procs[i].(state := ZOMBIE, exitStatus := status)), i)
  }

  /** The scheduler moves a live process between its live states. */
  function Scheduled(k: Kern, i: nat, state: State): Kern
    requires Listed(k, i)
  {
    WithProc(k, i, k.procs[i].(state := state))
  }

  function First(procs: seq<Proc>, p: Proc -> bool): (r: int)
    ensures -1 <= r < |procs|
    ensures r >= 0 ==> p(procs[r]) && forall j :: 0 <= j < r ==> !p(procs[j])
    ensures r == -1 ==> forall j :: 0 <= j < |procs| ==> !p(procs[j])
  {
    if procs == [] then -1
    else
      var r := First(procs[..|procs| - 1], p);
      if r >= 0 then r else if p(procs[|procs| - 1]) then |procs| - 1 else -1
  }

  function FindByPid(k: Kern, pid: int): int {
    First(k.procs, (p: Proc) => p.pid == pid)
  }

  function FindZombieToClean(k: Kern): int {
    First(k.procs, (p: Proc) => p.state == ZOMBIE && !p.joined)
  }

  function FindByParent(k: Kern, pid: nat): int {
    First(k.procs, (p: Proc) => p.parent == Some(pid))
  }

  function Removed(k: Kern, i: nat): Kern
    requires Listed(k, i)
  {
    k.(procs := k.procs[..i] + k.procs[i + 1..])
  }

  /** The end of waitpid: the PCB goes unless it still has children. */
  function Reaped(k: Kern, i: nat): Kern
    requires Listed(k, i)
  {
    if FindByParent(k, k.procs[i].pid) == -1 then Removed(k, i) else k
  }

  /** Blocked until the child is a zombie, or back with a return value and the wait status, if one
      was stored. */
  datatype WaitOutcome = Blocked | Back(k: Kern, ret: int, status: Option<nat>)

  /** ~0x7f as an unsigned 32-bit word. */
  const NO_CODE: nat := 0xFFFF_FF80

  /** The status of a zombie; char is unsigned, as on ARM. */
  function ZombieStatus(exitStatus: int): nat {
    exitStatus % 0x100 * 0x100
  }

  function WaitTarget(k: Kern, pid: int): int {
    if pid == -1 then FindZombieToClean(k) else FindByPid(k, pid)
  }

  function WaitedFor(k: Kern, i: nat, nohang: bool): WaitOutcome
    requires Listed(k, i)
  {
    var child := k.procs[i];
    if nohang && child.state != ZOMBIE then Back(k, 0, None)
    else if child.state == WAITING then Back(Reaped(k, i), child.pid, Some(NO_CODE))
    else if child.state != ZOMBIE then Blocked
    else Back(Reaped(WithProc(k, i, child.(joined := true)), i), child.pid, Some(ZombieStatus(child.exitStatus)))
  }

  /** The child found, or -1. */
  function WaitedAt(k: Kern, i: int, pid: int, nohang: bool): WaitOutcome
    requires i == -1 || Listed(k, i)
  {
    if i == -1 then Back(k, -1, if pid == -1 then None else Some(NO_CODE)) else WaitedFor(k, i, nohang)
  }

  function Waited(k: Kern, pid: int, nohang: bool): WaitOutcome {
    WaitedAt(k, WaitTarget(k, pid), pid, nohang)
  }

  function StackPages(cfg: Config): nat { PagesFor(cfg.stackSize) }
  function HeapPages(cfg: Config): nat { PagesFor(cfg.heapSize) }

  /** The frames that exec allocates, in the order in which it does. */
  datatype Frames = Frames(stack: seq<nat>, image: seq<nat>, heap: seq<nat>, args: seq<nat>) {
    function All(): seq<nat> { stack + image + heap + args }
  }

  ghost predicate FramesFor(k: Kern, cfg: Config, segPages: nat, fs: Frames) {
    && |fs.stack| == StackPages(cfg) && |fs.image| == segPages && |fs.heap| == HeapPages(cfg) && |fs.args| == 1
    && InRange(fs.stack, |k.refcount|) && InRange(fs.image, |k.refcount|)
    && InRange(fs.heap, |k.refcount|) && InRange(fs.args, |k.refcount|)
  }

  /** Process i becomes p and gets the frames fs. */
  function Grown(k: Kern, i: nat, p: Proc, fs: seq<nat>): (r: Kern)
    requires Listed(k, i) && InRange(fs, |k.refcount|)
    ensures |r.procs| == |k.procs| && |r.refcount| == |k.refcount|
  {
    AddPages(WithProc(k, i, p), i, fs)
  }

  function WithStack(k: Kern, i: nat, cfg: Config, fs: seq<nat>): (r: Kern)
    requires Listed(k, i) && InRange(k.procs[i].pages, |k.refcount|) && InRange(fs, |k.refcount|)
    ensures |r.procs| == |k.procs| && |r.refcount| == |k.refcount|
  {
    var p := k.procs[i].(pageCount := StackPages(cfg), stackTop := cfg.argsBase);
    AddPages(DropPages(WithProc(k, i, p), i), i, fs)
  }

  function ImageProc(p: Proc, segPages: nat, entry: int): Proc {
    p.(entry := entry, pageCount := p.pageCount + segPages)
  }

  function HeapProc(p: Proc, cfg: Config): Proc {
    var base := (p.pageCount + 1) * PAGE_SIZE;
    p.(heapBase := base, heapPointer := base, pageCount := p.pageCount + HeapPages(cfg))
  }

  function ArgsProc(p: Proc): Proc {
    p.(pageCount := p.pageCount + 1)
  }

  /** The new image of a process: stack, image, heap and arguments. */
  function Execed(k: Kern, i: nat, cfg: Config, segPages: nat, entry: int, fs: Frames): Kern
    requires Listed(k, i) && InRange(k.procs[i].pages, |k.refcount|) && FramesFor(k, cfg, segPages, fs)
  {
    var k1 := WithStack(k, i, cfg, fs.stack);
    var k2 := Grown(k1, i, ImageProc(k1.procs[i], segPages, entry), fs.image);
    var k3 := Grown(k2, i, HeapProc(k2.procs[i], cfg), fs.heap);
    Grown(k3, i, ArgsProc(k3.procs[i]), fs.args)
  }

  function Int32(x: int): int {
    (x + 0x8000_0000) % 0x1_0000_0000 - 0x8000_0000
  }

  /** The break of a heap of the given base: the old break, or nothing when the size leaves the heap. */
  function MovedBreak(base: int, pointer: int, heapSize: nat, increment: int): Option<int> {
    var req := Int32(pointer - base + increment);
    if req >= heapSize || req < 0 then None else Some((pointer + increment) % 0x1_0000_0000)
  }

  function Sbrked(k: Kern, i: nat, cfg: Config, increment: int): Kern
    requires Listed(k, i)
  {
    var p := k.procs[i];
    var b := MovedBreak(p.heapBase, p.heapPointer, cfg.heapSize, increment);
    if b.None? then k else WithProc(k, i, p.(heapPointer := b.value))
  }

  // ----- the process tree -----

  predicate ParentAt(procs: seq<Proc>, i: int, j: int) {
    0 <= i < |procs| && 0 <= j < |procs| && procs[i].parent == Some(procs[j].pid)
  }

  /** Pids grow along the list and stay below pid_current; only the first process has no parent, and
      everyone else's parent is listed before it. */
  ghost predicate TreeInv(k: Kern) {
    && k.procs != [] && k.procs[0].parent == None && k.procs[0].state != ZOMBIE
    && (forall i, j :: 0 <= i < j < |k.procs| ==> k.procs[i].pid < k.procs[j].pid)
    && (forall i :: 0 <= i < |k.procs| ==> 1 <= k.procs[i].pid < k.pidCurrent)
    && (forall i :: 0 < i < |k.procs| ==> ParentBefore(k.procs, i))
  }

  ghost predicate ParentBefore(procs: seq<Proc>, i: int) {
    exists j :: 0 <= j < i && ParentAt(procs, i, j)
  }

  ghost predicate SameTree(procs: seq<Proc>, procs': seq<Proc>) {
    && |procs| == |procs'|
    && forall i :: 0 <= i < |procs| ==> procs[i].pid == procs'[i].pid && procs[i].parent == procs'[i].parent
  }

  /** What changes neither pids nor parents keeps the tree. */
  lemma SameTreeKeeps(k: Kern, k': Kern)
    requires TreeInv(k) && SameTree(k.procs, k'.procs) && k'.pidCurrent == k.pidCurrent
    requires k'.procs[0].state != ZOMBIE
    ensures TreeInv(k')
  {
    forall i | 0 < i < |k'.procs|
      ensures ParentBefore(k'.procs, i)
    {
      assert ParentBefore(k.procs, i);
      var j :| 0 <= j < i && ParentAt(k.procs, i, j);
      assert ParentAt(k'.procs, i, j);
    }
  }

  lemma ForkKeepsTree(k: Kern, i: nat, fs: seq<nat>)
    requires TreeInv(k) && Listed(k, i) && InRange(fs, |k.refcount|)
    ensures TreeInv(Forked(k, i, fs))
    ensures Forked(k, i, fs).procs[|k.procs|].pid == k.pidCurrent
  {
    var n := |k.procs|;
    var k1 := k.(procs := k.procs + [NewChild(k, k.procs[i])], pidCurrent := k.pidCurrent + 1);
    forall x | 0 < x < |k1.procs|
      ensures ParentBefore(k1.procs, x)
    {
      if x < n {
        assert ParentBefore(k.procs, x);
        var j :| 0 <= j < x && ParentAt(k.procs, x, j);
        assert ParentAt(k1.procs, x, j);
      } else {
        assert ParentAt(k1.procs, n, i);
      }
    }
    assert TreeInv(k1);
    AddPagesProcs(k1, n, fs);
    SameTreeKeeps(k1, Forked(k, i, fs));
  }

  /** A process without children can go: no parent is lost. */
  lemma RemoveKeepsTree(k: Kern, i: nat)
    requires TreeInv(k) && Listed(k, i) && i > 0 && FindByParent(k, k.procs[i].pid) == -1
    ensures TreeInv(Removed(k, i))
  {
    var r := Removed(k, i).procs;
    assert forall x :: 0 <= x < |r| ==> r[x] == k.procs[if x < i then x else x + 1];
    forall x | 0 < x < |r|
      ensures ParentBefore(r, x)
    {
      ParentStays(k, i, x);
    }
  }

  lemma ParentStays(k: Kern, i: nat, x: nat)
    requires TreeInv(k) && Listed(k, i) && i > 0 && FindByParent(k, k.procs[i].pid) == -1
    requires 0 < x < |Removed(k, i).procs|
    ensures ParentBefore(Removed(k, i).procs, x)
  {
    var x0 := if x < i then x else x + 1;
    assert ParentBefore(k.procs, x0);
    var j0 :| 0 <= j0 < x0 && ParentAt(k.procs, x0, j0);
    assert j0 != i;
    assert ParentAt(Removed(k, i).procs, x, if j0 < i then j0 else j0 - 1);
  }

  /** Only the root, alone, has no parent and no child. */
  lemma RootHasChild(k: Kern)
    requires TreeInv(k) && |k.procs| > 1
    ensures FindByParent(k, k.procs[0].pid) != -1
  {
    assert ParentBefore(k.procs, 1);
    var j :| 0 <= j < 1 && ParentAt(k.procs, 1, j);
    assert k.procs[1].parent == Some(k.procs[0].pid);
  }

  /** The index of the parent of process i. */
  function ParentIndex(k: Kern, i: nat): (j: nat)
    requires TreeInv(k) && 0 < i < |k.procs|
    ensures j < i && ParentAt(k.procs, i, j)
  {
    assert ParentBefore(k.procs, i);
    FindByPid(k, k.procs[i].parent.value)
  }

  /** From any process, parents lead to the root, through listed processes only. */
  function PathToRoot(k: Kern, i: nat): (path: seq<nat>)
    requires TreeInv(k) && i < |k.procs|
    ensures path != [] && path[0] == i && path[|path| - 1] == 0
    ensures forall x :: 0 <= x < |path| ==> path[x] < |k.procs|
    ensures forall x :: 0 <= x < |path| - 1 ==> ParentAt(k.procs, path[x], path[x + 1]) && path[x + 1] < path[x]
    decreases i
  {
    if i == 0 then [0] else [i] + PathToRoot(k, ParentIndex(k, i))
  }

  // ----- exec: pages and layout -----

  /** Process i became p and the other processes are as before. */
  ghost predicate Became(k: Kern, k': Kern, i: nat, p: Proc) {
    Listed(k, i) && k'.procs == k.procs[i := p] && k'.pidCurrent == k.pidCurrent
  }

  lemma GrownBecame(k: Kern, k1: Kern, i: nat, p: Proc, q: Proc, fs: seq<nat>)
    requires Became(k, k1, i, p) && q.pages == p.pages && InRange(fs, |k1.refcount|)
    ensures Listed(k1, i) && k1.procs[i] == p
    ensures Became(k, Grown(k1, i, q, fs), i, MorePages(q, fs))
    ensures RefInv(k1) ==> RefInv(Grown(k1, i, q, fs))
  {
    AddPagesProcs(WithProc(k1, i, q), i, fs);
    if RefInv(k1) {
      SamePagesKeeps(k1, i, q);
      AddPagesKeeps(WithProc(k1, i, q), i, fs);
    }
  }

  lemma WithStackBecame(k: Kern, i: nat, cfg: Config, fs: seq<nat>)
    requires Listed(k, i) && InRange(k.procs[i].pages, |k.refcount|) && InRange(fs, |k.refcount|)
    ensures Became(k, WithStack(k, i, cfg, fs), i, StackProc(k.procs[i], cfg, fs))
    ensures RefInv(k) ==> RefInv(WithStack(k, i, cfg, fs))
  {
    var p := k.procs[i].(pageCount := StackPages(cfg), stackTop := cfg.argsBase);
    var k0 := WithProc(k, i, p);
    DropPagesProcs(k0, i);
    AddPagesProcs(DropPages(k0, i), i, fs);
    assert [] + fs == fs;
    if RefInv(k) {
      SamePagesKeeps(k, i, p);
      DropPagesKeeps(k0, i);
      AddPagesKeeps(DropPages(k0, i), i, fs);
    }
  }

  /** The process after exec, in closed form; nobody else changes, and reference counts are kept. */
  lemma ExecMeaning(k: Kern, i: nat, cfg: Config, segPages: nat, entry: int, fs: Frames)
    requires Listed(k, i) && InRange(k.procs[i].pages, |k.refcount|) && FramesFor(k, cfg, segPages, fs)
    ensures var base := (StackPages(cfg) + segPages + 1) * PAGE_SIZE;
            Became(k, Execed(k, i, cfg, segPages, entry, fs), i,
                   k.procs[i].(pages := fs.stack + fs.image + fs.heap + fs.args,
                               pageCount := StackPages(cfg) + segPages + HeapPages(cfg) + 1,
                               stackTop := cfg.argsBase, entry := entry, heapBase := base, heapPointer := base))
    ensures RefInv(k) ==> RefInv(Execed(k, i, cfg, segPages, entry, fs))
  {
    WithStackBecame(k, i, cfg, fs.stack);
    var k1, p1 := WithStack(k, i, cfg, fs.stack), StackProc(k.procs[i], cfg, fs.stack);
    var q2 := ImageProc(p1, segPages, entry);
    GrownBecame(k, k1, i, p1, q2, fs.image);
    var k2, p2 := Grown(k1, i, q2, fs.image), MorePages(q2, fs.image);
    var q3 := HeapProc(p2, cfg);
    GrownBecame(k, k2, i, p2, q3, fs.heap);
    var k3, p3 := Grown(k2, i, q3, fs.heap), MorePages(q3, fs.heap);
    var q4 := ArgsProc(p3);
    GrownBecame(k, k3, i, p3, q4, fs.args);
    ExecFields(k.procs[i], cfg, segPages, entry, fs);
  }

  lemma ExecFields(p: Proc, cfg: Config, segPages: nat, entry: int, fs: Frames)
    ensures var q2 := ImageProc(StackProc(p, cfg, fs.stack), segPages, entry);
            var q3 := HeapProc(MorePages(q2, fs.image), cfg);
            var q4 := ArgsProc(MorePages(q3, fs.heap));
            var base := (StackPages(cfg) + segPages + 1) * PAGE_SIZE;
            MorePages(q4, fs.args) ==
            p.(pages := fs.stack + fs.image + fs.heap + fs.args,
               pageCount := StackPages(cfg) + segPages + HeapPages(cfg) + 1,
               stackTop := cfg.argsBase, entry := entry, heapBase := base, heapPointer := base)
  {
  }

  function StackProc(p: Proc, cfg: Config, fs: seq<nat>): Proc {
    p.(pageCount := StackPages(cfg), stackTop := cfg.argsBase, pages := fs)
  }

  function MorePages(p: Proc, fs: seq<nat>): Proc {
    p.(pages := p.pages + fs)
  }

  lemma SamePagesKeeps(k: Kern, i: nat, p: Proc)
    requires RefInv(k) && Listed(k, i) && p.pages == k.procs[i].pages
    ensures RefInv(WithProc(k, i, p))
  {
    forall f: nat | f < |k.refcount|
      ensures k.refcount[f] == Entries(k.procs[i := p], f)
    {
      EntriesUpdate(k.procs, i, p, f);
    }
  }

  /** Frames that nobody else refers to when exec takes them, each once, are afterwards its own, with one
      reference each. */
  lemma ExecOwns(k: Kern, i: nat, cfg: Config, segPages: nat, entry: int, fs: Frames, f: nat)
    requires RefInv(k) && Listed(k, i) && InRange(k.procs[i].pages, |k.refcount|) && FramesFor(k, cfg, segPages, fs)
    requires multiset(fs.All())[f] == 1 && Available(k, i, f)
    ensures SoleOwner(Execed(k, i, cfg, segPages, entry, fs), i, f)
  {
    ExecMeaning(k, i, cfg, segPages, entry, fs);
    var k' := Execed(k, i, cfg, segPages, entry, fs);
    EntriesUpdate(k.procs, i, k'.procs[i], f);
    OneReference(k', i, f);
  }

  lemma OnceEach(fs: seq<nat>, x: nat)
    requires x < |fs| && forall y :: 0 <= y < |fs| && y != x ==> fs[y] != fs[x]
    ensures multiset(fs)[fs[x]] == 1
  {
    assert fs == fs[..x] + [fs[x]] + fs[x + 1..];
    assert fs[x] !in fs[..x] && fs[x] !in fs[x + 1..];
  }

  /** A range of addresses [from, to). */
  datatype Range = Range(from: int, to: int)

  predicate Disjoint(a: Range, b: Range) {
    a.to <= b.from || b.to <= a.from
  }

  function StackRange(cfg: Config): Range { Range(cfg.argsBase - StackPages(cfg) * PAGE_SIZE, cfg.argsBase) }
  function ImageRange(p: Proc, segPages: nat): Range { Range(p.entry, p.entry + segPages * PAGE_SIZE) }
  function HeapRange(p: Proc, cfg: Config): Range { Range(p.heapBase, p.heapBase + HeapPages(cfg) * PAGE_SIZE) }
  function ArgsRange(cfg: Config): Range { Range(cfg.argsBase, cfg.argsBase + PAGE_SIZE) }

  /** With the image linked at the first page, exec lays out stack, image, heap and arguments without
      overlap exactly when they fit below the arguments; the page count is the length of the page list. */
  lemma ExecLayout(k: Kern, i: nat, cfg: Config, segPages: nat, fs: Frames)
    requires Listed(k, i) && InRange(k.procs[i].pages, |k.refcount|) && FramesFor(k, cfg, segPages, fs)
    requires cfg.heapSize > 0 && cfg.stackSize > 0 && segPages > 0
    requires StackPages(cfg) * PAGE_SIZE <= cfg.argsBase
    ensures var p := Execed(k, i, cfg, segPages, PAGE_SIZE, fs).procs[i];
            && p.pageCount == |p.pages|
            && PAGE_SIZE <= p.entry && ImageRange(p, segPages).to <= p.heapBase
            && ((2 * StackPages(cfg) + segPages + 1 + HeapPages(cfg)) * PAGE_SIZE <= cfg.argsBase <==>
                  && Disjoint(StackRange(cfg), ImageRange(p, segPages))
                  && Disjoint(StackRange(cfg), HeapRange(p, cfg))
                  && Disjoint(StackRange(cfg), ArgsRange(cfg))
                  && Disjoint(ImageRange(p, segPages), HeapRange(p, cfg))
                  && Disjoint(ImageRange(p, segPages), ArgsRange(cfg))
                  && Disjoint(HeapRange(p, cfg), ArgsRange(cfg)))
  {
    ExecMeaning(k, i, cfg, segPages, PAGE_SIZE, fs);
    PagesForPositive(cfg.heapSize);
    PagesForPositive(cfg.stackSize);
  }

  /** No more and no fewer pages than the size needs. */
  lemma PagesForPositive(size: nat)
    requires size > 0
    ensures PagesFor(size) > 0 && (PagesFor(size) - 1) * PAGE_SIZE < size <= PagesFor(size) * PAGE_SIZE
  {
  }

  // ----- the heap -----

  ghost predicate HeapOk(p: Proc, cfg: Config) {
    && 0 <= p.heapBase <= p.heapPointer < p.heapBase + cfg.heapSize <= 0x1_0000_0000
    && cfg.heapSize <= 0x8000_0000
  }

  /** The 32-bit arithmetic of sbrk decides as exact arithmetic does, and the break stays in the heap
      and in its mapped pages. */
  lemma BreakExact(base: int, pointer: int, heapSize: nat, increment: int)
    requires 0 <= base <= pointer < base + heapSize <= 0x1_0000_0000 && heapSize <= 0x8000_0000
    requires -0x8000_0000 <= increment < 0x8000_0000
    ensures MovedBreak(base, pointer, heapSize, increment) ==
            if base <= pointer + increment < base + heapSize then Some(pointer + increment) else None
  {
  }

  function Breaks(base: int, pointer: int, heapSize: nat, increments: seq<int>): int
    decreases |increments|
  {
    if increments == [] then pointer
    else
      var b := MovedBreak(base, pointer, heapSize, increments[0]);
      Breaks(base, if b.Some? then b.value else pointer, heapSize, increments[1..])
  }

  /** The increments that were granted. */
  function Granted(base: int, pointer: int, heapSize: nat, increments: seq<int>): seq<int>
    decreases |increments|
  {
    if increments == [] then []
    else
      var b := MovedBreak(base, pointer, heapSize, increments[0]);
      if b.Some? then [increments[0]] + Granted(base, b.value, heapSize, increments[1..])
      else Granted(base, pointer, heapSize, increments[1..])
  }

  function Sum(s: seq<int>): int {
    if s == [] then 0 else s[0] + Sum(s[1..])
  }

  /** Over any sequence of sbrk calls the break is where it started plus the granted increments, and
      never leaves the heap. */
  lemma {:induction false} BreakIsSum(base: int, pointer: int, heapSize: nat, increments: seq<int>)
    requires 0 <= base <= pointer < base + heapSize <= 0x1_0000_0000 && heapSize <= 0x8000_0000
    requires forall x :: 0 <= x < |increments| ==> -0x8000_0000 <= increments[x] < 0x8000_0000
    ensures Breaks(base, pointer, heapSize, increments) == pointer + Sum(Granted(base, pointer, heapSize, increments))
    ensures base <= Breaks(base, pointer, heapSize, increments) < base + PagesFor(heapSize) * PAGE_SIZE
    decreases |increments|
  {
    PagesForPositive(heapSize);
    if increments != [] {
      BreakExact(base, pointer, heapSize, increments[0]);
      var b := MovedBreak(base, pointer, heapSize, increments[0]);
      BreakIsSum(base, if b.Some? then b.value else pointer, heapSize, increments[1..]);
      if b.Some? {
        var rest := Granted(base, b.value, heapSize, increments[1..]);
        assert ([increments[0]] + rest)[1..] == rest;
      }
    }
  }

  // ----- any run -----

  datatype Call =
    | Fork(i: nat, frames: seq<nat>)
    | Exit(i: nat, status: int)
    | Waitpid(i: nat, pid: int, nohang: bool)
    | Exec(i: nat, segPages: nat, entry: int, image: Frames)
    | Sbrk(i: nat, increment: int)
    | Schedule(i: nat, state: State)

  /** A call that a running process makes and that returns; or a move of the scheduler. */
  ghost predicate Enabled(k: Kern, cfg: Config, c: Call) {
    && Listed(k, c.i)
    && (!c.Schedule? ==> k.procs[c.i].state == RUNNING)
    && match c
       case Fork(i, fs) => InRange(fs, |k.refcount|)
       case Exit(i, status) => k.procs[i].parent != None && InRange(k.procs[i].pages, |k.refcount|)
       case Waitpid(i, pid, nohang) => Waited(k, pid, nohang) != Blocked
       case Exec(i, segPages, entry, fs) =>
         && InRange(k.procs[i].pages, |k.refcount|) && FramesFor(k, cfg, segPages, fs)
         && (StackPages(cfg) + segPages + 1) * PAGE_SIZE + cfg.heapSize <= 0x1_0000_0000 && cfg.heapSize <= 0x8000_0000
       case Sbrk(i, increment) => -0x8000_0000 <= increment < 0x8000_0000
       case Schedule(i, state) => k.procs[i].state != ZOMBIE && state != ZOMBIE
  }

  ghost function After(k: Kern, cfg: Config, c: Call): Kern
    requires Enabled(k, cfg, c)
  {
    match c
    case Fork(i, fs) => Forked(k, i, fs)
    case Exit(i, status) => Exited(k, i, status)
    case Waitpid(i, pid, nohang) => Waited(k, pid, nohang).k
    case Exec(i, segPages, entry, fs) => Execed(k, i, cfg, segPages, entry, fs)
    case Sbrk(i, increment) => Sbrked(k, i, cfg, increment)
    case Schedule(i, state) => Scheduled(k, i, state)
  }

  /** waitpid of a process that is itself waiting does not join it, and goes on to remove it. */
  predicate RemovesWaiting(k: Kern, pid: int, nohang: bool) {
    var i := WaitTarget(k, pid);
    pid != -1 && !nohang && i != -1 && k.procs[i].state == WAITING && FindByParent(k, k.procs[i].pid) == -1
  }

  /** The removed process still holds pages. */
  predicate LosesPages(k: Kern, pid: int, nohang: bool) {
    RemovesWaiting(k, pid, nohang) && k.procs[WaitTarget(k, pid)].pages != []
  }

  /** Dead processes hold no pages, and only they have been joined. */
  ghost predicate ZombieInv(k: Kern) {
    forall i :: 0 <= i < |k.procs| ==>
      && (k.procs[i].state == ZOMBIE ==> k.procs[i].pages == [])
      && (k.procs[i].joined ==> k.procs[i].state == ZOMBIE)
  }

  ghost predicate HeapsOk(k: Kern, cfg: Config) {
    forall i :: 0 <= i < |k.procs| ==> HeapOk(k.procs[i], cfg)
  }

  ghost predicate Inv(k: Kern, cfg: Config) {
    TreeInv(k) && RefInv(k) && ZombieInv(k) && HeapsOk(k, cfg)
  }

  // ----- what every call keeps -----

  lemma ForkKeepsRefs(k: Kern, i: nat, fs: seq<nat>)
    requires RefInv(k) && Listed(k, i) && InRange(fs, |k.refcount|)
    ensures RefInv(Forked(k, i, fs))
  {
    var n := |k.procs|;
    var k1 := k.(procs := k.procs + [NewChild(k, k.procs[i])], pidCurrent := k.pidCurrent + 1);
    assert k1.procs[..n] == k.procs;
    assert RefInv(k1);
    AddPagesKeeps(k1, n, fs);
    var k2 := AddPages(k1, n, fs);
    SamePagesKeeps(k2, n, k2.procs[n].(state := READY));
  }

  lemma ForkProcs(k: Kern, i: nat, fs: seq<nat>)
    requires Listed(k, i) && InRange(fs, |k.refcount|)
    ensures var p := k.procs[i];
            Forked(k, i, fs).procs ==
            k.procs + [Proc(k.pidCurrent, Some(p.pid), READY, false, 0, fs, p.pageCount, p.stackTop,
                            p.heapBase, p.heapPointer, 0)]
  {
    var n := |k.procs|;
    var k1 := k.(procs := k.procs + [NewChild(k, k.procs[i])], pidCurrent := k.pidCurrent + 1);
    AddPagesProcs(k1, n, fs);
    assert [] + fs == fs;
  }

  /** A new frame of the child is its own. */
  lemma ForkOwns(k: Kern, i: nat, fs: seq<nat>, f: nat)
    requires RefInv(k) && Listed(k, i) && InRange(fs, |k.refcount|)
    requires multiset(fs)[f] == 1 && f in k.free
    ensures SoleOwner(Forked(k, i, fs), |k.procs|, f)
  {
    ForkKeepsRefs(k, i, fs);
    ForkProcs(k, i, fs);
    var k' := Forked(k, i, fs);
    assert k'.procs[..|k.procs|] == k.procs;
    OneReference(k', |k.procs|, f);
  }

  lemma ForkKeeps(k: Kern, cfg: Config, i: nat, fs: seq<nat>)
    requires Inv(k, cfg) && Listed(k, i) && InRange(fs, |k.refcount|)
    ensures Inv(Forked(k, i, fs), cfg)
  {
    ForkKeepsTree(k, i, fs);
    ForkKeepsRefs(k, i, fs);
    ForkProcs(k, i, fs);
  }

  lemma ExitProcs(k: Kern, i: nat, status: int)
    requires Listed(k, i) && InRange(k.procs[i].pages, |k.refcount|)
    ensures Exited(k, i, status).procs ==
            k.procs[i := k.procs[i].(state := ZOMBIE, exitStatus := status, pages := [])]
    ensures Exited(k, i, status).pidCurrent == k.pidCurrent
    ensures RefInv(k) ==> RefInv(Exited(k, i, status))
  {
    var p := k.procs[i].(state := ZOMBIE, exitStatus := status);
    DropPagesProcs(WithProc(k, i, p), i);
    if RefInv(k) {
      SamePagesKeeps(k, i, p);
      DropPagesKeeps(WithProc(k, i, p), i);
    }
  }

  lemma ExitKeeps(k: Kern, cfg: Config, i: nat, status: int)
    requires Inv(k, cfg) && Listed(k, i) && k.procs[i].parent != None
    ensures InRange(k.procs[i].pages, |k.refcount|)
    ensures Inv(Exited(k, i, status), cfg)
  {
    ExitProcs(k, i, status);
    SameTreeKeeps(k, Exited(k, i, status));
  }

  lemma ExecKeeps(k: Kern, cfg: Config, i: nat, segPages: nat, entry: int, fs: Frames)
    requires Inv(k, cfg) && Listed(k, i) && k.procs[i].state == RUNNING
    requires Enabled(k, cfg, Exec(i, segPages, entry, fs)) && cfg.heapSize > 0
    ensures Inv(Execed(k, i, cfg, segPages, entry, fs), cfg)
  {
    ExecMeaning(k, i, cfg, segPages, entry, fs);
    SameTreeKeeps(k, Execed(k, i, cfg, segPages, entry, fs));
  }

  lemma SbrkKeeps(k: Kern, cfg: Config, i: nat, increment: int)
    requires Inv(k, cfg) && Listed(k, i) && -0x8000_0000 <= increment < 0x8000_0000
    ensures Inv(Sbrked(k, i, cfg, increment), cfg)
  {
    var p := k.procs[i];
    BreakExact(p.heapBase, p.heapPointer, cfg.heapSize, increment);
    var b := MovedBreak(p.heapBase, p.heapPointer, cfg.heapSize, increment);
    if b.Some? {
      SamePagesKeeps(k, i, p.(heapPointer := b.value));
      SameTreeKeeps(k, Sbrked(k, i, cfg, increment));
    }
  }

  lemma ScheduleKeeps(k: Kern, cfg: Config, i: nat, state: State)
    requires Inv(k, cfg) && Listed(k, i) && k.procs[i].state != ZOMBIE && state != ZOMBIE
    ensures Inv(Scheduled(k, i, state), cfg)
  {
    SamePagesKeeps(k, i, k.procs[i].(state := state));
    SameTreeKeeps(k, Scheduled(k, i, state));
  }

  // ----- waitpid -----

  /** The root is never the process that waitpid removes: it never exits, and it is not waiting when it
      is the only process left, because the caller is running. */
  lemma RootStays(k: Kern, caller: nat, i: nat)
    requires TreeInv(k) && Listed(k, caller) && k.procs[caller].state == RUNNING
    requires Listed(k, i) && (k.procs[i].state == WAITING || k.procs[i].state == ZOMBIE)
    requires FindByParent(k, k.procs[i].pid) == -1
    ensures i > 0
  {
    if i == 0 && |k.procs| > 1 {
      RootHasChild(k);
    }
  }

  /** Whoever is waited for, the tree is kept: no listed process loses its parent. */
  lemma WaitKeepsTree(k: Kern, caller: nat, pid: int, nohang: bool)
    requires TreeInv(k) && Listed(k, caller) && k.procs[caller].state == RUNNING
    requires Waited(k, pid, nohang) != Blocked
    ensures TreeInv(Waited(k, pid, nohang).k)
  {
    var i := WaitTarget(k, pid);
    if i != -1 && !(nohang && k.procs[i].state != ZOMBIE) {
      var child := k.procs[i];
      var k1 := if child.state == WAITING then k else WithProc(k, i, child.(joined := true));
      SameTreeKeeps(k, k1);
      if FindByParent(k1, child.pid) == -1 {
        NoChildSame(k, k1, child.pid);
        RootStays(k, caller, i);
        RemoveKeepsTree(k1, i);
      }
    }
  }

  lemma NoChildSame(k: Kern, k1: Kern, pid: nat)
    requires SameTree(k.procs, k1.procs) && FindByParent(k1, pid) == -1
    ensures FindByParent(k, pid) == -1
  {
    assert forall j :: 0 <= j < |k.procs| ==> k.procs[j].parent == k1.procs[j].parent;
  }

  /** waitpid removes nobody, or one childless process; that process is a zombie exactly when the call
      is not one for a single process that is itself waiting. */
  lemma OnlyZombiesRemoved(k: Kern, pid: int, nohang: bool)
    requires Waited(k, pid, nohang) != Blocked
    ensures var k', i := Waited(k, pid, nohang).k, WaitTarget(k, pid);
            || (|k'.procs| == |k.procs| && !RemovesWaiting(k, pid, nohang))
            || (&& Listed(k, i) && k'.procs == Removed(k, i).procs
                && FindByParent(k, k.procs[i].pid) == -1
                && (k.procs[i].state == ZOMBIE <==> !RemovesWaiting(k, pid, nohang)))
  {
  }

  lemma RemoveKeepsRefs(k: Kern, i: nat)
    requires RefInv(k) && Listed(k, i) && k.procs[i].pages == []
    ensures RefInv(Removed(k, i))
  {
    var r := Removed(k, i).procs;
    assert forall x :: 0 <= x < |r| ==> r[x] == k.procs[if x < i then x else x + 1];
    forall f: nat | f < |k.refcount|
      ensures k.refcount[f] == Entries(r, f)
    {
      EntriesRemove(k.procs, i, f);
    }
  }

  lemma RemoveKeepsOthers(k: Kern, cfg: Config, i: nat)
    requires ZombieInv(k) && HeapsOk(k, cfg) && Listed(k, i)
    ensures ZombieInv(Removed(k, i)) && HeapsOk(Removed(k, i), cfg)
  {
  }

  lemma WaitKeeps(k: Kern, cfg: Config, caller: nat, pid: int, nohang: bool)
    requires Inv(k, cfg) && Listed(k, caller) && k.procs[caller].state == RUNNING
    requires Waited(k, pid, nohang) != Blocked && !LosesPages(k, pid, nohang)
    ensures Inv(Waited(k, pid, nohang).k, cfg)
  {
    WaitKeepsTree(k, caller, pid, nohang);
    var i := WaitTarget(k, pid);
    if RemovesWaiting(k, pid, nohang) {
      RemoveKeepsRefs(k, i);
      RemoveKeepsOthers(k, cfg, i);
    } else if i != -1 && k.procs[i].state == ZOMBIE {
      ReapKeeps(k, cfg, i);
    }
  }

  lemma ReapKeeps(k: Kern, cfg: Config, i: nat)
    requires RefInv(k) && ZombieInv(k) && HeapsOk(k, cfg) && Listed(k, i) && k.procs[i].state == ZOMBIE
    ensures var k' := Reaped(WithProc(k, i, k.procs[i].(joined := true)), i);
            RefInv(k') && ZombieInv(k') && HeapsOk(k', cfg)
  {
    var child := k.procs[i].(joined := true);
    var k1 := WithProc(k, i, child);
    SamePagesKeeps(k, i, child);
    RemoveKeepsRefs(k1, i);
    RemoveKeepsOthers(k1, cfg, i);
  }

  /** The removal of a process that holds a page loses that page's count. */
  lemma RemoveLosesRefs(k: Kern, i: nat)
    requires RefInv(k) && Listed(k, i) && k.procs[i].pages != []
    ensures !RefInv(Removed(k, i))
  {
    var f := k.procs[i].pages[0];
    FreeMeansUnreferenced(k, i, f);
    EntriesRemove(k.procs, i, f);
  }

  /** waitpid keeps the reference counts exactly when it does not remove a waiting process that holds
      pages. */
  lemma WaitKeepsRefsIff(k: Kern, cfg: Config, caller: nat, pid: int, nohang: bool)
    requires Inv(k, cfg) && Listed(k, caller) && k.procs[caller].state == RUNNING
    requires Waited(k, pid, nohang) != Blocked
    ensures RefInv(Waited(k, pid, nohang).k) <==> !LosesPages(k, pid, nohang)
  {
    if LosesPages(k, pid, nohang) {
      RemoveLosesRefs(k, WaitTarget(k, pid));
    } else {
      WaitKeeps(k, cfg, caller, pid, nohang);
    }
  }

  /** The processes that a waitpid may be for: the one with that pid, or every zombie nobody joined. */
  ghost predicate Wanted(k: Kern, pid: int, i: int) {
    Listed(k, i) && if pid == -1 then k.procs[i].state == ZOMBIE && !k.procs[i].joined else k.procs[i].pid == pid
  }

  /** Process i, which the caller got the answer for, is gone, or stays for its children; nothing else
      changes. */
  ghost predicate Answered(k: Kern, k': Kern, i: nat)
    requires Listed(k, i)
  {
    var p := k.procs[i];
    && k'.refcount == k.refcount && k'.free == k.free && k'.pidCurrent == k.pidCurrent
    && if forall j :: 0 <= j < |k.procs| ==> k.procs[j].parent != Some(p.pid)
       then k'.procs == k.procs[..i] + k.procs[i + 1..]
       else k'.procs == k.procs[i := p.(joined := p.joined || p.state == ZOMBIE)]
  }

  ghost predicate StatusOf(p: Proc, status: Option<nat>) {
    && status.Some?
    && (p.state == ZOMBIE ==> status.value % 0x80 == 0 && status.value / 0x100 == p.exitStatus % 0x100)
    && (p.state != ZOMBIE ==> status.value == 0xFFFF_FF80)
  }

  /** What a caller of waitpid sees: who is found, reaped and reported, for every outcome. */
  ghost predicate WaitAnswer(k: Kern, k': Kern, pid: int, nohang: bool, done: bool, ret: int, status: Option<nat>) {
    && (done && ret == -1 <==> forall i :: 0 <= i < |k.procs| ==> !Wanted(k, pid, i))
    && (done && ret == 0 <==> nohang && exists i :: Wanted(k, pid, i) && k.procs[i].state != ZOMBIE)
    && (!done <==> !nohang && exists i :: Wanted(k, pid, i) && k.procs[i].state != ZOMBIE
                                          && k.procs[i].state != WAITING)
    && (!done || ret <= 0 ==> k' == k)
    && (done && ret == -1 ==> status == if pid == -1 then None else Some(0xFFFF_FF80))
    && (done && ret == 0 ==> status == None)
    && (done ==> ret >= -1)
    && (done && ret > 0 ==>
         exists i :: Wanted(k, pid, i) && k.procs[i].pid == ret && (forall j :: 0 <= j < i ==> !Wanted(k, pid, j))
                     && Answered(k, k', i) && StatusOf(k.procs[i], status))
  }

  lemma WaitedAnswers(k: Kern, pid: int, nohang: bool)
    requires TreeInv(k)
    ensures var r := Waited(k, pid, nohang);
            if r == Blocked then forall ret, status :: WaitAnswer(k, k, pid, nohang, false, ret, status)
            else WaitAnswer(k, r.k, pid, nohang, true, r.ret, r.status)
  {
    var i := WaitTarget(k, pid);
    TargetWanted(k, pid);
    if i != -1 {
      WantedOnly(k, pid, i);
      var r := Waited(k, pid, nohang);
      if r.Back? && r.ret > 0 {
        ReapAnswered(k, i);
        StatusRead(k.procs[i].exitStatus);
        assert Wanted(k, pid, i) && Answered(k, r.k, i) && StatusOf(k.procs[i], r.status);
      }
    }
  }

  lemma TargetWanted(k: Kern, pid: int)
    ensures var i := WaitTarget(k, pid);
            && (i == -1 <==> forall j :: 0 <= j < |k.procs| ==> !Wanted(k, pid, j))
            && (i != -1 ==> Wanted(k, pid, i) && forall j :: 0 <= j < i ==> !Wanted(k, pid, j))
  {
    var i := WaitTarget(k, pid);
    if i == -1 {
      forall j | 0 <= j < |k.procs|
        ensures !Wanted(k, pid, j)
      {
        var p := k.procs[j];
        assert pid == -1 || p.pid != pid;
      }
    } else {
      assert Wanted(k, pid, i);
    }
  }

  lemma WantedOnly(k: Kern, pid: int, i: nat)
    requires TreeInv(k) && Wanted(k, pid, i)
    ensures forall j :: Wanted(k, pid, j) && k.procs[j].state != ZOMBIE ==> j == i
    ensures k.procs[i].pid > 0 && (pid != -1 ==> k.procs[i].pid == pid)
  {
  }

  lemma ReapAnswered(k: Kern, i: nat)
    requires Listed(k, i)
    ensures var p := k.procs[i];
            Answered(k, if p.state == WAITING then Reaped(k, i)
                        else Reaped(WithProc(k, i, p.(joined := true)), i), i)
            || (p.state != WAITING && p.state != ZOMBIE)
  {
    var p := k.procs[i];
    if p.state == ZOMBIE || p.state == WAITING {
      var k1 := if p.state == WAITING then k else WithProc(k, i, p.(joined := true));
      assert forall j :: 0 <= j < |k.procs| ==> k.procs[j].parent == k1.procs[j].parent;
      if FindByParent(k1, p.pid) == -1 {
        assert Removed(k1, i).procs == k.procs[..i] + k.procs[i + 1..];
      } else {
        assert p.(joined := p.joined) == p;
      }
    }
  }

  lemma StatusRead(exitStatus: int)
    ensures ZombieStatus(exitStatus) % 0x80 == 0 && ZombieStatus(exitStatus) / 0x100 == exitStatus % 0x100
  {
    var code := exitStatus % 0x100;
    assert code * 0x100 == code * 2 * 0x80;
  }

  /** The exit code that a parent reads from the status (bits 8 to 15) is the low byte of what the
      child left; for a waiting process that is removed it is 255, whatever the process does later. */
  lemma ExitCodeRead(k: Kern, pid: int, nohang: bool)
    requires Waited(k, pid, nohang).Back? && Waited(k, pid, nohang).ret > 0
    ensures var i, status := WaitTarget(k, pid), Waited(k, pid, nohang).status;
            && Listed(k, i) && status.Some?
            && (k.procs[i].state == ZOMBIE ==> status.value / 0x100 % 0x100 == k.procs[i].exitStatus % 0x100)
            && (k.procs[i].state != ZOMBIE ==> status.value / 0x100 % 0x100 == 0xFF)
  {
    var i := WaitTarget(k, pid);
    assert i != -1;
    StatusRead(k.procs[i].exitStatus);
  }

  // ----- runs -----

  lemma CallKeepsTree(k: Kern, cfg: Config, c: Call)
    requires TreeInv(k) && Enabled(k, cfg, c)
    ensures TreeInv(After(k, cfg, c))
  {
    match c {
      case Fork(i, fs) => ForkKeepsTree(k, i, fs);
      case Exit(i, status) =>
        ExitProcs(k, i, status);
        SameTreeKeeps(k, Exited(k, i, status));
      case Waitpid(i, pid, nohang) => WaitKeepsTree(k, i, pid, nohang);
      case Exec(i, segPages, entry, fs) =>
        ExecMeaning(k, i, cfg, segPages, entry, fs);
        SameTreeKeeps(k, Execed(k, i, cfg, segPages, entry, fs));
      case _ => SameTreeKeeps(k, After(k, cfg, c));
    }
  }

  lemma CallKeeps(k: Kern, cfg: Config, c: Call)
    requires Inv(k, cfg) && Enabled(k, cfg, c) && cfg.heapSize > 0
    requires !Loses(k, c)
    ensures Inv(After(k, cfg, c), cfg)
  {
    match c {
      case Fork(i, fs) => ForkKeeps(k, cfg, i, fs);
      case Exit(i, status) => ExitKeeps(k, cfg, i, status);
      case Waitpid(i, pid, nohang) => WaitKeeps(k, cfg, i, pid, nohang);
      case Exec(i, segPages, entry, fs) => ExecKeeps(k, cfg, i, segPages, entry, fs);
      case Sbrk(i, increment) => SbrkKeeps(k, cfg, i, increment);
      case Schedule(i, state) => ScheduleKeeps(k, cfg, i, state);
    }
  }

  ghost predicate Goes(k: Kern, cfg: Config, c: Call, k': Kern) {
    Enabled(k, cfg, c) && k' == After(k, cfg, c)
  }

  ghost predicate Run(states: seq<Kern>, calls: seq<Call>, cfg: Config) {
    && |states| == |calls| + 1
    && forall x {:trigger Goes(states[x], cfg, calls[x], states[x + 1])} ::
         0 <= x < |calls| ==> Goes(states[x], cfg, calls[x], states[x + 1])
  }

  /** The process tree over any run of calls, in any order. */
  lemma {:induction false} RunKeepsTree(states: seq<Kern>, calls: seq<Call>, cfg: Config, n: nat)
    requires Run(states, calls, cfg) && n < |states| && TreeInv(states[0])
    ensures TreeInv(states[n])
  {
    if n > 0 {
      RunKeepsTree(states, calls, cfg, n - 1);
      RunLink(states, calls, cfg, n - 1);
      CallKeepsTree(states[n - 1], cfg, calls[n - 1]);
    }
  }

  ghost predicate Loses(k: Kern, c: Call) {
    c.Waitpid? && LosesPages(k, c.pid, c.nohang)
  }

  /** Tree, reference counts, page-less zombies and heaps, over any run in which no waiting process is
      removed together with its pages. */
  lemma {:induction false} RunKeeps(states: seq<Kern>, calls: seq<Call>, cfg: Config, n: nat)
    requires Run(states, calls, cfg) && n < |states| && Inv(states[0], cfg) && cfg.heapSize > 0
    requires forall x :: 0 <= x < n ==> !Loses(states[x], calls[x])
    ensures Inv(states[n], cfg)
  {
    if n > 0 {
      RunKeeps(states, calls, cfg, n - 1);
      RunLink(states, calls, cfg, n - 1);
      CallKeepsIff(states[n - 1], cfg, calls[n - 1]);
    }
  }

  lemma RunLink(states: seq<Kern>, calls: seq<Call>, cfg: Config, x: nat)
    requires Run(states, calls, cfg) && x < |calls|
    ensures Enabled(states[x], cfg, calls[x]) && states[x + 1] == After(states[x], cfg, calls[x])
  {
    assert Goes(states[x], cfg, calls[x], states[x + 1]);
  }

  /** In every state of a run each reference count is the number of page-list entries, if and only if
      no call of the run removes a waiting process together with its pages. */
  lemma RunKeepsRefsIff(states: seq<Kern>, calls: seq<Call>, cfg: Config)
    requires Run(states, calls, cfg) && Inv(states[0], cfg) && cfg.heapSize > 0
    ensures (forall x :: 0 <= x < |states| ==> RefInv(states[x])) <==>
            (forall x :: 0 <= x < |calls| ==> !Loses(states[x], calls[x]))
  {
    if x: nat :| x < |calls| && Loses(states[x], calls[x]) && forall y :: 0 <= y < x ==> !Loses(states[y], calls[y]) {
      RunKeeps(states, calls, cfg, x);
      RunLink(states, calls, cfg, x);
      CallKeepsIff(states[x], cfg, calls[x]);
      assert !RefInv(states[x + 1]);
    } else {
      NoFirstLoss(states, calls, |calls|);
      forall x: nat | x < |states|
        ensures RefInv(states[x])
      {
        RunKeeps(states, calls, cfg, x);
      }
    }
  }

  lemma {:induction false} NoFirstLoss(states: seq<Kern>, calls: seq<Call>, n: nat)
    requires n <= |calls| < |states|
    requires forall x: nat :: x < |calls| && Loses(states[x], calls[x]) ==>
               exists y :: 0 <= y < x && Loses(states[y], calls[y])
    ensures forall x :: 0 <= x < n ==> !Loses(states[x], calls[x])
  {
    if n > 0 {
      NoFirstLoss(states, calls, n - 1);
    }
  }

  lemma CallKeepsIff(k: Kern, cfg: Config, c: Call)
    requires Inv(k, cfg) && Enabled(k, cfg, c) && cfg.heapSize > 0
    ensures RefInv(After(k, cfg, c)) <==> !Loses(k, c)
    ensures RefInv(After(k, cfg, c)) ==> Inv(After(k, cfg, c), cfg)
  {
    if c.Waitpid? {
      WaitKeepsRefsIff(k, cfg, c.i, c.pid, c.nohang);
    }
    if !Loses(k, c) {
      CallKeeps(k, cfg, c);
    }
  }

  function RootProc(cfg: Config): Proc {
    Proc(1, None, NEW, false, 0, [], StackPages(cfg), cfg.argsBase, 0, 0, 0)
  }

  /** The root process, alone, with its stack. */
  function Booted(k: Kern, cfg: Config, fs: seq<nat>): (r: Kern)
    requires InRange(fs, |k.refcount|)
  {
    Scheduled(AddPages(k.(procs := [RootProc(cfg)], pidCurrent := 2), 0, fs), 0, READY)
  }

  /** What every run starts from. */
  lemma BootInv(k: Kern, cfg: Config, fs: seq<nat>)
    requires 0 < cfg.heapSize <= 0x8000_0000
    requires k.refcount == seq(|k.refcount|, _ => 0) && InRange(fs, |k.refcount|)
    requires forall f: nat :: f in k.free <==> f < |k.refcount|
    ensures Inv(Booted(k, cfg, fs), cfg)
  {
    var root := RootProc(cfg);
    var k1 := k.(procs := [root], pidCurrent := 2);
    assert [root][..0] == [];
    assert forall f: nat :: Entries([], f) == 0;
    assert forall f: nat :: Entries([root], f) == 0;
    assert Inv(k1, cfg);
    AddPagesKeeps(k1, 0, fs);
    AddPagesProcs(k1, 0, fs);
    var k2 := AddPages(k1, 0, fs);
    SameTreeKeeps(k1, k2);
    ScheduleKeeps(k2, cfg, 0, READY);
  }

  /** The root forks a child and waits for it while the child waits for something else. */
  function WaitingCalls(child: seq<nat>): seq<Call> {
    [Schedule(0, RUNNING), Fork(0, child), Schedule(1, WAITING), Waitpid(0, 2, false)]
  }

  /** From every boot, for a child with any pages: this run is possible, and its last call removes the
      live child and leaves reference counts that no page list accounts for. */
  lemma WaitingIsRemoved(k: Kern, cfg: Config, fs: seq<nat>, child: seq<nat>) returns (states: seq<Kern>)
    requires 0 < cfg.heapSize <= 0x8000_0000
    requires k.refcount == seq(|k.refcount|, _ => 0) && InRange(fs, |k.refcount|)
    requires forall f: nat :: f in k.free <==> f < |k.refcount|
    requires child != [] && InRange(child, |k.refcount|)
    ensures Run(states, WaitingCalls(child), cfg) && states[0] == Booted(k, cfg, fs)
    ensures Inv(states[3], cfg) && |states[3].procs| == 2 && states[3].procs[1].state == WAITING
    ensures |states[4].procs| == 1 && !RefInv(states[4])
  {
    BootInv(k, cfg, fs);
    BootProcs(k, cfg, fs);
    var k0 := Booted(k, cfg, fs);
    var k1, k2, k3 := ChildWaits(k0, cfg, child);
    var k4 := LiveRemoved(k3, cfg);
    states := FourCalls(cfg, k0, Schedule(0, RUNNING), k1, Fork(0, child), k2, Schedule(1, WAITING), k3,
                        Waitpid(0, 2, false), k4);
  }

  lemma FourCalls(cfg: Config, k0: Kern, c0: Call, k1: Kern, c1: Call, k2: Kern, c2: Call, k3: Kern, c3: Call, k4: Kern)
    returns (states: seq<Kern>)
    requires Goes(k0, cfg, c0, k1) && Goes(k1, cfg, c1, k2) && Goes(k2, cfg, c2, k3) && Goes(k3, cfg, c3, k4)
    ensures states == [k0, k1, k2, k3, k4] && Run(states, [c0, c1, c2, c3], cfg)
  {
    var calls: seq<Call>;
    states, calls := [k0], [];
    states, calls := ExtendRun(states, calls, cfg, c0, k1);
    states, calls := ExtendRun(states, calls, cfg, c1, k2);
    states, calls := ExtendRun(states, calls, cfg, c2, k3);
    states, calls := ExtendRun(states, calls, cfg, c3, k4);
    assert calls == [c0, c1, c2, c3];
  }

  lemma ExtendRun(states: seq<Kern>, calls: seq<Call>, cfg: Config, c: Call, k: Kern)
    returns (states': seq<Kern>, calls': seq<Call>)
    requires Run(states, calls, cfg) && Goes(states[|calls|], cfg, c, k)
    ensures states' == states + [k] && calls' == calls + [c] && Run(states', calls', cfg) && states'[|calls'|] == k
  {
    states', calls' := states + [k], calls + [c];
    forall x | 0 <= x < |calls'|
      ensures Goes(states'[x], cfg, calls'[x], states'[x + 1])
    {
      if x < |calls| {
        assert Goes(states[x], cfg, calls[x], states[x + 1]);
      }
    }
  }

  /** The root runs, its child has pid 2, waits, and holds pages. */
  ghost predicate RootAndWaiter(k: Kern, cfg: Config) {
    && Inv(k, cfg) && |k.procs| == 2 && k.procs[0].pid == 1 && k.procs[0].state == RUNNING
    && k.procs[1].pid == 2 && k.procs[1].parent == Some(1) && k.procs[1].state == WAITING && k.procs[1].pages != []
  }

  lemma ChildWaits(k: Kern, cfg: Config, child: seq<nat>) returns (k1: Kern, k2: Kern, k3: Kern)
    requires Inv(k, cfg) && |k.procs| == 1 && k.procs[0].pid == 1 && k.pidCurrent == 2
    requires child != [] && InRange(child, |k.refcount|)
    ensures Goes(k, cfg, Schedule(0, RUNNING), k1) && Goes(k1, cfg, Fork(0, child), k2)
    ensures Goes(k2, cfg, Schedule(1, WAITING), k3) && RootAndWaiter(k3, cfg)
  {
    k1 := Scheduled(k, 0, RUNNING);
    ScheduleKeeps(k, cfg, 0, RUNNING);
    k2 := RootForks(k1, cfg, child);
    k3 := Scheduled(k2, 1, WAITING);
  }

  lemma RootForks(k: Kern, cfg: Config, child: seq<nat>) returns (k': Kern)
    requires Inv(k, cfg) && |k.procs| == 1 && k.procs[0].pid == 1 && k.procs[0].state == RUNNING && k.pidCurrent == 2
    requires child != [] && InRange(child, |k.refcount|)
    ensures Goes(k, cfg, Fork(0, child), k') && RootAndWaiter(Scheduled(k', 1, WAITING), cfg)
    ensures Inv(k', cfg) && |k'.procs| == 2 && k'.procs[1].state == READY
  {
    k' := Forked(k, 0, child);
    ForkKeeps(k, cfg, 0, child);
    ForkProcs(k, 0, child);
    ScheduleKeeps(k', cfg, 1, WAITING);
  }

  lemma LiveRemoved(k: Kern, cfg: Config) returns (k': Kern)
    requires RootAndWaiter(k, cfg)
    ensures Goes(k, cfg, Waitpid(0, 2, false), k') && |k'.procs| == 1 && !RefInv(k')
  {
    assert FindByPid(k, 2) == 1 && FindByParent(k, 2) == -1;
    k' := Removed(k, 1);
    RemoveLosesRefs(k, 1);
  }

  lemma BootProcs(k: Kern, cfg: Config, fs: seq<nat>)
    requires InRange(fs, |k.refcount|)
    ensures Booted(k, cfg, fs).procs ==
            [Proc(1, None, READY, false, 0, fs, StackPages(cfg), cfg.argsBase, 0, 0, 0)]
    ensures |Booted(k, cfg, fs).refcount| == |k.refcount| && Booted(k, cfg, fs).pidCurrent == 2
  {
    AddPagesProcs(k.(procs := [RootProc(cfg)], pidCurrent := 2), 0, fs);
    assert [] + fs == fs;
  }

  // ----- the break of one process over a run -----

  ghost predicate Exists(k: Kern, q: nat) {
    FindByPid(k, q) != -1
  }

  ghost function ProcOf(k: Kern, q: nat): Proc
    requires Exists(k, q)
  {
    k.procs[FindByPid(k, q)]
  }

  ghost predicate ExecBy(k: Kern, c: Call, q: nat) {
    c.Exec? && Listed(k, c.i) && k.procs[c.i].pid == q
  }

  /** What process q was granted by a call. */
  ghost function GrantedTo(k: Kern, cfg: Config, c: Call, q: nat): int {
    if c.Sbrk? && Listed(k, c.i) && k.procs[c.i].pid == q
       && MovedBreak(k.procs[c.i].heapBase, k.procs[c.i].heapPointer, cfg.heapSize, c.increment).Some?
    then c.increment else 0
  }

  ghost function GrantedIn(states: seq<Kern>, calls: seq<Call>, cfg: Config, q: nat, from: nat, n: nat): int
    requires from <= n <= |calls| < |states|
    decreases n
  {
    if n == from then 0
    else GrantedIn(states, calls, cfg, q, from, n - 1) + GrantedTo(states[n - 1], cfg, calls[n - 1], q)
  }

  ghost predicate SameHeap(p: Proc, p': Proc) {
    p'.pid == p.pid && p'.heapBase == p.heapBase && p'.heapPointer == p.heapPointer
  }

  /** The pages of a process stay until it exits. */
  ghost predicate SamePages(p: Proc, p': Proc) {
    (p.state == ZOMBIE ==> p'.state == ZOMBIE) && (p'.state != ZOMBIE ==> p'.pages == p.pages)
  }

  /** The heap is the one of p0, the break is d further and in the heap, and the pages are those of p0. */
  ghost predicate BreakMoved(p0: Proc, p: Proc, d: int, cfg: Config) {
    && p.heapBase == p0.heapBase && p.heapPointer == p0.heapPointer + d
    && HeapOk(p, cfg) && SamePages(p0, p)
  }

  lemma UniquePid(k: Kern, i: nat)
    requires TreeInv(k) && Listed(k, i)
    ensures FindByPid(k, k.procs[i].pid) == i
  {
  }

  ghost predicate Untouched(p: Proc, p': Proc) {
    p' == p.(joined := p'.joined)
  }

  /** No call changes another process, but for the end of its main thread. */
  lemma OthersUntouched(k: Kern, cfg: Config, c: Call, j: nat, j': nat)
    requires TreeInv(k) && Enabled(k, cfg, c) && Listed(k, j) && Listed(After(k, cfg, c), j')
    requires After(k, cfg, c).procs[j'].pid == k.procs[j].pid
    requires c.Fork? || c.Waitpid? || c.i != j
    ensures Untouched(k.procs[j], After(k, cfg, c).procs[j'])
  {
    match c {
      case Fork(i, fs) => ForkProcs(k, i, fs);
      case Exit(i, status) => ExitProcs(k, i, status);
      case Waitpid(i, pid, nohang) => WaitUntouched(k, pid, nohang, j, j');
      case Exec(i, segPages, entry, fs) => ExecMeaning(k, i, cfg, segPages, entry, fs);
      case _ =>
    }
  }

  lemma WaitedProcs(k: Kern, pid: int, nohang: bool)
    requires Waited(k, pid, nohang) != Blocked && |Waited(k, pid, nohang).k.procs| == |k.procs|
    ensures forall j :: 0 <= j < |k.procs| ==> Untouched(k.procs[j], Waited(k, pid, nohang).k.procs[j])
  {
  }

  lemma WaitUntouched(k: Kern, pid: int, nohang: bool, j: nat, j': nat)
    requires TreeInv(k) && Waited(k, pid, nohang) != Blocked && Listed(k, j) && Listed(Waited(k, pid, nohang).k, j')
    requires Waited(k, pid, nohang).k.procs[j'].pid == k.procs[j].pid
    ensures Untouched(k.procs[j], Waited(k, pid, nohang).k.procs[j'])
  {
    var i, procs := WaitTarget(k, pid), Waited(k, pid, nohang).k.procs;
    if |procs| == |k.procs| {
      WaitedProcs(k, pid, nohang);
    } else {
      OnlyZombiesRemoved(k, pid, nohang);
      RemovedUntouched(k, i, j, j');
    }
  }

  lemma RemovedUntouched(k: Kern, i: nat, j: nat, j': nat)
    requires TreeInv(k) && Listed(k, i) && Listed(k, j) && Listed(Removed(k, i), j')
    requires Removed(k, i).procs[j'].pid == k.procs[j].pid
    ensures Removed(k, i).procs[j'] == k.procs[j]
  {
    assert Removed(k, i).procs[j'] == k.procs[if j' < i then j' else j' + 1];
  }

  /** Its own calls, other than exec and sbrk. */
  lemma OwnKeepsHeap(k: Kern, cfg: Config, c: Call, j': nat)
    requires TreeInv(k) && Enabled(k, cfg, c) && (c.Schedule? || c.Exit?) && Listed(After(k, cfg, c), j')
    requires After(k, cfg, c).procs[j'].pid == k.procs[c.i].pid
    ensures SameHeap(k.procs[c.i], After(k, cfg, c).procs[j'])
    ensures SamePages(k.procs[c.i], After(k, cfg, c).procs[j'])
  {
    if c.Exit? {
      ExitProcs(k, c.i, c.status);
    }
  }

  lemma SbrkMovesBreak(k: Kern, cfg: Config, j: nat, increment: int)
    requires TreeInv(k) && Listed(k, j) && -0x8000_0000 <= increment < 0x8000_0000 && HeapOk(k.procs[j], cfg)
    ensures FindByPid(Sbrked(k, j, cfg, increment), k.procs[j].pid) == j
    ensures var b := MovedBreak(k.procs[j].heapBase, k.procs[j].heapPointer, cfg.heapSize, increment);
            BreakMoved(k.procs[j], Sbrked(k, j, cfg, increment).procs[j], if b.Some? then increment else 0, cfg)
  {
    var p := k.procs[j];
    BreakExact(p.heapBase, p.heapPointer, cfg.heapSize, increment);
    SameTreeKeeps(k, Sbrked(k, j, cfg, increment));
    UniquePid(Sbrked(k, j, cfg, increment), j);
  }

  /** One call. */
  lemma CallMovesBreak(k: Kern, cfg: Config, c: Call, q: nat)
    requires TreeInv(k) && Enabled(k, cfg, c) && !ExecBy(k, c, q)
    requires Exists(k, q) && HeapOk(ProcOf(k, q), cfg) && Exists(After(k, cfg, c), q)
    ensures BreakMoved(ProcOf(k, q), ProcOf(After(k, cfg, c), q), GrantedTo(k, cfg, c, q), cfg)
  {
    var j, j' := FindByPid(k, q), FindByPid(After(k, cfg, c), q);
    UniquePid(k, c.i);
    if c.Sbrk? && c.i == j {
      SbrkMovesBreak(k, cfg, j, c.increment);
    } else if (c.Schedule? || c.Exit?) && c.i == j {
      OwnKeepsHeap(k, cfg, c, j');
    } else {
      OthersUntouched(k, cfg, c, j, j');
    }
  }

  /** Between two exec calls of process q its break moves by exactly the increments it was granted,
      whatever other processes do, and stays in its heap; its pages stay until it exits. */
  lemma {:induction false} BreakOverRun(states: seq<Kern>, calls: seq<Call>, cfg: Config, q: nat, from: nat, n: nat)
    requires Run(states, calls, cfg) && TreeInv(states[0]) && from <= n < |states|
    requires OneImage(states, calls, q, from, n)
    requires HeapOk(ProcOf(states[from], q), cfg)
    ensures Exists(states[n], q)
    ensures BreakMoved(ProcOf(states[from], q), ProcOf(states[n], q), GrantedIn(states, calls, cfg, q, from, n), cfg)
    decreases n
  {
    if n > from {
      OneImageBefore(states, calls, q, from, n);
      BreakOverRun(states, calls, cfg, q, from, n - 1);
      BreakStep(ProcOf(states[from], q), states, calls, cfg, q, n, GrantedIn(states, calls, cfg, q, from, n - 1));
    }
  }

  /** Process q is there and does not call exec. */
  ghost predicate OneImage(states: seq<Kern>, calls: seq<Call>, q: nat, from: nat, n: nat)
    requires from <= n <= |calls| < |states|
  {
    && (forall x :: from <= x <= n ==> Exists(states[x], q))
    && (forall x :: from <= x < n ==> !ExecBy(states[x], calls[x], q))
  }

  lemma OneImageBefore(states: seq<Kern>, calls: seq<Call>, q: nat, from: nat, n: nat)
    requires from < n <= |calls| < |states| && OneImage(states, calls, q, from, n)
    ensures OneImage(states, calls, q, from, n - 1)
    ensures Exists(states[n - 1], q) && Exists(states[n], q) && !ExecBy(states[n - 1], calls[n - 1], q)
  {
  }

  lemma BreakStep(p0: Proc, states: seq<Kern>, calls: seq<Call>, cfg: Config, q: nat, n: nat, d: int)
    requires Run(states, calls, cfg) && TreeInv(states[0]) && 0 < n <= |calls|
    requires Exists(states[n - 1], q) && Exists(states[n], q) && !ExecBy(states[n - 1], calls[n - 1], q)
    requires BreakMoved(p0, ProcOf(states[n - 1], q), d, cfg)
    ensures BreakMoved(p0, ProcOf(states[n], q), d + GrantedTo(states[n - 1], cfg, calls[n - 1], q), cfg)
  {
    RunKeepsTree(states, calls, cfg, n - 1);
    RunLink(states, calls, cfg, n - 1);
    CallMovesBreak(states[n - 1], cfg, calls[n - 1], q);
  }

  /** Where such a stretch starts: exec puts the break at the start of the heap, and a child starts with
      the heap and the break of its parent. */
  lemma BreakStarts(k: Kern, cfg: Config, c: Call)
    requires TreeInv(k) && Enabled(k, cfg, c) && cfg.heapSize > 0
    ensures var k', q := After(k, cfg, c), k.procs[c.i].pid;
            && (c.Exec? ==> Exists(k', q) && HeapOk(ProcOf(k', q), cfg)
                            && ProcOf(k', q).heapPointer == ProcOf(k', q).heapBase
                            && ProcOf(k', q).pages == c.image.All() && ProcOf(k', q).state == RUNNING)
            && (c.Fork? ==> Exists(k', k.pidCurrent)
                            && ProcOf(k', k.pidCurrent).heapBase == k.procs[c.i].heapBase
                            && ProcOf(k', k.pidCurrent).heapPointer == k.procs[c.i].heapPointer)
  {
    CallKeepsTree(k, cfg, c);
    match c {
      case Exec(i, segPages, entry, fs) =>
        ExecMeaning(k, i, cfg, segPages, entry, fs);
        UniquePid(After(k, cfg, c), i);
      case Fork(i, fs) =>
        ForkProcs(k, i, fs);
        UniquePid(After(k, cfg, c), |k.procs|);
      case _ =>
    }
  }

  /** After exec by process q, as long as it lives: its page list is exactly what exec allocated, its
      break is the heap base plus the increments granted, and the frame that exec mapped at the break
      is in the list. */
  lemma HeapStaysMapped(states: seq<Kern>, calls: seq<Call>, cfg: Config, q: nat, x: nat, n: nat)
    requires Run(states, calls, cfg) && TreeInv(states[0]) && cfg.heapSize > 0 && x < n < |states|
    requires ExecBy(states[x], calls[x], q) && OneImage(states, calls, q, x + 1, n)
    ensures ExecMapped(ProcOf(states[n], q), calls[x].image, cfg, GrantedIn(states, calls, cfg, q, x + 1, n))
  {
    ExecStarts(states, calls, cfg, q, x);
    BreakOverRun(states, calls, cfg, q, x + 1, n);
    AtBreak(ProcOf(states[n], q), calls[x].image, cfg);
  }

  lemma ExecStarts(states: seq<Kern>, calls: seq<Call>, cfg: Config, q: nat, x: nat)
    requires Run(states, calls, cfg) && TreeInv(states[0]) && cfg.heapSize > 0 && x < |calls|
    requires ExecBy(states[x], calls[x], q)
    ensures Exists(states[x + 1], q) && |calls[x].image.heap| == HeapPages(cfg)
    ensures var p := ProcOf(states[x + 1], q);
            HeapOk(p, cfg) && p.heapPointer == p.heapBase && p.pages == calls[x].image.All() && p.state == RUNNING
  {
    RunKeepsTree(states, calls, cfg, x);
    RunLink(states, calls, cfg, x);
    BreakStarts(states[x], cfg, calls[x]);
  }

  ghost predicate ExecMapped(p: Proc, image: Frames, cfg: Config, granted: int) {
    && p.heapPointer == p.heapBase + granted && 0 <= granted < cfg.heapSize
    && granted / PAGE_SIZE < |image.heap|
    && (p.state != ZOMBIE ==>
          && p.pages == image.All()
          && p.pages[|image.stack| + |image.image| + granted / PAGE_SIZE] == image.heap[granted / PAGE_SIZE])
  }

  lemma AtBreak(p: Proc, image: Frames, cfg: Config)
    requires HeapOk(p, cfg) && |image.heap| == HeapPages(cfg)
    ensures var page := (p.heapPointer - p.heapBase) / PAGE_SIZE;
            && 0 <= page < |image.heap|
            && image.All()[|image.stack| + |image.image| + page] == image.heap[page]
  {
  }

  /** Without an exec there is a break but no heap: from every boot the root is granted 8 bytes, at
      address 0, and has the pages of its stack alone. */
  lemma SbrkWithoutHeap(k: Kern, cfg: Config, stack: seq<nat>) returns (k1: Kern, k2: Kern)
    requires 8 < cfg.heapSize <= 0x8000_0000
    requires k.refcount == seq(|k.refcount|, _ => 0) && InRange(stack, |k.refcount|)
    requires forall f: nat :: f in k.free <==> f < |k.refcount|
    ensures Goes(Booted(k, cfg, stack), cfg, Schedule(0, RUNNING), k1) && Goes(k1, cfg, Sbrk(0, 8), k2)
    ensures k2.procs[0].heapBase == 0 && k2.procs[0].heapPointer == 8 && k2.procs[0].pages == stack
  {
    BootProcs(k, cfg, stack);
    k1 := Scheduled(Booted(k, cfg, stack), 0, RUNNING);
    BreakExact(0, 0, cfg.heapSize, 8);
    k2 := Sbrked(k1, 0, cfg, 8);
  }
}
