/** The process table of the kernel: PCBs linked in a list, pages counted in a frame table, and the
    system calls that update them in place. */
module ProcessKernel {
  import opened Common
  import opened ProcessModel
  import opened ArgsPage

  class Pcb {
    const pid: nat
    var parent: Pcb?
    var state: State
    var joined: bool
    var exitStatus: int
    var pageList: seq<nat>
    var pageCount: int
    var stackTop: int
    var heapBase: int
    var heapPointer: int
    var binImageEntry: int

    constructor (pid: nat)
      ensures this.pid == pid && parent == null && pageList == []
      ensures View() == Proc(pid, None, NEW, false, 0, [], 0, 0, 0, 0, 0)
    {
      this.pid := pid;
      parent, state, joined, exitStatus, pageList := null, NEW, false, 0, [];
      pageCount, stackTop, heapBase, heapPointer, binImageEntry := 0, 0, 0, 0, 0;
    }

    /** The fields that a child takes over. */
    method Inherit(parent: Pcb)
      requires parent != this
      modifies this
      ensures View() == old(View()).(parent := Some(parent.pid), pageCount := parent.pageCount,
                                     stackTop := parent.stackTop, heapBase := parent.heapBase,
                                     heapPointer := parent.heapPointer)
      ensures this.parent == parent && pageList == old(pageList)
    {
      this.pageCount := parent.pageCount;
      this.parent := parent;
      this.stackTop := parent.stackTop;
      this.heapBase := parent.heapBase;
      this.heapPointer := parent.heapPointer;
    }

    ghost function View(): Proc
      reads this
    {
      Proc(pid, if parent == null then None else Some(parent.pid), state, joined, exitStatus, pageList,
           pageCount, stackTop, heapBase, heapPointer, binImageEntry)
    }
  }

  ghost function Views(pcbs: seq<Pcb>): (v: seq<Proc>)
    reads pcbs
    ensures |v| == |pcbs|
    ensures forall i :: 0 <= i < |pcbs| ==> v[i] == pcbs[i].View()
  {
    seq(|pcbs|, i requires 0 <= i < |pcbs| reads pcbs => pcbs[i].View())
  }

  class Kernel {
    const cfg: Config
    var procList: seq<Pcb>
    var pidCurrent: nat
    /** the reference count of each physical frame */
    const refcount: array<int>
    /** the frames that get_free_page may hand out */
    var free: set<nat>

    /** PCBs are listed once, and every parent pointer leads to a listed PCB. */
    ghost predicate Valid()
      reads this, procList
    {
      && (forall i, j :: 0 <= i < j < |procList| ==> procList[i] != procList[j])
      && (forall i :: 0 <= i < |procList| ==> procList[i].parent != null ==> procList[i].parent in procList)
    }

    ghost function State(): Kern
      reads this, procList, refcount
    {
      Kern(Views(procList), pidCurrent, refcount[..], free)
    }

    ghost predicate At(pcb: Pcb, i: nat)
      reads this
    {
      i < |procList| && procList[i] == pcb
    }

    // ----- pages -----

    method AddPageToProc(pcb: Pcb, f: nat, ghost i: nat)
      requires Valid() && At(pcb, i) && f < refcount.Length && f !in free
      modifies pcb`pageList, refcount
      ensures Valid() && State() == AddPage(old(State()), i, f)
    {
      refcount[f] := refcount[f] + 1;
      pcb.pageList := pcb.pageList + [f];
      assert State().procs == AddPage(old(State()), i, f).procs;
    }

    /** None when no page is left. */
    method GetFreePage() returns (f: Option<nat>)
      modifies this`free
      ensures f.None? ==> free == old(free) == {}
      ensures f.Some? ==> f.value in old(free) && free == old(free) - {f.value}
    {
      if free == {} {
        return None;
      }
      var x :| x in free;
      free := free - {x};
      return Some(x);
    }

    method FreePage(f: nat)
      requires f !in free
      modifies this`free
      ensures free == old(free) + {f}
    {
      free := free + {f};
    }

    /** One page of the loop of AllocatePage. */
    method AllocateOne(pcb: Pcb, ghost i: nat) returns (page: Option<nat>)
      requires Valid() && At(pcb, i) && forall f :: f in free ==> f < refcount.Length
      modifies pcb`pageList, refcount, this`free
      ensures Valid() && free == old(free) - if page.None? then {} else {page.value}
      ensures page.None? ==> State() == old(State())
      ensures page.Some? ==>
                page.value in old(free) && page.value < refcount.Length
                && State() == AddPage(old(State()), i, page.value)
    {
      page := GetFreePage();
      if page.Some? {
        ghost var k := old(State());
        AddPageToProc(pcb, page.value, i);
        assert State().free == AddPage(k, i, page.value).free;
      }
    }

    /** False is the kernel's BUG_ON when no page is left. */
    method AllocatePage(pcb: Pcb, nrPages: nat, ghost i: nat) returns (ok: bool, ghost fs: seq<nat>)
      requires Valid() && At(pcb, i) && forall f :: f in free ==> f < refcount.Length
      modifies pcb`pageList, refcount, this`free
      ensures Valid() && TakenFrom(old(free), fs, free)
      ensures InRange(fs, refcount.Length) && State() == AddPages(old(State()), i, fs)
      ensures ok ==> |fs| == nrPages
    {
      fs := [];
      for n := 0 to nrPages
        invariant Valid() && |fs| == n && TakenFrom(old(free), fs, free)
        invariant InRange(fs, refcount.Length) && State() == AddPages(old(State()), i, fs)
      {
        ghost var left := free;
        var page := AllocateOne(pcb, i);
        if page.None? {
          return false, fs;
        }
        TakenSnoc(old(free), fs, left, page.value);
        AddPagesSnoc(old(State()), i, fs, page.value);
        fs := fs + [page.value];
      }
      ok := true;
    }

    /** The reference counts make every free_page legal: no page is freed twice. */
    method ReleaseProcPages(pcb: Pcb, ghost i: nat)
      requires Valid() && At(pcb, i) && RefInv(State())
      modifies pcb`pageList, refcount, this`free
      ensures Valid() && InRange(old(pcb.pageList), refcount.Length)
      ensures State() == DropPages(old(State()), i) && RefInv(State())
    {
      while pcb.pageList != []
        invariant Valid() && RefInv(State())
        invariant InRange(old(pcb.pageList), refcount.Length) && InRange(pcb.pageList, refcount.Length)
        invariant DropPages(State(), i) == DropPages(old(State()), i)
        decreases |pcb.pageList|
      {
        DropPageKeeps(State(), i);
        ReleaseOne(pcb, i);
      }
    }

    method ReleaseOne(pcb: Pcb, ghost i: nat)
      requires Valid() && At(pcb, i) && pcb.pageList != []
      requires InRange(pcb.pageList, refcount.Length) && pcb.pageList[0] !in free
      modifies pcb`pageList, refcount, this`free
      ensures Valid() && State() == DropPage(old(State()), i)
      ensures pcb.pageList == old(pcb.pageList)[1..]
    {
      ghost var k := State();
      var f := pcb.pageList[0];
      pcb.pageList := pcb.pageList[1..];
      refcount[f] := refcount[f] - 1;
      assert refcount[..] == DropPage(k, i).refcount;
      assert Views(procList) == DropPage(k, i).procs;
      if refcount[f] == 0 {
        FreePage(f);
      }
    }

    // ----- creation -----

    /** The allocator starts with every frame of the table. */
    constructor (cfg: Config, frames: nat, allFrames: set<nat>)
      requires forall f: nat :: f in allFrames <==> f < frames
      ensures Valid() && fresh(refcount) && this.cfg == cfg
      ensures State() == Kern([], 1, seq(frames, _ => 0), allFrames)
    {
      this.cfg := cfg;
      procList, pidCurrent := [], 1;
      refcount := new int[frames](_ => 0);
      free := allFrames;
      new;
      assert refcount[..] == seq(frames, _ => 0);
    }

    /** The first process: its PCB, its stack, and it is ready. Not ok is the BUG_ON when pages run out. */
    method CreateRootProcess() returns (ok: bool, pcb: Pcb, ghost fs: seq<nat>)
      requires Valid() && procList == [] && pidCurrent == 1
      requires forall f :: f in free ==> f < refcount.Length
      modifies this`procList, this`pidCurrent, this`free, refcount
      ensures Valid() && fresh(pcb)
      ensures ok ==> |fs| == StackPages(cfg) && InRange(fs, refcount.Length)
                     && State() == Booted(old(State()), cfg, fs) && TakenFrom(old(free), fs, free)
    {
      pcb := NewProcess();
      ResetProcessStack(pcb, 0);
      ghost var k := old(State()).(procs := [RootProc(cfg)], pidCurrent := 2);
      assert State() == k by {
        assert State().procs == [RootProc(cfg)];
      }
      ok, fs := AllocatePage(pcb, pcb.pageCount, 0);
      if ok {
        SetReady(pcb, 0);
      }
    }

    method NewProcess() returns (pcb: Pcb)
      requires Valid()
      modifies this`procList, this`pidCurrent
      ensures Valid() && fresh(pcb) && pcb.parent == null && pcb.pageList == [] && pcb.pid == old(pidCurrent)
      ensures procList == old(procList) + [pcb]
      ensures State() == old(State()).(procs := old(State()).procs + [Proc(old(pidCurrent), None, NEW, false, 0, [], 0, 0, 0, 0, 0)],
                                       pidCurrent := old(pidCurrent) + 1)
    {
      pcb := new Pcb(pidCurrent);
      pidCurrent := pidCurrent + 1;
      procList := procList + [pcb];
      assert State().procs == old(State()).procs + [pcb.View()];
    }

    method ResetProcessStack(pcb: Pcb, ghost i: nat)
      requires Valid() && At(pcb, i)
      modifies pcb`pageCount, pcb`stackTop
      ensures Valid()
      ensures State() == WithProc(old(State()), i, old(pcb.View()).(pageCount := StackPages(cfg), stackTop := cfg.argsBase))
    {
      pcb.pageCount := (cfg.stackSize + PAGE_SIZE - 1) / PAGE_SIZE;
      pcb.stackTop := cfg.argsBase;
      assert State().procs == old(State()).procs[i := pcb.View()];
    }

    method DuplicateProcess(parent: Pcb, ghost i: nat) returns (pcb: Pcb)
      requires Valid() && At(parent, i)
      modifies this`procList, this`pidCurrent
      ensures Valid() && fresh(pcb) && procList == old(procList) + [pcb]
      ensures pcb.pid == old(pidCurrent) && pcb.parent == parent && pcb.pageList == [] && CopiedFrom(pcb, parent)
      ensures State() == old(State()).(procs := old(State()).procs + [NewChild(old(State()), parent.View())],
                                       pidCurrent := old(pidCurrent) + 1)
    {
      pcb := NewProcess();
      pcb.Inherit(parent);
      assert State().procs == old(State()).procs + [NewChild(old(State()), parent.View())];
    }

    /** None is a new page, Some(f) shares frame f, which is in use. */
    method AddNewOrShared(pcb: Pcb, page: Option<nat>, ghost i: nat) returns (f: Option<nat>)
      requires Valid() && At(pcb, i) && forall f :: f in free ==> f < refcount.Length
      requires page.Some? ==> page.value < refcount.Length && page.value !in free
      modifies pcb`pageList, refcount, this`free
      ensures Valid() && free == old(free) - if f.None? then {} else {f.value}
      ensures page.Some? ==> f == page
      ensures page.None? && f.Some? ==> f.value in old(free)
      ensures f.None? ==> State() == old(State())
      ensures f.Some? ==> f.value < refcount.Length && State() == AddPage(old(State()), i, f.value)
    {
      if page.None? {
        f := AllocateOne(pcb, i);
      } else {
        AddPageToProc(pcb, page.value, i);
        f := page;
      }
    }

    /** The frames of the child, new or shared. */
    method DuplicateUserSpace(pcb: Pcb, plan: seq<Option<nat>>, ghost i: nat) returns (ok: bool, ghost fs: seq<nat>)
      requires Valid() && At(pcb, i) && forall f :: f in free ==> f < refcount.Length
      requires forall x :: 0 <= x < |plan| && plan[x].Some? ==> plan[x].value < refcount.Length && plan[x].value !in free
      modifies pcb`pageList, refcount, this`free
      ensures Valid() && Follows(fs, plan, old(free), free)
      ensures InRange(fs, refcount.Length) && State() == AddPages(old(State()), i, fs)
      ensures ok ==> |fs| == |plan|
    {
      fs := [];
      for n := 0 to |plan|
        invariant Valid() && |fs| == n
        invariant InRange(fs, refcount.Length) && State() == AddPages(old(State()), i, fs)
        invariant Follows(fs, plan, old(free), free)
      {
        ghost var left := free;
        var f := AddNewOrShared(pcb, plan[n], i);
        if f.None? {
          return false, fs;
        }
        AddPagesSnoc(old(State()), i, fs, f.value);
        FollowsSnoc(fs, plan, old(free), left, f.value);
        fs := fs + [f.value];
      }
      ok := true;
    }

    /** A running process forks: -1 outside its main thread, else the pid of the child. Not ok is the
        BUG_ON when pages run out. */
    method DoFork(parent: Pcb, mainThread: bool, plan: seq<Option<nat>>, ghost i: nat)
      returns (ok: bool, ret: int, ghost fs: seq<nat>)
      requires Valid() && At(parent, i) && forall f :: f in free ==> f < refcount.Length
      requires forall x :: 0 <= x < |plan| && plan[x].Some? ==> plan[x].value < refcount.Length && plan[x].value !in free
      modifies this`procList, this`pidCurrent, this`free, refcount
      ensures Valid()
      ensures !mainThread ==> ok && ret == -1 && State() == old(State())
      ensures ok && mainThread ==>
                && ret == old(pidCurrent)
                && |fs| == |plan| && Follows(fs, plan, old(free), free)
                && InRange(fs, refcount.Length) && State() == Forked(old(State()), i, fs)
      ensures ok && mainThread ==>
                && |procList| == |old(procList)| + 1 && procList[..|old(procList)|] == old(procList)
                && var child := procList[|old(procList)|];
                   && fresh(child) && child.pid == ret && child.parent == parent && CopiedFrom(child, parent)
                   && child.state == READY && child.pageList == fs
      ensures ok && mainThread && RefInv(old(State())) ==> NewFramesOwned(State(), old(|procList|), fs, plan)
    {
      fs := [];
      if !mainThread {
        return true, -1, fs;
      }
      ghost var k := State();
      var child: Pcb;
      ok, child, fs := ForkChild(parent, plan, i);
      ret := child.pid;
      if ok && RefInv(k) {
        NewFrames(k, i, fs, plan, free);
      }
    }

    /** The child, with its user space, ready. */
    method ForkChild(parent: Pcb, plan: seq<Option<nat>>, ghost i: nat)
      returns (ok: bool, child: Pcb, ghost fs: seq<nat>)
      requires Valid() && At(parent, i) && forall f :: f in free ==> f < refcount.Length
      requires forall x :: 0 <= x < |plan| && plan[x].Some? ==> plan[x].value < refcount.Length && plan[x].value !in free
      modifies this`procList, this`pidCurrent, this`free, refcount
      ensures Valid() && fresh(child) && procList == old(procList) + [child]
      ensures child.pid == old(pidCurrent) && child.parent == parent && CopiedFrom(child, parent)
      ensures ok ==> child.state == READY && child.pageList == fs
      ensures ok ==> |fs| == |plan| && Follows(fs, plan, old(free), free) && InRange(fs, refcount.Length)
      ensures ok ==> State() == Forked(old(State()), i, fs)
    {
      ghost var k, n := State(), |procList|;
      child := DuplicateProcess(parent, i);
      ghost var k1 := State();
      ok, fs := DuplicateUserSpace(child, plan, n);
      if ok {
        PagesAdded(child, k1, n, fs);
        SetReady(child, n);
        ForkedIs(k, i, fs, k1, State());
      }
    }

    lemma PagesAdded(pcb: Pcb, k: Kern, i: nat, fs: seq<nat>)
      requires At(pcb, i) && Listed(k, i) && InRange(fs, |k.refcount|) && State() == AddPages(k, i, fs)
      ensures pcb.pageList == k.procs[i].pages + fs
    {
      AddPagesProcs(k, i, fs);
      assert State().procs[i] == pcb.View();
    }

    /** The fields that the child has from its parent. */
    ghost predicate CopiedFrom(child: Pcb, parent: Pcb)
      reads child, parent
    {
      && child.pageCount == parent.pageCount && child.stackTop == parent.stackTop
      && child.heapBase == parent.heapBase && child.heapPointer == parent.heapPointer
    }

    method SetReady(pcb: Pcb, ghost i: nat)
      requires Valid() && At(pcb, i)
      modifies pcb`state
      ensures Valid() && State() == Scheduled(old(State()), i, READY)
    {
      pcb.state := READY;
      assert State().procs == Scheduled(old(State()), i, READY).procs;
    }

    /** Panic is for the root process, which may not end. */
    method DoExit(pcb: Pcb, exitStatus: int, ghost i: nat) returns (panic: bool)
      requires Valid() && At(pcb, i) && RefInv(State())
      modifies pcb, refcount, this`free
      ensures Valid()
      ensures panic <==> old(pcb.parent) == null
      ensures panic ==> State() == old(State())
      ensures !panic ==> InRange(old(pcb.pageList), refcount.Length) && State() == Exited(old(State()), i, exitStatus)
      ensures !panic ==> pcb.state == ZOMBIE && pcb.exitStatus == exitStatus && pcb.pageList == []
    {
      if pcb.parent == null {
        return true;
      }
      ghost var k := State();
      pcb.state := ZOMBIE;
      pcb.exitStatus := exitStatus;
      ghost var p := k.procs[i].(state := ZOMBIE, exitStatus := exitStatus);
      assert State().procs == k.procs[i := p];
      SamePagesKeeps(k, i, p);
      ReleaseProcPages(pcb, i);
      ExitProcs(k, i, exitStatus);
      assert State().procs[i] == pcb.View();
      return false;
    }

    // ----- waitpid -----

    method FindProcByPid(pid: int) returns (pcb: Pcb?, ghost i: int)
      requires Valid()
      ensures i == FindByPid(State(), pid)
      ensures pcb == if FindByPid(State(), pid) == -1 then null else procList[FindByPid(State(), pid)]
    {
      for x := 0 to |procList|
        invariant forall j :: 0 <= j < x ==> procList[j].pid != pid
      {
        if procList[x].pid == pid {
          return procList[x], x;
        }
      }
      return null, -1;
    }

    method FindProcZombieToClean() returns (pcb: Pcb?, ghost i: int)
      requires Valid()
      ensures i == FindZombieToClean(State())
      ensures pcb == if FindZombieToClean(State()) == -1 then null else procList[FindZombieToClean(State())]
    {
      for x := 0 to |procList|
        invariant forall j :: 0 <= j < x ==> !(procList[j].state == ZOMBIE && !procList[j].joined)
      {
        if procList[x].state == ZOMBIE && !procList[x].joined {
          return procList[x], x;
        }
      }
      return null, -1;
    }

    /** Compares parent pointers; among listed processes that is comparing pids. */
    method FindProcByParent(parent: Pcb) returns (pcb: Pcb?)
      requires Valid() && TreeInv(State()) && parent in procList
      ensures pcb == null <==> FindByParent(State(), parent.pid) == -1
    {
      ParentPointers(parent);
      for x := 0 to |procList|
        invariant forall j :: 0 <= j < x ==> procList[j].parent != parent
      {
        if procList[x].parent == parent {
          return procList[x];
        }
      }
      return null;
    }

    lemma ParentPointers(parent: Pcb)
      requires Valid() && TreeInv(State()) && parent in procList
      ensures (exists j :: 0 <= j < |procList| && procList[j].parent == parent) <==>
              FindByParent(State(), parent.pid) != -1
    {
      forall j | 0 <= j < |procList|
        ensures State().procs[j].parent == Some(parent.pid) <==> procList[j].parent == parent
      {
        PidIsIdentity(procList[j], parent);
      }
    }

    lemma PidIsIdentity(p: Pcb, q: Pcb)
      requires Valid() && TreeInv(State()) && p in procList && q in procList
      ensures p.View().parent == Some(q.pid) <==> p.parent == q
    {
      if p.parent != null {
        var h := p.parent;
        assert h in procList;
        var i :| 0 <= i < |procList| && procList[i] == h;
        var j :| 0 <= j < |procList| && procList[j] == q;
        assert State().procs[i].pid == h.pid && State().procs[j].pid == q.pid;
      }
    }

    method RemoveProc(pcb: Pcb, ghost i: nat)
      requires Valid() && At(pcb, i)
      requires forall j :: 0 <= j < |procList| ==> procList[j].parent != pcb
      modifies this`procList
      ensures Valid() && State() == Removed(old(State()), i)
    {
      var x := 0;
      while procList[x] != pcb
        invariant x <= i
        decreases i - x
      {
        x := x + 1;
      }
      assert x == i;
      procList := procList[..x] + procList[x + 1..];
      assert State().procs == Removed(old(State()), i).procs;
    }

    /** The process waited for. */
    method FindChild(pid: int) returns (child: Pcb?, ghost i: int)
      requires Valid()
      ensures i == WaitTarget(State(), pid)
      ensures child == if WaitTarget(State(), pid) == -1 then null else procList[WaitTarget(State(), pid)]
    {
      if pid == -1 {
        child, i := FindProcZombieToClean();
      } else {
        child, i := FindProcByPid(pid);
      }
    }

    /** Not done is a caller that blocks in thread_join and keeps `child`. */
    method DoWaitpid(pid: int, nohang: bool)
      returns (done: bool, ret: int, wstatus: Option<nat>, child: Pcb?, ghost r: WaitOutcome)
      requires Valid() && TreeInv(State())
      modifies this`procList, procList
      ensures Valid() && r == Waited(old(State()), pid, nohang)
      ensures Outcome(old(State()), State(), done, ret, wstatus, r)
      ensures WaitAnswer(old(State()), State(), pid, nohang, done, ret, wstatus)
      ensures !done ==> procList == old(procList) && child in procList
    {
      ghost var k := State();
      ghost var i: int;
      child, i := FindChild(pid);
      if child == null {
        done, ret := true, -1;
        wstatus := if pid == -1 then None else Some(NO_CODE);
        r := WaitedAt(k, i, pid, nohang);
      } else {
        done, ret, wstatus, r := WaitFor(child, nohang, i);
      }
      OutcomeAnswers(k, State(), pid, nohang, done, ret, wstatus, r);
    }

    lemma OutcomeAnswers(k: Kern, k': Kern, pid: int, nohang: bool,
                         done: bool, ret: int, wstatus: Option<nat>, r: WaitOutcome)
      requires TreeInv(k) && r == Waited(k, pid, nohang) && Outcome(k, k', done, ret, wstatus, r)
      ensures WaitAnswer(k, k', pid, nohang, done, ret, wstatus)
    {
      WaitedAnswers(k, pid, nohang);
    }

    ghost predicate Outcome(k: Kern, k': Kern, done: bool, ret: int, wstatus: Option<nat>, r: WaitOutcome) {
      && (done <==> r != Blocked)
      && k' == (if done then r.k else k)
      && (done ==> ret == r.ret && wstatus == r.status)
    }

    /** The rest of waitpid, on the child pointer; also what happens when a blocked caller goes on. */
    method WaitFor(child: Pcb, nohang: bool, ghost i: nat)
      returns (done: bool, ret: int, wstatus: Option<nat>, ghost r: WaitOutcome)
      requires Valid() && TreeInv(State()) && At(child, i)
      modifies this`procList, child`joined
      ensures Valid() && r == WaitedFor(old(State()), i, nohang)
      ensures Outcome(old(State()), State(), done, ret, wstatus, r)
      ensures !done ==> procList == old(procList)
    {
      r := WaitedFor(State(), i, nohang);
      if nohang && child.state != ZOMBIE {
        return true, 0, None, r;
      }
      if child.state != WAITING {
        var joined := ThreadJoin(child, i);
        if !joined {
          return false, 0, None, r;
        }
      }
      done := true;
      ret, wstatus := EndWait(child, i);
    }

    /** The status is stored before the PCB goes. */
    method EndWait(child: Pcb, ghost i: nat) returns (ret: int, wstatus: Option<nat>)
      requires Valid() && TreeInv(State()) && At(child, i)
      modifies this`procList
      ensures Valid() && State() == Reaped(old(State()), i) && ret == child.pid
      ensures wstatus == Some(if child.state == ZOMBIE then ZombieStatus(child.exitStatus) else NO_CODE)
    {
      var word := WaitStatus(child);
      ret, wstatus := child.pid, Some(word);
      ReapProc(child, i);
    }

    /** The status word starts as ~0x7f; a zombie's exit code replaces it, the code of a process that
        still lives is or-ed to it. */
    method WaitStatus(child: Pcb) returns (wstatus: nat)
      ensures wstatus == if child.state == ZOMBIE then ZombieStatus(child.exitStatus) else NO_CODE
    {
      if child.state == ZOMBIE {
        wstatus := child.exitStatus % 0x100 * 0x100;
      } else {
        var code: bv32 := (child.exitStatus % 0x100) as bv32;
        OrChangesNothing(code);
        var word: bv32 := !0x7f | ((code & 0xFF) << 8);
        wstatus := word as nat;
      }
    }

    /** Comes back once the child is a zombie, with its main thread gone. */
    method ThreadJoin(child: Pcb, ghost i: nat) returns (joined: bool)
      requires Valid() && At(child, i) && TreeInv(State())
      modifies child`joined
      ensures Valid() && TreeInv(State())
      ensures joined <==> old(child.state) == ZOMBIE
      ensures State() == if joined then WithProc(old(State()), i, old(child.View()).(joined := true)) else old(State())
    {
      ghost var k := State();
      if child.state != ZOMBIE {
        return false;
      }
      child.joined := true;
      assert State().procs == k.procs[i := k.procs[i].(joined := true)];
      SameTreeKeeps(k, State());
      return true;
    }

    /** The end of waitpid: the PCB is freed unless it has children. */
    method ReapProc(child: Pcb, ghost i: nat)
      requires Valid() && TreeInv(State()) && At(child, i)
      modifies this`procList
      ensures Valid() && State() == Reaped(old(State()), i)
    {
      var grandchild := FindProcByParent(child);
      if grandchild == null {
        forall j | 0 <= j < |procList|
          ensures procList[j].parent != child
        {
          assert State().procs[j].parent != Some(child.pid);
        }
        RemoveProc(child, i);
      }
    }

    // ----- exec and the heap -----

    /** exec from the arguments on: the argument page, mapped last, is `argsPage`.  The test of the
        pointer for a negative value never holds, so exec returns 0 even if the arguments were refused;
        the page then keeps what the frame held.  Not ok is the BUG_ON when pages run out. */
    method SetupProcImageReplace(pcb: Pcb, segPages: nat, entry: int, c: ExecArgs, argsPage: array<byte>,
                                 ghost i: nat)
      returns (ok: bool, ret: int, ghost fs: Frames)
      requires Valid() && At(pcb, i) && RefInv(State())
      requires Callable(c) && argsPage.Length == PAGE_SIZE && argsPage as object != refcount
      requires 0 < cfg.argsBase && cfg.argsBase + PAGE_SIZE <= ADDRESSES
      modifies pcb, refcount, this`free, argsPage
      ensures Valid()
      ensures ok ==> ret == 0 && InRange(old(pcb.pageList), refcount.Length)
                     && FramesFor(old(State()), cfg, segPages, fs)
                     && State() == Execed(old(State()), i, cfg, segPages, entry, fs)
      ensures ok ==> OwnFrames(old(State()), State(), i, fs)
      ensures ok ==> PageAfterExec(argsPage[..], old(argsPage[..]), cfg.argsBase, c)
      ensures ok && Decode(old(argsPage[..]), cfg.argsBase) != Some(c.Strings()) ==>
                (Decode(argsPage[..], cfg.argsBase) == Some(c.Strings()) <==>
                  !Refused(c) && !NameTooLong(OrEmpty(c.argv), OrEmpty(c.envp), c.name))
    {
      ghost var k0 := State();
      var argsEnv, address := PreserveFor(c);
      assert State() == k0;
      if address < 0 {
        ret := -1;
        return;
      }
      ok, fs := ReplaceImage(pcb, segPages, entry, i);
      if ok {
        FinishArgs(argsPage, argsEnv, c, address);
      }
      ret := 0;
    }

    /** The end of exec: the page of arguments is written, and nothing of the process table. */
    method FinishArgs(argsPage: array<byte>, argsEnv: array?<byte>, ghost c: ExecArgs, address: nat)
      requires Valid() && Callable(c) && argsPage.Length == PAGE_SIZE && argsPage as object != refcount
      requires 0 < cfg.argsBase && cfg.argsBase + PAGE_SIZE <= ADDRESSES
      requires (argsEnv == null <==> Refused(c)) && (argsEnv != null ==> address == c.buffer)
      requires argsEnv != null ==>
                 argsEnv != argsPage && Prepared(argsEnv[..], c.buffer, c.Strings().argv, c.Strings().env)
      modifies argsPage
      ensures Valid() && State() == old(State())
      ensures PageAfterExec(argsPage[..], old(argsPage[..]), cfg.argsBase, c)
      ensures Decode(old(argsPage[..]), cfg.argsBase) != Some(c.Strings()) ==>
                (Decode(argsPage[..], cfg.argsBase) == Some(c.Strings()) <==>
                  !Refused(c) && !NameTooLong(OrEmpty(c.argv), OrEmpty(c.envp), c.name))
    {
      FillArgsPage(argsPage, cfg.argsBase, argsEnv, c, address);
      if Decode(old(argsPage[..]), cfg.argsBase) != Some(c.Strings()) {
        PageIsRight(argsPage[..], old(argsPage[..]), cfg.argsBase, c);
      }
    }

    /** Stack, image, heap and the page of arguments. */
    method ReplaceImage(pcb: Pcb, segPages: nat, entry: int, ghost i: nat) returns (ok: bool, ghost fs: Frames)
      requires Valid() && At(pcb, i) && RefInv(State())
      modifies pcb, refcount, this`free
      ensures Valid()
      ensures ok ==> InRange(old(pcb.pageList), refcount.Length)
                     && FramesFor(old(State()), cfg, segPages, fs)
                     && State() == Execed(old(State()), i, cfg, segPages, entry, fs)
      ensures ok ==> OwnFrames(old(State()), State(), i, fs)
    {
      fs := Frames([], [], [], []);
      ghost var k := State();
      ghost var stack, image, heap, args, free0, free1, free2, free3;
      ok, stack, free0 := NewStack(pcb, i);
      free1 := free;
      if !ok {
        return;
      }
      ok, image := NewImage(pcb, segPages, entry, i);
      free2 := free;
      if !ok {
        return;
      }
      ok, heap := NewHeap(pcb, i);
      free3 := free;
      if !ok {
        return;
      }
      ok, args := NewArgs(pcb, i);
      fs := Frames(stack, image, heap, args);
      if ok {
        TakenConcat(free0, stack, free1, image, free2);
        TakenConcat(free0, stack + image, free2, heap, free3);
        TakenConcat(free0, stack + image + heap, free3, args, free);
        OwnTaken(k, i, cfg, segPages, entry, fs, free0, free);
      }
    }

    /** free0 are the frames that are free once the old pages are released. */
    method NewStack(pcb: Pcb, ghost i: nat) returns (ok: bool, ghost fs: seq<nat>, ghost free0: set<nat>)
      requires Valid() && At(pcb, i) && RefInv(State())
      modifies pcb, refcount, this`free
      ensures Valid() && FreeOk() && InRange(old(pcb.pageList), refcount.Length) && InRange(fs, refcount.Length)
      ensures ok ==> |fs| == StackPages(cfg) && State() == WithStack(old(State()), i, cfg, fs)
      ensures TakenFrom(free0, fs, free) && forall f :: f in free0 <==> Available(old(State()), i, f)
    {
      ghost var k := State();
      ResetProcessStack(pcb, i);
      SamePagesKeeps(k, i, k.procs[i].(pageCount := StackPages(cfg), stackTop := cfg.argsBase));
      DropPagesFrees(State(), i);
      ReleaseProcPages(pcb, i);
      FreeInRange();
      free0 := free;
      ok, fs := AllocatePage(pcb, pcb.pageCount, i);
    }

    ghost predicate FreeOk()
      reads this
    {
      forall f :: f in free ==> f < refcount.Length
    }

    lemma FreeInRange()
      requires RefInv(State())
      ensures FreeOk()
    {
      assert forall f :: f in free ==> f < |State().refcount|;
    }

    method NewImage(pcb: Pcb, segPages: nat, entry: int, ghost i: nat) returns (ok: bool, ghost fs: seq<nat>)
      requires Valid() && At(pcb, i) && FreeOk()
      modifies pcb, refcount, this`free
      ensures Valid() && FreeOk() && InRange(fs, refcount.Length) && TakenFrom(old(free), fs, free)
      ensures ok ==> |fs| == segPages
                     && State() == Grown(old(State()), i, ImageProc(old(pcb.View()), segPages, entry), fs)
    {
      ghost var k, p := State(), ImageProc(pcb.View(), segPages, entry);
      pcb.binImageEntry := entry;
      pcb.pageCount := pcb.pageCount + segPages;
      assert State() == WithProc(k, i, p) by {
        assert State().procs == k.procs[i := p];
      }
      ok, fs := AllocatePage(pcb, segPages, i);
    }

    method NewHeap(pcb: Pcb, ghost i: nat) returns (ok: bool, ghost fs: seq<nat>)
      requires Valid() && At(pcb, i) && FreeOk()
      modifies pcb, refcount, this`free
      ensures Valid() && FreeOk() && InRange(fs, refcount.Length) && TakenFrom(old(free), fs, free)
      ensures ok ==> |fs| == HeapPages(cfg) && State() == Grown(old(State()), i, HeapProc(old(pcb.View()), cfg), fs)
    {
      ghost var k, p := State(), HeapProc(pcb.View(), cfg);
      var pageCount := (cfg.heapSize + PAGE_SIZE - 1) / PAGE_SIZE;
      pcb.heapBase := (pcb.pageCount + 1) * PAGE_SIZE;
      pcb.heapPointer := pcb.heapBase;
      pcb.pageCount := pcb.pageCount + pageCount;
      assert State() == WithProc(k, i, p) by {
        assert State().procs == k.procs[i := p];
      }
      ok, fs := AllocatePage(pcb, pageCount, i);
    }

    method NewArgs(pcb: Pcb, ghost i: nat) returns (ok: bool, ghost fs: seq<nat>)
      requires Valid() && At(pcb, i) && FreeOk()
      modifies pcb, refcount, this`free
      ensures Valid() && FreeOk() && InRange(fs, refcount.Length) && TakenFrom(old(free), fs, free)
      ensures ok ==> |fs| == 1 && State() == Grown(old(State()), i, ArgsProc(old(pcb.View())), fs)
    {
      ghost var k, p := State(), ArgsProc(pcb.View());
      pcb.pageCount := pcb.pageCount + 1;
      assert State() == WithProc(k, i, p) by {
        assert State().procs == k.procs[i := p];
      }
      ok, fs := AllocatePage(pcb, 1, i);
    }

    /** -1 when the new size leaves the heap, else the old break. */
    method DoSbrk(pcb: Pcb, increment: int, ghost i: nat) returns (ret: int)
      requires Valid() && At(pcb, i) && -0x8000_0000 <= increment < 0x8000_0000
      modifies pcb`heapPointer
      ensures Valid() && State() == Sbrked(old(State()), i, cfg, increment)
      ensures ret == if MovedBreak(pcb.heapBase, old(pcb.heapPointer), cfg.heapSize, increment).None? then -1
                     else old(pcb.heapPointer)
      ensures old(HeapOk(pcb.View(), cfg)) ==>
                var b := old(pcb.heapPointer) + increment;
                if pcb.heapBase <= b < pcb.heapBase + cfg.heapSize
                then ret == old(pcb.heapPointer) && pcb.heapPointer == b
                else ret == -1 && pcb.heapPointer == old(pcb.heapPointer)
    {
      ret := -1;
      var b := NewBreak(pcb, increment);
      if b.Some? {
        ret := pcb.heapPointer;
        MoveBreak(pcb, b.value, i);
      }
    }

    /** None when the requested size leaves the heap. */
    method NewBreak(pcb: Pcb, increment: int) returns (b: Option<int>)
      requires -0x8000_0000 <= increment < 0x8000_0000
      ensures b == MovedBreak(pcb.heapBase, pcb.heapPointer, cfg.heapSize, increment)
      ensures HeapOk(pcb.View(), cfg) ==>
                var pointer := pcb.heapPointer + increment;
                b == if pcb.heapBase <= pointer < pcb.heapBase + cfg.heapSize then Some(pointer) else None
    {
      if HeapOk(pcb.View(), cfg) {
        BreakExact(pcb.heapBase, pcb.heapPointer, cfg.heapSize, increment);
      }
      var curSz := pcb.heapPointer - pcb.heapBase;
      var reqSz := Int32(curSz + increment);
      if reqSz >= cfg.heapSize || reqSz < 0 {
        return None;
      }
      return Some((pcb.heapPointer + increment) % 0x1_0000_0000);
    }

    method MoveBreak(pcb: Pcb, pointer: int, ghost i: nat)
      requires Valid() && At(pcb, i)
      modifies pcb`heapPointer
      ensures Valid() && pcb.heapPointer == pointer
      ensures State() == WithProc(old(State()), i, old(pcb.View()).(heapPointer := pointer))
    {
      ghost var k := State();
      pcb.heapPointer := pointer;
      assert State().procs == k.procs[i := pcb.View()];
    }
  }

  lemma OrChangesNothing(code: bv32)
    ensures !0x7f | ((code & 0xFF) << 8) == 0xFFFF_FF80
  {
  }

  /** The frames that exec maps are different from each other; nobody else referred to them once the old
      pages of the process were released, and nobody else does afterwards. */
  ghost predicate OwnFrames(k: Kern, k': Kern, i: nat, fs: Frames) {
    && (forall x, y :: 0 <= x < y < |fs.All()| ==> fs.All()[x] != fs.All()[y])
    && (forall x :: 0 <= x < |fs.All()| ==> Available(k, i, fs.All()[x]) && SoleOwner(k', i, fs.All()[x]))
  }

  lemma OwnTaken(k: Kern, i: nat, cfg: Config, segPages: nat, entry: int, fs: Frames, free: set<nat>, left: set<nat>)
    requires RefInv(k) && Listed(k, i) && InRange(k.procs[i].pages, |k.refcount|) && FramesFor(k, cfg, segPages, fs)
    requires TakenFrom(free, fs.All(), left) && forall f :: f in free <==> Available(k, i, f)
    ensures OwnFrames(k, Execed(k, i, cfg, segPages, entry, fs), i, fs)
  {
    forall x | 0 <= x < |fs.All()|
      ensures Available(k, i, fs.All()[x]) && SoleOwner(Execed(k, i, cfg, segPages, entry, fs), i, fs.All()[x])
    {
      assert fs.All()[x] in Elems(fs.All());
      OnceEach(fs.All(), x);
      ExecOwns(k, i, cfg, segPages, entry, fs, fs.All()[x]);
    }
  }

  /** The frames taken so far are those of the plan where it names one, and different free ones where
      it asks for a new one. */
  ghost predicate Follows(fs: seq<nat>, plan: seq<Option<nat>>, free: set<nat>, left: set<nat>) {
    && |fs| <= |plan| && left == free - Elems(fs)
    && (forall x :: 0 <= x < |fs| && plan[x].Some? ==> fs[x] == plan[x].value)
    && (forall x :: 0 <= x < |fs| && plan[x].None? ==> fs[x] in free)
    && (forall x, y :: 0 <= x < y < |fs| && plan[y].None? ==> fs[x] != fs[y])
  }

  lemma FollowsSnoc(fs: seq<nat>, plan: seq<Option<nat>>, free: set<nat>, left: set<nat>, f: nat)
    requires Follows(fs, plan, free, left) && |fs| < |plan|
    requires if plan[|fs|].Some? then f == plan[|fs|].value else f in left
    ensures Follows(fs + [f], plan, free, left - {f})
  {
    assert Elems(fs + [f]) == Elems(fs) + {f};
    forall x | 0 <= x < |fs| && plan[|fs|].None?
      ensures fs[x] != f
    {
      assert fs[x] in Elems(fs);
    }
  }

  /** No new frame of the child n is shared with anyone. */
  ghost predicate NewFramesOwned(k: Kern, n: nat, fs: seq<nat>, plan: seq<Option<nat>>) {
    |fs| == |plan| && forall x :: 0 <= x < |plan| && plan[x].None? ==> SoleOwner(k, n, fs[x])
  }

  lemma NewFrames(k: Kern, i: nat, fs: seq<nat>, plan: seq<Option<nat>>, left: set<nat>)
    requires RefInv(k) && Listed(k, i) && InRange(fs, |k.refcount|)
    requires Follows(fs, plan, k.free, left) && |fs| == |plan|
    requires forall x :: 0 <= x < |plan| && plan[x].Some? ==> plan[x].value !in k.free
    ensures NewFramesOwned(Forked(k, i, fs), |k.procs|, fs, plan)
  {
    forall x | 0 <= x < |plan| && plan[x].None?
      ensures SoleOwner(Forked(k, i, fs), |k.procs|, fs[x])
    {
      OnceEach(fs, x);
      ForkOwns(k, i, fs, fs[x]);
    }
  }

  lemma AddPagesSnoc(k: Kern, i: nat, fs: seq<nat>, f: nat)
    requires Listed(k, i) && InRange(fs, |k.refcount|) && f < |k.refcount|
    ensures InRange(fs + [f], |k.refcount|)
    ensures AddPages(k, i, fs + [f]) == AddPage(AddPages(k, i, fs), i, f)
  {
    var fs' := fs + [f];
    assert fs'[..|fs'| - 1] == fs && fs'[|fs'| - 1] == f;
  }

  lemma ForkedIs(k: Kern, i: nat, fs: seq<nat>, k1: Kern, k3: Kern)
    requires Listed(k, i) && InRange(fs, |k.refcount|)
    requires k1 == k.(procs := k.procs + [NewChild(k, k.procs[i])], pidCurrent := k.pidCurrent + 1)
    requires k3 == Scheduled(AddPages(k1, |k.procs|, fs), |k.procs|, READY)
    ensures k3 == Forked(k, i, fs)
  {
  }
}
