/** waitpid in two steps.  A caller that blocks in thread_join keeps a pointer to the PCB of the child
    and goes on with it later; in between, anyone may run.  `held` maps the pid of each blocked caller
    to the pid of the PCB it points to (pids are never used twice). */
module ProcessWait {
  import opened Common
  import opened ProcessModel

  datatype Joins = Joins(k: Kern, held: map<nat, nat>)

  datatype Act =
    | Plain(call: Call)
    | Block(i: nat, pid: int, nohang: bool)
    | Resume(q: nat)

  function ChildOf(w: Joins, q: nat): int
    requires q in w.held
  {
    FindByPid(w.k, w.held[q])
  }

  ghost predicate Ready(w: Joins, q: nat) {
    && q in w.held && (Exists(w.k, q) ==> ProcOf(w.k, q).state == WAITING)
    && ChildOf(w, q) != -1 && w.k.procs[ChildOf(w, q)].state == ZOMBIE
  }

  /** The scheduler leaves a blocked process alone.  Its caller q goes on once the child is a zombie,
      even if the PCB of q itself was removed meanwhile: its thread is still queued in the join. */
  ghost predicate Can(w: Joins, cfg: Config, a: Act) {
    match a
    case Plain(c) => Enabled(w.k, cfg, c) && (c.Schedule? ==> w.k.procs[c.i].pid !in w.held)
    case Block(i, pid, nohang) =>
      Listed(w.k, i) && w.k.procs[i].state == RUNNING && Waited(w.k, pid, nohang) == Blocked
    case Resume(q) => Ready(w, q)
  }

  ghost function Awake(k: Kern, q: nat): (k': Kern)
    ensures |k'.procs| == |k.procs|
  {
    if Exists(k, q) then Scheduled(k, FindByPid(k, q), RUNNING) else k
  }

  /** The rest of waitpid, on the child that the caller points to. */
  ghost function Resumed(w: Joins, q: nat): Joins
    requires Ready(w, q)
  {
    var j := ChildOf(w, q);
    var k1 := Awake(w.k, q);
    Joins(Reaped(WithProc(k1, j, k1.procs[j].(joined := true)), j), w.held - {q})
  }

  ghost function Next(w: Joins, cfg: Config, a: Act): Joins
    requires Can(w, cfg, a)
  {
    match a
    case Plain(c) => w.(k := After(w.k, cfg, c))
    case Block(i, pid, nohang) =>
      Joins(Scheduled(w.k, i, WAITING), w.held[w.k.procs[i].pid := w.k.procs[WaitTarget(w.k, pid)].pid])
    case Resume(q) => Resumed(w, q)
  }

  /** Only a waitpid for one pid blocks, and the caller then holds that pid's PCB and waits; a caller
      that goes on gets its answer for the PCB it holds, and runs if it is still listed. */
  lemma ActMeaning(w: Joins, cfg: Config, a: Act)
    requires TreeInv(w.k) && Can(w, cfg, a) && !a.Plain?
    ensures a.Block? ==>
              && a.pid > 0 && Exists(w.k, a.pid) && !a.nohang
              && Next(w, cfg, a).held == w.held[w.k.procs[a.i].pid := a.pid]
              && Next(w, cfg, a).k == w.k.(procs := w.k.procs[a.i := w.k.procs[a.i].(state := WAITING)])
    ensures a.Resume? ==>
              && Exists(w.k, w.held[a.q]) && ProcOf(w.k, w.held[a.q]).state == ZOMBIE
              && Next(w, cfg, a).held == w.held - {a.q}
              && Answered(Awake(w.k, a.q), Next(w, cfg, a).k, FindByPid(w.k, w.held[a.q]))
              && Awake(w.k, a.q).procs ==
                 if Exists(w.k, a.q) then w.k.procs[FindByPid(w.k, a.q) := ProcOf(w.k, a.q).(state := RUNNING)]
                 else w.k.procs
  {
    if a.Block? {
      TargetWanted(w.k, a.pid);
      var j := WaitTarget(w.k, a.pid);
      assert Wanted(w.k, a.pid, j);
      assert a.pid != -1;
    } else {
      var j := ChildOf(w, a.q);
      ReapAnswered(Awake(w.k, a.q), j);
    }
  }

  // ----- who is removed, and who still points to it -----

  /** Every PCB that a blocked caller points to is still there. */
  ghost predicate Safe(w: Joins) {
    forall q :: q in w.held ==> Exists(w.k, w.held[q])
  }

  /** The index of the process that the act takes off the list. */
  ghost function RemovedBy(w: Joins, cfg: Config, a: Act): Option<nat>
    requires Can(w, cfg, a)
  {
    var j := if a.Resume? then ChildOf(w, a.q)
             else if a.Plain? && a.call.Waitpid? then WaitTarget(w.k, a.call.pid) else -1;
    if j == -1 || FindByParent(w.k, w.k.procs[j].pid) != -1
       || (a.Plain? && a.call.nohang && w.k.procs[j].state != ZOMBIE)
    then None else Some(j)
  }

  /** Someone else than the caller still points to the PCB that is freed. */
  ghost predicate FreesHeld(w: Joins, cfg: Config, a: Act)
    requires Can(w, cfg, a)
  {
    var j := RemovedBy(w, cfg, a);
    j.Some? && exists q :: q in w.held && w.held[q] == w.k.procs[j.value].pid
                           && !(a.Resume? && q == a.q)
  }

  /** Whoever is removed is a zombie, unless the call is one for a single process that is waiting
      itself; a join that ends never removes a live process. */
  lemma RemovedIsZombie(w: Joins, cfg: Config, a: Act)
    requires Can(w, cfg, a) && RemovedBy(w, cfg, a).Some?
    ensures var j := RemovedBy(w, cfg, a).value;
            && Listed(w.k, j)
            && (w.k.procs[j].state == ZOMBIE <==>
                  !(a.Plain? && RemovesWaiting(w.k, a.call.pid, a.call.nohang)))
  {
  }

  /** The pids that are listed afterwards: all but the removed one, and a new one after fork. */
  lemma NextExists(w: Joins, cfg: Config, a: Act, q: nat)
    requires TreeInv(w.k) && Can(w, cfg, a) && Exists(w.k, q)
    ensures var j := RemovedBy(w, cfg, a);
            Exists(Next(w, cfg, a).k, q) <==> !(j.Some? && w.k.procs[j.value].pid == q)
  {
    var x := FindByPid(w.k, q);
    match a {
      case Plain(c) => CallExists(w, cfg, c, q, x);
      case Block(i, pid, nohang) => assert Next(w, cfg, a).k.procs[x].pid == q;
      case Resume(r) => ResumeExists(w, r, x);
    }
  }

  lemma ResumeExists(w: Joins, r: nat, x: nat)
    requires TreeInv(w.k) && Ready(w, r) && Listed(w.k, x)
    ensures var j := ChildOf(w, r);
            Exists(Resumed(w, r).k, w.k.procs[x].pid) <==> !(x == j && FindByParent(w.k, w.k.procs[j].pid) == -1)
  {
    var j := ChildOf(w, r);
    var k1 := Awake(w.k, r);
    ReapExists(w.k, WithProc(k1, j, k1.procs[j].(joined := true)), j, x);
  }

  lemma ReapExists(k: Kern, k1: Kern, j: nat, x: nat)
    requires TreeInv(k) && SameTree(k.procs, k1.procs) && Listed(k, j) && Listed(k, x)
    ensures Exists(Reaped(k1, j), k.procs[x].pid) <==> !(x == j && FindByParent(k, k.procs[j].pid) == -1)
    ensures FindByParent(k1, k.procs[j].pid) == -1 <==> FindByParent(k, k.procs[j].pid) == -1
  {
    SameChildren(k, k1, k.procs[j].pid);
    if FindByParent(k1, k.procs[j].pid) == -1 {
      RemovedExists(k, k1, j, x);
    } else {
      assert Reaped(k1, j).procs[x].pid == k.procs[x].pid;
    }
  }

  lemma RemovedExists(k: Kern, k1: Kern, j: nat, x: nat)
    requires TreeInv(k) && SameTree(k.procs, k1.procs) && Listed(k, j) && Listed(k, x)
    ensures Exists(Removed(k1, j), k.procs[x].pid) <==> x != j
  {
    var r := Removed(k1, j).procs;
    if x != j {
      assert r[if x < j then x else x - 1].pid == k.procs[x].pid;
    } else {
      assert forall y :: 0 <= y < |r| ==> r[y].pid == k.procs[if y < j then y else y + 1].pid;
    }
  }

  lemma SameChildren(k: Kern, k1: Kern, pid: nat)
    requires SameTree(k.procs, k1.procs)
    ensures FindByParent(k1, pid) == -1 <==> FindByParent(k, pid) == -1
  {
    assert forall j :: 0 <= j < |k.procs| ==> k.procs[j].parent == k1.procs[j].parent;
  }

  lemma CallExists(w: Joins, cfg: Config, c: Call, q: nat, x: nat)
    requires TreeInv(w.k) && Can(w, cfg, Plain(c)) && Listed(w.k, x) && w.k.procs[x].pid == q
    ensures var j := RemovedBy(w, cfg, Plain(c));
            Exists(After(w.k, cfg, c), q) <==> !(j.Some? && w.k.procs[j.value].pid == q)
  {
    match c {
      case Waitpid(i, pid, nohang) => WaitExists(w.k, pid, nohang, x);
      case Fork(i, fs) =>
        ForkProcs(w.k, i, fs);
        assert After(w.k, cfg, c).procs[x].pid == q;
      case Exit(i, status) =>
        ExitProcs(w.k, i, status);
        assert After(w.k, cfg, c).procs[x].pid == q;
      case Exec(i, segPages, entry, fs) =>
        ExecMeaning(w.k, i, cfg, segPages, entry, fs);
        assert After(w.k, cfg, c).procs[x].pid == q;
      case _ => assert After(w.k, cfg, c).procs[x].pid == q;
    }
  }

  lemma WaitExists(k: Kern, pid: int, nohang: bool, x: nat)
    requires TreeInv(k) && Waited(k, pid, nohang) != Blocked && Listed(k, x)
    ensures var j := WaitTarget(k, pid);
            Exists(Waited(k, pid, nohang).k, k.procs[x].pid) <==>
            !(j == x && FindByParent(k, k.procs[j].pid) == -1 && (nohang ==> k.procs[j].state == ZOMBIE))
  {
    var j := WaitTarget(k, pid);
    if j == -1 || (nohang && k.procs[j].state != ZOMBIE) {
      assert Waited(k, pid, nohang).k.procs[x].pid == k.procs[x].pid;
    } else {
      var k1 := if k.procs[j].state == WAITING then k else WithProc(k, j, k.procs[j].(joined := true));
      ReapExists(k, k1, j, x);
      assert Waited(k, pid, nohang).k == Reaped(k1, j);
    }
  }

  /** No blocked caller is left with a freed PCB, exactly when the act does not free one that someone
      else holds. */
  lemma SafeIff(w: Joins, cfg: Config, a: Act)
    requires TreeInv(w.k) && Safe(w) && Can(w, cfg, a)
    ensures Safe(Next(w, cfg, a)) <==> !FreesHeld(w, cfg, a)
  {
    if a.Block? {
      BlockSafe(w, cfg, a);
    } else {
      MovesSafe(w, Next(w, cfg, a), cfg, a);
    }
  }

  lemma MovesSafe(w: Joins, w': Joins, cfg: Config, a: Act)
    requires TreeInv(w.k) && Safe(w) && Can(w, cfg, a) && !a.Block? && w' == Next(w, cfg, a)
    ensures Safe(w') <==> !FreesHeld(w, cfg, a)
  {
    HeldStays(w, cfg, a);
    var j := RemovedBy(w, cfg, a);
    var gone := if j.Some? then Some(w.k.procs[j.value].pid) else None;
    var mover := if a.Resume? then Some(a.q) else None;
    forall q | q in w'.held
      ensures Exists(w'.k, w'.held[q]) <==> gone != Some(w'.held[q])
    {
      NextExists(w, cfg, a, w.held[q]);
    }
    HeldIff(w.held, w'.held, w'.k, gone, mover);
  }

  lemma HeldIff(held: map<nat, nat>, held': map<nat, nat>, k: Kern, gone: Option<nat>, mover: Option<nat>)
    requires forall q :: q in held' <==> q in held && mover != Some(q)
    requires forall q :: q in held' ==> held'[q] == held[q]
    requires forall q :: q in held' ==> (Exists(k, held'[q]) <==> gone != Some(held'[q]))
    ensures Safe(Joins(k, held')) <==>
            !(gone.Some? && exists q :: q in held && held[q] == gone.value && mover != Some(q))
  {
  }

  lemma HeldStays(w: Joins, cfg: Config, a: Act)
    requires Can(w, cfg, a) && !a.Block?
    ensures forall q :: q in Next(w, cfg, a).held <==> q in w.held && !(a.Resume? && q == a.q)
    ensures forall q :: q in Next(w, cfg, a).held ==> Next(w, cfg, a).held[q] == w.held[q]
  {
  }

  lemma BlockSafe(w: Joins, cfg: Config, a: Act)
    requires TreeInv(w.k) && Safe(w) && Can(w, cfg, a) && a.Block?
    ensures Safe(Next(w, cfg, a))
  {
    var w' := Next(w, cfg, a);
    forall q | q in w'.held
      ensures Exists(w'.k, w'.held[q])
    {
      if q == w.k.procs[a.i].pid {
        UniquePid(w.k, WaitTarget(w.k, a.pid));
      }
      NextExists(w, cfg, a, w'.held[q]);
    }
  }

  // ----- runs -----

  ghost predicate JoinGoes(w: Joins, cfg: Config, a: Act, w': Joins) {
    Can(w, cfg, a) && w' == Next(w, cfg, a)
  }

  ghost predicate JoinRun(ws: seq<Joins>, acts: seq<Act>, cfg: Config) {
    && |ws| == |acts| + 1
    && forall x {:trigger JoinGoes(ws[x], cfg, acts[x], ws[x + 1])} ::
         0 <= x < |acts| ==> JoinGoes(ws[x], cfg, acts[x], ws[x + 1])
  }

  lemma NextKeepsTree(w: Joins, cfg: Config, a: Act)
    requires TreeInv(w.k) && Can(w, cfg, a)
    ensures TreeInv(Next(w, cfg, a).k)
  {
    match a {
      case Plain(c) => CallKeepsTree(w.k, cfg, c);
      case Block(i, pid, nohang) => SameTreeKeeps(w.k, Scheduled(w.k, i, WAITING));
      case Resume(q) => ResumeKeepsTree(w, q);
    }
  }

  lemma ResumeKeepsTree(w: Joins, q: nat)
    requires TreeInv(w.k) && Ready(w, q)
    ensures TreeInv(Resumed(w, q).k)
  {
    var j := ChildOf(w, q);
    var k1 := Awake(w.k, q);
    var k2 := WithProc(k1, j, k1.procs[j].(joined := true));
    SameTreeKeeps(w.k, k2);
    if FindByParent(k2, k2.procs[j].pid) == -1 {
      RemoveKeepsTree(k2, j);
    }
  }

  lemma JoinLink(ws: seq<Joins>, acts: seq<Act>, cfg: Config, x: nat)
    requires JoinRun(ws, acts, cfg) && x < |acts|
    ensures Can(ws[x], cfg, acts[x]) && ws[x + 1] == Next(ws[x], cfg, acts[x])
  {
    assert JoinGoes(ws[x], cfg, acts[x], ws[x + 1]);
  }

  /** The tree of processes does not depend on who is blocked. */
  lemma {:induction false} JoinRunKeepsTree(ws: seq<Joins>, acts: seq<Act>, cfg: Config, n: nat)
    requires JoinRun(ws, acts, cfg) && n < |ws| && TreeInv(ws[0].k)
    ensures TreeInv(ws[n].k)
  {
    if n > 0 {
      JoinRunKeepsTree(ws, acts, cfg, n - 1);
      JoinLink(ws, acts, cfg, n - 1);
      NextKeepsTree(ws[n - 1], cfg, acts[n - 1]);
    }
  }

  ghost predicate BadAct(ws: seq<Joins>, acts: seq<Act>, cfg: Config, x: nat)
    requires JoinRun(ws, acts, cfg) && x < |acts|
  {
    JoinLink(ws, acts, cfg, x);
    FreesHeld(ws[x], cfg, acts[x])
  }

  lemma {:induction false} SafeUntil(ws: seq<Joins>, acts: seq<Act>, cfg: Config, n: nat)
    requires JoinRun(ws, acts, cfg) && n < |ws| && TreeInv(ws[0].k) && Safe(ws[0])
    requires forall x: nat :: x < n ==> !BadAct(ws, acts, cfg, x)
    ensures Safe(ws[n])
  {
    if n > 0 {
      SafeUntil(ws, acts, cfg, n - 1);
      assert !BadAct(ws, acts, cfg, n - 1);
      SafeStep(ws, acts, cfg, n - 1);
    }
  }

  lemma SafeStep(ws: seq<Joins>, acts: seq<Act>, cfg: Config, x: nat)
    requires JoinRun(ws, acts, cfg) && x < |acts| && TreeInv(ws[0].k) && Safe(ws[x])
    ensures Safe(ws[x + 1]) <==> !BadAct(ws, acts, cfg, x)
  {
    JoinRunKeepsTree(ws, acts, cfg, x);
    JoinLink(ws, acts, cfg, x);
    SafeIff(ws[x], cfg, acts[x]);
  }

  /** Over any run: every blocked caller's child is there in every state, if and only if no act frees
      a PCB that someone else is waiting for. */
  lemma {:induction false} RunSafeIff(ws: seq<Joins>, acts: seq<Act>, cfg: Config, n: nat)
    requires JoinRun(ws, acts, cfg) && n < |ws| && TreeInv(ws[0].k) && Safe(ws[0])
    ensures (forall x: nat :: x <= n ==> Safe(ws[x])) <==> (forall x: nat :: x < n ==> !BadAct(ws, acts, cfg, x))
  {
    if n > 0 {
      RunSafeIff(ws, acts, cfg, n - 1);
      if forall x: nat :: x <= n - 1 ==> Safe(ws[x]) {
        SafeStep(ws, acts, cfg, n - 1);
      }
    }
  }

  // ----- reference counts with blocked callers -----

  /** waitpid removes a waiting process together with its pages. */
  ghost predicate LosesAct(w: Joins, a: Act) {
    a.Plain? && Loses(w.k, a.call)
  }

  /** Blocking and going on after a join keep all invariants of the kernel, as the calls do. */
  lemma NextKeepsInv(w: Joins, cfg: Config, a: Act)
    requires Inv(w.k, cfg) && Can(w, cfg, a) && cfg.heapSize > 0
    ensures RefInv(Next(w, cfg, a).k) <==> !LosesAct(w, a)
    ensures !LosesAct(w, a) ==> Inv(Next(w, cfg, a).k, cfg)
  {
    match a {
      case Plain(c) => CallKeepsIff(w.k, cfg, c);
      case Block(i, pid, nohang) => ScheduleKeeps(w.k, cfg, i, WAITING);
      case Resume(q) => ResumeKeepsInv(w, cfg, q);
    }
  }

  lemma ResumeKeepsInv(w: Joins, cfg: Config, q: nat)
    requires Inv(w.k, cfg) && Ready(w, q)
    ensures Inv(Resumed(w, q).k, cfg)
  {
    ResumeKeepsTree(w, q);
    if Exists(w.k, q) {
      ScheduleKeeps(w.k, cfg, FindByPid(w.k, q), RUNNING);
    }
    ReapKeeps(Awake(w.k, q), cfg, ChildOf(w, q));
  }

  ghost predicate CountsRight(ws: seq<Joins>, n: nat)
    requires n < |ws|
  {
    forall x: nat :: x <= n ==> RefInv(ws[x].k)
  }

  ghost predicate NothingLost(ws: seq<Joins>, acts: seq<Act>, n: nat)
    requires n <= |acts| < |ws|
  {
    forall x: nat :: x < n ==> !LosesAct(ws[x], acts[x])
  }

  /** Over any run with blocked callers, every reference count is the number of page-list entries in
      every state, if and only if no act removes a waiting process together with its pages. */
  lemma {:induction false} JoinRunRefsIff(ws: seq<Joins>, acts: seq<Act>, cfg: Config, n: nat)
    requires JoinRun(ws, acts, cfg) && n < |ws| && Inv(ws[0].k, cfg) && cfg.heapSize > 0
    ensures CountsRight(ws, n) <==> NothingLost(ws, acts, n)
    ensures NothingLost(ws, acts, n) ==> Inv(ws[n].k, cfg)
  {
    if n > 0 {
      JoinRunRefsIff(ws, acts, cfg, n - 1);
      OneMore(ws, acts, n);
      if NothingLost(ws, acts, n - 1) {
        RefsStep(ws, acts, cfg, n - 1);
      }
    }
  }

  lemma OneMore(ws: seq<Joins>, acts: seq<Act>, n: nat)
    requires 0 < n <= |acts| < |ws|
    ensures CountsRight(ws, n) <==> CountsRight(ws, n - 1) && RefInv(ws[n].k)
    ensures NothingLost(ws, acts, n) <==> NothingLost(ws, acts, n - 1) && !LosesAct(ws[n - 1], acts[n - 1])
  {
  }

  lemma RefsStep(ws: seq<Joins>, acts: seq<Act>, cfg: Config, x: nat)
    requires JoinRun(ws, acts, cfg) && x < |acts| && Inv(ws[x].k, cfg) && cfg.heapSize > 0
    ensures RefInv(ws[x + 1].k) <==> !LosesAct(ws[x], acts[x])
    ensures !LosesAct(ws[x], acts[x]) ==> Inv(ws[x + 1].k, cfg)
  {
    JoinLink(ws, acts, cfg, x);
    NextKeepsInv(ws[x], cfg, acts[x]);
  }

  // ----- a blocked caller stays blocked -----

  /** A listed caller that is blocked is in state WAITING. */
  ghost predicate CallersWait(w: Joins) {
    forall q :: q in w.held ==> q < w.k.pidCurrent && (Exists(w.k, q) ==> ProcOf(w.k, q).state == WAITING)
  }

  /** Nothing but the end of the join makes it go on. */
  lemma NextCallersWait(w: Joins, cfg: Config, a: Act)
    requires TreeInv(w.k) && CallersWait(w) && Can(w, cfg, a)
    ensures CallersWait(Next(w, cfg, a))
  {
    var w' := Next(w, cfg, a);
    NextKeepsTree(w, cfg, a);
    PidsGrow(w, cfg, a);
    forall q | q in w'.held
      ensures q < w'.k.pidCurrent && (Exists(w'.k, q) ==> ProcOf(w'.k, q).state == WAITING)
    {
      if a.Block? && q == w.k.procs[a.i].pid {
        UniquePid(w.k, a.i);
        UniquePid(w'.k, a.i);
      } else if Exists(w'.k, q) {
        StillWaits(w, cfg, a, q);
      }
    }
  }

  lemma PidsGrow(w: Joins, cfg: Config, a: Act)
    requires TreeInv(w.k) && Can(w, cfg, a)
    ensures Next(w, cfg, a).k.pidCurrent >= w.k.pidCurrent
  {
    if a.Plain? {
      match a.call {
        case Fork(i, fs) =>
          var n := |w.k.procs|;
          var k1 := w.k.(procs := w.k.procs + [NewChild(w.k, w.k.procs[i])], pidCurrent := w.k.pidCurrent + 1);
          AddPagesProcs(k1, n, fs);
        case Exit(i, status) => ExitProcs(w.k, i, status);
        case Exec(i, segPages, entry, fs) => ExecMeaning(w.k, i, cfg, segPages, entry, fs);
        case _ =>
      }
    }
  }

  lemma StillWaits(w: Joins, cfg: Config, a: Act, q: nat)
    requires TreeInv(w.k) && CallersWait(w) && Can(w, cfg, a) && TreeInv(Next(w, cfg, a).k)
    requires q in w.held && q in Next(w, cfg, a).held && Exists(Next(w, cfg, a).k, q)
    requires a.Block? ==> q != w.k.procs[a.i].pid
    ensures ProcOf(Next(w, cfg, a).k, q).state == WAITING
  {
    var k' := Next(w, cfg, a).k;
    var j' := FindByPid(k', q);
    match a {
      case Plain(c) =>
        WasThere(w.k, cfg, c, q);
        OthersUntouched(w.k, cfg, c, FindByPid(w.k, q), j');
      case Block(i, pid, nohang) =>
        assert w.k.procs[j'].pid == q;
        UniquePid(w.k, j');
      case Resume(r) => ResumeStillWaits(w, r, q, j');
    }
  }

  /** A process with an old pid was listed before the call. */
  lemma WasThere(k: Kern, cfg: Config, c: Call, q: nat)
    requires TreeInv(k) && Enabled(k, cfg, c) && Exists(After(k, cfg, c), q) && q < k.pidCurrent
    ensures Exists(k, q)
  {
    var k' := After(k, cfg, c);
    var j' := FindByPid(k', q);
    match c {
      case Fork(i, fs) => ForkProcs(k, i, fs);
      case Exit(i, status) => ExitProcs(k, i, status);
      case Waitpid(i, pid, nohang) => WaitWasThere(k, pid, nohang, j');
      case Exec(i, segPages, entry, fs) => ExecMeaning(k, i, cfg, segPages, entry, fs);
      case _ =>
    }
    assert c.Waitpid? || k.procs[j'].pid == q;
  }

  lemma WaitWasThere(k: Kern, pid: int, nohang: bool, j': nat)
    requires Waited(k, pid, nohang) != Blocked && Listed(Waited(k, pid, nohang).k, j')
    ensures Exists(k, Waited(k, pid, nohang).k.procs[j'].pid)
  {
    var i, procs := WaitTarget(k, pid), Waited(k, pid, nohang).k.procs;
    if |procs| == |k.procs| {
      WaitedProcs(k, pid, nohang);
      assert k.procs[j'].pid == procs[j'].pid;
    } else {
      OnlyZombiesRemoved(k, pid, nohang);
      assert k.procs[if j' < i then j' else j' + 1].pid == procs[j'].pid;
    }
  }

  lemma ResumeStillWaits(w: Joins, r: nat, q: nat, j': nat)
    requires TreeInv(w.k) && CallersWait(w) && Ready(w, r) && q in w.held && q != r
    requires Listed(Resumed(w, r).k, j') && Resumed(w, r).k.procs[j'].pid == q
    ensures Resumed(w, r).k.procs[j'].state == WAITING
  {
    var j := ChildOf(w, r);
    var k1 := Awake(w.k, r);
    var x := ReapedFrom(WithProc(k1, j, k1.procs[j].(joined := true)), j, j');
    AwakeAt(w.k, r, x);
    UniquePid(w.k, x);
  }

  lemma ReapedFrom(k: Kern, j: nat, j': nat) returns (x: nat)
    requires Listed(k, j) && Listed(Reaped(k, j), j')
    ensures Listed(k, x) && Reaped(k, j).procs[j'] == k.procs[x]
  {
    x := if |Reaped(k, j).procs| == |k.procs| || j' < j then j' else j' + 1;
  }

  lemma AwakeAt(k: Kern, r: nat, x: nat)
    requires TreeInv(k) && Listed(k, x)
    ensures Awake(k, r).procs[x].pid == k.procs[x].pid
    ensures k.procs[x].pid != r ==> Awake(k, r).procs[x] == k.procs[x]
  {
  }

  lemma {:induction false} RunCallersWait(ws: seq<Joins>, acts: seq<Act>, cfg: Config, n: nat)
    requires JoinRun(ws, acts, cfg) && n < |ws| && TreeInv(ws[0].k) && CallersWait(ws[0])
    ensures CallersWait(ws[n])
  {
    if n > 0 {
      RunCallersWait(ws, acts, cfg, n - 1);
      JoinRunKeepsTree(ws, acts, cfg, n - 1);
      JoinLink(ws, acts, cfg, n - 1);
      NextCallersWait(ws[n - 1], cfg, acts[n - 1]);
    }
  }

  // ----- two processes wait for the same one -----

  /** Three processes; the third runs, has no child, and the other two are blocked on it. */
  ghost predicate TwoWaiters(w: Joins, cfg: Config) {
    && TreeInv(w.k) && RefInv(w.k) && |w.k.procs| == 3
    && w.held == map[w.k.procs[0].pid := w.k.procs[2].pid, w.k.procs[1].pid := w.k.procs[2].pid]
    && w.k.procs[0].state == WAITING && w.k.procs[1].state == WAITING && w.k.procs[2].state == RUNNING
  }

  lemma ThirdExits(w: Joins, cfg: Config) returns (w1: Joins)
    requires TwoWaiters(w, cfg)
    ensures JoinGoes(w, cfg, Plain(Exit(2, 0)), w1) && TreeInv(w1.k) && w1.held == w.held
    ensures |w1.k.procs| == 3 && SameTree(w.k.procs, w1.k.procs)
    ensures w1.k.procs[0].state == WAITING && w1.k.procs[2].state == ZOMBIE
  {
    ExitProcs(w.k, 2, 0);
    assert ParentBefore(w.k.procs, 2);
    w1 := Next(w, cfg, Plain(Exit(2, 0)));
    NextKeepsTree(w, cfg, Plain(Exit(2, 0)));
  }

  /** When the third exits and the first goes on, the second is left with a freed PCB. */
  lemma SecondWaiterDangles(w: Joins, cfg: Config) returns (w1: Joins, w2: Joins)
    requires TwoWaiters(w, cfg)
    ensures JoinGoes(w, cfg, Plain(Exit(2, 0)), w1) && JoinGoes(w1, cfg, Resume(w.k.procs[0].pid), w2)
    ensures Safe(w1) && !Safe(w2)
  {
    w1 := ThirdExits(w, cfg);
    var root := w.k.procs[0].pid;
    UniquePid(w1.k, 0);
    UniquePid(w1.k, 2);
    LastHasNoChild(w1.k);
    assert Ready(w1, root);
    w2 := Next(w1, cfg, Resume(root));
    assert w1.k.procs[1].pid in w1.held;
    SafeIff(w1, cfg, Resume(root));
  }

  lemma LastHasNoChild(k: Kern)
    requires TreeInv(k) && |k.procs| > 1
    ensures FindByParent(k, k.procs[|k.procs| - 1].pid) == -1
  {
    var n := |k.procs| - 1;
    forall x | 0 <= x <= n
      ensures k.procs[x].parent != Some(k.procs[n].pid)
    {
      if x > 0 {
        assert ParentBefore(k.procs, x);
      }
    }
  }

  // ----- a run that gets there -----

  ghost predicate Has(w: Joins, cfg: Config, states: seq<State>) {
    && Inv(w.k, cfg) && |w.k.procs| == |states|
    && forall i :: 0 <= i < |states| ==> w.k.procs[i].state == states[i]
  }

  lemma ScheduleAct(w: Joins, cfg: Config, states: seq<State>, i: nat) returns (w': Joins)
    requires Has(w, cfg, states) && i < |states| && states[i] == READY && w.held == map[]
    ensures JoinGoes(w, cfg, Plain(Schedule(i, RUNNING)), w') && Has(w', cfg, states[i := RUNNING])
    ensures w'.held == map[] && |w'.k.refcount| == |w.k.refcount|
    ensures w'.k.procs == w.k.procs[i := w.k.procs[i].(state := RUNNING)]
  {
    ScheduleKeeps(w.k, cfg, i, RUNNING);
    w' := Next(w, cfg, Plain(Schedule(i, RUNNING)));
  }

  lemma ForkAct(w: Joins, cfg: Config, states: seq<State>, i: nat, fs: seq<nat>) returns (w': Joins)
    requires Has(w, cfg, states) && i < |states| && states[i] == RUNNING && InRange(fs, |w.k.refcount|) && w.held == map[]
    ensures JoinGoes(w, cfg, Plain(Fork(i, fs)), w') && Has(w', cfg, states + [READY])
    ensures w'.held == map[] && |w'.k.refcount| == |w.k.refcount|
    ensures w'.k.procs[..|states|] == w.k.procs
    ensures w'.k.procs[|states|].parent == Some(w.k.procs[i].pid) && !w'.k.procs[|states|].joined
  {
    ForkKeeps(w.k, cfg, i, fs);
    ForkProcs(w.k, i, fs);
    w' := Next(w, cfg, Plain(Fork(i, fs)));
  }

  lemma BlockAct(w: Joins, cfg: Config, states: seq<State>, i: nat, j: nat) returns (w': Joins)
    requires Has(w, cfg, states) && i < |states| && j < |states| && states[i] == states[j] == RUNNING
    ensures JoinGoes(w, cfg, Block(i, w.k.procs[j].pid, false), w') && Has(w', cfg, states[i := WAITING])
    ensures w'.held == w.held[w.k.procs[i].pid := w.k.procs[j].pid]
    ensures SameTree(w.k.procs, w'.k.procs)
  {
    UniquePid(w.k, j);
    ScheduleKeeps(w.k, cfg, i, WAITING);
    w' := Next(w, cfg, Block(i, w.k.procs[j].pid, false));
  }

  /** Three processes run. */
  lemma ThreeRun(w0: Joins, cfg: Config, fs: seq<nat>) returns (ws: seq<Joins>, acts: seq<Act>)
    requires Has(w0, cfg, [READY]) && w0.held == map[] && InRange(fs, |w0.k.refcount|)
    ensures JoinRun(ws, acts, cfg) && ws[0] == w0
    ensures Has(ws[|acts|], cfg, [RUNNING, RUNNING, RUNNING]) && ws[|acts|].held == map[]
  {
    var w1 := ScheduleAct(w0, cfg, [READY], 0);
    var w2 := ForkAct(w1, cfg, [RUNNING], 0, fs);
    var w3 := ForkAct(w2, cfg, [RUNNING, READY], 0, fs);
    var w4 := ScheduleAct(w3, cfg, [RUNNING, READY, READY], 1);
    var w5 := ScheduleAct(w4, cfg, [RUNNING, RUNNING, READY], 2);
    ws, acts := [w0], [];
    ws, acts := Extend(ws, acts, cfg, Plain(Schedule(0, RUNNING)), w1);
    ws, acts := Extend(ws, acts, cfg, Plain(Fork(0, fs)), w2);
    ws, acts := Extend(ws, acts, cfg, Plain(Fork(0, fs)), w3);
    ws, acts := Extend(ws, acts, cfg, Plain(Schedule(1, RUNNING)), w4);
    ws, acts := Extend(ws, acts, cfg, Plain(Schedule(2, RUNNING)), w5);
  }

  lemma BothBlock(w: Joins, cfg: Config) returns (w1: Joins, w2: Joins)
    requires Has(w, cfg, [RUNNING, RUNNING, RUNNING]) && w.held == map[]
    ensures JoinGoes(w, cfg, Block(0, w.k.procs[2].pid, false), w1)
    ensures JoinGoes(w1, cfg, Block(1, w.k.procs[2].pid, false), w2) && TwoWaiters(w2, cfg)
  {
    w1 := BlockAct(w, cfg, [RUNNING, RUNNING, RUNNING], 0, 2);
    w2 := BlockAct(w1, cfg, [WAITING, RUNNING, RUNNING], 1, 2);
  }

  /** From every boot: the root forks twice, it and its first child wait for the second child, which
      exits; when the root goes on, the PCB that the first child points to is gone. */
  lemma WaiterIsLeftBehind(k: Kern, cfg: Config, stack: seq<nat>, fs: seq<nat>)
    returns (ws: seq<Joins>, acts: seq<Act>)
    requires 0 < cfg.heapSize <= 0x8000_0000
    requires k.refcount == seq(|k.refcount|, _ => 0) && InRange(stack, |k.refcount|) && InRange(fs, |k.refcount|)
    requires forall f: nat :: f in k.free <==> f < |k.refcount|
    ensures JoinRun(ws, acts, cfg) && ws[0] == Joins(Booted(k, cfg, stack), map[])
    ensures !Safe(ws[|acts|])
  {
    BootInv(k, cfg, stack);
    BootProcs(k, cfg, stack);
    var w0 := Joins(Booted(k, cfg, stack), map[]);
    ws, acts := ThreeRun(w0, cfg, fs);
    var w := ws[|acts|];
    var child := w.k.procs[2].pid;
    var w1, w2 := BothBlock(w, cfg);
    var w3, w4 := SecondWaiterDangles(w2, cfg);
    ws, acts := Extend(ws, acts, cfg, Block(0, child, false), w1);
    ws, acts := Extend(ws, acts, cfg, Block(1, child, false), w2);
    ws, acts := Extend(ws, acts, cfg, Plain(Exit(2, 0)), w3);
    ws, acts := Extend(ws, acts, cfg, Resume(w2.k.procs[0].pid), w4);
  }

  lemma Extend(ws: seq<Joins>, acts: seq<Act>, cfg: Config, a: Act, w: Joins)
    returns (ws': seq<Joins>, acts': seq<Act>)
    requires JoinRun(ws, acts, cfg) && JoinGoes(ws[|acts|], cfg, a, w)
    ensures JoinRun(ws', acts', cfg) && ws'[0] == ws[0] && ws'[|acts'|] == w
  {
    ws', acts' := ws + [w], acts + [a];
    forall x | 0 <= x < |acts'|
      ensures JoinGoes(ws'[x], cfg, acts'[x], ws'[x + 1])
    {
      if x < |acts| {
        JoinLink(ws, acts, cfg, x);
        assert ws'[x] == ws[x] && ws'[x + 1] == ws[x + 1];
      }
    }
  }
}
