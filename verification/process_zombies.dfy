/** Zombies that were joined while they still had children.  waitpid keeps the PCB of a process with
    children and never looks at it again; it relies on nobody outliving the last of them. */
module ProcessZombies {
  import opened Common
  import opened ProcessModel
  import opened ProcessWait

  /** Every joined process is kept for a child. */
  ghost predicate KeptForChild(k: Kern) {
    forall i :: 0 <= i < |k.procs| && k.procs[i].joined ==> FindByParent(k, k.procs[i].pid) != -1
  }

  /** Process j is the only child of process m. */
  ghost predicate OnlyChild(k: Kern, j: int, m: int) {
    && Listed(k, j) && Listed(k, m) && k.procs[j].parent == Some(k.procs[m].pid)
    && forall x :: 0 <= x < |k.procs| && x != j ==> k.procs[x].parent != Some(k.procs[m].pid)
  }

  /** Process j is the last child of a joined process. */
  ghost predicate LastOfJoined(k: Kern, j: int) {
    exists m :: Listed(k, m) && k.procs[m].joined && OnlyChild(k, j, m)
  }

  /** The act removes the last child of a joined process. */
  ghost predicate Strands(w: Joins, cfg: Config, a: Act)
    requires Can(w, cfg, a)
  {
    var j := RemovedBy(w, cfg, a);
    j.Some? && LastOfJoined(w.k, j.value)
  }

  // ----- one act -----

  /** Nobody goes, and whoever is joined now was joined before or has a child. */
  lemma StayKept(k: Kern, k': Kern)
    requires KeptForChild(k) && |k.procs| <= |k'.procs|
    requires forall i :: 0 <= i < |k.procs| ==>
               k'.procs[i].pid == k.procs[i].pid && k'.procs[i].parent == k.procs[i].parent
    requires forall i :: 0 <= i < |k'.procs| && k'.procs[i].joined ==>
               i < |k.procs| && (k.procs[i].joined || FindByParent(k, k.procs[i].pid) != -1)
    ensures KeptForChild(k')
  {
    forall i | 0 <= i < |k'.procs| && k'.procs[i].joined
      ensures FindByParent(k', k'.procs[i].pid) != -1
    {
      var x := FindByParent(k, k.procs[i].pid);
      assert k'.procs[x].parent == Some(k'.procs[i].pid);
    }
  }

  /** Process j goes; it has no child. */
  lemma RemovalKept(k: Kern, k1: Kern, j: nat)
    requires KeptForChild(k) && SameTree(k.procs, k1.procs) && Listed(k, j)
    requires FindByParent(k, k.procs[j].pid) == -1
    requires forall i :: 0 <= i < |k.procs| && i != j ==> k1.procs[i].joined == k.procs[i].joined
    ensures KeptForChild(Removed(k1, j)) <==> !LastOfJoined(k, j)
  {
    var k' := Removed(k1, j);
    assert forall x :: 0 <= x < |k'.procs| ==> k'.procs[x] == k1.procs[if x < j then x else x + 1];
    forall m | Listed(k, m) && k.procs[m].joined && OnlyChild(k, j, m)
      ensures !KeptForChild(k')
    {
      assert m != j;
      assert k'.procs[if m < j then m else m - 1].joined;
    }
    forall y | 0 <= y < |k'.procs| && k'.procs[y].joined && FindByParent(k', k'.procs[y].pid) == -1
      ensures var m := if y < j then y else y + 1; k.procs[m].joined && OnlyChild(k, j, m)
    {
      ChildIsGone(k, k1, j, y);
    }
  }

  lemma ChildIsGone(k: Kern, k1: Kern, j: nat, y: nat)
    requires KeptForChild(k) && SameTree(k.procs, k1.procs) && Listed(k, j)
    requires forall i :: 0 <= i < |k.procs| && i != j ==> k1.procs[i].joined == k.procs[i].joined
    requires Listed(Removed(k1, j), y) && Removed(k1, j).procs[y].joined
    requires FindByParent(Removed(k1, j), Removed(k1, j).procs[y].pid) == -1
    ensures var m := if y < j then y else y + 1; Listed(k, m) && k.procs[m].joined && OnlyChild(k, j, m)
  {
    var m := if y < j then y else y + 1;
    var r := Removed(k1, j).procs;
    forall x | 0 <= x < |k.procs| && x != j
      ensures k.procs[x].parent != Some(k.procs[m].pid)
    {
      assert r[if x < j then x else x - 1].parent == k.procs[x].parent;
    }
    assert r[y] == k1.procs[m];
    var c := FindByParent(k, k.procs[m].pid);
    assert c == j;
  }

  /** The end of a join, on a kernel k1 that differs from k in states and in the joined child. */
  lemma ReapKept(k: Kern, k1: Kern, j: nat)
    requires KeptForChild(k) && SameTree(k.procs, k1.procs) && Listed(k, j)
    requires forall i :: 0 <= i < |k.procs| && i != j ==> k1.procs[i].joined == k.procs[i].joined
    ensures KeptForChild(Reaped(k1, j)) <==>
            !(FindByParent(k, k.procs[j].pid) == -1 && LastOfJoined(k, j))
  {
    SameChildren(k, k1, k.procs[j].pid);
    if FindByParent(k, k.procs[j].pid) == -1 {
      RemovalKept(k, k1, j);
    } else {
      StayKept(k, k1);
    }
  }

  lemma WaitKept(k: Kern, pid: int, nohang: bool)
    requires KeptForChild(k) && Waited(k, pid, nohang) != Blocked
    ensures var j := WaitTarget(k, pid);
            KeptForChild(Waited(k, pid, nohang).k) <==>
            !(j != -1 && FindByParent(k, k.procs[j].pid) == -1 && (nohang ==> k.procs[j].state == ZOMBIE)
              && LastOfJoined(k, j))
  {
    var j := WaitTarget(k, pid);
    if j != -1 && (nohang ==> k.procs[j].state == ZOMBIE) {
      var k1 := if k.procs[j].state == WAITING then k else WithProc(k, j, k.procs[j].(joined := true));
      ReapKept(k, k1, j);
      assert Waited(k, pid, nohang).k == Reaped(k1, j);
    }
  }

  lemma CallKept(k: Kern, cfg: Config, c: Call)
    requires KeptForChild(k) && Enabled(k, cfg, c) && !c.Waitpid?
    ensures KeptForChild(After(k, cfg, c))
  {
    match c {
      case Fork(i, fs) => ForkProcs(k, i, fs);
      case Exit(i, status) => ExitProcs(k, i, status);
      case Exec(i, segPages, entry, fs) => ExecMeaning(k, i, cfg, segPages, entry, fs);
      case _ =>
    }
    StayKept(k, After(k, cfg, c));
  }

  /** One act keeps a child for every joined process exactly when it does not remove the last child of
      one. */
  lemma KeptIff(w: Joins, cfg: Config, a: Act)
    requires KeptForChild(w.k) && Can(w, cfg, a)
    ensures KeptForChild(Next(w, cfg, a).k) <==> !Strands(w, cfg, a)
  {
    match a {
      case Plain(c) => PlainKept(w, cfg, c);
      case Block(i, pid, nohang) => BlockKept(w, i);
      case Resume(q) => ResumeKept(w, q);
    }
  }

  lemma PlainKept(w: Joins, cfg: Config, c: Call)
    requires KeptForChild(w.k) && Can(w, cfg, Plain(c))
    ensures KeptForChild(After(w.k, cfg, c)) <==> !Strands(w, cfg, Plain(c))
  {
    if c.Waitpid? {
      WaitKept(w.k, c.pid, c.nohang);
    } else {
      CallKept(w.k, cfg, c);
    }
  }

  lemma ResumeKept(w: Joins, q: nat)
    requires KeptForChild(w.k) && Ready(w, q)
    ensures var j := ChildOf(w, q);
            KeptForChild(Resumed(w, q).k) <==> !(FindByParent(w.k, w.k.procs[j].pid) == -1 && LastOfJoined(w.k, j))
  {
    var j := ChildOf(w, q);
    var k1 := Awake(w.k, q);
    ReapKept(w.k, WithProc(k1, j, k1.procs[j].(joined := true)), j);
  }

  lemma BlockKept(w: Joins, i: nat)
    requires KeptForChild(w.k) && Listed(w.k, i)
    ensures KeptForChild(Scheduled(w.k, i, WAITING))
  {
    StayKept(w.k, Scheduled(w.k, i, WAITING));
  }

  // ----- runs -----

  ghost predicate AllKept(ws: seq<Joins>, n: nat)
    requires n < |ws|
  {
    forall x: nat :: x <= n ==> KeptForChild(ws[x].k)
  }

  ghost predicate StrandsAt(ws: seq<Joins>, acts: seq<Act>, cfg: Config, x: nat)
    requires JoinRun(ws, acts, cfg) && x < |acts|
  {
    JoinLink(ws, acts, cfg, x);
    Strands(ws[x], cfg, acts[x])
  }

  lemma KeptStep(ws: seq<Joins>, acts: seq<Act>, cfg: Config, x: nat)
    requires JoinRun(ws, acts, cfg) && x < |acts| && KeptForChild(ws[x].k)
    ensures KeptForChild(ws[x + 1].k) <==> !StrandsAt(ws, acts, cfg, x)
  {
    JoinLink(ws, acts, cfg, x);
    KeptIff(ws[x], cfg, acts[x]);
  }

  /** Over any run: every joined process that is still listed has a listed child in every state, if and
      only if no act removes the last child of a joined process. */
  lemma {:induction false} RunKeptIff(ws: seq<Joins>, acts: seq<Act>, cfg: Config, n: nat)
    requires JoinRun(ws, acts, cfg) && n < |ws| && KeptForChild(ws[0].k)
    ensures AllKept(ws, n) <==> (forall x: nat :: x < n ==> !StrandsAt(ws, acts, cfg, x))
  {
    if n > 0 {
      RunKeptIff(ws, acts, cfg, n - 1);
      if AllKept(ws, n - 1) {
        KeptStep(ws, acts, cfg, n - 1);
      }
    }
  }

  /** A joined process goes only if a call names it, or a caller that blocked on it earlier goes on:
      waitpid(-1) never finds it. */
  lemma JoinedGoesByName(w: Joins, cfg: Config, a: Act)
    requires TreeInv(w.k) && Can(w, cfg, a) && RemovedBy(w, cfg, a).Some?
    requires w.k.procs[RemovedBy(w, cfg, a).value].joined
    ensures var pid := w.k.procs[RemovedBy(w, cfg, a).value].pid;
            (a.Plain? && a.call.Waitpid? && a.call.pid == pid) || (a.Resume? && w.held[a.q] == pid)
  {
  }

  // ----- a run that strands a process -----

  /** Parent, child and grandchild; nobody was joined. */
  ghost predicate ThreeGenerations(w: Joins, cfg: Config, states: seq<State>) {
    && |states| == 3 && Has(w, cfg, states) && w.held == map[]
    && w.k.procs[1].parent == Some(w.k.procs[0].pid) && w.k.procs[2].parent == Some(w.k.procs[1].pid)
    && !w.k.procs[0].joined && !w.k.procs[1].joined && !w.k.procs[2].joined
  }

  lemma Generations(w0: Joins, cfg: Config, fs: seq<nat>) returns (ws: seq<Joins>, acts: seq<Act>)
    requires Has(w0, cfg, [READY]) && w0.held == map[] && InRange(fs, |w0.k.refcount|) && !w0.k.procs[0].joined
    ensures JoinRun(ws, acts, cfg) && ws[0] == w0
    ensures ThreeGenerations(ws[|acts|], cfg, [RUNNING, RUNNING, RUNNING])
  {
    var w1 := ScheduleAct(w0, cfg, [READY], 0);
    var w2 := ForkAct(w1, cfg, [RUNNING], 0, fs);
    var w3 := ScheduleAct(w2, cfg, [RUNNING, READY], 1);
    var w4 := ForkAct(w3, cfg, [RUNNING, RUNNING], 1, fs);
    var w5 := ScheduleAct(w4, cfg, [RUNNING, RUNNING, READY], 2);
    assert w2.k.procs[0] == w2.k.procs[..1][0] && w4.k.procs[0] == w4.k.procs[..2][0];
    assert w4.k.procs[1] == w4.k.procs[..2][1];
    ws, acts := [w0], [];
    ws, acts := Extend(ws, acts, cfg, Plain(Schedule(0, RUNNING)), w1);
    ws, acts := Extend(ws, acts, cfg, Plain(Fork(0, fs)), w2);
    ws, acts := Extend(ws, acts, cfg, Plain(Schedule(1, RUNNING)), w3);
    ws, acts := Extend(ws, acts, cfg, Plain(Fork(1, fs)), w4);
    ws, acts := Extend(ws, acts, cfg, Plain(Schedule(2, RUNNING)), w5);
  }

  /** The child exits and is joined; it stays for the grandchild. */
  lemma ChildIsJoined(w: Joins, cfg: Config) returns (w1: Joins, w2: Joins)
    requires ThreeGenerations(w, cfg, [RUNNING, RUNNING, RUNNING])
    ensures JoinGoes(w, cfg, Plain(Exit(1, 0)), w1) && JoinGoes(w1, cfg, Plain(Waitpid(0, -1, true)), w2)
    ensures Has(w2, cfg, [RUNNING, ZOMBIE, RUNNING]) && w2.held == map[] && KeptForChild(w2.k)
    ensures w2.k.procs[2].parent == Some(w2.k.procs[1].pid)
    ensures w2.k.procs[1].parent == Some(w2.k.procs[0].pid)
    ensures !w2.k.procs[0].joined && w2.k.procs[1].joined && !w2.k.procs[2].joined
  {
    w1 := ExitAct(w, cfg, [RUNNING, RUNNING, RUNNING], 1);
    w2 := ChildStays(w1, cfg);
  }

  lemma ChildStays(w: Joins, cfg: Config) returns (w': Joins)
    requires ThreeGenerations(w, cfg, [RUNNING, ZOMBIE, RUNNING])
    ensures JoinGoes(w, cfg, Plain(Waitpid(0, -1, true)), w') && w'.held == map[] && KeptForChild(w'.k)
    ensures Has(w', cfg, [RUNNING, ZOMBIE, RUNNING])
    ensures w'.k.procs == w.k.procs[1 := w.k.procs[1].(joined := true)]
  {
    var k, pid := w.k, w.k.procs[1].pid;
    assert FindZombieToClean(k) == 1;
    assert FindByParent(k, pid) != -1;
    w' := w.(k := WithProc(k, 1, k.procs[1].(joined := true)));
    SameChildren(k, w'.k, pid);
    WaitKeeps(k, cfg, 0, -1, true);
  }

  lemma ExitAct(w: Joins, cfg: Config, states: seq<State>, i: nat) returns (w': Joins)
    requires Has(w, cfg, states) && 0 < i < |states| && states[i] == RUNNING
    ensures JoinGoes(w, cfg, Plain(Exit(i, 0)), w') && Has(w', cfg, states[i := ZOMBIE]) && w'.held == w.held
    ensures SameTree(w.k.procs, w'.k.procs)
    ensures forall x :: 0 <= x < |states| ==> w'.k.procs[x].joined == w.k.procs[x].joined
  {
    assert ParentBefore(w.k.procs, i);
    ExitKeeps(w.k, cfg, i, 0);
    ExitProcs(w.k, i, 0);
    w' := Next(w, cfg, Plain(Exit(i, 0)));
  }

  /** The grandchild exits and is cleaned up; nothing is left that would clean up the child. */
  lemma GrandchildGoes(w: Joins, cfg: Config) returns (w1: Joins, w2: Joins)
    requires Has(w, cfg, [RUNNING, ZOMBIE, RUNNING]) && w.held == map[] && KeptForChild(w.k)
    requires w.k.procs[2].parent == Some(w.k.procs[1].pid) && w.k.procs[1].parent == Some(w.k.procs[0].pid)
    requires !w.k.procs[0].joined && w.k.procs[1].joined && !w.k.procs[2].joined
    ensures JoinGoes(w, cfg, Plain(Exit(2, 0)), w1) && JoinGoes(w1, cfg, Plain(Waitpid(0, -1, true)), w2)
    ensures !KeptForChild(w2.k) && FindZombieToClean(w2.k) == -1
  {
    w1 := ExitAct(w, cfg, [RUNNING, ZOMBIE, RUNNING], 2);
    LastHasNoChild(w1.k);
    assert FindZombieToClean(w1.k) == 2;
    w2 := Next(w1, cfg, Plain(Waitpid(0, -1, true)));
    assert w2.k.procs == w1.k.procs[..2];
    assert w2.k.procs[1].joined;
    OnlyParents(w1.k);
    assert FindByParent(w2.k, w2.k.procs[1].pid) == -1;
  }

  lemma OnlyParents(k: Kern)
    requires TreeInv(k) && |k.procs| >= 2 && k.procs[1].parent == Some(k.procs[0].pid)
    ensures k.procs[0].parent != Some(k.procs[1].pid) && k.procs[1].parent != Some(k.procs[1].pid)
  {
  }

  /** From every boot: the root's child forks, exits and is joined; when the grandchild has exited and
      is cleaned up too, the child stays in the list, childless, and waitpid(-1) finds nobody. */
  lemma ZombieIsStranded(k: Kern, cfg: Config, stack: seq<nat>, fs: seq<nat>)
    returns (ws: seq<Joins>, acts: seq<Act>)
    requires 0 < cfg.heapSize <= 0x8000_0000
    requires k.refcount == seq(|k.refcount|, _ => 0) && InRange(stack, |k.refcount|) && InRange(fs, |k.refcount|)
    requires forall f: nat :: f in k.free <==> f < |k.refcount|
    ensures JoinRun(ws, acts, cfg) && ws[0] == Joins(Booted(k, cfg, stack), map[])
    ensures !KeptForChild(ws[|acts|].k) && FindZombieToClean(ws[|acts|].k) == -1
  {
    BootInv(k, cfg, stack);
    BootProcs(k, cfg, stack);
    ws, acts := Generations(Joins(Booted(k, cfg, stack), map[]), cfg, fs);
    var w1, w2 := ChildIsJoined(ws[|acts|], cfg);
    var w3, w4 := GrandchildGoes(w2, cfg);
    ws, acts := Extend(ws, acts, cfg, Plain(Exit(1, 0)), w1);
    ws, acts := Extend(ws, acts, cfg, Plain(Waitpid(0, -1, true)), w2);
    ws, acts := Extend(ws, acts, cfg, Plain(Exit(2, 0)), w3);
    ws, acts := Extend(ws, acts, cfg, Plain(Waitpid(0, -1, true)), w4);
  }
}
