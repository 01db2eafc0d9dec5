/** The page-replacement simulator: a bit-packed page table, per-page access stamps and one
    wrapping counter.  `Simulator` updates them in place; the functions on `Machine` say what each
    operation does to the whole state. */
module MemReplace {
  import opened Common
  import opened Recency
  import Stamps

  const NB_PAGES: nat := 16
  const DELTA: int := 2
  const PAGE_NB_MASK: bv8 := 0xF0
  const REF_BIT_MASK: bv8 := 4
  const SWAP_BIT_MASK: bv8 := 2
  const VALID_BIT_MASK: bv8 := 1

  datatype Machine = Machine(pt: seq<bv8>, tdu: seq<uint8>, tvc: uint8)
  datatype Mode = LRU | WSC
  /** Halted is the exit(1) of the LRU replacement when no page is valid. */
  datatype Outcome = Running(m: Machine) | Halted

  // ----- one page-table entry -----

  predicate HasBit(e: bv8, mask: bv8) { e & mask != 0 }
  predicate IsValid(e: bv8) { HasBit(e, VALID_BIT_MASK) }
  predicate IsSwap(e: bv8) { HasBit(e, SWAP_BIT_MASK) }
  predicate IsRef(e: bv8) { HasBit(e, REF_BIT_MASK) }
  function PageBits(e: bv8): bv8 { e & PAGE_NB_MASK }

  function Evicted(e: bv8): bv8 { (e & !VALID_BIT_MASK) | SWAP_BIT_MASK }
  function Unreferenced(e: bv8): bv8 { e & !REF_BIT_MASK }
  function Unswapped(e: bv8): bv8 { e & !SWAP_BIT_MASK }
  function Validated(e: bv8): bv8 { e | VALID_BIT_MASK }
  function Referenced(e: bv8): bv8 { e | REF_BIT_MASK }

  /** Each update changes exactly the flags it names and never the page number. */
  lemma EntryBits(e: bv8)
    ensures PageBits(Evicted(e)) == PageBits(Unreferenced(e)) == PageBits(Unswapped(e))
            == PageBits(Validated(e)) == PageBits(Referenced(e)) == PageBits(e)
    ensures !IsValid(Evicted(e)) && IsSwap(Evicted(e)) && IsRef(Evicted(e)) == IsRef(e)
    ensures IsValid(Unreferenced(e)) == IsValid(e) && IsSwap(Unreferenced(e)) == IsSwap(e)
    ensures !IsRef(Unreferenced(e))
    ensures IsValid(Unswapped(e)) == IsValid(e) && !IsSwap(Unswapped(e)) && IsRef(Unswapped(e)) == IsRef(e)
    ensures IsValid(Validated(e)) && IsSwap(Validated(e)) == IsSwap(e) && IsRef(Validated(e)) == IsRef(e)
    ensures IsValid(Referenced(e)) == IsValid(e) && IsSwap(Referenced(e)) == IsSwap(e) && IsRef(Referenced(e))
    ensures REF_BIT_MASK & VALID_BIT_MASK == 0
  {
  }

  // ----- whole-state functions -----

  ghost predicate Sized(m: Machine) {
    |m.pt| == NB_PAGES && |m.tdu| == NB_PAGES
  }

  predicate InRange(p: int) { 0 <= p < NB_PAGES }

  ghost function ValidPages(m: Machine): set<nat>
    requires Sized(m)
  {
    set i: nat | i < NB_PAGES && IsValid(m.pt[i])
  }

  /** The scan of the first n pages for the smallest stamp; -1 when none of them is valid. */
  function LruVictim(m: Machine, n: nat): (v: int)
    requires Sized(m) && n <= NB_PAGES
    ensures -1 <= v < n
    ensures v == -1 <==> forall i :: 0 <= i < n ==> !IsValid(m.pt[i])
    ensures v >= 0 ==> IsValid(m.pt[v]) && forall i :: 0 <= i < n && IsValid(m.pt[i]) && i != v ==> Older(m, v, i)
  {
    if n == 0 then -1
    else
      var best := LruVictim(m, n - 1);
      if IsValid(m.pt[n - 1]) && (best == -1 || m.tdu[n - 1] < m.tdu[best]) then n - 1 else best
  }

  /** Page i is evicted before page j: smaller stamp, ties to the smaller page number. */
  predicate Older(m: Machine, i: int, j: int)
    requires Sized(m) && InRange(i) && InRange(j)
  {
    m.tdu[i] < m.tdu[j] || (m.tdu[i] == m.tdu[j] && i < j)
  }

  function Stamped(m: Machine, p: nat): Machine
    requires Sized(m) && InRange(p)
  {
    var t := (m.tvc + 1) % 256;
    m.(tdu := m.tdu[p := t], tvc := t)
  }

  function LruStep(m: Machine, p: nat): Outcome
    requires Sized(m) && InRange(p)
  {
    if IsValid(m.pt[p]) then Running(Stamped(m, p))
    else
      var v := LruVictim(m, |m.pt|);
      if v == -1 then Halted
      else
        var pt := m.pt[v := Evicted(m.pt[v])];
        Running(Stamped(m.(pt := pt[p := Unswapped(Validated(pt[p]))]), p))
  }

  /** Not referenced since the last sweep, and idle for more than DELTA ticks. The subtraction is
      on ints: a stamp above the wrapped counter gives a negative age. */
  predicate Candidate(m: Machine, i: int)
    requires Sized(m) && InRange(i)
  {
    IsValid(m.pt[i]) && !IsRef(m.pt[i]) && m.tvc - m.tdu[i] > DELTA
  }

  /** The lowest candidate among the first n pages; n when there is none. */
  function FirstCandidateIn(m: Machine, n: nat): (c: nat)
    requires Sized(m) && n <= NB_PAGES
    ensures c <= n
    ensures forall j :: 0 <= j < c ==> !Candidate(m, j)
    ensures c < n ==> Candidate(m, c)
  {
    if n == 0 then 0
    else
      var c := FirstCandidateIn(m, n - 1);
      if c == n - 1 && !Candidate(m, c) then n else c
  }

  function FirstValidIn(m: Machine, n: nat): (c: nat)
    requires Sized(m) && n <= NB_PAGES
    ensures c <= n
    ensures forall j :: 0 <= j < c ==> !IsValid(m.pt[j])
    ensures c < n ==> IsValid(m.pt[c])
  {
    if n == 0 then 0
    else
      var c := FirstValidIn(m, n - 1);
      if c == n - 1 && !IsValid(m.pt[c]) then n else c
  }

  function FirstCandidate(m: Machine): nat
    requires Sized(m)
  {
    FirstCandidateIn(m, |m.pt|)
  }

  function FirstValid(m: Machine): nat
    requires Sized(m)
  {
    FirstValidIn(m, |m.pt|)
  }

  /** The page the sweep evicts; NB_PAGES when no page is valid. */
  function WscVictim(m: Machine): nat
    requires Sized(m)
  {
    if FirstCandidate(m) < NB_PAGES then FirstCandidate(m) else FirstValid(m)
  }

  /** What the sweep leaves in entry j: REF goes from every valid page before the exit point. */
  function Swept(m: Machine, j: nat): bv8
    requires Sized(m) && InRange(j)
  {
    if j < FirstCandidate(m) && IsValid(m.pt[j]) then Unreferenced(m.pt[j]) else m.pt[j]
  }

  function WscReplaced(m: Machine): (r: Machine)
    requires Sized(m)
  {
    m.(pt := seq(NB_PAGES, j requires 0 <= j < NB_PAGES =>
      if j == WscVictim(m) then Evicted(Swept(m, j)) else Swept(m, j)))
  }

  /** The stamps are refreshed where an entry has a bit of `mask`. */
  function TduUpdated(m: Machine, mask: bv8): Machine
    requires Sized(m)
  {
    m.(tdu := seq(NB_PAGES, j requires 0 <= j < NB_PAGES =>
      if HasBit(m.pt[j], mask) then m.tvc else m.tdu[j]))
  }

  function WscStep(m: Machine, p: nat): Machine
    requires Sized(m) && InRange(p)
  {
    var m1 := if IsValid(m.pt[p]) then m
              else var r := WscReplaced(m); r.(pt := r.pt[p := Unswapped(r.pt[p])]);
    var pt := m1.pt[p := Referenced(Validated(m1.pt[p]))];
    TduUpdated(m1.(pt := pt, tvc := (m1.tvc + 1) % 256), REF_BIT_MASK & VALID_BIT_MASK)
  }

  function Step(mode: Mode, m: Machine, p: int): (r: Outcome)
    requires Sized(m)
    ensures r.Running? ==> Sized(r.m)
  {
    if !InRange(p) then Running(m)
    else if mode == LRU then LruStep(m, p)
    else Running(WscStep(m, p))
  }

  function Run(mode: Mode, m: Machine, trace: seq<int>): (r: Outcome)
    requires Sized(m)
    ensures r.Running? ==> Sized(r.m)
    decreases |trace|
  {
    if trace == [] then Running(m)
    else
      var r := Step(mode, m, trace[0]);
      if r.Halted? then Halted else Run(mode, r.m, trace[1..])
  }

  /** The requests of a trace that name a page. */
  function Requests(trace: seq<int>): (r: seq<nat>)
    ensures Stamps.Within(r, NB_PAGES)
  {
    if trace == [] then []
    else (if InRange(trace[0]) then [trace[0]] else []) + Requests(trace[1..])
  }

  function InitEntry(i: nat): bv8
    requires i < NB_PAGES
  {
    ((i as bv8 & 0xF) << 4) | (if i < 3 then VALID_BIT_MASK else if i == 3 then SWAP_BIT_MASK else 0)
  }

  function Init(): (m: Machine)
    ensures Sized(m)
  {
    Machine(seq(NB_PAGES, i requires 0 <= i < NB_PAGES => InitEntry(i)), seq(NB_PAGES, _ => 0), 0)
  }

  // ----- LRU is the time-stamp table of 16 pages, 3 frames and 256 counter values -----

  ghost function Abs(m: Machine): Stamps.Table
    requires Sized(m)
  {
    Stamps.Table(ValidPages(m), m.tdu, m.tvc)
  }

  lemma {:induction false} VictimAbs(m: Machine, n: nat)
    requires Sized(m) && n <= NB_PAGES
    ensures LruVictim(m, n) == Stamps.Victim(Abs(m), n)
  {
    if n > 0 {
      VictimAbs(m, n - 1);
    }
  }

  /** One LRU access is one access of the table; it never finds memory empty. */
  lemma LruStepRefines(m: Machine, p: nat)
    requires Sized(m) && ValidPages(m) != {} && InRange(p)
    ensures var r := LruStep(m, p);
            r.Running? && Sized(r.m) && Stamps.Sane(Abs(m)) && Abs(r.m) == Stamps.Access(Abs(m), p, 256)
    ensures IsValid(m.pt[p]) <==> p in Abs(m).valid
  {
    VictimAbs(m, |m.pt|);
    if IsValid(m.pt[p]) {
      assert ValidPages(Stamped(m, p)) == ValidPages(m);
    } else {
      var q :| q in ValidPages(m);
      var v := LruVictim(m, |m.pt|);
      LruSwap(m, v, p);
      var pt := m.pt[v := Evicted(m.pt[v])];
      var m' := m.(pt := pt[p := Unswapped(Validated(pt[p]))]);
      assert ValidPages(Stamped(m', p)) == ValidPages(m');
    }
  }

  /** Evicting v for p changes the set of valid pages by exactly that exchange. */
  lemma LruSwap(m: Machine, v: nat, p: nat)
    requires Sized(m) && InRange(v) && InRange(p)
    requires IsValid(m.pt[v]) && !IsValid(m.pt[p])
    ensures var pt := m.pt[v := Evicted(m.pt[v])];
            ValidPages(m.(pt := pt[p := Unswapped(Validated(pt[p]))])) == ValidPages(m) - {v} + {p}
  {
    EntryBits(m.pt[v]);
    EntryBits(m.pt[p]);
    EntryBits(Validated(m.pt[p]));
  }

  /** Faults of the simulator over a trace. */
  function MachineFaults(mode: Mode, m: Machine, trace: seq<int>): nat
    requires Sized(m)
    decreases |trace|
  {
    if trace == [] then 0
    else
      var fault := if InRange(trace[0]) && !IsValid(m.pt[trace[0]]) then 1 else 0;
      var r := Step(mode, m, trace[0]);
      fault + if r.Halted? then 0 else MachineFaults(mode, r.m, trace[1..])
  }

  lemma {:induction false} LruRunRefines(m: Machine, trace: seq<int>)
    requires Sized(m) && ValidPages(m) != {}
    ensures var r := Run(LRU, m, trace);
            r.Running? && Stamps.Sane(Abs(m)) && Abs(r.m) == Stamps.Run(Abs(m), Requests(trace), 256)
    ensures MachineFaults(LRU, m, trace) == Stamps.RunFaults(Abs(m), Requests(trace), 256)
    decreases |trace|
  {
    if trace != [] {
      var p := trace[0];
      if InRange(p) {
        LruStepRefines(m, p);
        assert Requests(trace)[0] == p && Requests(trace)[1..] == Requests(trace[1..]);
        LruRunRefines(LruStep(m, p).m, trace[1..]);
      } else {
        assert Requests(trace) == Requests(trace[1..]);
        LruRunRefines(m, trace[1..]);
      }
    }
  }

  lemma InitAbs()
    ensures Abs(Init()) == Stamps.Init(NB_PAGES, 3) && ValidPages(Init()) == {0, 1, 2}
    ensures Stamps.Up(3) == [0, 1, 2]
  {
    InitFlags();
    assert Stamps.Up(3) == [0, 1, 2];
  }

  lemma InitFlags()
    ensures forall i: nat :: i < NB_PAGES ==>
      && (IsValid(Init().pt[i]) <==> i < 3) && (IsSwap(Init().pt[i]) <==> i == 3)
      && !IsRef(Init().pt[i]) && PageBits(Init().pt[i]) == (i as bv8) << 4
  {
  }

  /** After the trace the valid pages are exactly the last three distinct pages of the history, where
      the initial contents count as 0, 1, 2 in that order. */
  ghost predicate KeepsLastThree(trace: seq<int>) {
    var r := Run(LRU, Init(), trace);
    r.Running? && ValidPages(r.m) == LastDistinct([0, 1, 2] + Requests(trace), 3)
  }

  lemma KeepsLastThreeIs(trace: seq<int>)
    ensures KeepsLastThree(trace) <==> Stamps.Remembers(NB_PAGES, 3, 256, Requests(trace))
  {
    InitAbs();
    LruRunRefines(Init(), trace);
  }

  lemma LruKeepsLastThree(trace: seq<int>)
    requires |Requests(trace)| <= 256
    ensures KeepsLastThree(trace)
  {
    KeepsLastThreeIs(trace);
    Stamps.RemembersBeforeWrap(NB_PAGES, 3, 256, Requests(trace));
  }

  lemma {:induction false} RequestsOf(trace: seq<nat>)
    requires Stamps.Within(trace, NB_PAGES)
    ensures Requests(trace) == trace
  {
    if trace != [] {
      RequestsOf(trace[1..]);
    }
  }

  /** For every longer length there is a trace after which it is false: 256 accesses to page 0 bring
      its stamp back to 0, so the fault on page 3 evicts page 0, the newest one; accesses to page 3
      change nothing any more. */
  lemma LruForgetsAfterWrap(r: nat)
    requires r > 0
    ensures |Requests(Stamps.WrapTrace(3, 256, r))| == 256 + r
    ensures !KeepsLastThree(Stamps.WrapTrace(3, 256, r))
  {
    var trace := Stamps.WrapTrace(3, 256, r);
    Stamps.ForgetsAfterWrap(NB_PAGES, 3, 256, r);
    RequestsOf(trace);
    KeepsLastThreeIs(trace);
  }

  /** LRU mode is LRU for every trace of a length if and only if the length is at most 256. */
  lemma LruExactLength(length: nat)
    ensures (forall trace :: |Requests(trace)| == length ==> KeepsLastThree(trace)) <==> length <= 256
  {
    if length <= 256 {
      forall trace | |Requests(trace)| == length
        ensures KeepsLastThree(trace)
      {
        LruKeepsLastThree(trace);
      }
    } else {
      LruForgetsAfterWrap(length - 256);
    }
  }

  /** Against any other choice of victims, ahead of time or not, from the same resident pages. */
  lemma LruFaultBound(trace: seq<int>, res: seq<set<nat>>)
    requires |Requests(trace)| <= 256
    requires Schedule(res, Requests(trace), 3) && res[0] == ValidPages(Init())
    ensures MachineFaults(LRU, Init(), trace) <= 3 * ScheduleFaults(res, Requests(trace)) + 3
  {
    InitAbs();
    LruRunRefines(Init(), trace);
    Stamps.FaultBound(NB_PAGES, 3, 256, Requests(trace), res);
  }

  // ----- the sweep -----

  /** What one sweep does, in any state with a valid page: the victim is the lowest candidate, or
      the lowest valid page when there is none; REF goes from exactly the valid pages before the
      candidate (from all valid pages when there is none); the victim always ends unreferenced;
      no other flag, and no page number, changes. */
  lemma SweepMeaning(m: Machine)
    requires Sized(m) && ValidPages(m) != {}
    ensures InRange(WscVictim(m)) && IsValid(m.pt[WscVictim(m)])
    ensures var v := WscVictim(m);
            if exists i: nat :: i < NB_PAGES && Candidate(m, i)
            then Candidate(m, v) && forall i: nat :: i < v ==> !Candidate(m, i)
            else forall i: nat :: i < v ==> !IsValid(m.pt[i])
    ensures forall j: nat :: j < NB_PAGES ==>
              (IsRef(WscReplaced(m).pt[j]) <==>
                IsRef(m.pt[j]) && (IsValid(m.pt[j]) ==> exists i: nat :: i < j && Candidate(m, i)))
    ensures !IsRef(WscReplaced(m).pt[WscVictim(m)])
    ensures ValidPages(WscReplaced(m)) == ValidPages(m) - {WscVictim(m)}
    ensures forall j: nat :: j < NB_PAGES ==>
              && PageBits(WscReplaced(m).pt[j]) == PageBits(m.pt[j])
              && (IsSwap(WscReplaced(m).pt[j]) <==> IsSwap(m.pt[j]) || j == WscVictim(m))
  {
    var i :| i in ValidPages(m);
    var c := FirstCandidate(m);
    forall j: nat | j < NB_PAGES
      ensures var e, e' := m.pt[j], WscReplaced(m).pt[j];
              && PageBits(e') == PageBits(e)
              && (IsSwap(e') <==> IsSwap(e) || j == WscVictim(m))
              && (IsValid(e') <==> IsValid(e) && j != WscVictim(m))
              && (IsRef(e') <==> IsRef(e) && !(j < c && IsValid(e)))
    {
      EntryBits(m.pt[j]);
      EntryBits(Swept(m, j));
    }
  }

  /** A candidate, in bits and numbers. */
  lemma CandidateMeaning(m: Machine, i: nat)
    requires Sized(m) && i < 16
    ensures Candidate(m, i) <==> m.pt[i] & 1 != 0 && m.pt[i] & 4 == 0 && m.tvc - m.tdu[i] > 2
  {
  }

  /** One WSC access: the counter ticks and no stamp changes; the page is valid and referenced; on a hit
      nothing else changes, on a fault the page leaves the swap and the others are as the sweep left
      them. */
  lemma WscStepMeaning(m: Machine, p: nat)
    requires Sized(m) && InRange(p)
    ensures var s := WscStep(m, p);
            && Sized(s) && s.tdu == m.tdu && s.tvc == (if m.tvc == 255 then 0 else m.tvc + 1)
            && IsValid(s.pt[p]) && IsRef(s.pt[p]) && PageBits(s.pt[p]) == PageBits(m.pt[p])
            && (IsSwap(s.pt[p]) <==> IsValid(m.pt[p]) && IsSwap(m.pt[p]))
            && forall j: nat :: j < NB_PAGES && j != p ==>
                 s.pt[j] == if IsValid(m.pt[p]) then m.pt[j] else WscReplaced(m).pt[j]
  {
    var s := WscStep(m, p);
    assert s.tdu == m.tdu;
    if IsValid(m.pt[p]) {
      SetBits(m.pt[p]);
    } else {
      SweptBits(m, p);
      SetBits(Unswapped(WscReplaced(m).pt[p]));
      EntryBits(WscReplaced(m).pt[p]);
    }
  }

  lemma SetBits(e: bv8)
    ensures var e' := Referenced(Validated(e));
            && IsValid(e') && IsRef(e') && PageBits(e') == PageBits(e) && (IsSwap(e') <==> IsSwap(e))
  {
    EntryBits(e);
    EntryBits(Validated(e));
  }

  lemma SweptBits(m: Machine, p: nat)
    requires Sized(m) && InRange(p)
    ensures PageBits(WscReplaced(m).pt[p]) == PageBits(m.pt[p])
  {
    EntryBits(m.pt[p]);
    EntryBits(Swept(m, p));
  }

  lemma {:induction false} RunSnoc(m: Machine, trace: seq<int>, p: nat)
    requires Sized(m) && InRange(p)
    ensures Run(WSC, m, trace).Running? && Run(WSC, m, trace + [p]) == Running(WscStep(Run(WSC, m, trace).m, p))
    decreases |trace|
  {
    if trace == [] {
      assert trace + [p] == [p] && [p][1..] == [];
    } else {
      assert (trace + [p])[1..] == trace[1..] + [p];
      RunSnoc(Step(WSC, m, trace[0]).m, trace[1..], p);
    }
  }

  /** After any run, the counter shows the accesses made, modulo 256; and the page accessed last is
      valid and referenced, whether it was a hit or a fault. */
  lemma {:induction false} WscRunTicks(m: Machine, trace: seq<int>)
    requires Sized(m)
    ensures Run(WSC, m, trace).Running?
    ensures Run(WSC, m, trace).m.tvc == (m.tvc + |Requests(trace)|) % 256
    decreases |trace|
  {
    if trace != [] {
      var p := trace[0];
      if InRange(p) {
        var s := OneTick(m, p);
        WscRunTicks(s, trace[1..]);
        Ticks(m.tvc, |Requests(trace[1..])|);
      } else {
        WscRunTicks(m, trace[1..]);
      }
    }
  }

  lemma OneTick(m: Machine, p: nat) returns (s: Machine)
    requires Sized(m) && InRange(p)
    ensures s == WscStep(m, p) && Sized(s) && s.tvc == if m.tvc == 255 then 0 else m.tvc + 1
  {
    WscStepMeaning(m, p);
    s := WscStep(m, p);
  }

  lemma Ticks(t: uint8, n: nat)
    ensures ((if t == 255 then 0 else t + 1) + n) % 256 == (t + (1 + n)) % 256
  {
  }

  lemma WscRunMarks(m: Machine, trace: seq<int>, p: nat)
    requires Sized(m) && InRange(p)
    ensures var r := Run(WSC, m, trace + [p]);
            r.Running? && IsValid(r.m.pt[p]) && IsRef(r.m.pt[p])
  {
    RunSnoc(m, trace, p);
    WscStepMeaning(Run(WSC, m, trace).m, p);
  }

  /** One entry of the sweep, reached before any candidate was met. */
  lemma SweepAt(m: Machine, i: nat)
    requires Sized(m) && i < NB_PAGES && i <= FirstCandidate(m)
    ensures Candidate(m, i) <==> i == FirstCandidate(m)
    ensures !Candidate(m, i) ==> Swept(m, i) == if IsValid(m.pt[i]) && IsRef(m.pt[i]) then m.pt[i] & !REF_BIT_MASK
                                                else m.pt[i]
    ensures IsValid(m.pt[i]) ==> FirstValid(m) <= i
    ensures FirstValid(m) == i ==> IsValid(m.pt[i])
    ensures Candidate(m, i) ==> WscVictim(m) == i
  {
  }

  lemma SweptTable(m: Machine, pt: seq<bv8>)
    requires Sized(m) && |pt| == NB_PAGES
    requires forall j :: 0 <= j < NB_PAGES ==> pt[j] == Swept(m, j)
    ensures var v := WscVictim(m);
            WscReplaced(m).pt == if v < NB_PAGES then pt[v := Evicted(pt[v])] else pt
  {
  }

  /** The refresh condition masks REF with VALID, two different bits, so it never holds: a WSC run
      leaves every stamp as it was, whatever is accessed. */
  lemma {:induction false} WscNeverStamps(m: Machine, trace: seq<int>)
    requires Sized(m)
    ensures Run(WSC, m, trace).Running? && Run(WSC, m, trace).m.tdu == m.tdu
    decreases |trace|
  {
    if trace != [] {
      var p := trace[0];
      if InRange(p) {
        var m' := WscStep(m, p);
        assert m'.tdu == m.tdu;
        WscNeverStamps(m', trace[1..]);
      } else {
        WscNeverStamps(m, trace[1..]);
      }
    }
  }

  // ----- the page table over whole runs, in either mode -----

  ghost predicate EntryInv(mode: Mode, e: bv8, i: nat, used: bool) {
    && !(IsValid(e) && IsSwap(e))
    && (IsRef(e) ==> IsValid(e) && mode == WSC)
    && (i < NB_PAGES ==> PageBits(e) == (i as bv8) << 4)
    && (used ==> IsValid(e) || IsSwap(e))
  }

  /** `used` are the pages accessed so far. */
  ghost predicate TableInv(mode: Mode, m: Machine, used: set<nat>) {
    && Sized(m)
    && |ValidPages(m)| == 3
    && forall i: nat :: i < NB_PAGES ==> EntryInv(mode, m.pt[i], i, i in used)
  }

  lemma EntrySteps(mode: Mode, e: bv8, i: nat, used: bool)
    requires EntryInv(mode, e, i, used)
    ensures !IsRef(e) ==> EntryInv(mode, Evicted(e), i, true)
    ensures EntryInv(mode, Unswapped(Validated(e)), i, true)
    ensures EntryInv(WSC, Unreferenced(e), i, used)
    ensures EntryInv(WSC, Referenced(Validated(Unswapped(e))), i, true)
    ensures IsValid(e) ==> EntryInv(WSC, Referenced(Validated(e)), i, true)
  {
    EntryBits(e);
    EntryBits(Validated(e));
    EntryBits(Unswapped(e));
    EntryBits(Validated(Unswapped(e)));
  }

  lemma LruStepKeepsTable(m: Machine, p: nat, used: set<nat>)
    requires TableInv(LRU, m, used) && InRange(p)
    ensures LruStep(m, p).Running? && TableInv(LRU, LruStep(m, p).m, used + {p})
    ensures IsValid(LruStep(m, p).m.pt[p])
  {
    if IsValid(m.pt[p]) {
      assert ValidPages(Stamped(m, p)) == ValidPages(m);
    } else {
      var x :| x in ValidPages(m);
      var v := LruVictim(m, |m.pt|);
      LruSwap(m, v, p);
      Exchange(ValidPages(m), v, p);
      var pt := m.pt[v := Evicted(m.pt[v])];
      var m' := m.(pt := pt[p := Unswapped(Validated(pt[p]))]);
      LruFaultEntries(m, v, p, used);
      assert LruStep(m, p).m == Stamped(m', p);
      assert ValidPages(Stamped(m', p)) == ValidPages(m');
    }
  }

  lemma LruFaultEntries(m: Machine, v: nat, p: nat, used: set<nat>)
    requires TableInv(LRU, m, used) && InRange(v) && InRange(p) && v != p
    ensures var pt := m.pt[v := Evicted(m.pt[v])];
            var pt' := pt[p := Unswapped(Validated(pt[p]))];
            && IsValid(pt'[p])
            && forall i: nat :: i < NB_PAGES ==> EntryInv(LRU, pt'[i], i, i in used + {p})
  {
    EntrySteps(LRU, m.pt[p], p, p in used);
    EntrySteps(LRU, m.pt[v], v, v in used);
    EntryBits(Validated(m.pt[p]));
  }

  lemma Exchange(s: set<nat>, v: nat, p: nat)
    requires v in s && p !in s
    ensures |s - {v} + {p}| == |s|
  {
  }

  lemma WscStepKeepsTable(m: Machine, p: nat, used: set<nat>)
    requires TableInv(WSC, m, used) && InRange(p)
    ensures TableInv(WSC, WscStep(m, p), used + {p})
    ensures IsValid(WscStep(m, p).pt[p])
  {
    var s := WscStep(m, p);
    if IsValid(m.pt[p]) {
      assert p in ValidPages(m);
      SetEntry(m, p, used, m.pt[p]);
      assert s.pt == m.pt[p := Referenced(Validated(m.pt[p]))];
      assert ValidPages(s) == ValidPages(m.(pt := s.pt)) == ValidPages(m) + {p} == ValidPages(m);
    } else {
      var r := WscReplaced(m);
      SweepKeepsEntries(m, used);
      SweepMeaning(m);
      SetEntry(r, p, used, Unswapped(r.pt[p]));
      Exchange(ValidPages(m), WscVictim(m), p);
      WscFaultTable(m, p);
      assert ValidPages(s) == ValidPages(r.(pt := s.pt));
    }
  }

  lemma WscFaultTable(m: Machine, p: nat)
    requires Sized(m) && InRange(p) && !IsValid(m.pt[p])
    ensures var pt := WscReplaced(m).pt;
            WscStep(m, p).pt == pt[p := Referenced(Validated(Unswapped(pt[p])))]
  {
  }

  /** The end of a WSC access: entry p, with SWAP cleared if there was a fault, becomes valid and
      referenced. */
  lemma SetEntry(r: Machine, p: nat, used: set<nat>, e: bv8)
    requires Sized(r) && InRange(p)
    requires forall j: nat :: j < NB_PAGES ==> EntryInv(WSC, r.pt[j], j, j in used)
    requires e == Unswapped(r.pt[p]) || (e == r.pt[p] && IsValid(e))
    ensures var pt := r.pt[p := Referenced(Validated(e))];
            && ValidPages(r.(pt := pt)) == ValidPages(r) + {p}
            && IsValid(pt[p])
            && forall j: nat :: j < NB_PAGES ==> EntryInv(WSC, pt[j], j, j in used + {p})
  {
    EntrySteps(WSC, r.pt[p], p, p in used);
    EntryBits(Validated(e));
    EntryBits(e);
  }

  lemma SweepKeepsEntries(m: Machine, used: set<nat>)
    requires TableInv(WSC, m, used)
    ensures ValidPages(m) != {}
    ensures forall j: nat :: j < NB_PAGES ==> EntryInv(WSC, WscReplaced(m).pt[j], j, j in used)
  {
  }

  /** In either mode, over any run: three pages are valid, VALID and SWAP are never both set, REF
      implies VALID, the page numbers stay put, every page accessed is in memory or in swap, and the
      exit on "no page to replace" is never taken. */
  lemma {:induction false} RunKeepsTable(mode: Mode, m: Machine, trace: seq<int>, used: set<nat>)
    requires TableInv(mode, m, used)
    ensures Run(mode, m, trace).Running?
    ensures TableInv(mode, Run(mode, m, trace).m, used + Pages(Requests(trace)))
    decreases |trace|
  {
    if trace == [] {
      assert used + Pages(Requests(trace)) == used;
    } else {
      var p := trace[0];
      if InRange(p) {
        if mode == LRU {
          LruStepKeepsTable(m, p, used);
        } else {
          WscStepKeepsTable(m, p, used);
        }
        RunKeepsTable(mode, Step(mode, m, p).m, trace[1..], used + {p});
        assert Requests(trace) == [p] + Requests(trace[1..]);
        assert used + {p} + Pages(Requests(trace[1..])) == used + Pages(Requests(trace));
      } else {
        assert Requests(trace) == Requests(trace[1..]);
        RunKeepsTable(mode, m, trace[1..], used);
      }
    }
  }

  lemma InitTable()
    ensures forall mode :: TableInv(mode, Init(), {})
  {
    InitFlags();
    assert ValidPages(Init()) == {0, 1, 2};
  }

  // ----- the simulator itself -----

  class Simulator {
    const pageTable: array<bv8>
    const tdu: array<uint8>
    var tvc: uint8

    ghost predicate Valid()
      reads this
    {
      pageTable.Length == NB_PAGES && tdu.Length == NB_PAGES && pageTable as object != tdu
    }

    ghost function State(): (m: Machine)
      reads this, pageTable, tdu
      requires Valid()
      ensures Sized(m)
    {
      Machine(pageTable[..], tdu[..], tvc)
    }

    /** Static storage is zero; the main program then fills in the table. */
    constructor ()
      ensures Valid() && fresh(pageTable) && fresh(tdu)
      ensures State() == Init()
    {
      pageTable := new bv8[NB_PAGES](_ => 0);
      tdu := new uint8[NB_PAGES](_ => 0);
      tvc := 0;
      new;
      InitPageTable();
      assert pageTable[..] == Init().pt;
    }

    method InitPageTable()
      requires Valid() && forall i :: 0 <= i < NB_PAGES ==> pageTable[i] == 0
      modifies pageTable
      ensures forall i :: 0 <= i < NB_PAGES ==> pageTable[i] == InitEntry(i)
    {
      for i := 0 to NB_PAGES
        invariant forall j :: 0 <= j < i ==> pageTable[j] == (j as bv8 & 0xF) << 4
        invariant forall j :: i <= j < NB_PAGES ==> pageTable[j] == 0
      {
        pageTable[i] := pageTable[i] | ((i as bv8 & 0xF) << 4);
      }
      pageTable[0] := pageTable[0] | VALID_BIT_MASK;
      pageTable[1] := pageTable[1] | VALID_BIT_MASK;
      pageTable[2] := pageTable[2] | VALID_BIT_MASK;
      pageTable[3] := pageTable[3] | SWAP_BIT_MASK;
    }

    /** The last two statements of both replacement routines. */
    method MarkReplaced(replaceIndex: nat)
      requires Valid() && InRange(replaceIndex)
      modifies pageTable
      ensures pageTable[..] == old(pageTable[..])[replaceIndex := Evicted(old(pageTable[replaceIndex]))]
    {
      pageTable[replaceIndex] := pageTable[replaceIndex] & !VALID_BIT_MASK;
      pageTable[replaceIndex] := pageTable[replaceIndex] | SWAP_BIT_MASK;
    }

    /** False is the exit(1). */
    method ReplaceLRU() returns (found: bool)
      requires Valid()
      modifies pageTable
      ensures var v := LruVictim(old(State()), pageTable.Length);
              && (found <==> v >= 0)
              && pageTable[..] == if found then old(pageTable[..])[v := Evicted(old(pageTable[v]))]
                                  else old(pageTable[..])
    {
      var replaceIndex := -1;
      for i := 0 to NB_PAGES
        invariant replaceIndex == LruVictim(State(), i)
        invariant pageTable[..] == old(pageTable[..])
      {
        if !IsValid(pageTable[i]) {
          continue;
        }
        if replaceIndex == -1 || tdu[i] < tdu[replaceIndex] {
          replaceIndex := i;
        }
      }
      if replaceIndex == -1 {
        return false;
      }
      MarkReplaced(replaceIndex);
      return true;
    }

    method IncCompteur(pageNo: nat)
      requires Valid() && InRange(pageNo)
      modifies this, tdu
      ensures State() == Stamped(old(State()), pageNo)
    {
      tvc := (tvc + 1) % 256;
      tdu[pageNo] := tvc;
    }

    method ReplaceWSC()
      requires Valid()
      modifies pageTable
      ensures State() == WscReplaced(old(State()))
    {
      ghost var m := State();
      var replaceIndex := -1;
      var i := 0;
      while i < NB_PAGES
        invariant 0 <= i <= FirstCandidate(m)
        invariant forall j :: 0 <= j < i ==> pageTable[j] == Swept(m, j)
        invariant forall j :: i <= j < NB_PAGES ==> pageTable[j] == m.pt[j]
        invariant replaceIndex == if FirstValid(m) < i then FirstValid(m) else -1
      {
        SweepAt(m, i);
        if !IsValid(pageTable[i]) {
          i := i + 1;
          continue;
        }
        if replaceIndex == -1 {
          replaceIndex := i;
        }
        if IsRef(pageTable[i]) {
          pageTable[i] := pageTable[i] & !REF_BIT_MASK;
        } else if tvc - tdu[i] > DELTA {
          replaceIndex := i;
          assert Candidate(m, i);
          break;
        }
        i := i + 1;
      }
      SweptTable(m, pageTable[..]);
      if replaceIndex == -1 {
        return;
      }
      MarkReplaced(replaceIndex);
    }

    method UpdateTDU(mask: bv8)
      requires Valid()
      modifies tdu
      ensures State() == TduUpdated(old(State()), mask)
    {
      for i := 0 to NB_PAGES
        invariant forall j :: 0 <= j < i ==> tdu[j] == if HasBit(pageTable[j], mask) then tvc else old(tdu[j])
        invariant forall j :: i <= j < NB_PAGES ==> tdu[j] == old(tdu[j])
      {
        if HasBit(pageTable[i], mask) {
          tdu[i] := tvc;
        }
      }
      assert tdu[..] == TduUpdated(old(State()), mask).tdu;
    }

    method AccessLRU(pageNo: nat) returns (alive: bool)
      requires Valid() && InRange(pageNo)
      modifies this, pageTable, tdu
      ensures var r := LruStep(old(State()), pageNo);
              (alive <==> r.Running?) && (alive ==> State() == r.m)
    {
      alive := true;
      if !IsValid(pageTable[pageNo]) {
        alive := ReplaceLRU();
        if !alive {
          return;
        }
        pageTable[pageNo] := pageTable[pageNo] | VALID_BIT_MASK;
        pageTable[pageNo] := pageTable[pageNo] & !SWAP_BIT_MASK;
      }
      IncCompteur(pageNo);
    }

    method AccessWSC(pageNo: nat)
      requires Valid() && InRange(pageNo)
      modifies this, pageTable, tdu
      ensures State() == WscStep(old(State()), pageNo)
    {
      if !IsValid(pageTable[pageNo]) {
        ReplaceWSC();
        pageTable[pageNo] := Unswapped(pageTable[pageNo]);
      }
      pageTable[pageNo] := Validated(pageTable[pageNo]);
      pageTable[pageNo] := Referenced(pageTable[pageNo]);
      tvc := (tvc + 1) % 256;
      UpdateTDU(REF_BIT_MASK & VALID_BIT_MASK);
    }

    /** The body of the main loop for one number typed in. */
    method Access(mode: Mode, pageNo: int) returns (alive: bool)
      requires Valid()
      modifies this, pageTable, tdu
      ensures var r := Step(mode, old(State()), pageNo);
              (alive <==> r.Running?) && (alive ==> State() == r.m)
    {
      alive := true;
      if 0 <= pageNo < NB_PAGES {
        if mode == LRU {
          alive := AccessLRU(pageNo);
        } else {
          AccessWSC(pageNo);
        }
      }
    }
  }
}
