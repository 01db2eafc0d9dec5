/** Least-recently-used replacement as a list, independent of any page table.

    `Touch` is a move-to-front list cut at k entries.  The module shows which pages such a list
    holds after any history (a stack-distance characterisation that does not mention lists) and
    that its faults are at most k times those of any other demand-paging schedule, plus k.
 */
module Recency {
  import opened Common

  ghost function Pages(h: seq<nat>): set<nat> {
    set p | p in h
  }

  ghost predicate Distinct(l: seq<nat>) {
    l == [] || (l[0] !in l[1..] && Distinct(l[1..]))
  }

  lemma {:induction false} DistinctPrefix(l: seq<nat>, k: nat)
    requires Distinct(l) && k <= |l|
    ensures Distinct(l[..k])
  {
    if k > 0 {
      DistinctPrefix(l[1..], k - 1);
      assert l[..k][1..] == l[1..][..k - 1];
    }
  }

  function Without(l: seq<nat>, p: nat): seq<nat> {
    if l == [] then []
    else if l[0] == p then Without(l[1..], p)
    else [l[0]] + Without(l[1..], p)
  }

  function ToFront(l: seq<nat>, p: nat): seq<nat> {
    [p] + Without(l, p)
  }

  function Take(l: seq<nat>, k: nat): seq<nat> {
    if |l| <= k then l else l[..k]
  }

  /** One access to a memory of k frames: move to front, drop what falls off the end. */
  function Touch(l: seq<nat>, p: nat, k: nat): seq<nat> {
    Take(ToFront(l, p), k)
  }

  function TouchAll(l: seq<nat>, trace: seq<nat>, k: nat): seq<nat>
    decreases |trace|
  {
    if trace == [] then l else TouchAll(Touch(l, trace[0], k), trace[1..], k)
  }

  /** Every page of the history, most recently used first. */
  function RecencyList(h: seq<nat>): seq<nat> {
    if h == [] then [] else ToFront(RecencyList(h[..|h| - 1]), h[|h| - 1])
  }

  /** The pages used since the last use of q (all of them when q was never used). */
  ghost function UsedSince(h: seq<nat>, q: nat): set<nat> {
    if h == [] then {}
    else if h[|h| - 1] == q then {}
    else UsedSince(h[..|h| - 1], q) + {h[|h| - 1]}
  }

  /** The last k distinct pages of a history: those with fewer than k pages used since. */
  ghost function LastDistinct(h: seq<nat>, k: nat): set<nat> {
    set q | q in h && |UsedSince(h, q)| < k
  }

  // ----- move to front on distinct lists -----

  lemma {:induction false} WithoutPages(l: seq<nat>, p: nat)
    ensures forall x :: x in Without(l, p) <==> x in l && x != p
    ensures Distinct(l) ==> Distinct(Without(l, p))
    ensures p !in l ==> Without(l, p) == l
    ensures |Without(l, p)| <= |l|
  {
    if l != [] {
      WithoutPages(l[1..], p);
      assert l == [l[0]] + l[1..];
      if Distinct(l) {
        assert forall i :: 0 <= i < |l[1..]| ==> l[1..][i] == l[i + 1] != l[0];
        assert l[0] !in Without(l[1..], p);
      }
    }
  }

  lemma {:induction false} WithoutLength(l: seq<nat>, p: nat)
    requires Distinct(l) && p in l
    ensures |Without(l, p)| == |l| - 1
  {
    if l[0] == p {
      WithoutPages(l[1..], p);
    } else {
      assert p in l[1..];
      WithoutLength(l[1..], p);
    }
  }

  lemma ToFrontPages(l: seq<nat>, p: nat)
    requires Distinct(l)
    ensures Distinct(ToFront(l, p))
    ensures Pages(ToFront(l, p)) == Pages(l) + {p}
    ensures |ToFront(l, p)| == if p in l then |l| else |l| + 1
  {
    WithoutPages(l, p);
    if p in l {
      WithoutLength(l, p);
    }
  }

  lemma {:induction false} WithoutPrefix(l: seq<nat>, p: nat, k: nat)
    requires Distinct(l) && k <= |l|
    ensures p in l[..k] ==> |Without(l, p)| >= k - 1 && Without(l, p)[..k - 1] == Without(l[..k], p)
    ensures p !in l[..k] ==> |Without(l, p)| >= k && Without(l, p)[..k] == l[..k]
  {
    if k > 0 {
      assert l == [l[0]] + l[1..];
      assert l[..k] == [l[0]] + l[1..][..k - 1];
      assert l[..k][1..] == l[1..][..k - 1];
      if l[0] == p {
        WithoutPages(l[1..], p);
        WithoutPages(l[1..][..k - 1], p);
      } else {
        WithoutPrefix(l[1..], p, k - 1);
        WithoutPages(l[1..], p);
      }
    }
  }

  /** Cutting the unbounded recency list and cutting at every access give the same k pages. */
  lemma TouchIsPrefix(l: seq<nat>, p: nat, k: nat)
    requires Distinct(l) && k > 0
    ensures Touch(Take(l, k), p, k) == Take(ToFront(l, p), k)
  {
    if |l| > k {
      WithoutPrefix(l, p, k);
      DistinctPrefix(l, k);
      WithoutPages(l[..k], p);
      if p in l[..k] {
        WithoutLength(l[..k], p);
      } else {
        WithoutPrefix(l, p, k - 1);
        assert p !in l[..k - 1];
        assert l[..k][..k - 1] == l[..k - 1];
      }
    }
  }

  lemma {:induction false} RecencyListDistinct(h: seq<nat>)
    ensures Distinct(RecencyList(h)) && Pages(RecencyList(h)) == Pages(h)
  {
    if h != [] {
      var front := h[..|h| - 1];
      RecencyListDistinct(front);
      ToFrontPages(RecencyList(front), h[|h| - 1]);
      assert h == front + [h[|h| - 1]];
    }
  }

  /** A k-frame LRU list after any trace is the head of the recency list of the whole history. */
  lemma {:induction false} LruListIsRecency(l: seq<nat>, h: seq<nat>, trace: seq<nat>, k: nat)
    requires k > 0 && l == Take(RecencyList(h), k)
    ensures TouchAll(l, trace, k) == Take(RecencyList(h + trace), k)
    decreases |trace|
  {
    if trace == [] {
      assert h + trace == h;
    } else {
      LruListStep(h, trace[0], k);
      assert TouchAll(l, trace, k) == TouchAll(Touch(l, trace[0], k), trace[1..], k);
      LruListIsRecency(Touch(l, trace[0], k), h + [trace[0]], trace[1..], k);
      SnocShift(h, trace);
    }
  }

  lemma SnocShift(h: seq<nat>, trace: seq<nat>)
    requires trace != []
    ensures h + [trace[0]] + trace[1..] == h + trace
  {
  }

  lemma LruListStep(h: seq<nat>, p: nat, k: nat)
    requires k > 0
    ensures Touch(Take(RecencyList(h), k), p, k) == Take(RecencyList(h + [p]), k)
  {
    RecencyListDistinct(h);
    TouchIsPrefix(RecencyList(h), p, k);
    assert (h + [p])[..|h + [p]| - 1] == h;
  }

  // ----- stack distance -----

  ghost function Ahead(l: seq<nat>, q: nat): set<nat> {
    if l == [] || l[0] == q then {} else {l[0]} + Ahead(l[1..], q)
  }

  lemma {:induction false} AheadWithout(l: seq<nat>, p: nat, q: nat)
    requires p != q
    ensures Ahead(Without(l, p), q) == Ahead(l, q) - {p}
  {
    if l != [] {
      AheadWithout(l[1..], p, q);
    }
  }

  lemma {:induction false} AheadIsUsedSince(h: seq<nat>, q: nat)
    ensures Ahead(RecencyList(h), q) == UsedSince(h, q)
  {
    if h != [] {
      var front, p := h[..|h| - 1], h[|h| - 1];
      AheadIsUsedSince(front, q);
      if p != q {
        AheadWithout(RecencyList(front), p, q);
        assert ToFront(RecencyList(front), p)[1..] == Without(RecencyList(front), p);
      }
    }
  }

  lemma {:induction false} AheadIsPosition(l: seq<nat>, i: nat)
    requires Distinct(l) && i < |l|
    ensures Ahead(l, l[i]) == Pages(l[..i]) && |Ahead(l, l[i])| == i
  {
    if i == 0 {
      assert Pages(l[..0]) == {};
    } else {
      DistinctTail(l, i);
      AheadIsPosition(l[1..], i - 1);
    }
  }

  lemma DistinctTail(l: seq<nat>, i: nat)
    requires Distinct(l) && 0 < i < |l|
    ensures Distinct(l[1..]) && l[1..][i - 1] == l[i] != l[0]
    ensures Pages(l[..i]) == {l[0]} + Pages(l[1..][..i - 1])
    ensures l[0] !in Pages(l[1..][..i - 1])
  {
  }

  lemma {:induction false} InTakeIsEarly(l: seq<nat>, i: nat, k: nat)
    requires Distinct(l) && k <= i < |l|
    ensures l[i] !in l[..k]
  {
    if k > 0 {
      InTakeIsEarly(l[1..], i - 1, k - 1);
      assert l[1..][i - 1] == l[i];
      assert l[..k] == [l[0]] + l[1..][..k - 1];
    }
  }

  /** The k-frame LRU list holds exactly the last k distinct pages of the history. */
  lemma LruHoldsLastDistinct(h: seq<nat>, k: nat)
    ensures Pages(Take(RecencyList(h), k)) == LastDistinct(h, k)
  {
    var l := RecencyList(h);
    RecencyListDistinct(h);
    forall q
      ensures q in Take(l, k) <==> q in LastDistinct(h, k)
    {
      assert q in h <==> q in Pages(h);
      assert q in l <==> q in Pages(l);
      if q in l {
        var i :| 0 <= i < |l| && l[i] == q;
        AheadIsPosition(l, i);
        AheadIsUsedSince(h, q);
        assert i < k ==> Take(l, k)[i] == q;
        if i >= k {
          InTakeIsEarly(l, i, k);
        }
      }
    }
  }

  // ----- competitiveness -----

  function Faults(l: seq<nat>, trace: seq<nat>, k: nat): nat
    decreases |trace|
  {
    if trace == [] then 0
    else (if trace[0] in l then 0 else 1) + Faults(Touch(l, trace[0], k), trace[1..], k)
  }

  /** Any demand-paging schedule with k frames: the resident sets before and after each access.
      A page enters memory only when it is accessed; which pages leave, and when, is free. */
  ghost predicate Schedule(res: seq<set<nat>>, trace: seq<nat>, k: nat) {
    && |res| == |trace| + 1
    && (forall t :: 0 <= t < |res| ==> |res[t]| <= k)
    && (forall t :: 0 <= t < |trace| ==> trace[t] in res[t + 1] && res[t + 1] <= res[t] + {trace[t]})
  }

  ghost function ScheduleFaults(res: seq<set<nat>>, trace: seq<nat>): nat
    requires |res| == |trace| + 1
  {
    if trace == [] then 0
    else (if trace[0] in res[0] then 0 else 1) + ScheduleFaults(res[1..], trace[1..])
  }

  /** The list in the middle of a phase: the pages of the phase are in front. */
  ghost predicate InPhase(l: seq<nat>, phase: set<nat>, k: nat) {
    Distinct(l) && |l| == k && |phase| <= k && phase == Pages(l[..|phase|])
  }

  lemma PagesCard(l: seq<nat>)
    requires Distinct(l)
    ensures |Pages(l)| == |l|
  {
    if l != [] {
      PagesCard(l[1..]);
      assert Pages(l) == {l[0]} + Pages(l[1..]);
    }
  }

  lemma TouchShape(l: seq<nat>, p: nat, k: nat)
    requires Distinct(l) && |l| == k > 0
    ensures Distinct(Touch(l, p, k)) && |Touch(l, p, k)| == k
    ensures Touch(l, p, k)[0] == p
  {
    ToFrontPages(l, p);
    DistinctPrefix(ToFront(l, p), k);
  }

  lemma TouchInPhase(l: seq<nat>, phase: set<nat>, p: nat, k: nat)
    requires InPhase(l, phase, k) && k > 0
    requires p in phase || |phase| < k
    ensures InPhase(Touch(l, p, k), phase + {p}, k)
    ensures p in phase ==> p in l
  {
    TouchShape(l, p, k);
    var m := |phase|;
    DistinctPrefix(l, m);
    PagesCard(l[..m]);
    WithoutPrefix(l, p, m);
    WithoutPages(l[..m], p);
    var l' := Touch(l, p, k);
    if p in phase {
      assert p in l[..m];
      WithoutLength(l[..m], p);
      assert l'[..m] == [p] + Without(l[..m], p);
      assert phase + {p} == phase;
      assert Pages(l'[..m]) == phase;
    } else {
      assert p !in l[..m];
      assert l'[..m + 1] == [p] + l[..m];
      assert Pages(l'[..m + 1]) == phase + {p};
    }
  }

  lemma NewPhase(l: seq<nat>, phase: set<nat>, p: nat, k: nat)
    requires InPhase(l, phase, k) && k > 0
    requires p !in phase && |phase| == k
    ensures InPhase(Touch(l, p, k), {p}, k) && p !in l
  {
    TouchShape(l, p, k);
    assert l[..k] == l;
    assert p in Pages(l) <==> p in l;
    assert Touch(l, p, k)[..1] == [p];
  }

  /** k pages of a phase and one more cannot all have been in the k frames `start`: when the next
      page p opens a new phase, the schedule has faulted in the old phase or faults now. */
  lemma PhaseFaults(phase: set<nat>, p: nat, start: set<nat>, now: set<nat>, k: nat)
    requires p !in phase && |phase| == k && |start| <= k
    ensures p !in now || |phase + now - start| > 0
  {
    if phase + {p} <= start {
      SubsetCard(phase + {p}, start);
    } else {
      var x :| x in phase + {p} && x !in start;
      assert p in now ==> x in phase + now - start;
    }
  }

  lemma SubsetCard(a: set<nat>, b: set<nat>)
    requires a <= b
    ensures |a| <= |b|
  {
    assert b == a + (b - a);
    assert |a + (b - a)| == |a| + |b - a|;
  }

  /** The counting argument.  f faults of the list and g of the schedule have happened; `start` is
      the schedule's resident set just after the first access of the phase and g0 its faults up to
      then; `now` is what it holds.  Every page the phase used or the schedule holds was in
      `start` or has been faulted in since. */
  ghost predicate Counted(l: seq<nat>, now: set<nat>, k: nat,
                          phase: set<nat>, start: set<nat>, f: nat, g: nat, g0: nat) {
    && InPhase(l, phase, k)
    && |start| <= k && g0 <= g
    && f <= k * g0 + |phase|
    && |phase + now - start| <= g - g0
  }

  lemma PhaseStep(l: seq<nat>, p: nat, now: set<nat>, next: set<nat>, k: nat,
                  phase: set<nat>, start: set<nat>, f: nat, g: nat, g0: nat)
    returns (phase': set<nat>, start': set<nat>, g0': nat)
    requires Counted(l, now, k, phase, start, f, g, g0) && k > 0
    requires p in next && next <= now + {p} && |next| <= k
    ensures Counted(Touch(l, p, k), next, k, phase', start',
                    f + if p in l then 0 else 1, g + if p in now then 0 else 1, g0')
  {
    if p in phase || |phase| < k {
      phase', start', g0' := phase + {p}, start, g0;
      SamePhaseStep(l, p, now, next, k, phase, start, f, g, g0);
    } else {
      phase', start', g0' := {p}, next, g + if p in now then 0 else 1;
      NewPhaseStep(l, p, now, next, k, phase, start, f, g, g0);
    }
  }

  lemma SamePhaseStep(l: seq<nat>, p: nat, now: set<nat>, next: set<nat>, k: nat,
                      phase: set<nat>, start: set<nat>, f: nat, g: nat, g0: nat)
    requires Counted(l, now, k, phase, start, f, g, g0) && k > 0
    requires next <= now + {p}
    requires p in phase || |phase| < k
    ensures Counted(Touch(l, p, k), next, k, phase + {p}, start,
                    f + if p in l then 0 else 1, g + if p in now then 0 else 1, g0)
  {
    TouchInPhase(l, phase, p, k);
    SeenStep(phase, now, next, start, p);
    assert p in phase ==> phase + {p} == phase;
  }

  lemma NewPhaseStep(l: seq<nat>, p: nat, now: set<nat>, next: set<nat>, k: nat,
                     phase: set<nat>, start: set<nat>, f: nat, g: nat, g0: nat)
    requires Counted(l, now, k, phase, start, f, g, g0) && k > 0
    requires p in next && next <= now + {p} && |next| <= k
    requires p !in phase && |phase| == k
    ensures var g' := g + if p in now then 0 else 1;
            Counted(Touch(l, p, k), next, k, {p}, next, f + if p in l then 0 else 1, g', g')
  {
    NewPhase(l, phase, p, k);
    PhaseFaults(phase, p, start, now, k);
    MulMono(k, g0 + 1, g + if p in now then 0 else 1);
    assert k * (g0 + 1) == k * g0 + k;
    assert {p} + next - next == {};
  }

  lemma {:induction false} PhaseInduction(l: seq<nat>, trace: seq<nat>, res: seq<set<nat>>, k: nat,
                                          phase: set<nat>, start: set<nat>,
                                          f: nat, g: nat, g0: nat, total: nat)
    requires k > 0 && Schedule(res, trace, k)
    requires Counted(l, res[0], k, phase, start, f, g, g0)
    requires total == g + ScheduleFaults(res, trace)
    ensures f + Faults(l, trace, k) <= k * total + k
    decreases |trace|
  {
    if trace == [] {
      MulMono(k, g0, total);
    } else {
      ScheduleTail(res, trace, k);
      var phase', start', g0' := PhaseStep(l, trace[0], res[0], res[1], k, phase, start, f, g, g0);
      PhaseInduction(Touch(l, trace[0], k), trace[1..], res[1..], k, phase', start',
                     f + if trace[0] in l then 0 else 1, g + if trace[0] in res[0] then 0 else 1,
                     g0', total);
    }
  }

  lemma ScheduleTail(res: seq<set<nat>>, trace: seq<nat>, k: nat)
    requires Schedule(res, trace, k) && trace != []
    ensures Schedule(res[1..], trace[1..], k)
    ensures trace[0] in res[1] && res[1] <= res[0] + {trace[0]} && |res[1]| <= k
  {
  }

  /** What the phase used or the schedule holds, outside `start`, grows by at most the page that
      the schedule faults in. */
  lemma SeenStep(phase: set<nat>, before: set<nat>, after: set<nat>, start: set<nat>, p: nat)
    requires after <= before + {p}
    ensures |(phase + {p}) + after - start| <= |phase + before - start| + if p in before then 0 else 1
  {
    var seen, seen' := phase + before - start, (phase + {p}) + after - start;
    if p in before {
      SubsetCard(seen', seen);
    } else {
      SubsetCard(seen', seen + {p});
    }
  }

  /** From the same k resident pages, LRU faults at most k times as often as any schedule, plus k. */
  lemma LruIsCompetitive(l: seq<nat>, trace: seq<nat>, res: seq<set<nat>>, k: nat)
    requires Distinct(l) && |l| == k > 0
    requires Schedule(res, trace, k) && res[0] == Pages(l)
    ensures Faults(l, trace, k) <= k * ScheduleFaults(res, trace) + k
  {
    assert {} == Pages(l[..0]);
    assert {} + res[0] - res[0] == {};
    PhaseInduction(l, trace, res, k, {}, res[0], 0, 0, 0, ScheduleFaults(res, trace));
  }
}
