/** LRU by time stamps from one wrapping counter, for any number of pages, frames and counter values:
    as long as the counter does not wrap, the scan for the smallest stamp follows the recency list. */
module Stamps {
  import opened Recency

  /** The pages in memory, the stamp of every page, and the counter. */
  datatype Table = Table(valid: set<nat>, stamps: seq<nat>, counter: nat)

  /** Page i is evicted before page j: smaller stamp, ties to the smaller page number. */
  predicate Older(t: Table, i: nat, j: nat)
    requires i < |t.stamps| && j < |t.stamps|
  {
    t.stamps[i] < t.stamps[j] || (t.stamps[i] == t.stamps[j] && i < j)
  }

  /** The scan of the first n pages for the smallest stamp; -1 when none of them is valid. */
  function Victim(t: Table, n: nat): (v: int)
    requires n <= |t.stamps|
    ensures -1 <= v < n
    ensures v == -1 <==> forall i: nat :: i < n ==> i !in t.valid
    ensures v >= 0 ==> v in t.valid && forall i: nat :: i < n && i in t.valid && i != v ==> Older(t, v, i)
  {
    if n == 0 then -1
    else
      var best := Victim(t, n - 1);
      if n - 1 in t.valid && (best == -1 || t.stamps[n - 1] < t.stamps[best]) then n - 1 else best
  }

  ghost predicate Sane(t: Table) {
    t.valid != {} && forall p :: p in t.valid ==> p < |t.stamps|
  }

  /** A counter of m values. */
  function Next(c: nat, m: nat): nat {
    if c + 1 < m then c + 1 else 0
  }

  function Stamped(t: Table, p: nat, m: nat): Table
    requires p < |t.stamps|
  {
    var c := Next(t.counter, m);
    t.(stamps := t.stamps[p := c], counter := c)
  }

  /** One access, with a counter of m values. */
  function Access(t: Table, p: nat, m: nat): (t': Table)
    requires Sane(t) && p < |t.stamps|
    ensures Sane(t') && |t'.stamps| == |t.stamps| && t'.counter == Next(t.counter, m)
    ensures t'.stamps == t.stamps[p := t'.counter]
  {
    if p in t.valid then Stamped(t, p, m)
    else
      var v := Victim(t, |t.stamps|);
      assert v != -1 by {
        var q :| q in t.valid;
      }
      Stamped(t.(valid := t.valid - {v} + {p}), p, m)
  }

  ghost predicate Within(trace: seq<nat>, n: nat) {
    forall i :: 0 <= i < |trace| ==> trace[i] < n
  }

  function Run(t: Table, trace: seq<nat>, m: nat): (t': Table)
    requires Sane(t) && Within(trace, |t.stamps|)
    ensures Sane(t') && |t'.stamps| == |t.stamps|
    decreases |trace|
  {
    if trace == [] then t else Run(Access(t, trace[0], m), trace[1..], m)
  }

  function RunFaults(t: Table, trace: seq<nat>, m: nat): nat
    requires Sane(t) && Within(trace, |t.stamps|)
    decreases |trace|
  {
    if trace == [] then 0
    else (if trace[0] in t.valid then 0 else 1) + RunFaults(Access(t, trace[0], m), trace[1..], m)
  }

  // ----- the table follows the list -----

  /** The pages in memory, newest first, are l.  A single frame needs no order. */
  ghost predicate Represents(t: Table, l: seq<nat>) {
    && l != [] && Distinct(l) && Within(l, |t.stamps|)
    && t.valid == Pages(l)
    && (|l| > 1 ==> forall i :: 0 <= i < |t.stamps| ==> t.stamps[i] <= t.counter)
    && Ordered(t, l)
  }

  ghost predicate Ordered(t: Table, l: seq<nat>)
    requires Within(l, |t.stamps|)
  {
    forall i, j :: 0 <= i < j < |l| ==> Older(t, l[j], l[i])
  }

  lemma VictimIsLast(t: Table, l: seq<nat>)
    requires Represents(t, l)
    ensures Victim(t, |t.stamps|) == l[|l| - 1]
  {
    var last := l[|l| - 1];
    assert last in Pages(l);
    var v := Victim(t, |t.stamps|);
    var i :| 0 <= i < |l| && l[i] == v;
    if i < |l| - 1 {
      assert false;
    }
  }

  /** Where page p is cut out of a list. */
  lemma {:induction false} WithoutAt(l: seq<nat>, c: nat)
    requires Distinct(l) && c < |l|
    ensures Without(l, l[c]) == l[..c] + l[c + 1..]
  {
    if c == 0 {
      WithoutPages(l[1..], l[0]);
    } else {
      assert l[c] == l[1..][c - 1];
      assert l[c] in l[1..];
      WithoutAt(l[1..], c - 1);
      assert l[..c] == [l[0]] + l[1..][..c - 1];
      assert l[c + 1..] == l[1..][c..];
    }
  }

  lemma TouchHit(l: seq<nat>, c: nat)
    requires Distinct(l) && c < |l|
    ensures Touch(l, l[c], |l|) == [l[c]] + l[..c] + l[c + 1..]
  {
    WithoutAt(l, c);
  }

  lemma TouchMiss(l: seq<nat>, p: nat)
    requires Distinct(l) && l != [] && p !in l
    ensures Touch(l, p, |l|) == [p] + l[..|l| - 1]
  {
    WithoutPages(l, p);
  }

  lemma ButLast(l: seq<nat>, p: nat)
    requires Distinct(l) && l != []
    ensures Pages([p] + l[..|l| - 1]) == Pages(l) - {l[|l| - 1]} + {p}
  {
    InTakeIsEarly(l, |l| - 1, |l| - 1);
    MissPages(l, p);
  }

  lemma MissPages(l: seq<nat>, p: nat)
    requires l != [] && l[|l| - 1] !in l[..|l| - 1]
    ensures Pages([p] + l[..|l| - 1]) == Pages(l) - {l[|l| - 1]} + {p}
  {
    assert l == l[..|l| - 1] + [l[|l| - 1]];
  }

  lemma HitPages(l: seq<nat>, c: nat)
    requires c < |l|
    ensures Pages([l[c]] + l[..c] + l[c + 1..]) == Pages(l)
  {
    assert l == l[..c] + [l[c]] + l[c + 1..];
  }

  /** One access of the table is one access of the list; the order survives as long as the counter
      does not wrap. */
  lemma AccessRefines(t: Table, l: seq<nat>, p: nat, m: nat)
    requires Represents(t, l) && p < |t.stamps| && m > 0
    ensures Sane(t) && Access(t, p, m).valid == Pages(Touch(l, p, |l|))
    ensures p in t.valid <==> p in l
    ensures |Touch(l, p, |l|)| == |l|
    ensures t.counter + 1 < m || |l| == 1 ==> Represents(Access(t, p, m), Touch(l, p, |l|))
  {
    RepresentedSane(t, l);
    AccessValid(t, l, p, m);
    if |l| == 1 {
      OneFrame(t, l, p, m);
    } else if t.counter + 1 < m {
      ManyFrames(t, l, p, m);
    }
  }

  lemma OneFrame(t: Table, l: seq<nat>, p: nat, m: nat)
    requires Represents(t, l) && Sane(t) && |l| == 1 && p < |t.stamps|
    ensures Represents(Access(t, p, m), Touch(l, p, 1))
  {
    AccessValid(t, l, p, m);
    TouchShape(l, p, 1);
  }

  lemma ManyFrames(t: Table, l: seq<nat>, p: nat, m: nat)
    requires Represents(t, l) && Sane(t) && |l| > 1 && p < |t.stamps| && t.counter + 1 < m
    ensures Represents(Access(t, p, m), Touch(l, p, |l|))
  {
    AccessValid(t, l, p, m);
    TouchOrdered(t, l, p, Access(t, p, m));
  }

  lemma RepresentedSane(t: Table, l: seq<nat>)
    requires Represents(t, l)
    ensures Sane(t) && forall p :: p in t.valid <==> p in l
  {
    assert l[0] in t.valid;
  }

  lemma AccessValid(t: Table, l: seq<nat>, p: nat, m: nat)
    requires Represents(t, l) && Sane(t) && p < |t.stamps|
    ensures Access(t, p, m).valid == Pages(Touch(l, p, |l|))
    ensures |Touch(l, p, |l|)| == |l| && Distinct(Touch(l, p, |l|))
  {
    TouchShape(l, p, |l|);
    if p in l {
      var c :| 0 <= c < |l| && l[c] == p;
      TouchHit(l, c);
      HitPages(l, c);
    } else {
      VictimIsLast(t, l);
      TouchMiss(l, p);
      ButLast(l, p);
    }
  }

  /** The page with the newest stamp in front, the others in their order. */
  lemma TouchOrdered(t: Table, l: seq<nat>, p: nat, t': Table)
    requires Represents(t, l) && |l| > 1 && p < |t.stamps|
    requires t'.stamps == t.stamps[p := t.counter + 1]
    ensures Within(Touch(l, p, |l|), |t'.stamps|) && Ordered(t', Touch(l, p, |l|))
  {
    var l' := Touch(l, p, |l|);
    TouchShape(l, p, |l|);
    if p in l {
      var c :| 0 <= c < |l| && l[c] == p;
      TouchHit(l, c);
      FrontOrdered(t, l, p, t', l', c);
    } else {
      TouchMiss(l, p);
      FrontOrdered(t, l, p, t', l', |l| - 1);
    }
  }

  lemma FrontOrdered(t: Table, l: seq<nat>, p: nat, t': Table, l': seq<nat>, c: nat)
    requires Represents(t, l) && |l| > 1 && p < |t.stamps| && c < |l|
    requires t'.stamps == t.stamps[p := t.counter + 1]
    requires Distinct(l') && l' == [p] + l[..c] + l[c + 1..]
    ensures Within(l', |t'.stamps|) && Ordered(t', l')
  {
    forall i | 0 < i < |l'|
      ensures l'[i] == l[if i <= c then i - 1 else i] != p
    {
      InTakeIsEarly(l', i, 1);
      assert l'[0] in l'[..1];
    }
  }

  lemma {:induction false} RunRefines(t: Table, l: seq<nat>, trace: seq<nat>, m: nat)
    requires Represents(t, l) && Within(trace, |t.stamps|)
    requires m > 0 && (t.counter + |trace| <= m || |l| == 1)
    ensures Sane(t) && Run(t, trace, m).valid == Pages(TouchAll(l, trace, |l|))
    ensures RunFaults(t, trace, m) == Faults(l, trace, |l|)
    decreases |trace|
  {
    RepresentedSane(t, l);
    if trace != [] {
      AccessRefines(t, l, trace[0], m);
      var t', l', rest := Access(t, trace[0], m), Touch(l, trace[0], |l|), trace[1..];
      if rest == [] {
        assert Run(t', rest, m) == t' && TouchAll(l', rest, |l|) == l';
      } else {
        RunRefines(t', l', rest, m);
      }
    }
  }

  // ----- from the start -----

  /** Pages 0 to k - 1 are in memory and no page has been accessed. */
  ghost function Init(n: nat, k: nat): (t: Table)
    requires 0 < k <= n
    ensures Sane(t)
  {
    assert Up(k)[0] in Pages(Up(k));
    Table(Pages(Up(k)), seq(n, _ => 0), 0)
  }

  function Up(k: nat): seq<nat> { seq(k, i => i) }
  function Down(k: nat): seq<nat> { seq(k, i requires 0 <= i < k => k - 1 - i) }

  lemma SamePages(k: nat)
    ensures Pages(Down(k)) == Pages(Up(k))
  {
    forall p | p in Pages(Up(k))
      ensures p in Pages(Down(k))
    {
      assert Down(k)[k - 1 - p] == p;
    }
    forall p | p in Pages(Down(k))
      ensures p in Pages(Up(k))
    {
      assert Up(k)[p] == p;
    }
  }

  lemma {:induction false} DownIsRecency(k: nat)
    ensures RecencyList(Up(k)) == Down(k) && Distinct(Down(k))
  {
    if k > 0 {
      DownIsRecency(k - 1);
      assert Up(k)[..k - 1] == Up(k - 1);
      assert Down(k) == [k - 1] + Down(k - 1);
      assert k - 1 !in Down(k - 1);
      WithoutPages(Down(k - 1), k - 1);
    }
  }

  lemma InitRepresents(n: nat, k: nat)
    requires 0 < k <= n
    ensures Represents(Init(n, k), Down(k))
  {
    DownIsRecency(k);
    SamePages(k);
  }

  /** After the trace, exactly the last k distinct pages of the history are in memory, where the
      initial contents count as 0, 1, .., k - 1 in that order. */
  ghost predicate Remembers(n: nat, k: nat, m: nat, trace: seq<nat>)
    requires 0 < k <= n && m > 0 && Within(trace, n)
  {
    Run(Init(n, k), trace, m).valid == LastDistinct(Up(k) + trace, k)
  }

  lemma RemembersBeforeWrap(n: nat, k: nat, m: nat, trace: seq<nat>)
    requires 0 < k <= n && m > 0 && Within(trace, n) && (|trace| <= m || k == 1)
    ensures Remembers(n, k, m, trace)
  {
    InitRepresents(n, k);
    RunRefines(Init(n, k), Down(k), trace, m);
    DownIsRecency(k);
    LruListIsRecency(Down(k), Up(k), trace, k);
    LruHoldsLastDistinct(Up(k) + trace, k);
  }

  /** No schedule of victims does better by more than a factor of k, and k faults. */
  lemma FaultBound(n: nat, k: nat, m: nat, trace: seq<nat>, res: seq<set<nat>>)
    requires 0 < k <= n && m > 0 && Within(trace, n) && |trace| <= m
    requires Schedule(res, trace, k) && res[0] == Init(n, k).valid
    ensures RunFaults(Init(n, k), trace, m) <= k * ScheduleFaults(res, trace) + k
  {
    InitRepresents(n, k);
    RunRefines(Init(n, k), Down(k), trace, m);
    LruIsCompetitive(Down(k), trace, res, k);
  }

  // ----- after the counter has wrapped -----

  function Repeat(p: nat, r: nat): seq<nat> { seq(r, _ => p) }

  /** m accesses to page 0 bring the counter and the stamp of page 0 back to 0; then page k. */
  function WrapTrace(k: nat, m: nat, r: nat): seq<nat> {
    Repeat(0, m) + Repeat(k, r)
  }

  lemma {:induction false} RunConcat(t: Table, a: seq<nat>, b: seq<nat>, m: nat)
    requires Sane(t) && Within(a, |t.stamps|) && Within(b, |t.stamps|) && m > 0
    ensures Run(t, a + b, m) == Run(Run(t, a, m), b, m)
    decreases |a|
  {
    if a == [] {
      assert a + b == b;
    } else {
      assert (a + b)[0] == a[0] && (a + b)[1..] == a[1..] + b;
      RunConcat(Access(t, a[0], m), a[1..], b, m);
    }
  }

  /** Accesses to a page in memory only stamp it. */
  lemma {:induction false} RunRepeat(t: Table, p: nat, r: nat, m: nat)
    requires Sane(t) && p in t.valid
    ensures p < |t.stamps| && Run(t, Repeat(p, r), m).valid == t.valid
    ensures r > 0 && t.counter + r <= m ==>
              var c := if t.counter + r < m then t.counter + r else 0;
              Run(t, Repeat(p, r), m) == t.(stamps := t.stamps[p := c], counter := c)
    decreases r
  {
    if r > 0 {
      assert Repeat(p, r)[1..] == Repeat(p, r - 1);
      RunRepeat(Access(t, p, m), p, r - 1, m);
    }
  }

  lemma WrapRun(n: nat, k: nat, m: nat, r: nat)
    requires 0 < k < n && m > 0 && r > 0
    ensures Within(WrapTrace(k, m, r), n)
    ensures 0 !in Run(Init(n, k), WrapTrace(k, m, r), m).valid
  {
    var t := Init(n, k);
    assert Up(k)[0] in t.valid;
    RunConcat(t, Repeat(0, m), Repeat(k, r), m);
    RunRepeat(t, 0, m, m);
    assert t.stamps[0 := 0] == t.stamps;
    assert Run(t, Repeat(0, m), m) == t;
    EvictZero(t, k, m);
    assert Repeat(k, r)[1..] == Repeat(k, r - 1);
    RunRepeat(Access(t, k, m), k, r - 1, m);
  }

  lemma EvictZero(t: Table, k: nat, m: nat)
    requires Sane(t) && 0 in t.valid && 0 < k < |t.stamps| && k !in t.valid
    requires forall i :: 0 <= i < |t.stamps| ==> t.stamps[i] == 0
    ensures 0 !in Access(t, k, m).valid && k in Access(t, k, m).valid
  {
  }

  lemma {:induction false} UsedSinceRepeat(h: seq<nat>, q: nat, p: nat, r: nat)
    requires p != q && r > 0
    ensures UsedSince(h + Repeat(p, r), q) == UsedSince(h, q) + {p}
  {
    var g := h + Repeat(p, r);
    assert g[..|g| - 1] == h + Repeat(p, r - 1);
    if r > 1 {
      UsedSinceRepeat(h, q, p, r - 1);
    } else {
      assert h + Repeat(p, 0) == h;
    }
  }

  /** Page 0, one distinct page ago, is among the last k pages and has been evicted. */
  lemma ForgetsAfterWrap(n: nat, k: nat, m: nat, r: nat)
    requires 2 <= k < n && m > 0 && r > 0
    ensures Within(WrapTrace(k, m, r), n) && |WrapTrace(k, m, r)| == m + r
    ensures !Remembers(n, k, m, WrapTrace(k, m, r))
  {
    WrapRun(n, k, m, r);
    var h := Up(k) + Repeat(0, m);
    assert Up(k) + WrapTrace(k, m, r) == h + Repeat(k, r);
    UsedSinceRepeat(h, 0, k, r);
    assert h[|h| - 1] == 0;
    assert 0 in h + Repeat(k, r);
    assert |UsedSince(h + Repeat(k, r), 0)| == |{k}| == 1;
  }

  // ----- memories that hold every page -----

  lemma {:induction false} FullRun(t: Table, trace: seq<nat>, m: nat)
    requires Sane(t) && Within(trace, |t.stamps|) && forall p: nat :: p < |t.stamps| ==> p in t.valid
    ensures Run(t, trace, m).valid == t.valid
    decreases |trace|
  {
    if trace != [] {
      FullRun(Access(t, trace[0], m), trace[1..], m);
    }
  }

  lemma {:induction false} UsedSinceWithin(h: seq<nat>, q: nat, n: nat)
    requires Within(h, n)
    ensures UsedSince(h, q) <= Pages(Up(n)) - {q}
  {
    if h != [] {
      UsedSinceWithin(h[..|h| - 1], q, n);
      assert h[|h| - 1] == Up(n)[h[|h| - 1]];
    }
  }

  lemma UpPages(n: nat)
    ensures |Pages(Up(n))| == n
  {
    SamePages(n);
    DownIsRecency(n);
    PagesCard(Down(n));
  }

  lemma RemembersAll(n: nat, m: nat, trace: seq<nat>)
    requires 0 < n && m > 0 && Within(trace, n)
    ensures Remembers(n, n, m, trace)
  {
    forall p: nat | p < n
      ensures p in Init(n, n).valid
    {
      assert Up(n)[p] == p;
    }
    FullRun(Init(n, n), trace, m);
    var h := Up(n) + trace;
    UpPages(n);
    forall q: nat | q < n
      ensures q in h && |UsedSince(h, q)| < n
    {
      assert h[q] == q;
      UsedSinceWithin(h, q, n);
      SubsetCard(UsedSince(h, q), Pages(Up(n)) - {q});
    }
  }

  /** Time stamps are LRU for every trace of a length if and only if the counter has at least that
      many values, or there is nothing to choose: one frame, or a frame for every page. */
  lemma ExactLength(n: nat, k: nat, m: nat, length: nat)
    requires 0 < k <= n && m > 0
    ensures (forall trace :: |trace| == length && Within(trace, n) ==> Remembers(n, k, m, trace)) <==>
            length <= m || k == 1 || k == n
  {
    if length <= m || k == 1 || k == n {
      forall trace | |trace| == length && Within(trace, n)
        ensures Remembers(n, k, m, trace)
      {
        if k == n {
          RemembersAll(n, m, trace);
        } else {
          RemembersBeforeWrap(n, k, m, trace);
        }
      }
    } else {
      ForgetsAfterWrap(n, k, m, length - m);
    }
  }
}
