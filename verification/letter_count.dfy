/** Counting letters with one thread per chunk of the text.  `CountLetters` and `CountText` are the
    loops of the program; `System` interleaves the threads and the main thread step by step. */
module LetterCount {
  import opened Common

  const LETTERS_NB: nat := 26
  const A_UPPER_OFFSET: int := 65
  const A_LOWER_OFFSET: int := 97

  /** The counter that a character increments, -1 when it is ignored.  Both bounds are `<=`, so the
      character after 'Z' or 'z' gets slot 26, one past the counters. */
  function Slot(c: char): int {
    if A_UPPER_OFFSET <= c as int <= A_UPPER_OFFSET + LETTERS_NB then c as int - A_UPPER_OFFSET
    else if A_LOWER_OFFSET <= c as int <= A_LOWER_OFFSET + LETTERS_NB then c as int - A_LOWER_OFFSET
    else -1
  }

  ghost predicate InBounds(text: seq<char>) {
    forall k :: 0 <= k < |text| ==> Slot(text[k]) < LETTERS_NB
  }

  /** The writes stay inside the counters exactly for texts without '[' and '{'. */
  lemma InBoundsIff(text: seq<char>)
    ensures InBounds(text) <==> '[' !in text && '{' !in text
  {
  }

  /** The sequential, case-insensitive count of letter j. */
  ghost function Occurrences(s: seq<char>, j: nat): nat
    requires j < LETTERS_NB
  {
    multiset(s)[(A_UPPER_OFFSET + j) as char] + multiset(s)[(A_LOWER_OFFSET + j) as char]
  }

  lemma OccurrencesConcat(a: seq<char>, b: seq<char>, j: nat)
    requires j < LETTERS_NB
    ensures Occurrences(a + b, j) == Occurrences(a, j) + Occurrences(b, j)
  {
  }

  lemma OccurrencesNext(s: seq<char>, k: nat, j: nat)
    requires k < |s| && j < LETTERS_NB && Slot(s[k]) < LETTERS_NB
    ensures Occurrences(s[..k + 1], j) == Occurrences(s[..k], j) + if Slot(s[k]) == j then 1 else 0
  {
    assert s[..k + 1] == s[..k] + [s[k]];
  }

  /** The body of a thread, on its own counters. */
  method CountLetters(text: seq<char>, start: nat, size: nat, counters: array<nat>)
    requires counters.Length == LETTERS_NB
    requires start + size <= |text| && InBounds(text[start..start + size])
    modifies counters
    ensures forall j :: 0 <= j < LETTERS_NB ==> counters[j] == Occurrences(text[start..start + size], j)
  {
    ghost var chunk := text[start..start + size];
    for i := 0 to LETTERS_NB
      invariant forall j :: 0 <= j < i ==> counters[j] == 0
    {
      counters[i] := 0;
    }
    assert chunk[..0] == [];
    for i := 0 to size
      invariant forall j :: 0 <= j < LETTERS_NB ==> counters[j] == Occurrences(chunk[..i], j)
    {
      var c := text[start + i];
      assert c == chunk[i];
      forall j: nat | j < LETTERS_NB
        ensures Occurrences(chunk[..i + 1], j) == Occurrences(chunk[..i], j) + if Slot(c) == j then 1 else 0
      {
        OccurrencesNext(chunk, i, j);
      }
      if c as int >= A_UPPER_OFFSET && c as int <= A_UPPER_OFFSET + LETTERS_NB {
        counters[c as int - A_UPPER_OFFSET] := counters[c as int - A_UPPER_OFFSET] + 1;
      } else if c as int >= A_LOWER_OFFSET && c as int <= A_LOWER_OFFSET + LETTERS_NB {
        counters[c as int - A_LOWER_OFFSET] := counters[c as int - A_LOWER_OFFSET] + 1;
      }
    }
    assert chunk[..size] == chunk;
  }

  // ----- the chunks -----

  function Start(len: nat, n: nat, i: nat): nat
    requires n > 0
  {
    i * (len / n)
  }

  function Size(len: nat, n: nat, i: nat): nat
    requires n > 0
  {
    len / n + if i == n - 1 then len % n else 0
  }

  lemma ChunkBounds(len: nat, n: nat, i: nat)
    requires i < n
    ensures Start(len, n, 0) == 0
    ensures Start(len, n, i) + Size(len, n, i) == if i == n - 1 then len else Start(len, n, i + 1)
    ensures Start(len, n, i) + Size(len, n, i) <= len
  {
    var c := len / n;
    assert len == n * c + len % n;
    assert (i + 1) * c == i * c + c;
    assert (i + 1) * c <= n * c by { MulMono(c, i + 1, n); }
  }

  lemma {:induction false} StartMonotone(len: nat, n: nat, i: nat, j: nat)
    requires i < j < n
    ensures Start(len, n, i) + Size(len, n, i) <= Start(len, n, j)
  {
    ChunkBounds(len, n, i);
    MulMono(len / n, i + 1, j);
  }

  ghost predicate InChunk(len: nat, n: nat, i: nat, k: nat)
    requires n > 0
  {
    i < n && Start(len, n, i) <= k < Start(len, n, i) + Size(len, n, i)
  }

  /** The chunks tile the text: every position is in exactly one of them. */
  lemma ChunksTile(len: nat, n: nat, k: nat)
    requires n > 0 && k < len
    ensures exists i: nat :: InChunk(len, n, i, k)
    ensures forall i: nat, j: nat :: InChunk(len, n, i, k) && InChunk(len, n, j, k) ==> i == j
  {
    var i := 0;
    while i < n - 1 && k >= Start(len, n, i) + Size(len, n, i)
      invariant i < n && Start(len, n, i) <= k
    {
      ChunkBounds(len, n, i);
      i := i + 1;
    }
    ChunkBounds(len, n, i);
    assert InChunk(len, n, i, k);
    forall i: nat, j: nat | InChunk(len, n, i, k) && InChunk(len, n, j, k)
      ensures i == j
    {
      if i < j {
        StartMonotone(len, n, i, j);
      } else if j < i {
        StartMonotone(len, n, j, i);
      }
    }
  }

  function Chunk(text: seq<char>, n: nat, i: nat): (c: seq<char>)
    requires i < n
    ensures |c| == Size(|text|, n, i)
  {
    ChunkBounds(|text|, n, i);
    text[Start(|text|, n, i)..Start(|text|, n, i) + Size(|text|, n, i)]
  }

  /** The text before chunk i; all of it for i == n. */
  function Before(text: seq<char>, n: nat, i: nat): seq<char>
    requires i <= n && n > 0
  {
    if i == n then text else ChunkBounds(|text|, n, i); text[..Start(|text|, n, i)]
  }

  lemma BeforeNext(text: seq<char>, n: nat, i: nat)
    requires i < n
    ensures Before(text, n, i + 1) == Before(text, n, i) + Chunk(text, n, i)
    ensures Before(text, n, 0) == []
  {
    ChunkBounds(|text|, n, i);
    if i + 1 < n {
      ChunkBounds(|text|, n, i + 1);
    }
  }

  lemma ChunkInBounds(text: seq<char>, n: nat, i: nat)
    requires i < n && InBounds(text)
    ensures InBounds(Chunk(text, n, i))
  {
    ChunkBounds(|text|, n, i);
  }

  /** The creation loop, when each thread runs to its end before the next one starts. */
  method CountChunks(text: seq<char>, threadNum: nat) returns (counters: array2<nat>)
    requires threadNum > 0 && InBounds(text)
    ensures fresh(counters) && counters.Length0 == threadNum && counters.Length1 == LETTERS_NB
    ensures forall t: nat, j: nat :: t < threadNum && j < LETTERS_NB ==>
              counters[t, j] == Occurrences(Chunk(text, threadNum, t), j)
  {
    counters := new nat[threadNum, LETTERS_NB]((_, _) => 0);
    var chunkSize, leftover := |text| / threadNum, |text| % threadNum;
    for i := 0 to threadNum
      invariant forall t: nat, j: nat :: t < i && j < LETTERS_NB ==>
                  counters[t, j] == Occurrences(Chunk(text, threadNum, t), j)
    {
      var size := chunkSize;
      if i == threadNum - 1 {
        size := size + leftover;
      }
      ChunkBounds(|text|, threadNum, i);
      ChunkInBounds(text, threadNum, i);
      var own := new nat[LETTERS_NB](_ => 0);
      CountLetters(text, i * chunkSize, size, own);
      forall j | 0 <= j < LETTERS_NB {
        counters[i, j] := own[j];
      }
    }
  }

  /** The inner loop of the join. */
  method AddCounters(result: array<nat>, counters: array2<nat>, i: nat)
    requires result.Length == LETTERS_NB && counters.Length1 == LETTERS_NB && i < counters.Length0
    modifies result
    ensures forall j :: 0 <= j < LETTERS_NB ==> result[j] == old(result[j]) + counters[i, j]
  {
    for j := 0 to LETTERS_NB
      invariant forall l :: 0 <= l < LETTERS_NB ==>
                  result[l] == old(result[l]) + if l < j then counters[i, l] else 0
    {
      result[j] := result[j] + counters[i, j];
    }
  }

  method CountText(text: seq<char>, threadNum: nat) returns (resultCounters: array<nat>)
    requires threadNum > 0 && InBounds(text)
    ensures resultCounters.Length == LETTERS_NB
    ensures forall j :: 0 <= j < LETTERS_NB ==> resultCounters[j] == Occurrences(text, j)
  {
    var counters := CountChunks(text, threadNum);
    resultCounters := new nat[LETTERS_NB](_ => 0);
    BeforeNext(text, threadNum, 0);
    for i := 0 to threadNum
      modifies resultCounters
      invariant forall j: nat :: j < LETTERS_NB ==> resultCounters[j] == Occurrences(Before(text, threadNum, i), j)
    {
      ghost var before := resultCounters[..];
      AddCounters(resultCounters, counters, i);
      forall j: nat | j < LETTERS_NB
        ensures resultCounters[j] == Occurrences(Before(text, threadNum, i + 1), j)
      {
        BeforeNextOccurrences(text, threadNum, i, j);
        assert before[j] == Occurrences(Before(text, threadNum, i), j);
        assert counters[i, j] == Occurrences(Chunk(text, threadNum, i), j);
      }
    }
  }

  lemma BeforeNextOccurrences(text: seq<char>, n: nat, i: nat, j: nat)
    requires i < n && j < LETTERS_NB
    ensures Occurrences(Before(text, n, i + 1), j) ==
            Occurrences(Before(text, n, i), j) + Occurrences(Chunk(text, n, i), j)
  {
    BeforeNext(text, n, i);
    OccurrencesConcat(Before(text, n, i), Chunk(text, n, i), j);
  }

  // ----- every interleaving -----

  /** A thread: its counters are private until it is joined. */
  datatype Worker = Worker(started: bool, zeroed: nat, pos: nat, counters: seq<nat>)

  /** The main thread has created `created` threads and joined `joined`; while `adding`, it has added
      the first `slot` counters of thread `joined`. */
  datatype System = System(workers: seq<Worker>, created: nat, joined: nat, adding: bool, slot: nat,
                           result: seq<nat>)

  datatype Step = Create | Zero(i: nat) | Count(i: nat) | Join | Add | Leave

  ghost predicate Shape(s: System, text: seq<char>) {
    && |s.workers| > 0 && |s.result| == LETTERS_NB
    && s.created <= |s.workers| && s.joined <= |s.workers| && s.slot <= LETTERS_NB
    && forall i :: 0 <= i < |s.workers| ==>
         && |s.workers[i].counters| == LETTERS_NB
         && s.workers[i].zeroed <= LETTERS_NB
         && s.workers[i].pos <= Size(|text|, |s.workers|, i)
  }

  ghost predicate Finished(w: Worker, size: nat) {
    w.started && w.zeroed == LETTERS_NB && w.pos == size
  }

  ghost predicate Enabled(s: System, text: seq<char>, step: Step)
    requires Shape(s, text)
  {
    var n := |s.workers|;
    match step
    case Create => s.created < n
    case Zero(i) => i < n && s.workers[i].started && s.workers[i].zeroed < LETTERS_NB
    case Count(i) =>
      && i < n && s.workers[i].started && s.workers[i].zeroed == LETTERS_NB
      && s.workers[i].pos < Size(|text|, n, i)
    case Join =>
      && s.created == n && !s.adding && s.joined < n
      && Finished(s.workers[s.joined], Size(|text|, n, s.joined))
    case Add => s.adding && s.joined < n && s.slot < LETTERS_NB
    case Leave => s.adding && s.joined < n && s.slot == LETTERS_NB
  }

  function Bumped(counters: seq<nat>, slot: int): seq<nat> {
    if 0 <= slot < |counters| then counters[slot := counters[slot] + 1] else counters
  }

  ghost function Do(s: System, text: seq<char>, step: Step): System
    requires Shape(s, text) && Enabled(s, text, step)
  {
    var n := |s.workers|;
    match step
    case Create =>
      s.(created := s.created + 1, workers := s.workers[s.created := s.workers[s.created].(started := true)])
    case Zero(i) =>
      var w := s.workers[i];
      s.(workers := s.workers[i := w.(counters := w.counters[w.zeroed := 0], zeroed := w.zeroed + 1)])
    case Count(i) =>
      var w := s.workers[i];
      var c := Chunk(text, n, i)[w.pos];
      s.(workers := s.workers[i := w.(counters := Bumped(w.counters, Slot(c)), pos := w.pos + 1)])
    case Join => s.(adding := true, slot := 0)
    case Add =>
      var w := s.workers[s.joined];
      s.(result := s.result[s.slot := s.result[s.slot] + w.counters[s.slot]], slot := s.slot + 1)
    case Leave => s.(adding := false, joined := s.joined + 1)
  }

  ghost predicate Initial(s: System, text: seq<char>) {
    && Shape(s, text)
    && s.created == 0 && s.joined == 0 && !s.adding
    && (forall j :: 0 <= j < LETTERS_NB ==> s.result[j] == 0)
    && (forall i :: 0 <= i < |s.workers| ==>
          !s.workers[i].started && s.workers[i].zeroed == 0 && s.workers[i].pos == 0)
  }

  /** What a thread has counted so far. */
  ghost predicate WorkerInv(w: Worker, chunk: seq<char>) {
    && |w.counters| == LETTERS_NB && w.zeroed <= LETTERS_NB && w.pos <= |chunk|
    && (w.zeroed < LETTERS_NB ==> w.pos == 0)
    && (!w.started ==> w.zeroed == 0)
    && (forall j: nat :: j < w.zeroed ==> w.counters[j] == Occurrences(chunk[..w.pos], j))
  }

  ghost predicate Inv(s: System, text: seq<char>) {
    && Shape(s, text)
    && (forall i: nat :: i < |s.workers| ==>
          && WorkerInv(s.workers[i], Chunk(text, |s.workers|, i))
          && (s.workers[i].started <==> i < s.created))
    && (s.joined > 0 || s.adding ==> s.created == |s.workers|)
    && (s.adding ==> s.joined < |s.workers|
                     && Finished(s.workers[s.joined], Size(|text|, |s.workers|, s.joined)))
    && (forall j: nat :: j < LETTERS_NB ==>
          s.result[j] == Occurrences(Before(text, |s.workers|, s.joined), j)
                         + if s.adding && j < s.slot
                           then Occurrences(Chunk(text, |s.workers|, s.joined), j) else 0)
  }

  lemma InitialInv(s: System, text: seq<char>)
    requires Initial(s, text)
    ensures Inv(s, text)
  {
  }

  lemma ZeroKeeps(w: Worker, chunk: seq<char>)
    requires WorkerInv(w, chunk) && w.started && w.zeroed < LETTERS_NB
    ensures WorkerInv(w.(counters := w.counters[w.zeroed := 0], zeroed := w.zeroed + 1), chunk)
  {
    assert chunk[..0] == [];
  }

  lemma CountKeeps(w: Worker, chunk: seq<char>)
    requires WorkerInv(w, chunk) && w.started && w.zeroed == LETTERS_NB && w.pos < |chunk| && InBounds(chunk)
    ensures WorkerInv(w.(counters := Bumped(w.counters, Slot(chunk[w.pos])), pos := w.pos + 1), chunk)
  {
    forall j: nat | j < LETTERS_NB
      ensures Bumped(w.counters, Slot(chunk[w.pos]))[j] == Occurrences(chunk[..w.pos + 1], j)
    {
      OccurrencesNext(chunk, w.pos, j);
    }
  }

  lemma StepKeepsInv(s: System, text: seq<char>, step: Step)
    requires Inv(s, text) && InBounds(text) && Enabled(s, text, step)
    ensures Inv(Do(s, text, step), text)
  {
    match step {
      case Create => CreateKeeps(s, text);
      case Zero(i) => ZeroStepKeeps(s, text, i);
      case Count(i) => CountStepKeeps(s, text, i);
      case Join => JoinKeeps(s, text);
      case Add => AddKeeps(s, text);
      case Leave => LeaveKeeps(s, text);
    }
  }

  lemma ZeroStepKeeps(s: System, text: seq<char>, i: nat)
    requires Inv(s, text) && Enabled(s, text, Zero(i))
    ensures Inv(Do(s, text, Zero(i)), text)
  {
    ZeroKeeps(s.workers[i], Chunk(text, |s.workers|, i));
    WorkerStepKeeps(s, text, Zero(i), i);
  }

  lemma CountStepKeeps(s: System, text: seq<char>, i: nat)
    requires Inv(s, text) && InBounds(text) && Enabled(s, text, Count(i))
    ensures Inv(Do(s, text, Count(i)), text)
  {
    ChunkInBounds(text, |s.workers|, i);
    CountKeeps(s.workers[i], Chunk(text, |s.workers|, i));
    WorkerStepKeeps(s, text, Count(i), i);
  }

  /** A step of an unfinished thread: no finished thread changes. */
  lemma WorkerStepKeeps(s: System, text: seq<char>, step: Step, i: nat)
    requires Inv(s, text) && Enabled(s, text, step) && (step == Zero(i) || step == Count(i))
    requires WorkerInv(Do(s, text, step).workers[i], Chunk(text, |s.workers|, i))
    ensures Inv(Do(s, text, step), text)
  {
    var s' := Do(s, text, step);
    var n := |s.workers|;
    forall t: nat | t < n
      ensures WorkerInv(s'.workers[t], Chunk(text, n, t)) && (s'.workers[t].started <==> t < s'.created)
    {
      assert WorkerInv(s.workers[t], Chunk(text, n, t));
    }
  }

  lemma CreateKeeps(s: System, text: seq<char>)
    requires Inv(s, text) && Enabled(s, text, Create)
    ensures Inv(Do(s, text, Create), text)
  {
  }

  lemma JoinKeeps(s: System, text: seq<char>)
    requires Inv(s, text) && Enabled(s, text, Join)
    ensures Inv(Do(s, text, Join), text)
  {
  }

  lemma AddKeeps(s: System, text: seq<char>)
    requires Inv(s, text) && Enabled(s, text, Add)
    ensures Inv(Do(s, text, Add), text)
  {
    var w, chunk := s.workers[s.joined], Chunk(text, |s.workers|, s.joined);
    assert chunk[..w.pos] == chunk;
    assert WorkerInv(w, chunk);
    assert w.counters[s.slot] == Occurrences(chunk, s.slot);
  }

  lemma LeaveKeeps(s: System, text: seq<char>)
    requires Inv(s, text) && Enabled(s, text, Leave)
    ensures Inv(Do(s, text, Leave), text)
  {
    forall j: nat | j < LETTERS_NB
      ensures s.result[j] == Occurrences(Before(text, |s.workers|, s.joined + 1), j)
    {
      BeforeNextOccurrences(text, |s.workers|, s.joined, j);
    }
  }

  /** A run takes enabled steps in any order. */
  ghost predicate Run(states: seq<System>, steps: seq<Step>, text: seq<char>) {
    && |states| == |steps| + 1
    && Initial(states[0], text)
    && forall k :: 0 <= k < |steps| ==>
         && Shape(states[k], text) && Enabled(states[k], text, steps[k])
         && states[k + 1] == Do(states[k], text, steps[k])
  }

  lemma {:induction false} RunKeepsInv(states: seq<System>, steps: seq<Step>, text: seq<char>, k: nat)
    requires Run(states, steps, text) && InBounds(text) && k < |states|
    ensures Inv(states[k], text)
  {
    if k == 0 {
      InitialInv(states[0], text);
    } else {
      RunKeepsInv(states, steps, text, k - 1);
      StepKeepsInv(states[k - 1], text, steps[k - 1]);
      assert states[k - 1 + 1] == Do(states[k - 1], text, steps[k - 1]);
    }
  }

  /** Whatever the interleaving, once all threads are joined the totals are the sequential count. */
  lemma AnyInterleavingCounts(states: seq<System>, steps: seq<Step>, text: seq<char>)
    requires Run(states, steps, text) && InBounds(text)
    requires states[|steps|].joined == |states[|steps|].workers|
    ensures |states[|steps|].result| == LETTERS_NB
    ensures forall j: nat :: j < LETTERS_NB ==> states[|steps|].result[j] == Occurrences(text, j)
  {
    RunKeepsInv(states, steps, text, |steps|);
  }

  /** No interleaving gets stuck: until all threads are joined, some step is enabled. */
  lemma Progress(s: System, text: seq<char>)
    requires Inv(s, text) && s.joined < |s.workers|
    ensures exists step :: Enabled(s, text, step)
  {
    var n := |s.workers|;
    var w := s.workers[s.joined];
    assert WorkerInv(w, Chunk(text, n, s.joined));
    if s.created < n {
      assert Enabled(s, text, Create);
    } else if s.adding {
      assert Enabled(s, text, Add) || Enabled(s, text, Leave);
    } else {
      assert Enabled(s, text, Zero(s.joined)) || Enabled(s, text, Count(s.joined)) || Enabled(s, text, Join);
    }
  }

  // ----- termination -----

  ghost function WorkerWork(w: Worker, size: nat): int {
    (if w.started then 0 else 1) + (LETTERS_NB - w.zeroed) + (size - w.pos)
  }

  ghost function WorkLeft(workers: seq<Worker>, len: nat, n: nat, k: nat): int
    requires k <= |workers| <= n
  {
    if k == 0 then 0 else WorkLeft(workers, len, n, k - 1) + WorkerWork(workers[k - 1], Size(len, n, k - 1))
  }

  /** An upper bound on the steps left; it is never negative and drops at every step. */
  ghost function StepsLeft(s: System, text: seq<char>): int
    requires Shape(s, text)
  {
    WorkLeft(s.workers, |text|, |s.workers|, |s.workers|)
    + (LETTERS_NB + 2) * (|s.workers| - s.joined)
    - if s.adding then s.slot + 1 else 0
  }

  lemma {:induction false} WorkLeftUpdate(workers: seq<Worker>, len: nat, n: nat, k: nat, i: nat, w: Worker)
    requires k <= |workers| <= n && i < |workers|
    ensures WorkLeft(workers[i := w], len, n, k) == WorkLeft(workers, len, n, k)
            + if i < k then WorkerWork(w, Size(len, n, i)) - WorkerWork(workers[i], Size(len, n, i)) else 0
  {
    if k > 0 {
      WorkLeftUpdate(workers, len, n, k - 1, i, w);
    }
  }

  lemma {:induction false} WorkLeftNonNegative(s: System, text: seq<char>, k: nat)
    requires Shape(s, text) && k <= |s.workers|
    ensures WorkLeft(s.workers, |text|, |s.workers|, k) >= 0
  {
    if k > 0 {
      WorkLeftNonNegative(s, text, k - 1);
    }
  }

  /** Every run ends: the bound drops at each step. */
  lemma StepsRunOut(s: System, text: seq<char>, step: Step)
    requires Inv(s, text) && InBounds(text) && Enabled(s, text, step)
    ensures Shape(Do(s, text, step), text)
    ensures 0 <= StepsLeft(Do(s, text, step), text) < StepsLeft(s, text)
  {
    StepKeepsInv(s, text, step);
    var s' := Do(s, text, step);
    var n := |s.workers|;
    WorkLeftNonNegative(s', text, n);
    match step {
      case Create => WorkLeftUpdate(s.workers, |text|, n, n, s.created, s'.workers[s.created]);
      case Zero(i) => WorkLeftUpdate(s.workers, |text|, n, n, i, s'.workers[i]);
      case Count(i) => WorkLeftUpdate(s.workers, |text|, n, n, i, s'.workers[i]);
      case _ =>
    }
  }
}
