/** The docker log relay: a bounded deque per container, a push loop, and central's merged buffer. */
module LogRelay {
  type Line = string
  type Container = string

  const KEPT: nat := 500

  /** `prev[-n:]`, and what a `deque(maxlen=n)` holds after appending the whole of `s`. */
  function Last<T>(s: seq<T>, n: nat): (r: seq<T>)
    ensures |r| == if |s| <= n then |s| else n
  {
    if |s| <= n then s else s[|s| - n..]
  }

  lemma LastOfLast<T>(a: seq<T>, b: seq<T>, n: nat)
    ensures Last(Last(a, n) + b, n) == Last(a + b, n)
  {
  }

  function Flatten<T>(batches: seq<seq<T>>): (r: seq<T>)
  {
    if batches == [] then [] else Flatten(batches[..|batches| - 1]) + batches[|batches| - 1]
  }

  lemma FlattenSnoc<T>(batches: seq<seq<T>>, batch: seq<T>)
    ensures Flatten(batches + [batch]) == Flatten(batches) + batch
  {
    assert (batches + [batch])[..|batches|] == batches;
  }

  function Min(a: nat, b: nat): nat
  {
    if a <= b then a else b
  }

  // ----- the sidecar

  datatype State = State(
    buf: seq<Line>,           // the container's deque
    last: nat,                // `_last_log_counts[name]`
    seen: seq<Line>,          // history: every line appended
    sent: seq<seq<Line>>)     // history: every batch put in a payload

  const START := State([], 0, [], [])

  function Append(s: State, line: Line): State
  {
    s.(buf := Last(s.buf + [line], KEPT), seen := s.seen + [line])
  }

  function AppendAll(s: State, lines: seq<Line>): State
  {
    if lines == [] then s else Append(AppendAll(s, lines[..|lines| - 1]), lines[|lines| - 1])
  }

  lemma {:induction false} AppendAllIs(s: State, lines: seq<Line>)
    requires |s.buf| <= KEPT
    ensures AppendAll(s, lines) == s.(buf := Last(s.buf + lines, KEPT), seen := s.seen + lines)
  {
    if lines == [] {
      assert s.buf + lines == s.buf && s.seen + lines == s.seen;
    } else {
      var init, line := lines[..|lines| - 1], lines[|lines| - 1];
      assert lines == init + [line];
      AppendAllIs(s, init);
      LastOfLast(s.buf + init, [line], KEPT);
      assert s.buf + init + [line] == s.buf + lines && s.seen + init + [line] == s.seen + lines;
    }
  }

  /**
   * One turn of the push loop. The tail thread takes no lock, so it may append the
   * lines `gap` between the push's `len(buf)` and its `list(buf)`.
   */
  function Push(s: State, gap: seq<Line>): State
  {
    var count, s1 := |s.buf|, AppendAll(s, gap);
    s1.(last := count,
        sent := if count > s.last && s.last <= |s1.buf| then s.sent + [s1.buf[s.last..]]
                else if count < s.last then s.sent + [s1.buf]
                else s.sent)
  }

  datatype Step = DoAppend(line: Line) | DoPush(gap: seq<Line>)

  function Apply(s: State, step: Step): State
  {
    match step
    case DoAppend(line) => Append(s, line)
    case DoPush(gap) => Push(s, gap)
  }

  /** The state after the first `n` steps. */
  function Run(steps: seq<Step>, n: nat): State
    requires n <= |steps|
  {
    if n == 0 then START else Apply(Run(steps, n - 1), steps[n - 1])
  }

  // ----- every run

  /** The deque is the last 500 lines seen, and its length never falls below the remembered count. */
  ghost predicate Inv(s: State)
  {
    s.buf == Last(s.seen, KEPT) && s.last <= |s.buf|
  }

  lemma AppendInv(s: State, line: Line)
    requires Inv(s)
    ensures Inv(Append(s, line))
  {
    LastOfLast(s.seen, [line], KEPT);
  }

  /** What a push does, as long as the deque is the one the sidecar started with. */
  lemma PushIs(s: State, gap: seq<Line>)
    requires Inv(s)
    ensures Inv(Push(s, gap))
    ensures var s', all := Push(s, gap), s.seen + gap;
            && s'.seen == all && s'.last == |s.buf|
            && s'.sent == if |s.buf| > s.last then s.sent + [Last(all, KEPT)[s.last..]] else s.sent
  {
    AppendAllIs(s, gap);
    LastOfLast(s.seen, gap, KEPT);
  }

  lemma {:induction false} RunInv(steps: seq<Step>, n: nat)
    requires n <= |steps|
    ensures Inv(Run(steps, n))
  {
    if n > 0 {
      RunInv(steps, n - 1);
      match steps[n - 1] {
        case DoAppend(line) => AppendInv(Run(steps, n - 1), line);
        case DoPush(gap) => PushIs(Run(steps, n - 1), gap);
      }
    }
  }

  /** The branch for a buffer that shrank is never taken while the deque is not replaced, wrapped or not. */
  lemma NeverLooksRestarted(steps: seq<Step>, n: nat)
    requires n <= |steps|
    ensures Run(steps, n).last <= |Run(steps, n).buf|
  {
    RunInv(steps, n);
  }

  /** Once a push has found the deque full, no later line is ever sent. */
  lemma {:induction false} SilentOnceFull(steps: seq<Step>, m: nat, n: nat)
    requires m <= n <= |steps| && Run(steps, m).last == KEPT
    ensures Run(steps, n).sent == Run(steps, m).sent && Run(steps, n).last == KEPT
    decreases n
  {
    if m < n {
      SilentOnceFull(steps, m, n - 1);
      RunInv(steps, n - 1);
      if steps[n - 1].DoPush? {
        PushIs(Run(steps, n - 1), steps[n - 1].gap);
      }
    }
  }

  // ----- the pushes that send, read off the steps alone

  /** Lines appended by the first `n` steps. */
  function Lines(steps: seq<Step>, n: nat): nat
    requires n <= |steps|
  {
    if n == 0 then 0 else Lines(steps, n - 1) + if steps[n - 1].DoPush? then |steps[n - 1].gap| else 1
  }

  /** The length the last push found. */
  function Remembered(steps: seq<Step>, n: nat): nat
    requires n <= |steps|
  {
    if n == 0 then 0
    else if steps[n - 1].DoPush? then Min(Lines(steps, n - 1), KEPT)
    else Remembered(steps, n - 1)
  }

  /** A push that finds the deque longer than the last one did. */
  predicate Sends(steps: seq<Step>, i: nat)
    requires i < |steps|
  {
    steps[i].DoPush? && Min(Lines(steps, i), KEPT) > Remembered(steps, i)
  }

  /** A sending push: lines seen when it read the length, and lines appended before it read the deque. */
  datatype Sender = Sender(n: nat, gap: nat)

  function Senders(steps: seq<Step>, n: nat): seq<Sender>
    requires n <= |steps|
  {
    if n == 0 then []
    else if Sends(steps, n - 1) then Senders(steps, n - 1) + [Sender(Lines(steps, n - 1), |steps[n - 1].gap|)]
    else Senders(steps, n - 1)
  }

  /** Lines the last push looked at. */
  function ReadUpTo(steps: seq<Step>, n: nat): nat
    requires n <= |steps|
  {
    if n == 0 then 0
    else if Sends(steps, n - 1) then Lines(steps, n)
    else if steps[n - 1].DoPush? then Lines(steps, n - 1)
    else ReadUpTo(steps, n - 1)
  }

  /** Lines the deque had discarded when the push read it. */
  function Dropped(p: Sender): nat
  {
    if p.n + p.gap <= KEPT then 0 else p.n + p.gap - KEPT
  }

  /** The `k`-th batch consists of the lines at positions `Lo` to `Hi`. */
  function Lo(ps: seq<Sender>, k: nat): nat
    requires k < |ps|
  {
    Dropped(ps[k]) + if k == 0 then 0 else ps[k - 1].n
  }

  function Hi(ps: seq<Sender>, k: nat): nat
    requires k < |ps|
  {
    ps[k].n + ps[k].gap
  }

  /** Senders in step order: each has more lines than the one before had read, and all but the last find room. */
  ghost predicate Chain(ps: seq<Sender>)
  {
    forall k :: 0 <= k < |ps| ==>
      ps[k].n > 0 && (k > 0 ==> ps[k - 1].n < Min(ps[k].n, KEPT) && Hi(ps, k - 1) <= ps[k].n)
  }

  lemma SpanOf(ps: seq<Sender>, k: nat)
    requires Chain(ps) && k < |ps|
    ensures Lo(ps, k) < Hi(ps, k) && (k > 0 ==> Lo(ps, k - 1) < Lo(ps, k) && Hi(ps, k - 1) <= Hi(ps, k))
  {
  }

  /** What the steps say about the counts. */
  ghost predicate Counted(steps: seq<Step>, n: nat)
    requires n <= |steps|
  {
    var ps := Senders(steps, n);
    && Chain(ps)
    && Remembered(steps, n) == (if ps == [] then 0 else Min(ps[|ps| - 1].n, KEPT))
    && ReadUpTo(steps, n) <= Lines(steps, n)
    && (ps == [] ==> ReadUpTo(steps, n) == 0)
    && (ps != [] ==> Hi(ps, |ps| - 1) <= ReadUpTo(steps, n)
                     && (ps[|ps| - 1].n < KEPT ==> ReadUpTo(steps, n) == Hi(ps, |ps| - 1)))
  }

  lemma ChainSnoc(ps: seq<Sender>, p: Sender)
    requires Chain(ps) && p.n > 0
    requires ps != [] ==> ps[|ps| - 1].n < Min(p.n, KEPT) && Hi(ps, |ps| - 1) <= p.n
    ensures Chain(ps + [p])
  {
    var ps' := ps + [p];
    forall k | 0 <= k < |ps'|
      ensures ps'[k].n > 0 && (k > 0 ==> ps'[k - 1].n < Min(ps'[k].n, KEPT) && Hi(ps', k - 1) <= ps'[k].n)
    {
      if 0 < k < |ps| {
        assert ps[k].n > 0 && Hi(ps, k - 1) <= ps[k].n;
      }
    }
  }

  lemma {:induction false} StepsCounted(steps: seq<Step>, n: nat)
    requires n <= |steps|
    ensures Counted(steps, n)
  {
    if n > 0 {
      StepsCounted(steps, n - 1);
      var ps := Senders(steps, n - 1);
      if Sends(steps, n - 1) {
        var p := Sender(Lines(steps, n - 1), |steps[n - 1].gap|);
        ChainSnoc(ps, p);
        hide Chain;
        assert Senders(steps, n) == ps + [p];
      } else {
        hide Chain;
        assert Senders(steps, n) == ps;
      }
    }
  }

  // ----- every batch is a slice of the lines seen

  ghost predicate Sliced(s: State, ps: seq<Sender>)
  {
    && Chain(ps) && |s.sent| == |ps|
    && forall k :: 0 <= k < |ps| ==> Lo(ps, k) <= Hi(ps, k) <= |s.seen| && s.sent[k] == s.seen[Lo(ps, k)..Hi(ps, k)]
  }

  lemma SlicedLonger(s: State, s': State, ps: seq<Sender>, more: seq<Line>)
    requires Sliced(s, ps) && s'.sent == s.sent && s'.seen == s.seen + more
    ensures Sliced(s', ps)
  {
  }

  lemma LastFrom<T>(s: seq<T>, n: nat, k: nat)
    requires k <= Min(n, |s|)
    ensures |Last(s, n)| == Min(n, |s|) && Last(s, n)[k..] == s[|s| - Min(n, |s|) + k..]
  {
  }

  lemma SliceOfPrefix<T>(a: seq<T>, b: seq<T>, lo: nat, hi: nat)
    requires lo <= hi <= |a|
    ensures (a + b)[lo..hi] == a[lo..hi]
  {
  }

  lemma SlicedMore(s: State, s': State, ps: seq<Sender>, gap: seq<Line>)
    requires Sliced(s, ps) && Chain(ps + [Sender(|s.seen|, |gap|)]) && s'.seen == s.seen + gap
    requires var from := if ps == [] then 0 else ps[|ps| - 1].n;
             from <= Min(|s'.seen|, KEPT) && s'.sent == s.sent + [Last(s'.seen, KEPT)[from..]]
    ensures Sliced(s', ps + [Sender(|s.seen|, |gap|)])
  {
    hide Last, Chain;
    var ps', from := ps + [Sender(|s.seen|, |gap|)], if ps == [] then 0 else ps[|ps| - 1].n;
    LastFrom(s'.seen, KEPT, from);
    forall k | 0 <= k < |ps'|
      ensures Lo(ps', k) <= Hi(ps', k) <= |s'.seen| && s'.sent[k] == s'.seen[Lo(ps', k)..Hi(ps', k)]
    {
      if k < |ps| {
        assert Lo(ps', k) == Lo(ps, k) && Hi(ps', k) == Hi(ps, k);
        SliceOfPrefix(s.seen, gap, Lo(ps, k), Hi(ps, k));
      }
    }
  }

  /** Where the next batch starts in the deque. */
  function Resume(ps: seq<Sender>): nat
  {
    if ps == [] then 0 else Min(ps[|ps| - 1].n, KEPT)
  }

  lemma PushSliced(s: State, ps: seq<Sender>, gap: seq<Line>)
    requires Inv(s) && Sliced(s, ps) && s.last == Resume(ps)
    requires |s.buf| > s.last ==> Chain(ps + [Sender(|s.seen|, |gap|)])
    ensures Sliced(Push(s, gap), if |s.buf| > s.last then ps + [Sender(|s.seen|, |gap|)] else ps)
  {
    PushIs(s, gap);
    var s' := Push(s, gap);
    if |s.buf| > s.last {
      hide Push, Sliced, Chain;
      SlicedMore(s, s', ps, gap);
    } else {
      hide Push, Sliced, Chain;
      SlicedLonger(s, s', ps, gap);
    }
  }

  ghost predicate Tallied(steps: seq<Step>, n: nat, s: State)
    requires n <= |steps|
  {
    && Inv(s) && Sliced(s, Senders(steps, n))
    && |s.seen| == Lines(steps, n) && s.last == Remembered(steps, n)
  }

  lemma PushTallied(steps: seq<Step>, n: nat, s: State)
    requires 0 < n <= |steps| && steps[n - 1].DoPush? && Tallied(steps, n - 1, s)
    ensures Tallied(steps, n, Push(s, steps[n - 1].gap))
  {
    hide Sliced, Chain, Push, Last;
    var gap, ps := steps[n - 1].gap, Senders(steps, n - 1);
    StepsCounted(steps, n - 1);
    StepsCounted(steps, n);
    BufferLength(s);
    PushIs(s, gap);
    PushSliced(s, ps, gap);
  }

  lemma BufferLength(s: State)
    requires Inv(s)
    ensures |s.buf| == Min(|s.seen|, KEPT)
  {
  }

  lemma AppendTallied(steps: seq<Step>, n: nat, s: State)
    requires 0 < n <= |steps| && steps[n - 1].DoAppend? && Tallied(steps, n - 1, s)
    ensures Tallied(steps, n, Append(s, steps[n - 1].line))
  {
    hide Sliced, Chain, Last;
    var line := steps[n - 1].line;
    AppendInv(s, line);
    SlicedLonger(s, Append(s, line), Senders(steps, n - 1), [line]);
  }

  lemma {:induction false} RunTallied(steps: seq<Step>, n: nat)
    requires n <= |steps|
    ensures Tallied(steps, n, Run(steps, n))
  {
    if n > 0 {
      RunTallied(steps, n - 1);
      hide Tallied;
      match steps[n - 1] {
        case DoAppend(_) => AppendTallied(steps, n, Run(steps, n - 1));
        case DoPush(_) => PushTallied(steps, n, Run(steps, n - 1));
      }
    }
  }

  lemma RunSliced(steps: seq<Step>, n: nat)
    requires n <= |steps|
    ensures Sliced(Run(steps, n), Senders(steps, n)) && |Run(steps, n).seen| == Lines(steps, n)
  {
    hide Sliced, Senders, Run;
    RunTallied(steps, n);
  }

  /**
   * Whatever the interleaving, each batch is the run of lines that the step counts give, and later batches start and
   * end later.
   */
  lemma BatchesAreSlices(steps: seq<Step>, k: nat)
    requires k < |Senders(steps, |steps|)|
    ensures var s, ps := Run(steps, |steps|), Senders(steps, |steps|);
            && |s.sent| == |ps| && Lo(ps, k) < Hi(ps, k) <= |s.seen| && s.sent[k] == s.seen[Lo(ps, k)..Hi(ps, k)]
            && (k > 0 ==> Lo(ps, k - 1) < Lo(ps, k) && Hi(ps, k - 1) <= Hi(ps, k))
  {
    RunSliced(steps, |steps|);
    SpanOf(Senders(steps, |steps|), k);
  }

  // ----- repeats

  /** The line at position `p` is in batch `k`. */
  predicate InBatch(ps: seq<Sender>, k: nat, p: nat)
    requires k < |ps|
  {
    Lo(ps, k) <= p < Hi(ps, k)
  }

  ghost predicate SentTwice(ps: seq<Sender>, p: nat)
  {
    exists a, b :: 0 <= a < b < |ps| && InBatch(ps, a, p) && InBatch(ps, b, p)
  }

  /** No sending push was overtaken, or the next one found that the deque had discarded as much as overtook it. */
  predicate Harmless(ps: seq<Sender>)
  {
    forall k :: 0 < k < |ps| ==> ps[k - 1].gap == 0 || ps[k].n + ps[k].gap >= KEPT + ps[k - 1].gap
  }

  lemma HarmlessMeansAfter(ps: seq<Sender>)
    requires Chain(ps)
    ensures Harmless(ps) <==> forall k :: 0 < k < |ps| ==> Hi(ps, k - 1) <= Lo(ps, k)
  {
    if forall k :: 0 < k < |ps| ==> Hi(ps, k - 1) <= Lo(ps, k) {
      forall k | 0 < k < |ps|
        ensures ps[k - 1].gap == 0 || ps[k].n + ps[k].gap >= KEPT + ps[k - 1].gap
      {
        assert Hi(ps, k - 1) <= Lo(ps, k);
      }
    }
  }

  /** Only consecutive sending pushes can share a line. */
  lemma FarApart(ps: seq<Sender>, a: nat, b: nat)
    requires Chain(ps) && a + 1 < b < |ps|
    ensures Hi(ps, a) <= Lo(ps, b)
  {
    FarCount(ps, a, b - 1);
  }

  lemma {:induction false} FarCount(ps: seq<Sender>, a: nat, b: nat)
    requires Chain(ps) && a < b < |ps|
    ensures Hi(ps, a) <= ps[b].n
    decreases b
  {
    if a + 1 < b {
      FarCount(ps, a, b - 1);
      assert ps[b - 1].n < Min(ps[b].n, KEPT);
    }
  }

  /**
   * Over every interleaving of appends and pushes: some line is sent twice exactly if an overtaken push was not made
   * up for.
   */
  lemma NeverTwiceIff(steps: seq<Step>)
    ensures var ps := Senders(steps, |steps|); (forall p :: !SentTwice(ps, p)) <==> Harmless(ps)
  {
    StepsCounted(steps, |steps|);
    var ps := Senders(steps, |steps|);
    HarmlessMeansAfter(ps);
    if Harmless(ps) {
      forall p, a, b | 0 <= a < b < |ps|
        ensures !(InBatch(ps, a, p) && InBatch(ps, b, p))
      {
        if a + 1 < b {
          FarApart(ps, a, b);
        }
      }
    }
    if forall p :: !SentTwice(ps, p) {
      forall k | 0 < k < |ps|
        ensures Hi(ps, k - 1) <= Lo(ps, k)
      {
        SpanOf(ps, k);
        if Lo(ps, k) < Hi(ps, k - 1) {
          assert InBatch(ps, k - 1, Lo(ps, k)) && InBatch(ps, k, Lo(ps, k));
          assert SentTwice(ps, Lo(ps, k));
        }
      }
    }
  }

  // ----- the concatenation of the batches

  function Range(lo: nat, hi: nat): (r: seq<nat>)
    ensures |r| == if lo <= hi then hi - lo else 0
    ensures forall i :: 0 <= i < |r| ==> r[i] == lo + i
  {
    if lo <= hi then seq(hi - lo, i requires 0 <= i < hi - lo => lo + i) else []
  }

  /** The positions of the lines of the first `k` batches, in sending order. */
  function Positions(ps: seq<Sender>, k: nat): seq<nat>
    requires k <= |ps|
  {
    if k == 0 then [] else Positions(ps, k - 1) + Range(Lo(ps, k - 1), Hi(ps, k - 1))
  }

  /** `all` lists the elements of `whole` at the positions `at`. */
  ghost predicate Reads<T>(all: seq<T>, whole: seq<T>, at: seq<nat>)
  {
    |all| == |at| && forall i :: 0 <= i < |at| ==> at[i] < |whole| && all[i] == whole[at[i]]
  }

  lemma ReadsOn<T>(all: seq<T>, whole: seq<T>, at: seq<nat>, lo: nat, hi: nat)
    requires Reads(all, whole, at) && lo <= hi <= |whole|
    ensures Reads(all + whole[lo..hi], whole, at + Range(lo, hi))
  {
  }

  /** Flattened, the batches are the lines at those positions. */
  lemma {:induction false} FlattenIs(s: State, ps: seq<Sender>, k: nat)
    requires Sliced(s, ps) && k <= |ps|
    ensures Reads(Flatten(s.sent[..k]), s.seen, Positions(ps, k))
  {
    hide Chain, Lo, Hi;
    if k > 0 {
      FlattenIs(s, ps, k - 1);
      assert s.sent[..k] == s.sent[..k - 1] + [s.sent[k - 1]];
      FlattenSnoc(s.sent[..k - 1], s.sent[k - 1]);
      PositionsStep(ps, k - 1);
      ReadsOn(Flatten(s.sent[..k - 1]), s.seen, Positions(ps, k - 1), Lo(ps, k - 1), Hi(ps, k - 1));
      hide Flatten, Reads, Positions, Sliced;
    }
  }

  lemma PositionsStep(ps: seq<Sender>, k: nat)
    requires k < |ps|
    ensures Positions(ps, k + 1) == Positions(ps, k) + Range(Lo(ps, k), Hi(ps, k))
  {
  }

  lemma {:induction false} PositionsAt(ps: seq<Sender>, k: nat, m: nat, i: nat)
    requires k <= m <= |ps| && i < |Positions(ps, k)|
    ensures i < |Positions(ps, m)| && Positions(ps, m)[i] == Positions(ps, k)[i]
    decreases m
  {
    hide Lo, Hi, Positions;
    if k < m {
      PositionsAt(ps, k, m - 1, i);
      PositionsStep(ps, m - 1);
    }
  }

  lemma BatchEnds(ps: seq<Sender>, k: nat)
    requires Chain(ps) && k < |ps|
    ensures var at, n := Positions(ps, k + 1), |Positions(ps, k)|;
            n < |at| && at[n] == Lo(ps, k) && at[|at| - 1] == Hi(ps, k) - 1
  {
    SpanOf(ps, k);
    hide Lo, Hi, Chain, Positions;
    PositionsStep(ps, k);
  }

  /** The two positions where batch `k` follows the one before. */
  lemma Seam(ps: seq<Sender>, k: nat)
    requires Chain(ps) && 0 < k < |ps|
    ensures var at, n := Positions(ps, |ps|), |Positions(ps, k)|;
            0 < n < |at| && at[n - 1] == Hi(ps, k - 1) - 1 && at[n] == Lo(ps, k)
  {
    hide Lo, Hi, Chain, Positions;
    BatchEnds(ps, k - 1);
    BatchEnds(ps, k);
    PositionsAt(ps, k, |ps|, |Positions(ps, k)| - 1);
    PositionsAt(ps, k + 1, |ps|, |Positions(ps, k)|);
  }

  lemma NoPositions(ps: seq<Sender>)
    ensures Positions(ps, 0) == []
  {
  }

  lemma FirstAndLast(ps: seq<Sender>)
    requires Chain(ps) && ps != []
    ensures var at := Positions(ps, |ps|); at != [] && at[0] == Lo(ps, 0) && at[|at| - 1] == Hi(ps, |ps| - 1) - 1
  {
    hide Lo, Hi, Chain, Positions;
    NoPositions(ps);
    BatchEnds(ps, 0);
    BatchEnds(ps, |ps| - 1);
    PositionsAt(ps, 1, |ps|, 0);
  }

  /** No line repeated and none out of order. */
  ghost predicate Ascending(at: seq<nat>)
  {
    forall i, j :: 0 <= i < j < |at| ==> at[i] < at[j]
  }

  lemma AscendingMore(at: seq<nat>, lo: nat, hi: nat)
    requires Ascending(at) && lo <= hi && forall i :: 0 <= i < |at| ==> at[i] < lo
    ensures Ascending(at + Range(lo, hi))
    ensures forall i :: 0 <= i < |at + Range(lo, hi)| ==> (at + Range(lo, hi))[i] < hi
  {
  }

  lemma {:induction false} HarmlessAscends(ps: seq<Sender>, k: nat)
    requires Chain(ps) && Harmless(ps) && k <= |ps|
    ensures Ascending(Positions(ps, k))
    ensures k > 0 ==> forall i :: 0 <= i < |Positions(ps, k)| ==> Positions(ps, k)[i] < Hi(ps, k - 1)
  {
    hide Lo, Hi, Chain, Harmless;
    if k > 0 {
      HarmlessAscends(ps, k - 1);
      HarmlessMeansAfter(ps);
      SpanOf(ps, k - 1);
      PositionsStep(ps, k - 1);
      var at := Positions(ps, k - 1);
      assert k == 1 ==> at == [];
      hide Positions, Ascending;
      AscendingMore(at, Lo(ps, k - 1), Hi(ps, k - 1));
    }
  }

  /**
   * Over every interleaving the batches, put together, list lines at certain positions; these
   * ascend strictly, so that nothing is repeated or reordered, exactly if overtaken pushes were harmless.
   */
  lemma NeverRepeatsNorReorders(steps: seq<Step>)
    ensures var s, ps := Run(steps, |steps|), Senders(steps, |steps|);
            var all, at := Flatten(s.sent), Positions(ps, |ps|);
            Reads(all, s.seen, at) && (Ascending(at) <==> Harmless(ps))
  {
    var s, ps := Run(steps, |steps|), Senders(steps, |steps|);
    RunSliced(steps, |steps|);
    FlattenIs(s, ps, |ps|);
    assert s.sent[..|ps|] == s.sent;
    HarmlessMeansAfter(ps);
    var at := Positions(ps, |ps|);
    if Harmless(ps) {
      HarmlessAscends(ps, |ps|);
    }
    if Ascending(at) {
      hide Lo, Hi, Run, Flatten, Positions, Senders, Reads;
      forall k | 0 < k < |ps|
        ensures Hi(ps, k - 1) <= Lo(ps, k)
      {
        Seam(ps, k);
      }
    }
  }

  /** Each batch begins where the one before ended: what was discarded is what the push before had read too far. */
  predicate Seamless(ps: seq<Sender>)
  {
    forall k :: 0 <= k < |ps| ==> Dropped(ps[k]) == if k == 0 then 0 else ps[k - 1].gap
  }

  /** And the last sending push read all that the last push looked at. */
  predicate Reaches(ps: seq<Sender>, upTo: nat)
  {
    ps != [] ==> upTo == Hi(ps, |ps| - 1)
  }

  lemma RangeJoin(a: nat, b: nat, c: nat)
    requires a <= b <= c
    ensures Range(a, b) + Range(b, c) == Range(a, c)
  {
  }

  lemma SeamlessMeans(ps: seq<Sender>)
    ensures Seamless(ps) <==> forall k :: 0 <= k < |ps| ==> Lo(ps, k) == if k == 0 then 0 else Hi(ps, k - 1)
  {
    if forall k :: 0 <= k < |ps| ==> Lo(ps, k) == if k == 0 then 0 else Hi(ps, k - 1) {
      forall k | 0 <= k < |ps|
        ensures Dropped(ps[k]) == if k == 0 then 0 else ps[k - 1].gap
      {
        assert Lo(ps, k) == if k == 0 then 0 else Hi(ps, k - 1);
      }
    }
  }

  lemma {:induction false} SeamlessCovers(ps: seq<Sender>, k: nat)
    requires Chain(ps) && Seamless(ps) && k <= |ps|
    ensures Positions(ps, k) == Range(0, if k == 0 then 0 else Hi(ps, k - 1))
  {
    hide Lo, Hi, Chain, Seamless;
    if k > 0 {
      SeamlessCovers(ps, k - 1);
      SpanOf(ps, k - 1);
      SeamlessMeans(ps);
      PositionsStep(ps, k - 1);
      var from := if k == 1 then 0 else Hi(ps, k - 2);
      assert Lo(ps, k - 1) == from;
      hide Positions;
      RangeJoin(0, from, Hi(ps, k - 1));
    }
  }

  lemma CoversSeamlessly(ps: seq<Sender>, upTo: nat)
    requires Chain(ps) && Positions(ps, |ps|) == Range(0, upTo)
    ensures Seamless(ps) && Reaches(ps, upTo)
  {
    hide Positions, Seamless;
    SeamlessMeans(ps);
    if ps != [] {
      FirstAndLast(ps);
      forall k | 0 < k < |ps|
        ensures Lo(ps, k) == Hi(ps, k - 1)
      {
        SpanOf(ps, k - 1);
        Seam(ps, k);
      }
    }
  }

  predicate Atomic(steps: seq<Step>)
  {
    forall i :: 0 <= i < |steps| && steps[i].DoPush? ==> steps[i].gap == []
  }

  lemma {:induction false} AtomicSenders(steps: seq<Step>, n: nat)
    requires Atomic(steps) && n <= |steps|
    ensures forall k :: 0 <= k < |Senders(steps, n)| ==> Senders(steps, n)[k].gap == 0
  {
    if n > 0 {
      AtomicSenders(steps, n - 1);
    }
  }

  lemma AtomicSpan(ps: seq<Sender>, k: nat)
    requires Chain(ps) && k < |ps| && forall j :: 0 <= j < |ps| ==> ps[j].gap == 0
    ensures Lo(ps, k) <= Hi(ps, k)
    ensures Hi(ps, k) - Lo(ps, k) == Min(ps[k].n, KEPT) - if k == 0 then 0 else Min(ps[k - 1].n, KEPT)
  {
    SpanOf(ps, k);
  }

  lemma {:induction false} AtomicSize(ps: seq<Sender>, k: nat)
    requires Chain(ps) && k <= |ps| && forall j :: 0 <= j < |ps| ==> ps[j].gap == 0
    ensures |Positions(ps, k)| == if k == 0 then 0 else Min(ps[k - 1].n, KEPT)
  {
    hide Lo, Hi, Chain, Min;
    if k > 0 {
      AtomicSize(ps, k - 1);
      AtomicSpan(ps, k - 1);
      PositionsStep(ps, k - 1);
    }
  }

  /**
   * The batches, put together, are exactly the lines up to the last one a push looked at if and only if
   * every batch starts where the one before ended and the last push sent. Without overtaking appends that
   * means at most 500 lines, and never more than 500 are sent.
   */
  lemma CompleteIff(steps: seq<Step>)
    ensures var s, ps, upTo := Run(steps, |steps|), Senders(steps, |steps|), ReadUpTo(steps, |steps|);
            && upTo <= |s.seen|
            && (Positions(ps, |ps|) == Range(0, upTo) <==> Seamless(ps) && Reaches(ps, upTo))
            && (Positions(ps, |ps|) == Range(0, upTo) ==> Flatten(s.sent) == s.seen[..upTo])
            && (Atomic(steps) ==> && |Flatten(s.sent)| == Min(upTo, 500)
                                  && (Flatten(s.sent) == s.seen[..upTo] <==> upTo <= 500))
  {
    hide Run, Flatten, Senders, ReadUpTo, Positions, Range, Seamless, Reaches;
    ReadIsSeen(steps);
    ExactIff(steps);
    CoveredIsPrefix(steps);
    if Atomic(steps) {
      AtomicIff(steps);
      AtomicLength(steps);
    }
  }

  lemma ReadIsSeen(steps: seq<Step>)
    ensures ReadUpTo(steps, |steps|) <= |Run(steps, |steps|).seen|
  {
    RunSliced(steps, |steps|);
    StepsCounted(steps, |steps|);
  }

  lemma ExactIff(steps: seq<Step>)
    ensures var ps, upTo := Senders(steps, |steps|), ReadUpTo(steps, |steps|);
            Positions(ps, |ps|) == Range(0, upTo) <==> Seamless(ps) && Reaches(ps, upTo)
  {
    var ps, upTo := Senders(steps, |steps|), ReadUpTo(steps, |steps|);
    StepsCounted(steps, |steps|);
    hide Senders, ReadUpTo, Chain, Positions, Range, Seamless;
    if Seamless(ps) && Reaches(ps, upTo) {
      SeamlessCovers(ps, |ps|);
    }
    if Positions(ps, |ps|) == Range(0, upTo) {
      CoversSeamlessly(ps, upTo);
    }
  }

  lemma CoveredIsPrefix(steps: seq<Step>)
    ensures var s, ps, upTo := Run(steps, |steps|), Senders(steps, |steps|), ReadUpTo(steps, |steps|);
            && upTo <= |s.seen| && |Flatten(s.sent)| == |Positions(ps, |ps|)|
            && (Positions(ps, |ps|) == Range(0, upTo) ==> Flatten(s.sent) == s.seen[..upTo])
  {
    hide Run, Flatten, Senders, ReadUpTo, Positions, Ascending, Harmless;
    ReadIsSeen(steps);
    NeverRepeatsNorReorders(steps);
  }

  lemma AtomicLength(steps: seq<Step>)
    requires Atomic(steps)
    ensures var s, upTo := Run(steps, |steps|), ReadUpTo(steps, |steps|);
            && |Flatten(s.sent)| == Min(upTo, KEPT) && upTo <= |s.seen|
            && (Flatten(s.sent) == s.seen[..upTo] <==> upTo <= KEPT)
  {
    hide Run, Flatten, Senders, ReadUpTo, Positions, Seamless, Reaches;
    AtomicIff(steps);
    CoveredIsPrefix(steps);
    ExactIff(steps);
  }

  lemma AtomicIff(steps: seq<Step>)
    requires Atomic(steps)
    ensures var ps, upTo := Senders(steps, |steps|), ReadUpTo(steps, |steps|);
            && |Positions(ps, |ps|)| == Min(upTo, KEPT)
            && (upTo <= KEPT ==> Seamless(ps) && Reaches(ps, upTo))
  {
    var ps, upTo := Senders(steps, |steps|), ReadUpTo(steps, |steps|);
    StepsCounted(steps, |steps|);
    AtomicSenders(steps, |steps|);
    hide Senders, ReadUpTo, Positions, Remembered, Lines;
    AtomicSize(ps, |ps|);
    if upTo <= KEPT {
      AtomicSeamless(ps, upTo);
    }
  }

  lemma AtomicSeamless(ps: seq<Sender>, upTo: nat)
    requires Chain(ps) && (forall j :: 0 <= j < |ps| ==> ps[j].gap == 0)
    requires ps != [] ==> Hi(ps, |ps| - 1) <= upTo <= KEPT
    ensures Seamless(ps)
  {
    forall k | 0 <= k < |ps|
      ensures Dropped(ps[k]) == 0
    {
      if k < |ps| - 1 {
        FarCount(ps, k, |ps| - 1);
      }
    }
  }

  // ----- instances

  /** A line that arrives between the two reads of one push is sent again by the next. */
  lemma OvertakenLineIsSentTwice(a: Line, b: Line)
    ensures Run([DoAppend(a), DoPush([b]), DoPush([])], 3).sent == [[a, b], [b]]
  {
    var steps := [DoAppend(a), DoPush([b]), DoPush([])];
    var s1, s2 := Run(steps, 1), Run(steps, 2);
    assert Run(steps, 0) == START;
    assert s1 == Append(START, a) && s2 == Push(s1, [b]) && Run(steps, 3) == Push(s2, []);
    hide Run, Push, Append;
    FirstPush(a, b);
    SecondPush(a, b, s2);
  }

  lemma FirstPush(a: Line, b: Line)
    ensures var s := Push(Append(START, a), [b]);
            s.buf == [a, b] && s.last == 1 && s.sent == [[a, b]]
  {
    var s1 := Append(START, a);
    assert s1.buf == [a];
    AppendAllIs(s1, [b]);
    assert Last([a] + [b], KEPT) == [a, b];
    assert [a, b][0..] == [a, b];
  }

  lemma SecondPush(a: Line, b: Line, s: State)
    requires s.buf == [a, b] && s.last == 1 && s.sent == [[a, b]]
    ensures Push(s, []).sent == [[a, b], [b]]
  {
    AppendAllIs(s, []);
    assert s.buf + [] == s.buf && s.buf[1..] == [b];
  }

  /** Appends change no count but the number of lines. */
  lemma {:induction false} OnlyAppends(steps: seq<Step>, m: nat, n: nat)
    requires m <= n <= |steps| && forall i :: m <= i < n ==> steps[i].DoAppend?
    ensures Lines(steps, n) == Lines(steps, m) + n - m && Remembered(steps, n) == Remembered(steps, m)
    ensures Senders(steps, n) == Senders(steps, m)
    decreases n
  {
    if m < n {
      OnlyAppends(steps, m, n - 1);
    }
  }

  /** 499 lines, a push that ten lines overtake, ten more lines, another push. */
  function FilledUp(line: Line): seq<Step>
  {
    var gap := seq(10, _ => line);
    seq(499, _ => DoAppend(line)) + [DoPush(gap)] + seq(10, _ => DoAppend(line)) + [DoPush([])]
  }

  lemma FilledUpSteps(line: Line)
    ensures var steps := FilledUp(line);
            && |steps| == 511 && (forall i :: 0 <= i < 499 || 500 <= i < 510 ==> steps[i].DoAppend?)
            && steps[499].DoPush? && |steps[499].gap| == 10 && steps[510] == DoPush([])
  {
  }

  lemma NothingCounted(steps: seq<Step>)
    ensures Lines(steps, 0) == 0 && Senders(steps, 0) == [] && Remembered(steps, 0) == 0
  {
  }

  lemma FilledUpSenders(line: Line)
    ensures var steps := FilledUp(line); |steps| == 511 && Senders(steps, 511) == [Sender(499, 10), Sender(519, 0)]
  {
    hide FilledUp, Lines, Remembered, Senders;
    var steps := FilledUp(line);
    FilledUpSteps(line);
    NothingCounted(steps);
    OnlyAppends(steps, 0, 499);
    PushCounts(steps, 499);
    OnlyAppends(steps, 500, 510);
    PushCounts(steps, 510);
  }

  /** In that run the deque has discarded the ten by the second push, and nothing is sent twice. */
  lemma DiscardedMakesUp(line: Line)
    ensures var steps := FilledUp(line);
            && Senders(steps, |steps|) == [Sender(499, 10), Sender(519, 0)]
            && forall p :: !SentTwice(Senders(steps, |steps|), p)
  {
    hide FilledUp, Senders, SentTwice;
    FilledUpSenders(line);
    NeverTwiceIff(FilledUp(line));
  }

  lemma PushCounts(steps: seq<Step>, i: nat)
    requires i < |steps| && steps[i].DoPush?
    ensures Lines(steps, i + 1) == Lines(steps, i) + |steps[i].gap|
    ensures Remembered(steps, i + 1) == Min(Lines(steps, i), KEPT)
    ensures Senders(steps, i + 1) ==
            if Min(Lines(steps, i), KEPT) > Remembered(steps, i)
            then Senders(steps, i) + [Sender(Lines(steps, i), |steps[i].gap|)] else Senders(steps, i)
  {
  }

  // ----- central

  type Buffers = map<Container, seq<Line>>

  function LinesOf(m: Buffers, c: Container): seq<Line>
  {
    if c in m then m[c] else []
  }

  /** `append_docker_push_logs`, one payload. */
  method MergeLogs(existing: Buffers, logs: Buffers) returns (merged: Buffers)
    ensures merged == Merged(existing, logs)
  {
    merged := existing;
    var todo := logs.Keys;
    while todo != {}
      invariant todo <= logs.Keys
      invariant merged.Keys == existing.Keys + (logs.Keys - todo)
      invariant forall c :: c in merged ==>
        merged[c] == if c in logs && c !in todo then Last(LinesOf(existing, c) + logs[c], KEPT) else existing[c]
      decreases todo
    {
      var c :| c in todo;
      var prev := LinesOf(merged, c) + logs[c];
      merged := merged[c := Last(prev, KEPT)];
      todo := todo - {c};
    }
  }

  function Merged(existing: Buffers, logs: Buffers): Buffers
  {
    map c | c in existing.Keys + logs.Keys ::
      if c in logs then Last(LinesOf(existing, c) + logs[c], KEPT) else existing[c]
  }

  function MergedAll(payloads: seq<Buffers>): Buffers
  {
    if payloads == [] then map[] else Merged(MergedAll(payloads[..|payloads| - 1]), payloads[|payloads| - 1])
  }

  /** Every line received for a container, in order. */
  function Received(payloads: seq<Buffers>, c: Container): seq<Line>
  {
    Flatten(seq(|payloads|, i requires 0 <= i < |payloads| => LinesOf(payloads[i], c)))
  }

  lemma ReceivedSnoc(payloads: seq<Buffers>, c: Container)
    requires payloads != []
    ensures Received(payloads, c) == Received(payloads[..|payloads| - 1], c) + LinesOf(payloads[|payloads| - 1], c)
  {
    var init := payloads[..|payloads| - 1];
    var batches := seq(|payloads|, i requires 0 <= i < |payloads| => LinesOf(payloads[i], c));
    assert batches[..|init|] == seq(|init|, i requires 0 <= i < |init| => LinesOf(init[i], c));
  }

  /** After any payloads, central holds the last 500 lines it received for each container. */
  lemma {:induction false} CentralKeepsLast(payloads: seq<Buffers>, c: Container)
    ensures LinesOf(MergedAll(payloads), c) == Last(Received(payloads, c), 500)
  {
    if payloads != [] {
      var init, logs := payloads[..|payloads| - 1], payloads[|payloads| - 1];
      CentralKeepsLast(init, c);
      ReceivedSnoc(payloads, c);
      LastOfLast(Received(init, c), LinesOf(logs, c), KEPT);
      assert Received(init, c) + [] == Received(init, c);
    }
  }

  /**
   * One payload per batch, all delivered: central has the last 500 lines sent, which is everything exactly while that
   * is at most 500.
   */
  lemma CentralHoldsAllSent(steps: seq<Step>, payloads: seq<Buffers>, c: Container)
    requires |payloads| == |Run(steps, |steps|).sent|
    requires forall i :: 0 <= i < |payloads| ==> LinesOf(payloads[i], c) == Run(steps, |steps|).sent[i]
    ensures var sent := Flatten(Run(steps, |steps|).sent);
            && LinesOf(MergedAll(payloads), c) == Last(sent, KEPT)
            && (LinesOf(MergedAll(payloads), c) == sent <==> |sent| <= KEPT)
            && (Atomic(steps) ==> LinesOf(MergedAll(payloads), c) == sent)
  {
    var sent := Run(steps, |steps|).sent;
    CompleteIff(steps);
    CentralKeepsLast(payloads, c);
    hide Run, Flatten, MergedAll, Senders, ReadUpTo;
    assert seq(|payloads|, i requires 0 <= i < |payloads| => LinesOf(payloads[i], c)) == sent;
  }
}
