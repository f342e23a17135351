/** The allocation counters: atomic steps of any number of threads, and the sequential calls. */
module Allocator {

  /** Where a thread is inside an allocator call. Each stage but `Idle` is one atomic update still to make. */
  datatype Stage =
    | Idle
    | Counting(grown: nat)
    | Summing(grown: nat)
    | Adding(diff: int)
    | Peaking(cur: int)
    | Subtracting(size: nat)

  /** The four counters; `live` is what the system allocator has handed out, `top` the largest value the
      current counter has had since the last reset, `calls` and `grown` what was requested since then. */
  datatype State = State(
    count: nat, bytes: nat, current: int, peak: nat, threads: seq<Stage>, live: int, top: int, calls: nat, grown: nat)

  datatype Action =
    | Alloc(size: nat)
    | FailedAlloc
    | Dealloc(size: nat)
    | Realloc(from: nat, to: nat)
    | Continue

  function Max(a: int, b: int): int {
    if a < b then b else a
  }

  /** The next atomic step of thread `i`. A call starts at an idle thread with the system call itself. */
  function Step(s: State, i: nat, a: Action): (r: State)
    requires i < |s.threads|
    ensures |r.threads| == |s.threads|
  {
    match s.threads[i]
    case Idle => Start(s, i, a)
    case Counting(n) => if a.Continue? then s.(count := s.count + 1, threads := s.threads[i := Summing(n)]) else s
    case Summing(n) => if a.Continue? then s.(bytes := s.bytes + n, threads := s.threads[i := Adding(n)]) else s
    case Adding(d) =>
      if a.Continue? then
        s.(current := s.current + d, top := Max(s.top, s.current + d),
           threads := s.threads[i := Peaking(s.current + d)])
      else s
    case Peaking(c) => if a.Continue? then s.(peak := Max(s.peak, Max(c, 0)), threads := s.threads[i := Idle]) else s
    case Subtracting(n) => if a.Continue? then s.(current := s.current - n, threads := s.threads[i := Idle]) else s
  }

  function Start(s: State, i: nat, a: Action): State
    requires i < |s.threads|
  {
    match a
    case Alloc(n) =>
      s.(live := s.live + n, calls := s.calls + 1, grown := s.grown + n, threads := s.threads[i := Counting(n)])
    case Dealloc(n) => s.(live := s.live - n, threads := s.threads[i := Subtracting(n)])
    case Realloc(from, to) =>
      if to > from then
        s.(live := s.live + (to - from), calls := s.calls + 1, grown := s.grown + (to - from),
           threads := s.threads[i := Counting(to - from)])
      else s.(live := s.live + (to - from), threads := s.threads[i := Adding(to - from)])
    case _ => s
  }

  function Run(s: State, trace: seq<(nat, Action)>): (r: State)
    ensures |r.threads| == |s.threads|
    decreases |trace|
  {
    if trace == [] then s
    else Run(if trace[0].0 < |s.threads| then Step(s, trace[0].0, trace[0].1) else s, trace[1..])
  }

  /** What a thread has done to memory but not yet to the current counter. */
  function Owed(t: Stage): int {
    match t
    case Counting(n) => n
    case Summing(n) => n
    case Adding(d) => d
    case Subtracting(n) => -(n as int)
    case _ => 0
  }

  function TotalOwed(threads: seq<Stage>): int {
    if threads == [] then 0 else Owed(threads[0]) + TotalOwed(threads[1..])
  }

  function Uncounted(threads: seq<Stage>): nat {
    if threads == [] then 0 else (if threads[0].Counting? then 1 else 0) + Uncounted(threads[1..])
  }

  function Unsummed(t: Stage): nat {
    if t.Counting? || t.Summing? then t.grown else 0
  }

  function TotalUnsummed(threads: seq<Stage>): nat {
    if threads == [] then 0 else Unsummed(threads[0]) + TotalUnsummed(threads[1..])
  }

  /** Some thread still has to report a peak that is at least `c`. */
  predicate Pending(threads: seq<Stage>, c: int) {
    exists i | 0 <= i < |threads| :: threads[i].Peaking? && threads[i].cur >= c
  }

  /** The current counter is the live bytes less what threads still owe it. */
  predicate Balanced(s: State) {
    s.current == s.live - TotalOwed(s.threads)
  }

  /** The accounts, given what calls that began before the last reset still had to do then: report a peak up to
      `stale`, count `calls` calls and sum `bytes` bytes. */
  ghost predicate Accounts(s: State, stale: nat, calls: nat, bytes: nat) {
    && Balanced(s)
    && s.count + Uncounted(s.threads) == s.calls + calls
    && s.bytes + TotalUnsummed(s.threads) == s.grown + bytes
    && s.current <= s.top
    && s.peak <= Max(s.top, stale)
    && (forall i | 0 <= i < |s.threads| :: s.threads[i].Peaking? ==> s.threads[i].cur <= Max(s.top, stale))
    && (s.peak >= s.top || Pending(s.threads, s.top))
    && (s.peak >= stale || Pending(s.threads, stale))
  }

  ghost predicate Inv(s: State) {
    Accounts(s, 0, 0, 0)
  }

  lemma {:induction false} Replaced(threads: seq<Stage>, i: nat, t: Stage)
    requires i < |threads|
    ensures TotalOwed(threads[i := t]) == TotalOwed(threads) - Owed(threads[i]) + Owed(t)
    ensures Uncounted(threads[i := t])
         == Uncounted(threads) - (if threads[i].Counting? then 1 else 0) + (if t.Counting? then 1 else 0)
    ensures TotalUnsummed(threads[i := t]) == TotalUnsummed(threads) - Unsummed(threads[i]) + Unsummed(t)
  {
    if i == 0 {
      assert threads[0 := t][1..] == threads[1..];
    } else {
      assert threads[i := t][1..] == threads[1..][i - 1 := t];
      Replaced(threads[1..], i - 1, t);
    }
  }

  lemma PendingElsewhere(threads: seq<Stage>, i: nat, t: Stage, c: int)
    requires i < |threads| && Pending(threads, c) && !(threads[i].Peaking? && threads[i].cur >= c)
    ensures Pending(threads[i := t], c)
  {
    var j :| 0 <= j < |threads| && threads[j].Peaking? && threads[j].cur >= c;
    assert threads[i := t][j] == threads[j];
  }

  /** Every step of every thread keeps the accounts. */
  lemma StepKeeps(s: State, i: nat, a: Action, stale: nat, calls: nat, bytes: nat)
    requires Accounts(s, stale, calls, bytes) && i < |s.threads|
    ensures Accounts(Step(s, i, a), stale, calls, bytes)
  {
    match s.threads[i] {
      case Idle => StartKeeps(s, i, a, stale, calls, bytes);
      case Peaking(_) => if a.Continue? { PeakingKeeps(s, i, stale, calls, bytes); }
      case Adding(_) => if a.Continue? { AddingKeeps(s, i, stale, calls, bytes); }
      case _ => if a.Continue? { UpdateKeeps(s, i, stale, calls, bytes); }
    }
  }

  lemma StartKeeps(s: State, i: nat, a: Action, stale: nat, calls: nat, bytes: nat)
    requires Accounts(s, stale, calls, bytes) && i < |s.threads| && s.threads[i] == Idle
    ensures Accounts(Start(s, i, a), stale, calls, bytes)
  {
    var next := Start(s, i, a);
    if next != s {
      var t := next.threads[i];
      Replaced(s.threads, i, t);
      KeepsReports(s.threads, i, t, next.threads, s.top);
      KeepsReports(s.threads, i, t, next.threads, stale);
    }
  }

  lemma UpdateKeeps(s: State, i: nat, stale: nat, calls: nat, bytes: nat)
    requires Accounts(s, stale, calls, bytes) && i < |s.threads|
    requires s.threads[i].Counting? || s.threads[i].Summing? || s.threads[i].Subtracting?
    ensures Accounts(Step(s, i, Continue), stale, calls, bytes)
  {
    var t := Step(s, i, Continue).threads[i];
    Replaced(s.threads, i, t);
    KeepsReports(s.threads, i, t, s.threads[i := t], s.top);
    KeepsReports(s.threads, i, t, s.threads[i := t], stale);
  }

  /** A thread with no report of its own leaves every pending report pending. */
  lemma KeepsReports(threads: seq<Stage>, i: nat, t: Stage, after: seq<Stage>, c: int)
    requires i < |threads| && !threads[i].Peaking? && after == threads[i := t]
    ensures Pending(threads, c) ==> Pending(after, c)
  {
    if Pending(threads, c) {
      PendingElsewhere(threads, i, t, c);
    }
  }

  lemma AddingKeeps(s: State, i: nat, stale: nat, calls: nat, bytes: nat)
    requires Accounts(s, stale, calls, bytes) && i < |s.threads| && s.threads[i].Adding?
    ensures Accounts(Step(s, i, Continue), stale, calls, bytes)
  {
    var c := s.current + s.threads[i].diff;
    var next := Step(s, i, Continue);
    Replaced(s.threads, i, Peaking(c));
    KeepsReports(s.threads, i, Peaking(c), next.threads, s.top);
    KeepsReports(s.threads, i, Peaking(c), next.threads, stale);
    assert next.threads[i] == Peaking(c);
  }

  lemma PeakingKeeps(s: State, i: nat, stale: nat, calls: nat, bytes: nat)
    requires Accounts(s, stale, calls, bytes) && i < |s.threads| && s.threads[i].Peaking?
    ensures Accounts(Step(s, i, Continue), stale, calls, bytes)
  {
    Replaced(s.threads, i, Idle);
    if Pending(s.threads, s.top) && s.threads[i].cur < s.top {
      PendingElsewhere(s.threads, i, Idle, s.top);
    }
    if Pending(s.threads, stale) && s.threads[i].cur < stale {
      PendingElsewhere(s.threads, i, Idle, stale);
    }
  }

  /** Over every interleaving of any number of threads the counters account for all memory. */
  lemma {:induction false} RunKeeps(s: State, trace: seq<(nat, Action)>, stale: nat, calls: nat, bytes: nat)
    requires Accounts(s, stale, calls, bytes)
    ensures Accounts(Run(s, trace), stale, calls, bytes)
    decreases |trace|
  {
    if trace != [] {
      var next := if trace[0].0 < |s.threads| then Step(s, trace[0].0, trace[0].1) else s;
      if trace[0].0 < |s.threads| {
        StepKeeps(s, trace[0].0, trace[0].1, stale, calls, bytes);
      }
      RunKeeps(next, trace[1..], stale, calls, bytes);
    }
  }

  // ----- quiescence and reset

  predicate Quiet(s: State) {
    forall i | 0 <= i < |s.threads| :: s.threads[i] == Idle
  }

  lemma {:induction false} QuietOwesNothing(threads: seq<Stage>)
    requires forall i | 0 <= i < |threads| :: threads[i] == Idle
    ensures TotalOwed(threads) == 0 && Uncounted(threads) == 0 && TotalUnsummed(threads) == 0
  {
    if threads != [] {
      forall i | 0 <= i < |threads[1..]|
        ensures threads[1..][i] == Idle
      {
        assert threads[1..][i] == threads[i + 1];
      }
      QuietOwesNothing(threads[1..]);
    }
  }

  /** Once every call has finished, the counters are off by what straddled the reset and nothing else. */
  lemma QuietAccounts(s: State, stale: nat, calls: nat, bytes: nat)
    requires Accounts(s, stale, calls, bytes) && Quiet(s)
    ensures s.current == s.live && s.peak == Max(s.top, stale)
    ensures s.count == s.calls + calls && s.bytes == s.grown + bytes
  {
    QuietOwesNothing(s.threads);
  }

  lemma QuietInv(s: State)
    requires Quiet(s) && s.current == s.live <= s.top && s.peak == Max(s.top, 0) && s.count == s.calls
    requires s.bytes == s.grown
    ensures Inv(s)
  {
    QuietOwesNothing(s.threads);
  }

  /** Once every call has finished, all counters are exact. */
  lemma ExactWhenQuiet(s: State, trace: seq<(nat, Action)>)
    requires Inv(s) && Quiet(Run(s, trace))
    ensures var r := Run(s, trace);
      r.current == r.live && r.peak == Max(r.top, 0) && r.count == r.calls && r.bytes == r.grown
  {
    RunKeeps(s, trace, 0, 0, 0);
    QuietAccounts(Run(s, trace), 0, 0, 0);
  }

  /** Restarting the counters; the current one goes on, so the peak starts at what is outstanding. */
  function Reset(s: State): State {
    s.(count := 0, bytes := 0, peak := Max(s.current, 0), top := s.current, calls := 0, grown := 0)
  }

  /** A reset while nothing is under way starts exact accounting anew. */
  lemma ResetWhenQuiet(s: State)
    requires Inv(s) && Quiet(s)
    ensures Inv(Reset(s)) && Reset(s).current == s.live
  {
    QuietOwesNothing(s.threads);
  }

  /** The largest value the current counter takes anywhere along a trace. */
  function Highest(s: State, trace: seq<(nat, Action)>): int
    decreases |trace|
  {
    if trace == [] then s.current
    else Max(s.current, Highest(if trace[0].0 < |s.threads| then Step(s, trace[0].0, trace[0].1) else s, trace[1..]))
  }

  lemma {:induction false} TopIsHighest(s: State, trace: seq<(nat, Action)>)
    requires s.current <= s.top
    ensures Run(s, trace).top == Max(s.top, Highest(s, trace))
    decreases |trace|
  {
    if trace != [] {
      TopIsHighest(if trace[0].0 < |s.threads| then Step(s, trace[0].0, trace[0].1) else s, trace[1..]);
    }
  }

  /** From a reset with nothing under way to any later point with nothing under way, the peak is exactly the
      largest value the current counter took in between. */
  lemma PeakSinceReset(s: State, trace: seq<(nat, Action)>)
    requires Inv(s) && Quiet(s) && Quiet(Run(Reset(s), trace))
    ensures Run(Reset(s), trace).peak == Max(Highest(Reset(s), trace), 0)
  {
    ResetWhenQuiet(s);
    ExactWhenQuiet(Reset(s), trace);
    TopIsHighest(Reset(s), trace);
    HighestStartsHere(Reset(s), trace);
  }

  lemma {:induction false} HighestStartsHere(s: State, trace: seq<(nat, Action)>)
    ensures Highest(s, trace) >= s.current
  {
  }

  // ----- a reset at any time

  /** The largest peak that some thread has computed and not yet reported. */
  function Stale(threads: seq<Stage>): nat {
    if threads == [] then 0
    else Max(Stale(threads[1..]), if threads[0].Peaking? then threads[0].cur else 0)
  }

  lemma {:induction false} StaleBounds(threads: seq<Stage>)
    ensures forall i | 0 <= i < |threads| :: threads[i].Peaking? ==> threads[i].cur <= Stale(threads)
    ensures Stale(threads) > 0 ==> Pending(threads, Stale(threads))
  {
    if threads != [] {
      StaleBounds(threads[1..]);
      assert forall i | 0 < i < |threads| :: threads[i] == threads[1..][i - 1];
      if Stale(threads) > 0 && Stale(threads) == Stale(threads[1..]) {
        var i :| 0 <= i < |threads[1..]| && threads[1..][i].Peaking? && threads[1..][i].cur >= Stale(threads);
        assert threads[i + 1] == threads[1..][i];
      }
    }
  }

  /** A reset at any time starts new accounts that owe exactly what was under way. */
  lemma ResetAccounts(s: State)
    requires Balanced(s)
    ensures Accounts(Reset(s), Stale(s.threads), Uncounted(s.threads), TotalUnsummed(s.threads))
  {
    StaleBounds(s.threads);
  }

  lemma StepBalances(s: State, i: nat, a: Action)
    requires Balanced(s) && i < |s.threads|
    ensures Balanced(Step(s, i, a))
  {
    var next := Step(s, i, a);
    if next != s {
      Replaced(s.threads, i, next.threads[i]);
    }
  }

  lemma {:induction false} RunBalances(s: State, trace: seq<(nat, Action)>)
    requires Balanced(s)
    ensures Balanced(Run(s, trace))
    decreases |trace|
  {
    if trace != [] {
      if trace[0].0 < |s.threads| {
        StepBalances(s, trace[0].0, trace[0].1);
      }
      RunBalances(if trace[0].0 < |s.threads| then Step(s, trace[0].0, trace[0].1) else s, trace[1..]);
    }
  }

  /** Any number of rounds, each a run of all threads and then a reset. */
  function Rounds(s: State, rounds: seq<seq<(nat, Action)>>): State
    decreases |rounds|
  {
    if rounds == [] then s else Rounds(Reset(Run(s, rounds[0])), rounds[1..])
  }

  /** However many resets came before, and whatever they interrupted, the current counter stays balanced. */
  lemma {:induction false} RoundsBalance(s: State, rounds: seq<seq<(nat, Action)>>)
    requires Balanced(s)
    ensures Balanced(Rounds(s, rounds))
    decreases |rounds|
  {
    if rounds != [] {
      RunBalances(s, rounds[0]);
      RoundsBalance(Reset(Run(s, rounds[0])), rounds[1..]);
    }
  }

  /** After a reset at any time and any run to a point with nothing under way: the peak is the largest value the
      current counter took since, or the largest peak that was still unreported at the reset if that is larger;
      the calls and bytes are those since, and those that were still uncounted and unsummed at the reset. */
  lemma AfterAnyReset(s: State, trace: seq<(nat, Action)>)
    requires Balanced(s) && Quiet(Run(Reset(s), trace))
    ensures var r := Run(Reset(s), trace);
      && r.current == r.live
      && r.peak == Max(Max(Highest(Reset(s), trace), 0), Stale(s.threads))
      && r.count == r.calls + Uncounted(s.threads)
      && r.bytes == r.grown + TotalUnsummed(s.threads)
  {
    var stale, calls, bytes := Stale(s.threads), Uncounted(s.threads), TotalUnsummed(s.threads);
    ResetAccounts(s);
    RunKeeps(Reset(s), trace, stale, calls, bytes);
    QuietAccounts(Run(Reset(s), trace), stale, calls, bytes);
    TopIsHighest(Reset(s), trace);
    HighestStartsHere(Reset(s), trace);
  }

  /** So it is for the last of any number of resets, whatever the earlier ones interrupted. */
  lemma AfterManyResets(s: State, rounds: seq<seq<(nat, Action)>>, before: seq<(nat, Action)>,
                        trace: seq<(nat, Action)>)
    requires Balanced(s) && Quiet(Run(Reset(Run(Rounds(s, rounds), before)), trace))
    ensures var last := Run(Rounds(s, rounds), before);
      var r := Run(Reset(last), trace);
      && r.current == r.live
      && r.peak == Max(Max(Highest(Reset(last), trace), 0), Stale(last.threads))
      && r.count == r.calls + Uncounted(last.threads)
      && r.bytes == r.grown + TotalUnsummed(last.threads)
  {
    RoundsBalance(s, rounds);
    RunBalances(Rounds(s, rounds), before);
    AfterAnyReset(Run(Rounds(s, rounds), before), trace);
  }

  /** So the three reported numbers are exactly those since the reset if and only if, at the reset, no unreported
      peak exceeded what was reached since, no call was uncounted, and nothing was unsummed. */
  lemma ResetExactIff(s: State, trace: seq<(nat, Action)>)
    requires Balanced(s) && Quiet(Run(Reset(s), trace))
    ensures var r := Run(Reset(s), trace);
      var highest := Max(Highest(Reset(s), trace), 0);
      && (r.peak == highest <==> Stale(s.threads) <= highest)
      && (r.count == r.calls <==> Uncounted(s.threads) == 0)
      && (r.bytes == r.grown <==> TotalUnsummed(s.threads) == 0)
  {
    AfterAnyReset(s, trace);
  }

  // ----- what is known at the reset

  /** The steps a thread still has to make. */
  function Left(t: Stage): nat {
    match t
    case Idle => 0
    case Counting(_) => 4
    case Summing(_) => 3
    case Adding(_) => 2
    case _ => 1
  }

  function TotalLeft(threads: seq<Stage>): nat {
    if threads == [] then 0 else Left(threads[0]) + TotalLeft(threads[1..])
  }

  lemma {:induction false} LeftReplaced(threads: seq<Stage>, i: nat, t: Stage)
    requires i < |threads|
    ensures TotalLeft(threads[i := t]) == TotalLeft(threads) - Left(threads[i]) + Left(t)
  {
    if i == 0 {
      assert threads[0 := t][1..] == threads[1..];
    } else {
      assert threads[i := t][1..] == threads[1..][i - 1 := t];
      LeftReplaced(threads[1..], i - 1, t);
    }
  }

  predicate Raises(t: Stage) {
    t.Adding? && t.diff > 0
  }

  /** When all that is owed is growth, no single thread owes more than all. */
  lemma {:induction false} OwesNoMore(threads: seq<Stage>, i: nat)
    requires i < |threads| && forall k | 0 <= k < |threads| :: threads[k].Idle? || Raises(threads[k])
    ensures Owed(threads[i]) <= TotalOwed(threads) && TotalOwed(threads) >= 0
  {
    var rest := threads[1..];
    assert forall k | 0 <= k < |rest| :: rest[k] == threads[k + 1];
    if rest == [] {
      assert TotalOwed(rest) == 0;
    } else {
      OwesNoMore(rest, if i == 0 then 0 else i - 1);
    }
  }

  lemma RunOne(s: State, i: nat, a: Action, trace: seq<(nat, Action)>)
    requires i < |s.threads|
    ensures Run(s, [(i, a)] + trace) == Run(Step(s, i, a), trace)
    ensures Highest(s, [(i, a)] + trace) == Max(s.current, Highest(Step(s, i, a), trace))
    ensures GivenBack(s, [(i, a)] + trace) == Max(s.live - Step(s, i, a).live, 0) + GivenBack(Step(s, i, a), trace)
  {
    assert ([(i, a)] + trace)[1..] == trace;
  }

  /** Threads that start nothing new can all finish without the current counter exceeding both what it is and what is
      live: whatever lowers it goes first. */
  lemma {:induction false} CanSettle(s: State) returns (trace: seq<(nat, Action)>)
    requires Balanced(s)
    ensures Quiet(Run(s, trace)) && Highest(s, trace) <= Max(s.current, s.live) && GivenBack(s, trace) == 0
    decreases TotalLeft(s.threads)
  {
    if Quiet(s) {
      trace := [];
    } else {
      var i: nat :| i < |s.threads| && s.threads[i] != Idle &&
        (Raises(s.threads[i]) ==> forall k | 0 <= k < |s.threads| :: s.threads[k].Idle? || Raises(s.threads[k]));
      if Raises(s.threads[i]) {
        OwesNoMore(s.threads, i);
      }
      var next := Step(s, i, Continue);
      LeftReplaced(s.threads, i, next.threads[i]);
      StepBalances(s, i, Continue);
      var rest := CanSettle(next);
      trace := [(i, Continue)] + rest;
      RunOne(s, i, Continue, rest);
    }
  }

  /** The bytes that the calls started along a trace give back. */
  function GivenBack(s: State, trace: seq<(nat, Action)>): nat
    decreases |trace|
  {
    if trace == [] then 0
    else
      var next := if trace[0].0 < |s.threads| then Step(s, trace[0].0, trace[0].1) else s;
      Max(s.live - next.live, 0) + GivenBack(next, trace[1..])
  }

  lemma {:induction false} LiveAtLeast(s: State, trace: seq<(nat, Action)>)
    ensures Run(s, trace).live >= s.live - GivenBack(s, trace)
    ensures Run(s, trace).current <= Highest(s, trace)
    decreases |trace|
  {
    if trace != [] {
      LiveAtLeast(if trace[0].0 < |s.threads| then Step(s, trace[0].0, trace[0].1) else s, trace[1..]);
    }
  }

  /** The peak reported after a run from the reset to a quiet point is the largest value since. */
  predicate PeakExact(s: State, trace: seq<(nat, Action)>) {
    Run(Reset(s), trace).peak == Max(Highest(Reset(s), trace), 0)
  }

  /** What is known at the reset decides: the peak is exact for every run to a quiet point whose calls give back at
      most `freed` bytes, if and only if no unreported peak exceeds both the current counter and the bytes that stay
      live. */
  lemma PeakAlwaysExactIff(s: State, freed: nat)
    requires Balanced(s)
    ensures (forall trace: seq<(nat, Action)>
               | Quiet(Run(Reset(s), trace)) && GivenBack(Reset(s), trace) <= freed :: PeakExact(s, trace))
       <==> Stale(s.threads) <= Max(Max(s.current, s.live - freed), 0)
  {
    if Stale(s.threads) <= Max(Max(s.current, s.live - freed), 0) {
      forall trace: seq<(nat, Action)> | Quiet(Run(Reset(s), trace)) && GivenBack(Reset(s), trace) <= freed
        ensures PeakExact(s, trace)
      {
        AfterAnyReset(s, trace);
        HighestStartsHere(Reset(s), trace);
        LiveAtLeast(Reset(s), trace);
      }
    } else {
      var trace := Overstated(s, freed);
      assert !PeakExact(s, trace);
    }
  }

  /** Otherwise the thread with that peak reports it, frees `freed` bytes, and then all finish. */
  lemma Overstated(s: State, freed: nat) returns (trace: seq<(nat, Action)>)
    requires Balanced(s) && Stale(s.threads) > Max(Max(s.current, s.live - freed), 0)
    ensures Quiet(Run(Reset(s), trace)) && GivenBack(Reset(s), trace) == freed && !PeakExact(s, trace)
  {
    StaleBounds(s.threads);
    var i: nat :| i < |s.threads| && s.threads[i].Peaking? && s.threads[i].cur >= Stale(s.threads);
    var r := Reset(s);
    var r1 := Step(r, i, Continue);
    var r2 := Step(r1, i, Dealloc(freed));
    var r3 := Step(r2, i, Continue);
    StepBalances(r, i, Continue);
    StepBalances(r1, i, Dealloc(freed));
    StepBalances(r2, i, Continue);
    var rest := CanSettle(r3);
    RunOne(r2, i, Continue, rest);
    RunOne(r1, i, Dealloc(freed), [(i, Continue)] + rest);
    trace := [(i, Continue)] + ([(i, Dealloc(freed))] + ([(i, Continue)] + rest));
    RunOne(r, i, Continue, [(i, Dealloc(freed))] + ([(i, Continue)] + rest));
    AfterAnyReset(s, trace);
  }

  /** Two idle threads and an older block of `m` bytes outstanding. */
  function Outstanding(m: nat): State {
    State(0, 0, m, m, [Idle, Idle], m, m, 0, 0)
  }

  /** Thread 0 allocates `n` bytes and is about to report the peak `m + n` when thread 1 frees the older block. */
  function AboutToReport(m: nat, n: nat): State {
    var s := Step(Step(Step(Step(Outstanding(m), 0, Alloc(n)), 0, Continue), 0, Continue), 0, Continue);
    Step(Step(s, 1, Dealloc(m)), 1, Continue)
  }

  /** A reset at that point does leave a peak that was never reached after it. */
  lemma StalePeak(m: nat, n: nat)
    requires m > 0
    ensures Inv(Outstanding(m)) && Quiet(Outstanding(m)) && Inv(AboutToReport(m, n))
    ensures var s, trace := AboutToReport(m, n), [(0, Continue)];
      && Quiet(Run(Reset(s), trace))
      && Run(Reset(s), trace).peak == m + n && Highest(Reset(s), trace) == n
  {
    QuietInv(Outstanding(m));
    RunKeeps(Outstanding(m), Reporting(m, n), 0, 0, 0);
    ReportingRuns(m, n);
    var s := AboutToReport(m, n);
    Reported(m, n, s);
    var trace: seq<(nat, Action)> := [(0, Continue)];
    assert trace[1..] == [];
    assert Run(Reset(s), trace) == Step(Reset(s), 0, Continue);
  }

  lemma Reported(m: nat, n: nat, s: State)
    requires s == AboutToReport(m, n)
    ensures s.threads == [Peaking(m + n), Idle] && s.current == n
  {
  }

  function Reporting(m: nat, n: nat): seq<(nat, Action)> {
    [(0, Alloc(n)), (0, Continue), (0, Continue), (0, Continue), (1, Dealloc(m)), (1, Continue)]
  }

  lemma ReportingRuns(m: nat, n: nat)
    ensures Run(Outstanding(m), Reporting(m, n)) == AboutToReport(m, n)
  {
    var t: seq<(nat, Action)> := Reporting(m, n);
    var s2 := Step(Step(Outstanding(m), 0, Alloc(n)), 0, Continue);
    var s4 := Step(Step(s2, 0, Continue), 0, Continue);
    assert Run(Outstanding(m), t) == Run(s2, t[2..]) by { assert t[1..][1..] == t[2..]; }
    assert Run(s2, t[2..]) == Run(s4, t[4..]) by {
      assert t[2..][1..] == t[3..] && t[3..][1..] == t[4..];
    }
    var s5 := Step(s4, 1, Dealloc(m));
    assert Run(s4, t[4..]) == Run(s5, t[5..]) by { assert t[4..][1..] == t[5..]; }
    assert Run(s5, t[5..]) == Step(s5, 1, Continue) by { assert |t[5..]| == 1; }
  }

  /** A reset just after a call began, and before it is counted, does count it among the later ones. */
  lemma StraddlingCall(n: nat)
    ensures var s := Step(Outstanding(0), 0, Alloc(n));
      var trace := [(0, Continue), (0, Continue), (0, Continue), (0, Continue)];
      && Quiet(Run(Reset(s), trace))
      && Run(Reset(s), trace).count == 1 && Run(Reset(s), trace).calls == 0
      && Run(Reset(s), trace).bytes == n && Run(Reset(s), trace).grown == 0
  {
    var s := Step(Outstanding(0), 0, Alloc(n));
    var t: seq<(nat, Action)> := [(0, Continue), (0, Continue), (0, Continue), (0, Continue)];
    var s2 := Step(Step(Reset(s), 0, Continue), 0, Continue);
    var s4 := Step(Step(s2, 0, Continue), 0, Continue);
    assert Run(Reset(s), t) == Run(s2, t[2..]) by { assert t[1..][1..] == t[2..]; }
    assert Run(s2, t[2..]) == s4 by { assert t[2..][1..] == t[3..]; assert |t[3..]| == 1; }
  }

  // ----- one thread

  /** A call of a lone thread, run to its end. */
  function Call(s: State, a: Action): State {
    Run(s, [(0, a), (0, Continue), (0, Continue), (0, Continue), (0, Continue)])
  }

  function Once(s: State, a: Action): State
    requires s.threads != []
  {
    Step(s, 0, a)
  }

  lemma CallIs(s: State, a: Action)
    requires s.threads != []
    ensures Call(s, a) == Once(Once(Once(Once(Once(s, a), Continue), Continue), Continue), Continue)
  {
    var t: seq<(nat, Action)> := [(0, a), (0, Continue), (0, Continue), (0, Continue), (0, Continue)];
    var s1 := Once(s, a);
    var s2 := Once(s1, Continue);
    var s3 := Once(s2, Continue);
    var s4 := Once(s3, Continue);
    assert Run(s, t) == Run(s1, t[1..]) == Run(s2, t[2..]) by { assert t[1..][1..] == t[2..]; }
    assert Run(s2, t[2..]) == Run(s3, t[3..]) == Run(s4, t[4..]) by {
      assert t[2..][1..] == t[3..] && t[3..][1..] == t[4..];
    }
    assert Run(s4, t[4..]) == Once(s4, Continue) by { assert |t[4..][1..]| == 0; }
  }

  /** Memory and the current counter move by `diff`, and the peak follows. */
  function Moved(s: State, diff: int): State {
    s.(live := s.live + diff, current := s.current + diff, top := Max(s.top, s.current + diff),
       peak := Max(s.peak, Max(s.current + diff, 0)))
  }

  /** One more call that asked for `n` bytes. */
  function Tallied(s: State, n: nat): State {
    s.(count := s.count + 1, bytes := s.bytes + n, calls := s.calls + 1, grown := s.grown + n)
  }

  lemma AllocIs(s: State, n: nat)
    requires s.threads == [Idle]
    ensures Call(s, Alloc(n)) == Moved(Tallied(s, n), n)
  {
    CallIs(s, Alloc(n));
    assert Once(Once(Once(Once(s, Alloc(n)), Continue), Continue), Continue).threads == [Peaking(s.current + n)];
  }

  lemma ShrinkIs(s: State, from: nat, to: nat)
    requires s.threads == [Idle] && to <= from
    ensures Call(s, Realloc(from, to)) == Moved(s, to - from)
  {
    CallIs(s, Realloc(from, to));
    assert Once(Once(s, Realloc(from, to)), Continue).threads == [Peaking(s.current + (to - from))];
  }

  lemma ReallocIs(s: State, from: nat, to: nat)
    requires s.threads == [Idle]
    ensures Call(s, Realloc(from, to))
         == if to > from then Moved(Tallied(s, to - from), to - from) else Moved(s, to - from)
  {
    if to > from {
      AllocIs(s, to - from);
      CallIs(s, Alloc(to - from));
      CallIs(s, Realloc(from, to));
    } else {
      ShrinkIs(s, from, to);
    }
  }

  lemma DeallocIs(s: State, n: nat)
    requires s.threads == [Idle]
    ensures Call(s, Dealloc(n)) == s.(live := s.live - n, current := s.current - n)
  {
    CallIs(s, Dealloc(n));
  }

  lemma CallKeeps(s: State, a: Action)
    requires Inv(s)
    ensures Inv(Call(s, a))
  {
    RunKeeps(s, [(0, a), (0, Continue), (0, Continue), (0, Continue), (0, Continue)], 0, 0, 0);
  }
}
