/**
 The worker pool as a step system: a bounded queue, N workers, closing and cancelling. Every
 accepted submission gets the next ticket, so the same task submitted twice is two tickets.
 */
module WorkerPool {
  datatype Worker =
    | Idle
    | Running(ticket: nat)
    | Gone

  datatype Pool = Pool(
    size: nat,
    queue: seq<nat>,
    workers: seq<Worker>,
    accepted: nat,
    executed: multiset<nat>,
    failed: multiset<nat>,
    closed: bool,
    cancelled: bool)

  /** After Start: everyone waits. */
  ghost predicate Started(s: Pool, size: nat, workers: nat) {
    s == Pool(size, [], seq(workers, _ => Idle), 0, multiset{}, multiset{}, false, false)
  }

  /******* Steps *******/

  /** Submit and SubmitWait put the task into a queue with room. */
  predicate Enqueue(s: Pool, t: Pool) {
    !s.closed && |s.queue| < s.size && t == s.(queue := s.queue + [s.accepted], accepted := s.accepted + 1)
  }

  /** Or hand it to a waiting worker; with an unbuffered queue there is no other way. */
  predicate Handoff(s: Pool, t: Pool, w: nat) {
    !s.closed && s.queue == [] && w < |s.workers| && s.workers[w].Idle? &&
    t == s.(workers := s.workers[w := Running(s.accepted)], accepted := s.accepted + 1)
  }

  predicate Take(s: Pool, t: Pool, w: nat) {
    s.queue != [] && w < |s.workers| && s.workers[w].Idle? &&
    t == s.(queue := s.queue[1..], workers := s.workers[w := Running(s.queue[0])])
  }

  predicate Finish(s: Pool, t: Pool, w: nat) {
    w < |s.workers| && s.workers[w].Running? &&
    var d := s.(workers := s.workers[w := Idle]);
    var one := multiset{s.workers[w].ticket};
    t == d.(executed := s.executed + one) || t == d.(failed := s.failed + one)
  }

  /** A worker leaves when the pool is cancelled, even over a filled queue, or when a closed queue is empty. */
  predicate Exit(s: Pool, t: Pool, w: nat) {
    w < |s.workers| && s.workers[w].Idle? && (s.cancelled || (s.closed && s.queue == [])) &&
    t == s.(workers := s.workers[w := Gone])
  }

  predicate Close(s: Pool, t: Pool) {
    !s.closed && t == s.(closed := true)
  }

  predicate Cancel(s: Pool, t: Pool) {
    t == s.(cancelled := true)
  }

  predicate WorkerStep(s: Pool, t: Pool, w: nat) {
    Take(s, t, w) || Finish(s, t, w) || Exit(s, t, w)
  }

  /** A rejected submission, like one that panics on a closed queue, leaves the pool alone. */
  ghost predicate Next(s: Pool, t: Pool) {
    || t == s || Enqueue(s, t) || Close(s, t) || Cancel(s, t)
    || (exists w: nat :: Handoff(s, t, w)) || (exists w: nat :: WorkerStep(s, t, w))
  }

  ghost predicate IsRun(ss: seq<Pool>) {
    ss != [] && forall i :: 0 <= i < |ss| - 1 ==> Next(ss[i], ss[i + 1])
  }

  /******* What every state keeps *******/

  function InHand(w: Worker, k: nat): nat {
    if w.Running? && w.ticket == k then 1 else 0
  }

  /** How many workers have ticket k in hand. */
  function Holding(ws: seq<Worker>, k: nat): nat
    decreases |ws|
  {
    if ws == [] then 0 else Holding(ws[..|ws| - 1], k) + InHand(ws[|ws| - 1], k)
  }

  function Done(s: Pool, k: nat): nat {
    s.executed[k] + s.failed[k]
  }

  /** The queue is the latest tickets, in order. */
  predicate LatestTickets(s: Pool) {
    && |s.queue| <= s.size && |s.queue| <= s.accepted
    && (forall i :: 0 <= i < |s.queue| ==> s.queue[i] == s.accepted - |s.queue| + i)
  }

  /** Every ticket handed out, and no other, is in one hand or done once. */
  predicate HandedOut(s: Pool, k: nat) {
    Holding(s.workers, k) + Done(s, k) == if k < s.accepted - |s.queue| then 1 else 0
  }

  ghost predicate Conserved(s: Pool) {
    LatestTickets(s) && forall k: nat :: HandedOut(s, k)
  }

  /** A worker is gone only for a reason. */
  predicate LeftForReason(s: Pool) {
    Gone in s.workers ==> s.cancelled || (s.closed && s.queue == [])
  }

  ghost predicate Inv(s: Pool, size: nat, workers: nat) {
    s.size == size && |s.workers| == workers && Conserved(s) && LeftForReason(s)
  }

  lemma {:induction false} HoldingUpdate(ws: seq<Worker>, w: nat, x: Worker, k: nat)
    requires w < |ws|
    ensures Holding(ws[w := x], k) == Holding(ws, k) - InHand(ws[w], k) + InHand(x, k)
    decreases |ws|
  {
    var n := |ws| - 1;
    if w == n {
      assert ws[w := x][..n] == ws[..n];
    } else {
      HoldingUpdate(ws[..n], w, x, k);
      assert ws[w := x][..n] == ws[..n][w := x];
    }
  }

  lemma {:induction false} NothingInHand(ws: seq<Worker>, k: nat)
    requires forall i :: 0 <= i < |ws| ==> !ws[i].Running?
    ensures Holding(ws, k) == 0
    decreases |ws|
  {
    if ws != [] {
      NothingInHand(ws[..|ws| - 1], k);
    }
  }

  lemma StillForReason(s: Pool, t: Pool, w: nat, x: Worker)
    requires LeftForReason(s) && w < |s.workers| && t.workers == s.workers[w := x]
    requires s.cancelled ==> t.cancelled
    requires s.closed && s.queue == [] ==> t.closed && t.queue == []
    requires x.Gone? ==> t.cancelled || (t.closed && t.queue == [])
    ensures LeftForReason(t)
  {
    if Gone in t.workers && !x.Gone? {
      var i :| 0 <= i < |t.workers| && t.workers[i].Gone?;
      assert s.workers[i].Gone?;
    }
  }

  lemma WorkerHandsOut(s: Pool, t: Pool, w: nat, k: nat)
    requires LatestTickets(s) && HandedOut(s, k) && WorkerStep(s, t, w)
    ensures HandedOut(t, k)
  {
    HoldingUpdate(s.workers, w, t.workers[w], k);
  }

  lemma WorkerKeeps(s: Pool, t: Pool, w: nat)
    requires Conserved(s) && LeftForReason(s) && WorkerStep(s, t, w)
    ensures Conserved(t) && LeftForReason(t)
  {
    forall k: nat ensures HandedOut(t, k) { WorkerHandsOut(s, t, w, k); }
    hide HandedOut;
    StillForReason(s, t, w, t.workers[w]);
  }

  lemma HandoffKeeps(s: Pool, t: Pool, w: nat)
    requires Conserved(s) && LeftForReason(s) && Handoff(s, t, w)
    ensures Conserved(t) && LeftForReason(t)
  {
    forall k: nat ensures HandedOut(t, k) {
      assert HandedOut(s, k);
      HoldingUpdate(s.workers, w, t.workers[w], k);
    }
    hide HandedOut;
    StillForReason(s, t, w, t.workers[w]);
  }

  lemma OthersKeep(s: Pool, t: Pool)
    requires Conserved(s) && LeftForReason(s) && (t == s || Enqueue(s, t) || Close(s, t) || Cancel(s, t))
    ensures Conserved(t) && LeftForReason(t)
  {
    forall k: nat ensures HandedOut(t, k) { assert HandedOut(s, k); }
  }

  lemma NextKeeps(s: Pool, t: Pool, size: nat, workers: nat)
    requires Inv(s, size, workers) && Next(s, t)
    ensures Inv(t, size, workers)
  {
    hide Conserved, LeftForReason;
    if w: nat :| Handoff(s, t, w) {
      HandoffKeeps(s, t, w);
    } else if w: nat :| WorkerStep(s, t, w) {
      WorkerKeeps(s, t, w);
    } else {
      OthersKeep(s, t);
    }
  }

  lemma {:induction false} RunKeeps(ss: seq<Pool>, size: nat, workers: nat, i: nat)
    requires IsRun(ss) && Started(ss[0], size, workers) && i < |ss|
    ensures Inv(ss[i], size, workers)
    decreases i
  {
    if i == 0 {
      forall k: nat ensures HandedOut(ss[0], k) { NothingInHand(ss[0].workers, k); }
    } else {
      RunKeeps(ss, size, workers, i - 1);
      assert Next(ss[i - 1], ss[i - 1 + 1]);
      NextKeeps(ss[i - 1], ss[i], size, workers);
    }
  }

  /******* Main results *******/

  /** How often ticket k is somewhere: waiting, in a worker's hands, or done. */
  function Places(s: Pool, k: nat): nat {
    multiset(s.queue)[k] + Holding(s.workers, k) + Done(s, k)
  }

  lemma {:induction false} QueuedOnce(q: seq<nat>, first: nat, k: nat)
    requires forall i :: 0 <= i < |q| ==> q[i] == first + i
    ensures multiset(q)[k] == if first <= k < first + |q| then 1 else 0
    decreases |q|
  {
    if q != [] {
      var rest := q[..|q| - 1];
      QueuedOnce(rest, first, k);
      assert q == rest + [first + |rest|];
    }
  }

  /**
   In every state of every run each accepted ticket is in exactly one place, once, and nothing else
   is anywhere; the queue stays within its size, and tickets leave it in the order they came.
   */
  lemma Conservation(ss: seq<Pool>, size: nat, workers: nat, i: nat, k: nat)
    requires IsRun(ss) && Started(ss[0], size, workers) && i < |ss|
    ensures Places(ss[i], k) == if k < ss[i].accepted then 1 else 0
    ensures |ss[i].queue| <= size && |ss[i].workers| == workers
    ensures forall j :: 0 <= j < |ss[i].queue| ==> ss[i].queue[j] == ss[i].accepted - |ss[i].queue| + j
  {
    var s := ss[i];
    RunKeeps(ss, size, workers, i);
    QueuedOnce(s.queue, s.accepted - |s.queue|, k);
    assert HandedOut(s, k);
  }

  predicate AllGone(s: Pool) {
    forall i :: 0 <= i < |s.workers| ==> s.workers[i].Gone?
  }

  /** Ticket k was accepted, and its task has run to its end. */
  predicate DoneOnce(s: Pool, k: nat) {
    Done(s, k) == if k < s.accepted then 1 else 0
  }

  /**
   When the last worker has left, every ticket handed out is done, once, and the rest still waits;
   without cancelling nothing waits, unless there never was a worker.
   */
  lemma Drained(ss: seq<Pool>, size: nat, workers: nat, i: nat)
    requires IsRun(ss) && Started(ss[0], size, workers) && i < |ss| && AllGone(ss[i])
    ensures forall k: nat :: k < ss[i].accepted - |ss[i].queue| ==> Done(ss[i], k) == 1
    ensures forall k: nat :: k >= ss[i].accepted - |ss[i].queue| ==> Done(ss[i], k) == 0
    ensures !ss[i].cancelled ==> ((forall k: nat :: DoneOnce(ss[i], k)) <==> workers > 0 || ss[i].queue == [])
  {
    var s := ss[i];
    RunKeeps(ss, size, workers, i);
    forall k: nat ensures Done(s, k) == if k < s.accepted - |s.queue| then 1 else 0 {
      NothingInHand(s.workers, k);
      assert HandedOut(s, k);
    }
    if workers > 0 {
      assert s.workers[0] in s.workers;
    }
    if s.queue != [] {
      assert !DoneOnce(s, s.accepted - 1);
    }
  }

  function Weight(w: Worker): nat {
    match w
    case Idle => 1
    case Running(_) => 2
    case Gone => 0
  }

  function Weights(ws: seq<Worker>): nat
    decreases |ws|
  {
    if ws == [] then 0 else Weights(ws[..|ws| - 1]) + Weight(ws[|ws| - 1])
  }

  function Measure(s: Pool): nat {
    3 * |s.queue| + Weights(s.workers)
  }

  lemma {:induction false} WeightsUpdate(ws: seq<Worker>, w: nat, x: Worker)
    requires w < |ws|
    ensures Weights(ws[w := x]) == Weights(ws) - Weight(ws[w]) + Weight(x)
    decreases |ws|
  {
    var n := |ws| - 1;
    if w == n {
      assert ws[w := x][..n] == ws[..n];
    } else {
      WeightsUpdate(ws[..n], w, x);
      assert ws[w := x][..n] == ws[..n][w := x];
    }
  }

  lemma WorkerStepLightens(s: Pool, t: Pool, w: nat)
    requires WorkerStep(s, t, w)
    ensures Measure(t) < Measure(s)
  {
    WeightsUpdate(s.workers, w, t.workers[w]);
  }

  /** Once closed, the pool only gets lighter: by every worker step, and by nothing else. */
  lemma ClosedOnlyLightens(s: Pool, t: Pool)
    requires s.closed && Next(s, t)
    ensures t.closed && Measure(t) <= Measure(s)
    ensures Measure(t) < Measure(s) <==> exists w: nat :: WorkerStep(s, t, w)
  {
    if w: nat :| WorkerStep(s, t, w) {
      WorkerStepLightens(s, t, w);
    }
  }

  /** Some worker can move as long as one is left, if only its task comes to an end. */
  lemma ClosedCanMove(s: Pool) returns (t: Pool, w: nat)
    requires s.closed && !AllGone(s)
    ensures WorkerStep(s, t, w)
  {
    w :| w < |s.workers| && !s.workers[w].Gone?;
    if s.workers[w].Running? {
      t := s.(workers := s.workers[w := Idle], executed := s.executed + multiset{s.workers[w].ticket});
      assert Finish(s, t, w);
    } else if s.queue != [] {
      t := s.(queue := s.queue[1..], workers := s.workers[w := Running(s.queue[0])]);
      assert Take(s, t, w);
    } else {
      t := s.(workers := s.workers[w := Gone]);
      assert Exit(s, t, w);
    }
  }

  ghost predicate Moves(s: Pool, t: Pool) {
    exists w: nat :: WorkerStep(s, t, w)
  }

  /** The number of worker steps among the first n. */
  ghost function Moved(ss: seq<Pool>, n: nat): nat
    requires n < |ss|
    decreases n
  {
    if n == 0 then 0 else Moved(ss, n - 1) + (if Moves(ss[n - 1], ss[n]) then 1 else 0)
  }

  /**
   Stop and Shutdown come to an end: after closing, workers move at most Measure times in all, and
   where none can move any more, none is left.
   */
  lemma {:induction false} Termination(ss: seq<Pool>, n: nat)
    requires IsRun(ss) && ss[0].closed && n < |ss|
    ensures ss[n].closed && Moved(ss, n) + Measure(ss[n]) <= Measure(ss[0])
    ensures (forall t, w: nat :: !WorkerStep(ss[n], t, w)) ==> AllGone(ss[n])
    decreases n
  {
    if n > 0 {
      Termination(ss, n - 1);
      assert Next(ss[n - 1], ss[n - 1 + 1]);
      ClosedOnlyLightens(ss[n - 1], ss[n]);
    }
    if !AllGone(ss[n]) {
      var t, w := ClosedCanMove(ss[n]);
      assert WorkerStep(ss[n], t, w);
    }
  }

  /******* Who can move *******/

  /** A waiting worker leaves exactly when the pool is cancelled, even over a filled queue, or closed and empty. */
  lemma LeavesExactly(s: Pool, w: nat)
    requires w < |s.workers| && s.workers[w].Idle?
    ensures (exists t :: Exit(s, t, w)) <==> s.cancelled || (s.closed && s.queue == [])
    ensures (exists t :: Take(s, t, w)) <==> s.queue != []
  {
    if s.cancelled || (s.closed && s.queue == []) {
      assert Exit(s, s.(workers := s.workers[w := Gone]), w);
    }
    if s.queue != [] {
      assert Take(s, s.(queue := s.queue[1..], workers := s.workers[w := Running(s.queue[0])]), w);
    }
  }

  /** The pool accepts a task exactly when it is open, and has room or a worker that waits at an empty queue. */
  lemma AcceptsExactly(s: Pool)
    ensures (exists t :: Next(s, t) && t.accepted == s.accepted + 1) <==>
      !s.closed && (|s.queue| < s.size || (s.queue == [] && Idle in s.workers))
  {
    if !s.closed && |s.queue| < s.size {
      var t := s.(queue := s.queue + [s.accepted], accepted := s.accepted + 1);
      assert Next(s, t) by { assert Enqueue(s, t); }
    } else if !s.closed && s.queue == [] && Idle in s.workers {
      var w: nat :| w < |s.workers| && s.workers[w] == Idle;
      var t := s.(workers := s.workers[w := Running(s.accepted)], accepted := s.accepted + 1);
      assert Next(s, t) by { assert Handoff(s, t, w); }
    }
  }

  /** From a cancelled pool of which only the first k workers wait, they all leave, and the queue stays as it is. */
  lemma {:induction false} AllLeave(s: Pool, k: nat) returns (ss: seq<Pool>)
    requires s.cancelled && k <= |s.workers|
    requires forall i :: 0 <= i < |s.workers| ==> s.workers[i] == if i < k then Idle else Gone
    ensures IsRun(ss) && ss[0] == s && AllGone(ss[|ss| - 1])
    ensures ss[|ss| - 1] == s.(workers := ss[|ss| - 1].workers)
    decreases k
  {
    if k == 0 {
      return [s];
    }
    var t := s.(workers := s.workers[k - 1 := Gone]);
    assert Next(s, t) by { assert WorkerStep(s, t, k - 1); }
    var rest := AllLeave(t, k - 1);
    ss := [s] + rest;
    forall i | 0 <= i < |ss| - 1 ensures Next(ss[i], ss[i + 1]) {
      if i > 0 {
        assert Next(rest[i - 1], rest[i - 1 + 1]);
      }
    }
  }

  /** Shutdown can leave accepted tasks behind: a run that ends with all workers gone and a task still queued. */
  lemma CancelLeavesTasks(size: nat, workers: nat) returns (ss: seq<Pool>)
    requires size > 0
    ensures IsRun(ss) && Started(ss[0], size, workers)
    ensures var s := ss[|ss| - 1]; AllGone(s) && s.cancelled && s.queue == [0] && Done(s, 0) == 0
  {
    var s0 := Pool(size, [], seq(workers, _ => Idle), 0, multiset{}, multiset{}, false, false);
    var s1 := s0.(queue := [0], accepted := 1);
    var s2 := s1.(cancelled := true);
    assert Enqueue(s0, s1) && Cancel(s1, s2);
    var rest := AllLeave(s2, workers);
    ss := [s0, s1] + rest;
    forall i | 0 <= i < |ss| - 1 ensures Next(ss[i], ss[i + 1]) {
      if i > 1 {
        assert Next(rest[i - 2], rest[i - 2 + 1]);
      }
    }
  }
}
