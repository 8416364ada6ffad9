/**
 * `solve_challenge`: `n` workers search disjoint slices of the attempt offsets;
 * the first to find an accepted attempt and win the swap of the shared flag
 * sends `(attempt, hex digest)` on the channel; every worker returns once it
 * sees the flag set or has found an accepted attempt; after all workers have
 * returned, the coordinator receives from the channel.
 *
 * Threads are modelled by interleaving: each worker's loop body is cut into two
 * atomic stretches (the flag load with the hashing, and the flag swap with the
 * send), and a schedule says which worker runs its next stretch. `State` and
 * `Step` give the meaning of one stretch; the class `Race` holds the shared
 * flag and channel and carries the stretch out step by step.
 */
module PowSolver {
  import opened Wrappers
  import opened PowCheck
  import opened SearchSpace

  /**
   * The two computations the model does not look into: SHA-256 of the UTF-8
   * bytes of a string, and the text of the attempt at a given offset from the
   * random base.
   */
  datatype Oracle = Oracle(sha256: string -> Digest, attemptText: nat -> string)

  /** What a winning worker sends: the attempt text and the hex digest of salt followed by it. */
  datatype Solution = Solution(attempt: string, hex: string)

  function AttemptDigest(o: Oracle, salt: string, m: nat): Digest {
    o.sha256(salt + o.attemptText(m))
  }

  function SolutionAt(o: Oracle, salt: string, m: nat): Solution {
    Solution(o.attemptText(m), HexEncode(AttemptDigest(o, salt, m)))
  }

  /** Where one worker's loop stands. */
  datatype Worker =
    | Searching(k: nat)                                  // at the top of iteration `k`
    | Claiming(k: nat, attempt: string, digest: Digest)  // attempt `k` was accepted; the flag swap comes next
    | Returned                                           // the worker's closure has returned

  /** The shared flag, the messages sent on the channel so far, and every worker. */
  datatype State = State(solved: bool, sent: seq<Solution>, workers: seq<Worker>)

  function Start(n: nat): State {
    State(false, [], seq(n, _ => Searching(0)))
  }

  /** Worker `i` runs its next atomic stretch (a schedule entry naming no worker changes nothing). */
  function Step(o: Oracle, salt: string, difficulty: nat, s: State, i: nat): (s': State)
    ensures |s'.workers| == |s.workers|
  {
    if i >= |s.workers| then s else
    match s.workers[i]
    case Returned => s
    case Searching(k) =>
      if s.solved then s.(workers := s.workers[i := Returned])
      else
        var attempt := o.attemptText(Offset(i, k, |s.workers|));
        var digest := o.sha256(salt + attempt);
        if Accepts(digest, difficulty) then s.(workers := s.workers[i := Claiming(k, attempt, digest)])
        else s.(workers := s.workers[i := Searching(k + 1)])
    case Claiming(k, attempt, digest) =>
      var sent := if s.solved then s.sent else s.sent + [Solution(attempt, HexEncode(digest))];
      State(true, sent, s.workers[i := Returned])
  }

  /** The state after the stretches of `schedule`, in order. */
  function Run(o: Oracle, salt: string, difficulty: nat, s: State, schedule: seq<nat>): (s': State)
    ensures |s'.workers| == |s.workers|
  {
    if schedule == [] then s
    else Step(o, salt, difficulty, Run(o, salt, difficulty, s, schedule[..|schedule| - 1]), schedule[|schedule| - 1])
  }

  predicate AllReturned(workers: seq<Worker>) {
    forall i :: 0 <= i < |workers| ==> workers[i].Returned?
  }

  /** What `solve_challenge` has done: returned (after every worker returned) with the received value, or not yet. */
  datatype Outcome = Joined(result: Option<Solution>) | StillRunning

  function OutcomeOf(s: State): Outcome {
    if !AllReturned(s.workers) then StillRunning
    else if s.sent == [] then Joined(None)
    else Joined(Some(s.sent[0]))
  }

  /** Worker `w`'s attempt `k` is the first one of its slice that is accepted. */
  ghost predicate FirstAccepted(o: Oracle, salt: string, difficulty: nat, n: nat, w: nat, k: nat) {
    && w < n
    && Accepts(AttemptDigest(o, salt, Offset(w, k, n)), difficulty)
    && forall j :: 0 <= j < k ==> !Accepts(AttemptDigest(o, salt, Offset(w, j, n)), difficulty)
  }

  /** `sol` is the first accepted attempt of some worker's slice, with its digest in hex. */
  ghost predicate Publishable(o: Oracle, salt: string, difficulty: nat, n: nat, sol: Solution) {
    exists w, k :: FirstAccepted(o, salt, difficulty, n, w, k) && sol == SolutionAt(o, salt, Offset(w, k, n))
  }

  ghost predicate WorkerInv(o: Oracle, salt: string, difficulty: nat, n: nat, i: nat, w: Worker, solved: bool) {
    match w
    case Searching(k) => forall j :: 0 <= j < k ==> !Accepts(AttemptDigest(o, salt, Offset(i, j, n)), difficulty)
    case Claiming(k, attempt, digest) =>
      && FirstAccepted(o, salt, difficulty, n, i, k)
      && attempt == o.attemptText(Offset(i, k, n)) && digest == AttemptDigest(o, salt, Offset(i, k, n))
    case Returned => solved
  }

  /**
   * At most one message is ever sent, and one is sent exactly when the flag is
   * set; what was sent is a first accepted attempt; every worker has rejected
   * all attempts before its current one, and returns only once the flag is set.
   */
  ghost predicate Inv(o: Oracle, salt: string, difficulty: nat, s: State) {
    && |s.sent| <= 1
    && (s.solved <==> |s.sent| == 1)
    && (forall sol :: sol in s.sent ==> Publishable(o, salt, difficulty, |s.workers|, sol))
    && forall i :: 0 <= i < |s.workers| ==> WorkerInv(o, salt, difficulty, |s.workers|, i, s.workers[i], s.solved)
  }

  lemma StartInv(o: Oracle, salt: string, difficulty: nat, n: nat)
    ensures Inv(o, salt, difficulty, Start(n))
  {
  }

  /** Every stretch of every worker keeps the invariant. */
  lemma StepInv(o: Oracle, salt: string, difficulty: nat, s: State, i: nat)
    requires Inv(o, salt, difficulty, s)
    ensures Inv(o, salt, difficulty, Step(o, salt, difficulty, s, i))
  {
    var n := |s.workers|;
    var s' := Step(o, salt, difficulty, s, i);
    if i >= n {
      return;
    }
    match s.workers[i]
    case Returned =>
    case Searching(k) =>
      if !s.solved {
        var digest := AttemptDigest(o, salt, Offset(i, k, n));
        if !Accepts(digest, difficulty) {
          assert WorkerInv(o, salt, difficulty, n, i, Searching(k + 1), false);
        }
      }
    case Claiming(k, attempt, digest) =>
      if !s.solved {
        assert s'.sent == [SolutionAt(o, salt, Offset(i, k, n))];
        assert Publishable(o, salt, difficulty, n, s'.sent[0]);
      }
      assert forall j :: 0 <= j < n && j != i ==> s'.workers[j] == s.workers[j];
  }

  /** Every schedule keeps the invariant. */
  lemma {:induction false} RunInv(o: Oracle, salt: string, difficulty: nat, s: State, schedule: seq<nat>)
    requires Inv(o, salt, difficulty, s)
    ensures Inv(o, salt, difficulty, Run(o, salt, difficulty, s, schedule))
  {
    if schedule != [] {
      var front := schedule[..|schedule| - 1];
      RunInv(o, salt, difficulty, s, front);
      StepInv(o, salt, difficulty, Run(o, salt, difficulty, s, front), schedule[|schedule| - 1]);
    }
  }

  /** Once the flag is set it stays set, and nothing more is ever sent. */
  lemma {:induction false} SolvedIsFinal(o: Oracle, salt: string, difficulty: nat, s: State, schedule: seq<nat>)
    requires s.solved
    ensures Run(o, salt, difficulty, s, schedule).solved
    ensures Run(o, salt, difficulty, s, schedule).sent == s.sent
  {
    if schedule != [] {
      SolvedIsFinal(o, salt, difficulty, s, schedule[..|schedule| - 1]);
    }
  }

  /** With a difficulty above 32 no attempt is accepted: the flag stays clear, nothing is sent and no worker returns. */
  lemma {:induction false} UnreachableDifficulty(o: Oracle, salt: string, difficulty: nat, n: nat, schedule: seq<nat>)
    requires difficulty > 32
    ensures var s := Run(o, salt, difficulty, Start(n), schedule);
      !s.solved && s.sent == [] && forall i :: 0 <= i < n ==> s.workers[i].Searching?
  {
    if schedule != [] {
      UnreachableDifficulty(o, salt, difficulty, n, schedule[..|schedule| - 1]);
    }
  }

  /** Without workers no schedule changes anything. */
  lemma {:induction false} NoWorkers(o: Oracle, salt: string, difficulty: nat, s: State, schedule: seq<nat>)
    requires s.workers == []
    ensures Run(o, salt, difficulty, s, schedule) == s
  {
    if schedule != [] {
      NoWorkers(o, salt, difficulty, s, schedule[..|schedule| - 1]);
    }
  }

  /**
   * What `solve_challenge` returns: once every worker has returned, the
   * solution sent by the single winner when there is at least one worker, and
   * `None` exactly when there is none; with a difficulty above 32 it never
   * returns.
   */
  lemma OutcomeSpec(o: Oracle, salt: string, difficulty: nat, n: nat, schedule: seq<nat>)
    ensures var r := OutcomeOf(Run(o, salt, difficulty, Start(n), schedule));
      && (r.Joined? && r.result.Some? ==> Publishable(o, salt, difficulty, n, r.result.value))
      && (r.Joined? ==> (r.result.Some? <==> n > 0))
      && (n == 0 ==> r == Joined(None))
      && (difficulty > 32 && n > 0 ==> r == StillRunning)
  {
    var s := Run(o, salt, difficulty, Start(n), schedule);
    StartInv(o, salt, difficulty, n);
    RunInv(o, salt, difficulty, Start(n), schedule);
    if n == 0 {
      NoWorkers(o, salt, difficulty, Start(0), schedule);
    }
    if difficulty > 32 && n > 0 {
      UnreachableDifficulty(o, salt, difficulty, n, schedule);
      assert !s.workers[0].Returned?;
    }
    if AllReturned(s.workers) && n > 0 {
      assert WorkerInv(o, salt, difficulty, n, 0, s.workers[0], s.solved);
    }
    if s.sent != [] {
      assert s.sent[0] in s.sent;
    }
  }

  /** Running two schedules one after the other is running their concatenation. */
  lemma {:induction false} RunAppend(o: Oracle, salt: string, difficulty: nat, s: State, a: seq<nat>, b: seq<nat>)
    ensures Run(o, salt, difficulty, s, a + b) == Run(o, salt, difficulty, Run(o, salt, difficulty, s, a), b)
  {
    if b == [] {
      assert a + b == a;
    } else {
      assert (a + b)[..|a + b| - 1] == a + b[..|b| - 1];
      RunAppend(o, salt, difficulty, s, a, b[..|b| - 1]);
    }
  }

  /** `p` names each of the `n` workers exactly once, and nothing else. */
  predicate EachOnce(p: seq<nat>, n: nat) {
    && (forall j :: 0 <= j < |p| ==> p[j] < n)
    && (forall j, k :: 0 <= j < k < |p| ==> p[j] != p[k])
    && (forall w :: 0 <= w < n ==> w in p)
  }

  /** Worker `i` has accepted its first attempt and is about to swap the flag. */
  function FirstClaim(o: Oracle, salt: string, i: nat): Worker {
    Claiming(0, o.attemptText(i), AttemptDigest(o, salt, i))
  }

  /** With difficulty 0: the workers named in `done` have accepted their first attempt, the others have not started. */
  function ClaimedBy(o: Oracle, salt: string, n: nat, done: seq<nat>): State {
    State(false, [], seq(n, i requires 0 <= i => if i in done then FirstClaim(o, salt, i) else Searching(0)))
  }

  /** With difficulty 0: every worker has accepted its first attempt and none has swapped the flag. */
  function AllClaimed(o: Oracle, salt: string, n: nat): State {
    State(false, [], seq(n, i requires 0 <= i => FirstClaim(o, salt, i)))
  }

  /** The `j`-th entry of `q` is the first one that names a worker. */
  predicate FirstNamed(q: seq<nat>, n: nat, j: nat) {
    j < |q| && q[j] < n && forall k :: 0 <= k < j ==> q[k] >= n
  }

  lemma {:induction false} FirstStretches(o: Oracle, salt: string, n: nat, p: seq<nat>, m: nat)
    requires EachOnce(p, n) && m <= |p|
    ensures Run(o, salt, 0, Start(n), p[..m]) == ClaimedBy(o, salt, n, p[..m])
  {
    if m == 0 {
      assert Start(n) == ClaimedBy(o, salt, n, p[..0]);
    } else {
      assert p[..m][..m - 1] == p[..m - 1];
      FirstStretches(o, salt, n, p, m - 1);
      var prev := ClaimedBy(o, salt, n, p[..m - 1]);
      var w := p[m - 1];
      assert w !in p[..m - 1];
      assert p[..m] == p[..m - 1] + [w];
      AcceptsExtremes(AttemptDigest(o, salt, w), 0);
      assert Offset(w, 0, n) == w;
      assert Step(o, salt, 0, prev, w).workers == ClaimedBy(o, salt, n, p[..m]).workers;
    }
  }

  lemma {:induction false} SwapStretches(o: Oracle, salt: string, n: nat, q: seq<nat>)
    ensures (forall k :: 0 <= k < |q| ==> q[k] >= n) ==> Run(o, salt, 0, AllClaimed(o, salt, n), q) == AllClaimed(o, salt, n)
    ensures forall j: nat :: FirstNamed(q, n, j) ==>
      Run(o, salt, 0, AllClaimed(o, salt, n), q).solved
      && Run(o, salt, 0, AllClaimed(o, salt, n), q).sent == [SolutionAt(o, salt, q[j])]
  {
    if q != [] {
      var front, last := q[..|q| - 1], q[|q| - 1];
      SwapStretches(o, salt, n, front);
      var s := Run(o, salt, 0, AllClaimed(o, salt, n), front);
      forall j: nat | FirstNamed(q, n, j)
        ensures Run(o, salt, 0, AllClaimed(o, salt, n), q).solved
        ensures Run(o, salt, 0, AllClaimed(o, salt, n), q).sent == [SolutionAt(o, salt, q[j])]
      {
        if j < |front| {
          assert FirstNamed(front, n, j);
        } else {
          assert s == AllClaimed(o, salt, n);
          assert s.workers[last] == FirstClaim(o, salt, last);
        }
      }
    }
  }

  /**
   * With difficulty 0 every worker's first attempt is accepted. When every
   * worker accepts (in any order `p`) before any of them swaps the flag, the
   * flag stays clear until the first swap; then exactly one message is sent,
   * the solution of the worker that swaps first, whatever the order `q` of the
   * swaps.
   */
  lemma ZeroDifficultySingleWinner(o: Oracle, salt: string, n: nat, p: seq<nat>, q: seq<nat>)
    requires EachOnce(p, n)
    ensures Run(o, salt, 0, Start(n), p) == AllClaimed(o, salt, n)
    ensures (forall k :: 0 <= k < |q| ==> q[k] >= n) ==> Run(o, salt, 0, Start(n), p + q) == AllClaimed(o, salt, n)
    ensures forall j: nat :: FirstNamed(q, n, j) ==>
      Run(o, salt, 0, Start(n), p + q).solved && Run(o, salt, 0, Start(n), p + q).sent == [SolutionAt(o, salt, q[j])]
  {
    FirstStretches(o, salt, n, p, |p|);
    assert p[..|p|] == p;
    assert ClaimedBy(o, salt, n, p).workers == AllClaimed(o, salt, n).workers;
    RunAppend(o, salt, 0, Start(n), p, q);
    SwapStretches(o, salt, n, q);
  }

  /** The shared state of a search: the `solution_found_flag` and the channel's sent messages. */
  class Race {
    var solved: bool
    var sent: seq<Solution>

    constructor ()
      ensures !solved && sent == []
    {
      solved := false;
      sent := [];
    }

    /** `solution_found_flag.load` */
    method Load() returns (b: bool)
      ensures b == solved
    {
      b := solved;
    }

    /** `solution_found_flag.swap(v)`: set the flag and report its previous value. */
    method Swap(v: bool) returns (previous: bool)
      modifies this
      ensures previous == old(solved) && solved == v && sent == old(sent)
    {
      previous := solved;
      solved := v;
    }

    /** `tx.send(Some(m))` */
    method Send(m: Solution)
      modifies this
      ensures sent == old(sent) + [m] && solved == old(solved)
    {
      sent := sent + [m];
    }

    /** The next atomic stretch of worker `i`'s loop, given where every worker stands. */
    method Iterate(o: Oracle, salt: string, difficulty: nat, workers: seq<Worker>, i: nat) returns (w: Worker)
      requires i < |workers|
      modifies this
      ensures State(solved, sent, workers[i := w]) == Step(o, salt, difficulty, State(old(solved), old(sent), workers), i)
      ensures workers[i].Searching? && old(solved) ==> w == Returned && solved && sent == old(sent)
      ensures workers[i].Claiming? ==> w == Returned && solved
      ensures sent != old(sent) ==> workers[i].Claiming? && !old(solved)
    {
      match workers[i]
      case Returned =>
        w := Returned;
      case Searching(k) =>
        var found := Load();
        if found {
          w := Returned;  // another worker has found the solution
        } else {
          var attempt := o.attemptText(Offset(i, k, |workers|));
          var digest := o.sha256(salt + attempt);
          if Accepts(digest, difficulty) {
            w := Claiming(k, attempt, digest);
          } else {
            w := Searching(k + 1);
          }
        }
      case Claiming(k, attempt, digest) =>
        var previous := Swap(true);
        if !previous {
          Send(Solution(attempt, HexEncode(digest)));
        }
        w := Returned;
    }
  }

  /**
   * `solve_challenge` with `n` workers, run under `schedule`: the `j`-th entry
   * names the worker that runs its next atomic stretch.
   */
  method SolveChallenge(o: Oracle, salt: string, difficulty: nat, n: nat, schedule: seq<nat>) returns (r: Outcome)
    ensures r == OutcomeOf(Run(o, salt, difficulty, Start(n), schedule))
    ensures r.Joined? && r.result.Some? ==> Publishable(o, salt, difficulty, n, r.result.value)
    ensures r.Joined? ==> (r.result.Some? <==> n > 0)
    ensures difficulty > 32 && n > 0 ==> r == StillRunning
  {
    var race := new Race();
    var workers: seq<Worker> := seq(n, _ => Searching(0));
    for j := 0 to |schedule|
      invariant |workers| == n
      invariant State(race.solved, race.sent, workers) == Run(o, salt, difficulty, Start(n), schedule[..j])
    {
      assert schedule[..j + 1][..j] == schedule[..j];
      if schedule[j] < n {
        var w := race.Iterate(o, salt, difficulty, workers, schedule[j]);
        workers := workers[schedule[j] := w];
      }
    }
    assert schedule[..|schedule|] == schedule;
    OutcomeSpec(o, salt, difficulty, n, schedule);
    if !AllReturned(workers) {
      r := StillRunning;  // the parallel loop has not finished yet
    } else if race.sent == [] {
      r := Joined(None);  // the channel is closed with nothing sent
    } else {
      r := Joined(Some(race.sent[0]));
    }
  }
}
