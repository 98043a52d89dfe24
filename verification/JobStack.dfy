/**
 * The job stack: the job set last runs first. What that gives to whoever sets a job and then lets others
 * set theirs.
 */
module JobStack {

  /** The three jobs of packet interface i, or any other job. */
  datatype Job = Operation(i: nat) | RequestCancel(i: nat) | Finished(i: nat) | Other(n: nat)

  datatype Op = Set(job: Job) | Unset(job: Job) | Execute

  ghost predicate Distinct(jobs: seq<Job>) {
    forall a, b :: 0 <= a < b < |jobs| ==> jobs[a] != jobs[b]
  }

  function Without(jobs: seq<Job>, j: Job): (r: seq<Job>)
    ensures |r| <= |jobs|
  {
    if jobs == [] then []
    else if jobs[0] == j then jobs[1..]
    else [jobs[0]] + Without(jobs[1..], j)
  }

  /** A job that is set again moves to the front. */
  function Apply(jobs: seq<Job>, op: Op): seq<Job> {
    match op
    case Set(j) => [j] + Without(jobs, j)
    case Unset(j) => Without(jobs, j)
    case Execute => if jobs == [] then [] else jobs[1..]
  }

  function Run(jobs: seq<Job>, ops: seq<Op>): seq<Job>
    decreases |ops|
  {
    if ops == [] then jobs else Run(Apply(jobs, ops[0]), ops[1..])
  }

  /** The jobs that would run after j. */
  function Below(jobs: seq<Job>, j: Job): seq<Job> {
    if jobs == [] then []
    else if jobs[0] == j then jobs[1..]
    else Below(jobs[1..], j)
  }

  predicate Mentions(op: Op, j: Job) {
    !op.Execute? && op.job == j
  }

  lemma {:induction false} WithoutMembers(jobs: seq<Job>, j: Job)
    requires Distinct(jobs)
    ensures Distinct(Without(jobs, j)) && forall k :: k in Without(jobs, j) <==> k in jobs && k != j
  {
    if jobs != [] {
      assert jobs == [jobs[0]] + jobs[1..];
      assert forall a :: 0 < a < |jobs| ==> jobs[a] != jobs[0];
      WithoutMembers(jobs[1..], j);
      var r := Without(jobs[1..], j);
      forall a | 0 <= a < |r| ensures r[a] != jobs[0] { assert r[a] in r; }
    }
  }

  lemma ApplyKeepsDistinct(jobs: seq<Job>, op: Op)
    requires Distinct(jobs)
    ensures Distinct(Apply(jobs, op))
    ensures !op.Execute? ==> forall k :: k != op.job ==> (k in Apply(jobs, op) <==> k in jobs)
    ensures op.Set? ==> op.job in Apply(jobs, op) && Apply(jobs, op)[0] == op.job
    ensures op.Unset? ==> op.job !in Apply(jobs, op)
  {
    if !op.Execute? {
      WithoutMembers(jobs, op.job);
      var r := Without(jobs, op.job);
      if op.Set? { forall a | 0 <= a < |r| ensures r[a] != op.job { assert r[a] in r; } }
    }
  }

  lemma {:induction false} BelowMembers(jobs: seq<Job>, j: Job)
    ensures forall k :: k in Below(jobs, j) ==> k in jobs
  {
    if jobs != [] && jobs[0] != j {
      BelowMembers(jobs[1..], j);
    }
  }

  lemma {:induction false} BelowWithout(jobs: seq<Job>, j: Job, k: Job)
    requires j != k && Distinct(jobs)
    ensures forall x :: x in Below(Without(jobs, k), j) ==> x in Below(jobs, j) && x != k
  {
    if jobs != [] {
      assert jobs == [jobs[0]] + jobs[1..];
      WithoutMembers(jobs, k);
      if jobs[0] == k {
        BelowMembers(jobs[1..], j);
      } else if jobs[0] == j {
        WithoutMembers(jobs[1..], k);
        assert Without(jobs, k)[1..] == Without(jobs[1..], k);
      } else {
        BelowWithout(jobs[1..], j, k);
        assert Without(jobs, k)[1..] == Without(jobs[1..], k);
      }
    }
  }

  /** One operation that is not about j adds nothing below it. */
  lemma BelowShrinks(jobs: seq<Job>, op: Op, j: Job)
    requires Distinct(jobs) && !Mentions(op, j) && j in Apply(jobs, op)
    ensures j in jobs && forall x :: x in Below(Apply(jobs, op), j) ==> x in Below(jobs, j)
  {
    ApplyKeepsDistinct(jobs, op);
    match op
    case Set(k) =>
      BelowWithout(jobs, j, k);
      assert ([k] + Without(jobs, k))[1..] == Without(jobs, k);
    case Unset(k) =>
      BelowWithout(jobs, j, k);
    case Execute =>
      var a :| 0 <= a < |jobs[1..]| && jobs[1..][a] == j;
      assert jobs[a + 1] == j;
  }

  /** The stack while j stays set, untouched, from `jobs` through all of `ops`. */
  ghost predicate Waits(jobs: seq<Job>, ops: seq<Op>, j: Job)
    decreases |ops|
  {
    && j in jobs
    && (ops != [] ==> !Mentions(ops[0], j) && Waits(Apply(jobs, ops[0]), ops[1..], j))
  }

  lemma {:induction false} WaitingKeepsBelow(jobs: seq<Job>, ops: seq<Op>, j: Job)
    requires Distinct(jobs) && Waits(jobs, ops, j)
    ensures Distinct(Run(jobs, ops)) && j in Run(jobs, ops)
    ensures forall x :: x in Below(Run(jobs, ops), j) ==> x in Below(jobs, j)
    decreases |ops|
  {
    if ops != [] {
      ApplyKeepsDistinct(jobs, ops[0]);
      BelowShrinks(jobs, ops[0], j);
      WaitingKeepsBelow(Apply(jobs, ops[0]), ops[1..], j);
    }
  }

  /**
   * The LIFO discipline: when a waiting job is the next to run, everything that was above it and everything
   * set since, directly or by the handlers of those jobs, has run or was unset: only jobs that were below
   * it from the start are left.
   */
  lemma Lifo(jobs: seq<Job>, ops: seq<Op>, j: Job)
    requires Distinct(jobs) && Waits(jobs, ops, j) && Run(jobs, ops) != [] && Run(jobs, ops)[0] == j
    ensures forall x :: x in Run(jobs, ops) ==> x == j || x in Below(jobs, j)
  {
    WaitingKeepsBelow(jobs, ops, j);
    var r := Run(jobs, ops);
    assert r == [j] + r[1..] && Below(r, j) == r[1..];
  }

  lemma {:induction false} WithoutAt(jobs: seq<Job>, j: Job, k: nat)
    requires k <= |jobs| && (forall x :: 0 <= x < k ==> jobs[x] != j) && (k < |jobs| ==> jobs[k] == j)
    ensures Without(jobs, j) == if k < |jobs| then jobs[..k] + jobs[k + 1..] else jobs
  {
    if k > 0 {
      WithoutAt(jobs[1..], j, k - 1);
      CutBehindFirst(jobs, k);
    }
  }

  lemma CutBehindFirst(jobs: seq<Job>, k: nat)
    requires 0 < k <= |jobs|
    ensures k < |jobs| ==> [jobs[0]] + (jobs[1..][..k - 1] + jobs[1..][k..]) == jobs[..k] + jobs[k + 1..]
    ensures [jobs[0]] + jobs[1..] == jobs
  {
  }

  class BPendingGroup {
    var jobs: seq<Job>

    constructor ()
      ensures jobs == []
    {
      jobs := [];
    }

    method Set(j: Job)
      modifies this
      ensures jobs == Apply(old(jobs), Op.Set(j))
    {
      Unset(j);
      jobs := [j] + jobs;
    }

    /** The list is walked to the node; a job that is not set is left alone. */
    method Unset(j: Job)
      modifies this
      ensures jobs == Apply(old(jobs), Op.Unset(j))
    {
      var k := 0;
      while k < |jobs| && jobs[k] != j
        invariant 0 <= k <= |jobs|
        invariant forall x :: 0 <= x < k ==> jobs[x] != j
      {
        k := k + 1;
      }
      WithoutAt(jobs, j, k);
      if k < |jobs| { jobs := jobs[..k] + jobs[k + 1..]; }
    }

    /** BPendingGroup_ExecuteJob up to the handler call. */
    method TakeJob() returns (j: Job)
      requires jobs != []
      modifies this
      ensures j == old(jobs)[0] && jobs == Apply(old(jobs), Execute)
    {
      j := jobs[0];
      jobs := jobs[1..];
    }
  }
}
