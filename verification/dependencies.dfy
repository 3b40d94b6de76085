/** The job graph of the multi-sample variant-calling pipeline: which jobs follow a job
    (`to`), which jobs a job takes its inputs from (`from`, fixed arity, absent slots at
    the chunk boundaries), the cursor `next` that hands out the seed jobs within a
    look-ahead bound, and the test helper that closes the handed-out jobs under `to`. */
module MultiSampleDependencies {
  import opened Wrappers

  datatype JobType = INCR | DANGLING | COMPLEX | BED | FILTER | OUT | FLUSH

  /** A job: the chunk it works on and its type. */
  datatype JobId = JobId(time: int, kind: JobType)

  /** `delta()`: the slack, in chunks, the scheduler keeps between the oldest outstanding
      job and the newest it starts. */
  const DELTA: nat := 1

  const Kinds: set<JobType> := {INCR, DANGLING, COMPLEX, BED, FILTER, OUT, FLUSH}

  /** The chunks on which each job type exists, for `n` chunks: chunk `n` is the
      end-of-stream chunk and only FILTER and OUT run one step beyond it. */
  predicate InDomain(n: nat, id: JobId)
  {
    match id.kind
    case INCR => 0 <= id.time < n
    case DANGLING | COMPLEX | BED | FLUSH => 0 <= id.time <= n
    case FILTER | OUT => 1 <= id.time <= n + 1
  }

  /** Every job id of the graph. */
  function AllIds(n: nat): (r: set<JobId>)
    ensures forall id :: id in r <==> InDomain(n, id)
  {
    var r := set t, k | 0 <= t <= n + 1 && k in Kinds && InDomain(n, JobId(t, k)) :: JobId(t, k);
    assert forall id :: InDomain(n, id) ==> id in r by {
      forall id | InDomain(n, id) ensures id in r {
        assert 0 <= id.time <= n + 1 && id.kind in Kinds;
      }
    }
    r
  }

  /** Position of a type inside one chunk, in the order the jobs of a chunk run. */
  function Rank(k: JobType): nat
  {
    match k
    case INCR => 0
    case DANGLING => 1
    case COMPLEX => 2
    case BED => 3
    case FLUSH => 4
    case FILTER => 5
    case OUT => 6
  }

  /** The order (chunk, type rank) in which the graph is acyclic. */
  predicate Precedes(a: JobId, b: JobId)
  {
    a.time < b.time || (a.time == b.time && Rank(a.kind) < Rank(b.kind))
  }

  function InGraph(n: nat, candidates: set<JobId>): set<JobId>
  {
    set y | y in candidates && InDomain(n, y)
  }

  /** `to(id)`: the jobs that consume the result of `id`. */
  function To(n: nat, id: JobId): (r: set<JobId>)
    requires InDomain(n, id)
    ensures forall y :: y in r ==> InDomain(n, y)
    ensures forall y :: y in r ==> Precedes(id, y)
    ensures forall y :: y in r ==> y.time == id.time || y.time == id.time + 1
    ensures forall y :: y in r ==> y.kind != INCR
  {
    var i := id.time;
    match id.kind
    case INCR =>
      InGraph(n, {JobId(i, DANGLING), JobId(i + 1, DANGLING), JobId(i + 1, FILTER), JobId(i, FLUSH), JobId(i + 1, FLUSH)})
    case DANGLING => InGraph(n, {JobId(i + 1, DANGLING), JobId(i, BED), JobId(i, COMPLEX)})
    case COMPLEX => InGraph(n, {JobId(i, FILTER), JobId(i, BED), JobId(i, FLUSH)})
    case BED => InGraph(n, {JobId(i + 1, BED)})
    case FILTER => InGraph(n, {JobId(i, OUT), JobId(i + 1, FILTER)})
    case OUT => InGraph(n, {JobId(i + 1, OUT)})
    case FLUSH => {}
  }

  /** Number of predecessor slots of each type. */
  function Arity(k: JobType): nat
  {
    match k
    case INCR => 0
    case DANGLING => 3
    case COMPLEX => 1
    case BED => 3
    case FILTER => 4
    case OUT => 2
    case FLUSH => 0
  }

  function Slot(n: nat, id: JobId): Option<JobId>
  {
    if InDomain(n, id) then Some(id) else None
  }

  /** `from(id)`: the inputs of `id` in a fixed order; a slot whose job lies outside the
      graph is empty. */
  function From(n: nat, id: JobId): (r: seq<Option<JobId>>)
    requires InDomain(n, id) && id.kind != FLUSH
    ensures |r| == Arity(id.kind)
    ensures forall k :: 0 <= k < |r| && r[k].Some? ==> InDomain(n, r[k].value) && Precedes(r[k].value, id)
  {
    var i := id.time;
    match id.kind
    case INCR => []
    case DANGLING => [Slot(n, JobId(i - 1, INCR)), Slot(n, JobId(i, INCR)), Slot(n, JobId(i - 1, DANGLING))]
    case COMPLEX => [Slot(n, JobId(i, DANGLING))]
    case BED => [Slot(n, JobId(i - 1, BED)), Slot(n, JobId(i, DANGLING)), Slot(n, JobId(i, COMPLEX))]
    case FILTER =>
      [Slot(n, JobId(i - 1, INCR)), Slot(n, JobId(i, COMPLEX)), Slot(n, JobId(i - 1, FILTER)), Slot(n, JobId(i, FLUSH))]
    case OUT => [Slot(n, JobId(i - 1, OUT)), Slot(n, JobId(i, FILTER))]
  }

  /** `to` and `from` describe the same edges (FLUSH, whose own edges are not part of the
      graph description, excepted). */
  lemma ToFromInverse(n: nat, x: JobId, y: JobId)
    requires InDomain(n, x) && InDomain(n, y) && x.kind != FLUSH && y.kind != FLUSH
    ensures y in To(n, x) <==> Some(x) in From(n, y)
  {
    if y in To(n, x) {
      ToGivesFrom(n, x, y);
    }
    if Some(x) in From(n, y) {
      FromGivesTo(n, x, y);
    }
  }

  lemma ToGivesFrom(n: nat, x: JobId, y: JobId)
    requires InDomain(n, x) && InDomain(n, y) && x.kind != FLUSH && y.kind != FLUSH
    requires y in To(n, x)
    ensures Some(x) in From(n, y)
  {
    var i := x.time;
    match x.kind
    case INCR =>
      if y.kind == DANGLING {
        assert From(n, y)[if y.time == i then 1 else 0] == Some(x);
      } else {
        assert From(n, y)[0] == Some(x);
      }
    case DANGLING =>
      if y.kind == DANGLING {
        assert From(n, y)[2] == Some(x);
      } else if y.kind == BED {
        assert From(n, y)[1] == Some(x);
      } else {
        assert From(n, y)[0] == Some(x);
      }
    case COMPLEX =>
      if y.kind == FILTER {
        assert From(n, y)[1] == Some(x);
      } else {
        assert From(n, y)[2] == Some(x);
      }
    case BED => assert From(n, y)[0] == Some(x);
    case FILTER =>
      if y.kind == OUT {
        assert From(n, y)[1] == Some(x);
      } else {
        assert From(n, y)[2] == Some(x);
      }
    case OUT => assert From(n, y)[0] == Some(x);
  }

  lemma FromGivesTo(n: nat, x: JobId, y: JobId)
    requires InDomain(n, x) && InDomain(n, y) && x.kind != FLUSH && y.kind != FLUSH
    requires Some(x) in From(n, y)
    ensures y in To(n, x)
  {
    var r := From(n, y);
    var k :| 0 <= k < |r| && r[k] == Some(x);
    SlotEdge(n, y, k);
  }

  /** Each filled input slot of a job is an edge from that input to the job. */
  lemma SlotEdge(n: nat, y: JobId, k: nat)
    requires InDomain(n, y) && y.kind != FLUSH && k < Arity(y.kind)
    requires From(n, y)[k].Some? && From(n, y)[k].value.kind != FLUSH
    ensures y in To(n, From(n, y)[k].value)
  {
    match y.kind
    case DANGLING => SlotEdgeDangling(n, y, k);
    case COMPLEX =>
    case BED => SlotEdgeBed(n, y, k);
    case FILTER => assert k < 3; SlotEdgeFilter(n, y, k);
    case OUT =>
  }

  lemma SlotEdgeDangling(n: nat, y: JobId, k: nat)
    requires InDomain(n, y) && y.kind == DANGLING && k < 3 && From(n, y)[k].Some?
    ensures y in To(n, From(n, y)[k].value)
  {
  }

  lemma SlotEdgeBed(n: nat, y: JobId, k: nat)
    requires InDomain(n, y) && y.kind == BED && k < 3 && From(n, y)[k].Some?
    ensures y in To(n, From(n, y)[k].value)
  {
  }

  lemma SlotEdgeFilter(n: nat, y: JobId, k: nat)
    requires InDomain(n, y) && y.kind == FILTER && k < 3 && From(n, y)[k].Some?
    ensures y in To(n, From(n, y)[k].value)
  {
  }

  /** A chain of jobs, each one consuming the result of the one before. */
  ghost predicate IsPath(n: nat, p: seq<JobId>)
  {
    && |p| >= 1
    && (forall k :: 0 <= k < |p| ==> InDomain(n, p[k]))
    && (forall k :: 0 <= k < |p| - 1 ==> p[k + 1] in To(n, p[k]))
  }

  /** Every chain moves strictly forward in (chunk, type) order ... */
  lemma {:induction false} PathMovesForward(n: nat, p: seq<JobId>)
    requires IsPath(n, p) && |p| >= 2
    ensures Precedes(p[0], p[|p| - 1])
    decreases |p|
  {
    assert p[1] in To(n, p[0]);
    if |p| > 2 {
      assert IsPath(n, p[1..]);
      PathMovesForward(n, p[1..]);
    }
  }

  /** ... so no chain of jobs returns to the job it started from: the graph is acyclic. */
  lemma Acyclic(n: nat, p: seq<JobId>)
    requires IsPath(n, p) && |p| >= 2
    ensures p[0] != p[|p| - 1]
  {
    PathMovesForward(n, p);
  }

  /** A set of jobs that holds every successor of each of its members. */
  ghost predicate Closed(n: nat, s: set<JobId>)
  {
    forall x :: x in s ==> InDomain(n, x) && To(n, x) <= s
  }

  lemma DanglingReached(n: nat, s: set<JobId>, i: int)
    requires n >= 1 && Closed(n, s) && forall c :: 0 <= c < n ==> JobId(c, INCR) in s
    requires 0 <= i <= n
    ensures JobId(i, DANGLING) in s && JobId(i, FLUSH) in s
  {
    var c := if i < n then i else n - 1;
    assert JobId(c, INCR) in s;
    assert JobId(i, DANGLING) in To(n, JobId(c, INCR));
    assert JobId(i, FLUSH) in To(n, JobId(c, INCR));
  }

  lemma FilterReached(n: nat, s: set<JobId>, i: int)
    requires n >= 1 && Closed(n, s) && forall c :: 0 <= c < n ==> JobId(c, INCR) in s
    requires 1 <= i <= n + 1
    ensures JobId(i, FILTER) in s
  {
    if i <= n {
      assert JobId(i - 1, INCR) in s;
      assert JobId(i, FILTER) in To(n, JobId(i - 1, INCR));
    } else {
      FilterReached(n, s, n);
      assert JobId(i, FILTER) in To(n, JobId(n, FILTER));
    }
  }

  /** A closed set holding every INCR job holds the whole graph. */
  lemma ClosureCoversGraph(n: nat, s: set<JobId>)
    requires n >= 1 && Closed(n, s) && forall c :: 0 <= c < n ==> JobId(c, INCR) in s
    ensures AllIds(n) <= s
  {
    forall id | id in AllIds(n) ensures id in s {
      var i := id.time;
      match id.kind
      case INCR =>
      case DANGLING => DanglingReached(n, s, i);
      case FLUSH => DanglingReached(n, s, i);
      case COMPLEX =>
        DanglingReached(n, s, i);
        assert id in To(n, JobId(i, DANGLING));
      case BED =>
        DanglingReached(n, s, i);
        assert id in To(n, JobId(i, DANGLING));
      case FILTER => FilterReached(n, s, i);
      case OUT =>
        FilterReached(n, s, i);
        assert id in To(n, JobId(i, FILTER));
    }
  }

  /** Seeds INCR(0) to INCR(m) reach, through `to`, every job of chunks 0 to m + 1 but
      the INCR jobs beyond m (and FILTER/OUT, which start at chunk 1). */
  lemma SeedsReach(n: nat, s: set<JobId>, m: int, t: int)
    requires Closed(n, s) && 0 <= m < n && forall c :: 0 <= c <= m ==> JobId(c, INCR) in s
    requires 0 <= t <= m + 1
    ensures JobId(t, DANGLING) in s && JobId(t, FLUSH) in s
    ensures JobId(t, COMPLEX) in s && JobId(t, BED) in s
    ensures t >= 1 ==> JobId(t, FILTER) in s && JobId(t, OUT) in s
  {
    var c := if t <= m then t else m;
    assert JobId(c, INCR) in s;
    assert JobId(t, DANGLING) in To(n, JobId(c, INCR));
    assert JobId(t, FLUSH) in To(n, JobId(c, INCR));
    assert JobId(t, COMPLEX) in To(n, JobId(t, DANGLING));
    assert JobId(t, BED) in To(n, JobId(t, DANGLING));
    if t >= 1 {
      assert JobId(t - 1, INCR) in s;
      assert JobId(t, FILTER) in To(n, JobId(t - 1, INCR));
      assert JobId(t, OUT) in To(n, JobId(t, FILTER));
    }
  }

  /** With look-ahead 3 on 5 chunks only INCR(0) to INCR(3) are handed out; closing them
      under `to` still reaches every type at chunks 1 to 3 and every type but INCR at
      chunk 4. */
  lemma LookAheadThreeOnFiveChunks(s: set<JobId>)
    requires Closed(5, s)
    requires forall c :: 0 <= c <= 3 ==> JobId(c, INCR) in s
    ensures forall t, k :: 1 <= t <= 3 && k in Kinds ==> JobId(t, k) in s
    ensures forall k :: k in Kinds - {INCR} ==> JobId(4, k) in s
  {
    forall t, k | 1 <= t <= 4 && k in Kinds && (t == 4 ==> k != INCR) ensures JobId(t, k) in s {
      SeedsReach(5, s, 3, t);
    }
  }

  /** The literal successor sets checked for 5 chunks, at the first chunks ... */
  lemma ToTableForFiveChunks()
    ensures To(5, JobId(0, INCR)) == {JobId(0, DANGLING), JobId(1, DANGLING), JobId(1, FILTER), JobId(0, FLUSH), JobId(1, FLUSH)}
    ensures To(5, JobId(0, DANGLING)) == {JobId(0, BED), JobId(1, DANGLING), JobId(0, COMPLEX)}
    ensures To(5, JobId(1, COMPLEX)) == {JobId(1, FILTER), JobId(1, BED), JobId(1, FLUSH)}
  {
  }

  /** ... and at the last chunks, where successors outside the graph are dropped. */
  lemma ToTableAtEndForFiveChunks()
    ensures To(5, JobId(5, DANGLING)) == {JobId(5, BED), JobId(5, COMPLEX)}
    ensures To(5, JobId(5, BED)) == {}
    ensures To(5, JobId(5, FILTER)) == {JobId(5, OUT), JobId(6, FILTER)}
    ensures To(5, JobId(6, OUT)) == {}
  {
  }

  /** The literal predecessor lists checked for 5 chunks. */
  lemma FromTableForFiveChunks()
    ensures From(5, JobId(0, DANGLING)) == [None, Some(JobId(0, INCR)), None]
    ensures From(5, JobId(0, BED)) == [None, Some(JobId(0, DANGLING)), Some(JobId(0, COMPLEX))]
    ensures From(5, JobId(1, FILTER)) == [Some(JobId(0, INCR)), Some(JobId(1, COMPLEX)), None, Some(JobId(1, FLUSH))]
    ensures From(5, JobId(1, OUT)) == [None, Some(JobId(1, FILTER))]
    ensures From(5, JobId(5, DANGLING)) == [Some(JobId(4, INCR)), None, Some(JobId(4, DANGLING))]
    ensures From(5, JobId(6, FILTER)) == [None, None, Some(JobId(5, FILTER)), None]
    ensures From(5, JobId(6, OUT)) == [Some(JobId(5, OUT)), Some(JobId(6, FILTER))]
  {
  }

  /** The dependency object of one pipeline run: the graph for `numberChunks` chunks and
      the cursor over the seed (INCR) jobs not yet handed out. */
  class DependenciesMultiSample {
    const numberChunks: nat
    var nextIncr: nat

    ghost predicate Valid()
      reads this
    {
      nextIncr <= numberChunks
    }

    constructor (n: nat)
      ensures Valid() && numberChunks == n && nextIncr == 0
    {
      numberChunks := n;
      nextIncr := 0;
    }

    /** `next(lookAhead)`: the next INCR job if there is one and its chunk is within the
        bound, otherwise nothing; the cursor moves only when a job is handed out. */
    method Next(bound: int) returns (id: Option<JobId>)
      requires Valid()
      modifies this
      ensures Valid()
      ensures old(nextIncr) < numberChunks && old(nextIncr) <= bound ==>
                id == Some(JobId(old(nextIncr), INCR)) && nextIncr == old(nextIncr) + 1
      ensures !(old(nextIncr) < numberChunks && old(nextIncr) <= bound) ==>
                id == None && nextIncr == old(nextIncr)
    {
      if nextIncr < numberChunks && nextIncr <= bound {
        id := Some(JobId(nextIncr, INCR));
        nextIncr := nextIncr + 1;
      } else {
        id := None;
      }
    }
  }

  /** Adds to `known` the jobs of `frontier0` and everything reachable from them by `to`,
      one breadth-first layer at a time. */
  method CloseUnderTo(n: nat, known: set<JobId>, frontier0: set<JobId>) returns (all: set<JobId>)
    requires Closed(n, known)
    requires forall x :: x in frontier0 ==> InDomain(n, x)
    ensures Closed(n, all)
    ensures known + frontier0 <= all
    ensures forall c :: JobId(c, INCR) in all <==> JobId(c, INCR) in known + frontier0
  {
    all := known;
    var frontier := frontier0 - known;
    while frontier != {}
      invariant forall x :: x in all + frontier ==> InDomain(n, x)
      invariant all !! frontier
      invariant forall x :: x in all ==> To(n, x) <= all + frontier
      invariant known + frontier0 <= all + frontier
      invariant forall c :: JobId(c, INCR) in all + frontier <==> JobId(c, INCR) in known + frontier0
      decreases AllIds(n) - all
    {
      all := all + frontier;
      var delta: set<JobId> := {};
      var rest := frontier;
      while rest != {}
        invariant rest <= frontier
        invariant forall y :: y in delta ==> InDomain(n, y) && y !in all && y.kind != INCR
        invariant forall x :: x in frontier - rest ==> To(n, x) <= all + delta
        decreases rest
      {
        var x :| x in rest;
        rest := rest - {x};
        var succ := To(n, x);
        while succ != {}
          invariant succ <= To(n, x)
          invariant forall y :: y in delta ==> InDomain(n, y) && y !in all && y.kind != INCR
          invariant forall x' :: x' in frontier - rest - {x} ==> To(n, x') <= all + delta
          invariant To(n, x) - succ <= all + delta
          decreases succ
        {
          var y :| y in succ;
          succ := succ - {y};
          if y !in all {
            delta := delta + {y};
          }
        }
      }
      frontier := delta;
    }
  }

  /** The test helper `allIdsLookahead`: in rounds, hand out every seed job `next` allows
      (the bound being the chunks completed so far plus the look-ahead) and close them
      under `to`; stop when `next` hands out nothing. The result is the whole graph. */
  method AllIdsLookahead(dep: DependenciesMultiSample, lookAhead: nat) returns (allIds: set<JobId>)
    requires dep.Valid() && dep.nextIncr == 0 && dep.numberChunks >= 1
    modifies dep
    ensures allIds == AllIds(dep.numberChunks)
  {
    var n := dep.numberChunks;
    allIds := {};
    while true
      invariant dep.Valid() && dep.numberChunks == n
      invariant Closed(n, allIds)
      invariant forall c :: JobId(c, INCR) in allIds <==> 0 <= c < dep.nextIncr
      decreases n - dep.nextIncr
    {
      var bound := dep.nextIncr + lookAhead;
      var start := dep.nextIncr;
      var nx := dep.Next(bound);
      if nx.None? {
        break;
      }
      var frontier0: set<JobId> := {};
      while nx.Some?
        invariant dep.Valid() && dep.numberChunks == n
        invariant start < dep.nextIncr
        invariant nx.Some? ==> nx.value == JobId(dep.nextIncr - 1, INCR)
        invariant forall x :: x in frontier0 ==> x.kind == INCR
        invariant forall c :: JobId(c, INCR) in frontier0 + (if nx.Some? then {nx.value} else {}) <==> start <= c < dep.nextIncr
        decreases n - dep.nextIncr, nx.Some?
      {
        frontier0 := frontier0 + {nx.value};
        nx := dep.Next(bound);
      }
      assert forall x :: x in frontier0 ==> InDomain(n, x);
      allIds := CloseUnderTo(n, allIds, frontier0);
    }
    ClosureCoversGraph(n, allIds);
  }

  /** The test helper behind `testLookAhead`: one round of `next` with a fixed bound,
      closed under `to`. Exactly the INCR jobs up to the bound are in the result. */
  method AllIdsBounded(dep: DependenciesMultiSample, bound: int) returns (ids: set<JobId>)
    requires dep.Valid() && dep.nextIncr == 0
    modifies dep
    ensures Closed(dep.numberChunks, ids)
    ensures forall c :: JobId(c, INCR) in ids <==> 0 <= c < dep.numberChunks && c <= bound
  {
    var n := dep.numberChunks;
    var frontier0: set<JobId> := {};
    var nx := dep.Next(bound);
    while nx.Some?
      invariant dep.Valid() && dep.numberChunks == n
      invariant nx.Some? ==> nx.value == JobId(dep.nextIncr - 1, INCR) && dep.nextIncr >= 1
      invariant nx.None? ==> dep.nextIncr >= n || dep.nextIncr > bound
      invariant forall x :: x in frontier0 ==> x.kind == INCR
      invariant forall c :: JobId(c, INCR) in frontier0 + (if nx.Some? then {nx.value} else {}) <==> 0 <= c < dep.nextIncr
      invariant dep.nextIncr <= n && (dep.nextIncr == 0 || dep.nextIncr - 1 <= bound)
      decreases n - dep.nextIncr, nx.Some?
    {
      frontier0 := frontier0 + {nx.value};
      nx := dep.Next(bound);
    }
    assert forall x :: x in frontier0 ==> InDomain(n, x);
    ids := CloseUnderTo(n, {}, frontier0);
  }
}
