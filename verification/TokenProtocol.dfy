/**
 One token passes between the workers of a client, over the start and done
 channels: the interleavings of the dispatch loop and its workers, step by step.
 */
module TokenProtocol {
  import opened Bytes

  /** What one worker does between taking the token and handing it back, with local variables of its own. */
  datatype Job<!L, !D> = Job(hash: Digest, start: L, work: seq<(L, D) -> (L, D)>)

  datatype Running<!L, !D> = Running(job: Job<L, D>, pc: nat, local: L)

  /**
   Tokens being sent on the start channel, workers waiting to receive one, workers
   that have, the dispatch loop's frontier, the tables, and the jobs started so far.
   */
  datatype State<!L, !D> = State(tokens: nat, waiting: seq<Job<L, D>>, active: seq<Running<L, D>>,
                                 frontier: set<Digest>, tables: D, started: seq<Job<L, D>>)

  datatype Event<!L, !D> =
    | Announce(job: Job<L, D>, known: bool)
    | Submit(job: Job<L, D>)
    | Take(i: nat)
    | Work(i: nat)
    | Finish(i: nat)

  function Without<T>(s: seq<T>, i: nat): seq<T>
    requires i < |s|
  {
    s[..i] + s[i + 1..]
  }

  function Initial<L, D>(tables: D): State<L, D> {
    State(1, [], [], {}, tables, [])
  }

  predicate Enabled<L, D>(s: State<L, D>, e: Event<L, D>) {
    match e
    case Announce(_, _) => true
    case Submit(_) => true
    case Take(i) => s.tokens > 0 && i < |s.waiting|
    case Work(i) => i < |s.active| && s.active[i].pc < |s.active[i].job.work|
    case Finish(i) => i < |s.active| && s.active[i].pc >= |s.active[i].job.work|
  }

  /**
   An announced hash is skipped if it is being resolved or already recorded; one
   submitted by the client itself is not. Finishing takes the hash off the frontier
   and sends the next token.
   */
  function After<L, D>(s: State<L, D>, e: Event<L, D>): State<L, D>
    requires Enabled(s, e)
  {
    match e
    case Announce(job, known) =>
      if job.hash in s.frontier || known then s
      else s.(frontier := s.frontier + {job.hash}, waiting := s.waiting + [job])
    case Submit(job) => s.(frontier := s.frontier + {job.hash}, waiting := s.waiting + [job])
    case Take(i) =>
      var job := s.waiting[i];
      s.(tokens := s.tokens - 1, waiting := Without(s.waiting, i),
         active := s.active + [Running(job, 0, job.start)], started := s.started + [job])
    case Work(i) =>
      var a := s.active[i];
      var (local, tables) := a.job.work[a.pc](a.local, s.tables);
      s.(active := s.active[i := Running(a.job, a.pc + 1, local)], tables := tables)
    case Finish(i) =>
      s.(tokens := s.tokens + 1, active := Without(s.active, i), frontier := s.frontier - {s.active[i].job.hash})
  }

  ghost predicate CanRun<L, D>(s: State<L, D>, events: seq<Event<L, D>>)
    decreases |events|
  {
    events == [] || (Enabled(s, events[0]) && CanRun(After(s, events[0]), events[1..]))
  }

  ghost function Ran<L, D>(s: State<L, D>, events: seq<Event<L, D>>): State<L, D>
    requires CanRun(s, events)
    decreases |events|
  {
    if events == [] then s else Ran(After(s, events[0]), events[1..])
  }

  // --- Atomicity ---

  /** The local variables and the tables after the first n steps of a job run on its own. */
  function Partly<L, D>(job: Job<L, D>, tables: D, n: nat): (L, D)
    requires n <= |job.work|
  {
    if n == 0 then (job.start, tables) else
      var before := Partly(job, tables, n - 1);
      job.work[n - 1](before.0, before.1)
  }

  /** The tables after jobs run whole, one after the other. */
  function InTurn<L, D>(tables: D, jobs: seq<Job<L, D>>): D {
    if jobs == [] then tables else
      var last := jobs[|jobs| - 1];
      Partly(last, InTurn(tables, jobs[..|jobs| - 1]), |last.work|).1
  }

  /**
   One token, sent or held. The tables are what the jobs that have had it leave when
   run whole, in the order they took it, and the holder's steps so far on top.
   */
  ghost predicate Exclusive<L, D>(s: State<L, D>, first: D) {
    && s.tokens + |s.active| == 1
    && (s.active == [] ==> s.tables == InTurn(first, s.started))
    && (forall i :: 0 <= i < |s.active| ==>
          var a := s.active[i];
          && s.started != [] && s.started[|s.started| - 1] == a.job && a.pc <= |a.job.work|
          && (a.local, s.tables) == Partly(a.job, InTurn(first, s.started[..|s.started| - 1]), a.pc))
  }

  lemma TakeExclusive<L, D>(s: State<L, D>, i: nat, first: D)
    requires Exclusive(s, first) && Enabled(s, Take(i))
    ensures Exclusive(After(s, Take(i)), first)
  {
    hide InTurn;
    assert (s.started + [s.waiting[i]])[..|s.started|] == s.started;
  }

  lemma WorkExclusive<L, D>(s: State<L, D>, i: nat, first: D)
    requires Exclusive(s, first) && Enabled(s, Work(i))
    ensures Exclusive(After(s, Work(i)), first)
  {
    hide InTurn;
  }

  lemma FinishExclusive<L, D>(s: State<L, D>, i: nat, first: D)
    requires Exclusive(s, first) && Enabled(s, Finish(i))
    ensures Exclusive(After(s, Finish(i)), first)
  {
    hide Partly;
  }

  lemma StepExclusive<L, D>(s: State<L, D>, e: Event<L, D>, first: D)
    requires Exclusive(s, first) && Enabled(s, e)
    ensures Exclusive(After(s, e), first)
  {
    hide InTurn, Partly;
    match e
    case Announce(_, _) =>
    case Submit(_) =>
    case Take(i) => TakeExclusive(s, i, first);
    case Work(i) => WorkExclusive(s, i, first);
    case Finish(i) => FinishExclusive(s, i, first);
  }

  /** In every interleaving the workers' effects are those of whole workers in token order. */
  lemma {:induction false} AlwaysExclusive<L, D>(s: State<L, D>, events: seq<Event<L, D>>, first: D)
    requires Exclusive(s, first) && CanRun(s, events)
    ensures Exclusive(Ran(s, events), first)
    decreases |events|
  {
    hide Exclusive;
    if events != [] {
      StepExclusive(s, events[0], first);
      AlwaysExclusive(After(s, events[0]), events[1..], first);
    }
  }

  lemma Atomic<L, D>(tables: D, events: seq<Event<L, D>>)
    requires CanRun(Initial<L, D>(tables), events)
    ensures
      var s := Ran(Initial<L, D>(tables), events);
      && s.tokens + |s.active| == 1
      && (s.active == [] ==> s.tables == InTurn(tables, s.started))
  {
    AlwaysExclusive(Initial<L, D>(tables), events, tables);
  }

  // --- Drainage ---

  predicate Internal<L, D>(e: Event<L, D>) {
    !e.Announce? && !e.Submit?
  }

  function WaitingSteps<L, D>(waiting: seq<Job<L, D>>): nat {
    if waiting == [] then 0 else WaitingSteps(waiting[..|waiting| - 1]) + |waiting[|waiting| - 1].work|
  }

  function Remaining<L, D>(a: Running<L, D>): nat {
    if a.pc < |a.job.work| then |a.job.work| - a.pc else 0
  }

  function ActiveSteps<L, D>(active: seq<Running<L, D>>): nat {
    if active == [] then 0 else ActiveSteps(active[..|active| - 1]) + Remaining(active[|active| - 1])
  }

  /** Two hand-overs for every waiting worker, one for every active one, and the steps still to do. */
  function Left<L, D>(s: State<L, D>): nat {
    2 * |s.waiting| + |s.active| + WaitingSteps(s.waiting) + ActiveSteps(s.active)
  }

  lemma {:induction false} WaitingWithout<L, D>(waiting: seq<Job<L, D>>, i: nat)
    requires i < |waiting|
    ensures WaitingSteps(Without(waiting, i)) + |waiting[i].work| == WaitingSteps(waiting)
  {
    var n := |waiting| - 1;
    if i == n {
      assert Without(waiting, i) == waiting[..n];
    } else {
      WaitingWithout(waiting[..n], i);
      assert Without(waiting, i)[..n - 1] == Without(waiting[..n], i);
    }
  }

  lemma ActiveOne<L, D>(a: Running<L, D>)
    ensures ActiveSteps([a]) == Remaining(a)
  {
    assert [a][..0] == [];
    assert ActiveSteps([a][..0]) == 0;
  }

  /** Every step but an arrival brings the end one step nearer. */
  lemma StepDrains<L, D>(s: State<L, D>, e: Event<L, D>, first: D)
    requires Exclusive(s, first) && Enabled(s, e) && Internal(e)
    ensures Left(After(s, e)) + 1 == Left(s)
  {
    match e
    case Take(i) =>
      WaitingWithout(s.waiting, i);
      ActiveOne(Running(s.waiting[i], 0, s.waiting[i].start));
      assert s.active == [];
    case Work(i) =>
      ActiveOne(s.active[0]);
      ActiveOne(After(s, e).active[0]);
      assert s.active == [s.active[0]] && After(s, e).active == [After(s, e).active[0]];
    case Finish(i) =>
      ActiveOne(s.active[0]);
      assert s.active == [s.active[0]] && After(s, e).active == [];
  }

  /** No deadlock: while a worker is unfinished some step other than an arrival can be taken. */
  lemma NoDeadlock<L, D>(s: State<L, D>, first: D) returns (e: Event<L, D>)
    requires Exclusive(s, first) && (s.waiting != [] || s.active != [])
    ensures Internal(e) && Enabled(s, e)
  {
    if s.active == [] {
      e := Take(0);
    } else if s.active[0].pc < |s.active[0].job.work| {
      e := Work(0);
    } else {
      e := Finish(0);
    }
  }

  ghost predicate AllInternal<L, D>(events: seq<Event<L, D>>) {
    forall i :: 0 <= i < |events| ==> Internal(events[i])
  }

  /**
   Without new arrivals the workers are all done after exactly Left(s) steps, however
   these interleave, and not before; and any way of going on can be completed to that.
   */
  lemma {:induction false} DrainsExactly<L, D>(s: State<L, D>, events: seq<Event<L, D>>, first: D)
    requires Exclusive(s, first) && CanRun(s, events) && AllInternal(events)
    ensures
      var end := Ran(s, events);
      && |events| <= Left(s)
      && (end.waiting == [] && end.active == [] <==> |events| == Left(s))
      && (|events| == Left(s) ==> end.tables == InTurn(first, end.started))
    decreases |events|
  {
    if events != [] {
      StepExclusive(s, events[0], first);
      StepDrains(s, events[0], first);
      assert AllInternal(events[1..]) by {
        forall i | 0 <= i < |events[1..]| ensures Internal(events[1..][i]) {
          assert events[1..][i] == events[i + 1];
        }
      }
      DrainsExactly(After(s, events[0]), events[1..], first);
    } else if s.waiting != [] || s.active != [] {
      var e := NoDeadlock(s, first);
      StepDrains(s, e, first);
    }
  }

  /** The workers can always be drained. */
  lemma {:induction false} CanDrain<L, D>(s: State<L, D>, first: D) returns (events: seq<Event<L, D>>)
    requires Exclusive(s, first)
    ensures CanRun(s, events) && AllInternal(events)
    ensures Ran(s, events).waiting == [] && Ran(s, events).active == []
    decreases Left(s)
  {
    hide Exclusive;
    if s.waiting == [] && s.active == [] {
      return [];
    }
    var e := NoDeadlock(s, first);
    StepExclusive(s, e, first);
    StepDrains(s, e, first);
    var rest := CanDrain(After(s, e), first);
    events := [e] + rest;
    assert events[1..] == rest;
  }

  // --- Nothing is lost ---

  /** What becomes a worker: all that is submitted, and what is announced and neither recorded nor being resolved. */
  ghost predicate Admitted<L, D>(s: State<L, D>, e: Event<L, D>) {
    e.Submit? || (e.Announce? && !e.known && e.job.hash !in s.frontier)
  }

  ghost function Arrivals<L, D>(s: State<L, D>, events: seq<Event<L, D>>): seq<Job<L, D>>
    requires CanRun(s, events)
    decreases |events|
  {
    if events == [] then [] else
      (if Admitted(s, events[0]) then [events[0].job] else []) + Arrivals(After(s, events[0]), events[1..])
  }

  lemma WithoutOne<T>(s: seq<T>, i: nat)
    requires i < |s|
    ensures multiset(Without(s, i)) + multiset{s[i]} == multiset(s)
  {
    assert s == s[..i] + [s[i]] + s[i + 1..];
  }

  /** No worker is lost or run twice: whoever has arrived is waiting or has had the token, once each. */
  lemma {:induction false} ArrivalsAccounted<L, D>(s: State<L, D>, events: seq<Event<L, D>>)
    requires CanRun(s, events)
    ensures
      var end := Ran(s, events);
      multiset(end.started) + multiset(end.waiting)
      == multiset(s.started) + multiset(s.waiting) + multiset(Arrivals(s, events))
    decreases |events|
  {
    if events != [] {
      StepAccounted(s, events[0]);
      ArrivalsAccounted(After(s, events[0]), events[1..]);
    }
  }

  lemma StepAccounted<L, D>(s: State<L, D>, e: Event<L, D>)
    requires Enabled(s, e)
    ensures
      var t := After(s, e);
      multiset(t.started) + multiset(t.waiting)
      == multiset(s.started) + multiset(s.waiting) + if Admitted(s, e) then multiset{e.job} else multiset{}
  {
    if e.Take? {
      WithoutOne(s.waiting, e.i);
    }
  }

  /** Once drained, a client has run everything that arrived, each whole and once, in some order. */
  lemma EveryArrivalServed<L, D>(tables: D, events: seq<Event<L, D>>)
    requires CanRun(Initial<L, D>(tables), events)
    ensures
      var s := Initial<L, D>(tables);
      var end := Ran(s, events);
      end.waiting == [] && end.active == [] ==>
        multiset(end.started) == multiset(Arrivals(s, events)) && end.tables == InTurn(tables, end.started)
  {
    hide InTurn;
    hide Ran, After, Arrivals, Exclusive;
    var s := Initial<L, D>(tables);
    var end := Ran(s, events);
    ArrivalsAccounted(s, events);
    Atomic(tables, events);
    if end.waiting == [] {
      assert multiset(end.started) == multiset(end.started) + multiset(end.waiting);
    }
  }

  // --- The frontier ---

  ghost predicate WaitsFor<L, D>(s: State<L, D>, h: Digest) {
    exists i :: 0 <= i < |s.waiting| && s.waiting[i].hash == h
  }

  ghost predicate WorksOn<L, D>(s: State<L, D>, h: Digest) {
    exists i :: 0 <= i < |s.active| && s.active[i].job.hash == h
  }

  ghost predicate Unfinished<L, D>(s: State<L, D>, h: Digest) {
    WaitsFor(s, h) || WorksOn(s, h)
  }

  ghost predicate FrontierExact<L, D>(s: State<L, D>) {
    forall h :: h in s.frontier <==> Unfinished(s, h)
  }

  /** No two unfinished workers have the same hash. */
  ghost predicate Apart<L, D>(s: State<L, D>) {
    && (forall i, j :: 0 <= i < j < |s.waiting| ==> s.waiting[i].hash != s.waiting[j].hash)
    && (forall i, j :: 0 <= i < |s.waiting| && 0 <= j < |s.active| ==> s.waiting[i].hash != s.active[j].job.hash)
  }

  /** What a step does to the set of unfinished hashes. */
  lemma StepUnfinished<L, D>(s: State<L, D>, e: Event<L, D>, first: D, h: Digest)
    requires Exclusive(s, first) && Enabled(s, e)
    ensures
      var t := After(s, e);
      match e
      case Announce(job, known) =>
        Unfinished(t, h) <==> Unfinished(s, h) || (h == job.hash && !known && job.hash !in s.frontier)
      case Submit(job) => Unfinished(t, h) <==> Unfinished(s, h) || h == job.hash
      case Take(_) => Unfinished(t, h) <==> Unfinished(s, h)
      case Work(_) => Unfinished(t, h) <==> Unfinished(s, h)
      case Finish(i) => Unfinished(t, h) <==> WaitsFor(s, h)
  {
    match e
    case Announce(job, known) =>
      if !known && job.hash !in s.frontier {
        WaitsAppended(s, After(s, e), job, h);
      }
    case Submit(job) => WaitsAppended(s, After(s, e), job, h);
    case Take(i) =>
      var t := After(s, e);
      assert s.active == [] && t.active[0].job == s.waiting[i];
      if k :| 0 <= k < |s.waiting| && s.waiting[k].hash == h {
        assert k < i ==> t.waiting[k] == s.waiting[k];
        assert k > i ==> t.waiting[k - 1] == s.waiting[k];
      }
      if k :| 0 <= k < |t.waiting| && t.waiting[k].hash == h {
        assert t.waiting[k] == s.waiting[if k < i then k else k + 1];
      }
    case Work(i) =>
      assert After(s, e).active[0].job == s.active[0].job;
    case Finish(i) =>
      assert After(s, e).active == [];
  }

  lemma WaitsAppended<L, D>(s: State<L, D>, t: State<L, D>, job: Job<L, D>, h: Digest)
    requires t.waiting == s.waiting + [job]
    ensures WaitsFor(t, h) <==> WaitsFor(s, h) || job.hash == h
  {
    assert t.waiting[|s.waiting|] == job;
    if k :| 0 <= k < |s.waiting| && s.waiting[k].hash == h {
      assert t.waiting[k] == s.waiting[k];
    }
  }

  /** Finishing keeps the frontier exact if and only if no waiting worker has the same hash. */
  lemma FinishExact<L, D>(s: State<L, D>, i: nat, first: D)
    requires Exclusive(s, first) && FrontierExact(s) && Enabled(s, Finish(i))
    ensures FrontierExact(After(s, Finish(i))) <==> !WaitsFor(s, s.active[i].job.hash)
  {
    var t, hash := After(s, Finish(i)), s.active[i].job.hash;
    StepUnfinished(s, Finish(i), first, hash);
    assert hash !in t.frontier;
    if !WaitsFor(s, hash) {
      forall h ensures h in t.frontier <==> Unfinished(t, h) {
        StepUnfinished(s, Finish(i), first, h);
      }
    }
  }

  ghost predicate Fresh<L, D>(s: State<L, D>, e: Event<L, D>) {
    e.Submit? ==> e.job.hash !in s.frontier
  }

  lemma StepFrontier<L, D>(s: State<L, D>, e: Event<L, D>, first: D)
    requires Exclusive(s, first) && Enabled(s, e) && FrontierExact(s) && Apart(s) && Fresh(s, e)
    ensures FrontierExact(After(s, e)) && Apart(After(s, e))
  {
    var t := After(s, e);
    StepApart(s, e, first);
    if e.Finish? {
      FinishExact(s, e.i, first);
    } else {
      forall h ensures h in t.frontier <==> Unfinished(t, h) {
        StepUnfinished(s, e, first, h);
      }
    }
  }

  lemma StepApart<L, D>(s: State<L, D>, e: Event<L, D>, first: D)
    requires Exclusive(s, first) && Enabled(s, e) && FrontierExact(s) && Apart(s) && Fresh(s, e)
    ensures Apart(After(s, e))
  {
    match e
    case Announce(job, known) =>
      if job.hash !in s.frontier {
        NotUnfinished(s, job.hash);
      }
    case Submit(job) => NotUnfinished(s, job.hash);
    case Take(i) =>
      var t := After(s, e);
      forall k | 0 <= k < |t.waiting| ensures t.waiting[k] == s.waiting[if k < i then k else k + 1] {
      }
    case Work(i) =>
      assert After(s, e).active[0].job == s.active[0].job;
    case Finish(i) =>
      assert After(s, e).active == [];
  }

  lemma NotUnfinished<L, D>(s: State<L, D>, h: Digest)
    requires FrontierExact(s) && h !in s.frontier
    ensures forall i :: 0 <= i < |s.waiting| ==> s.waiting[i].hash != h
    ensures forall i :: 0 <= i < |s.active| ==> s.active[i].job.hash != h
  {
    assert !Unfinished(s, h);
  }

  ghost predicate AllFresh<L, D>(s: State<L, D>, events: seq<Event<L, D>>)
    requires CanRun(s, events)
    decreases |events|
  {
    events == [] || (Fresh(s, events[0]) && AllFresh(After(s, events[0]), events[1..]))
  }

  /** If what the client submits itself is never on the frontier, the frontier is exactly the unfinished hashes. */
  lemma {:induction false} FrontierStaysExact<L, D>(s: State<L, D>, events: seq<Event<L, D>>, first: D)
    requires Exclusive(s, first) && FrontierExact(s) && Apart(s)
    requires CanRun(s, events) && AllFresh(s, events)
    ensures FrontierExact(Ran(s, events)) && Apart(Ran(s, events))
    decreases |events|
  {
    hide Exclusive, FrontierExact, Apart;
    if events != [] {
      StepExclusive(s, events[0], first);
      StepFrontier(s, events[0], first);
      FrontierStaysExact(After(s, events[0]), events[1..], first);
    }
  }

  lemma FrontierFromStart<L, D>(tables: D, events: seq<Event<L, D>>)
    requires CanRun(Initial<L, D>(tables), events) && AllFresh(Initial<L, D>(tables), events)
    ensures FrontierExact(Ran(Initial<L, D>(tables), events))
  {
    FrontierStaysExact(Initial<L, D>(tables), events, tables);
  }

  ghost predicate Started<L, D>(s: State<L, D>, h: Digest) {
    exists i :: 0 <= i < |s.started| && s.started[i].hash == h
  }

  lemma StepKeepsTurn<L, D>(s: State<L, D>, e: Event<L, D>, h: Digest)
    requires Enabled(s, e) && (WaitsFor(s, h) || Started(s, h))
    ensures WaitsFor(After(s, e), h) || Started(After(s, e), h)
  {
    var t := After(s, e);
    if i :| 0 <= i < |s.started| && s.started[i].hash == h {
      assert t.started[i] == s.started[i];
    } else {
      var i :| 0 <= i < |s.waiting| && s.waiting[i].hash == h;
      if e.Take? && e.i == i {
        assert t.started[|s.started|] == s.waiting[i];
      } else {
        assert t.waiting[if e.Take? && e.i < i then i - 1 else i] == s.waiting[i];
      }
    }
  }

  lemma {:induction false} KeepsTurn<L, D>(s: State<L, D>, events: seq<Event<L, D>>, h: Digest)
    requires CanRun(s, events) && (WaitsFor(s, h) || Started(s, h))
    ensures WaitsFor(Ran(s, events), h) || Started(Ran(s, events), h)
    decreases |events|
  {
    if events != [] {
      StepKeepsTurn(s, events[0], h);
      KeepsTurn(After(s, events[0]), events[1..], h);
    }
  }

  /** A hash that is announced and not recorded is resolved by some worker before all are done. */
  lemma AnnouncedIsServed<L, D>(s: State<L, D>, job: Job<L, D>, events: seq<Event<L, D>>, first: D)
    requires Exclusive(s, first) && FrontierExact(s) && CanRun(After(s, Announce(job, false)), events)
    ensures
      var end := Ran(After(s, Announce(job, false)), events);
      Started(end, job.hash) || WaitsFor(end, job.hash)
  {
    var t := After(s, Announce(job, false));
    StepUnfinished(s, Announce(job, false), first, job.hash);
    assert WaitsFor(t, job.hash) || Started(t, job.hash);
    KeepsTurn(t, events, job.hash);
  }

  // --- A hash submitted twice ---

  lemma {:induction false} RunsJoin<L, D>(s: State<L, D>, a: seq<Event<L, D>>, b: seq<Event<L, D>>)
    requires CanRun(s, a) && CanRun(Ran(s, a), b)
    ensures CanRun(s, a + b) && Ran(s, a + b) == Ran(Ran(s, a), b)
    decreases |a|
  {
    if a == [] {
      assert a + b == b;
    } else {
      assert (a + b)[1..] == a[1..] + b;
      RunsJoin(After(s, a[0]), a[1..], b);
    }
  }

  /** The worker that holds the token can go on by itself until it has handed it back. */
  lemma {:induction false} HolderFinishes<L, D>(s: State<L, D>, first: D) returns (events: seq<Event<L, D>>)
    requires Exclusive(s, first) && s.active != []
    ensures CanRun(s, events) && AllInternal(events)
    ensures
      var end := Ran(s, events);
      && end.active == [] && end.tokens == 1 && end.waiting == s.waiting
      && end.frontier == s.frontier - {s.active[0].job.hash}
    decreases Remaining(s.active[0])
  {
    var done := s.active[0].pc >= |s.active[0].job.work|;
    var e: Event<L, D> := if done then Finish(0) else Work(0);
    var t := After(s, e);
    var rest: seq<Event<L, D>> := [];
    if !done {
      StepExclusive(s, e, first);
      rest := HolderFinishes(t, first);
    }
    events := [e] + rest;
    RunOne(s, e, rest);
  }

  /** A waiting worker can be given a free token and finish. */
  lemma WaiterFinishes<L, D>(s: State<L, D>, i: nat, first: D) returns (events: seq<Event<L, D>>)
    requires Exclusive(s, first) && s.active == [] && i < |s.waiting|
    ensures CanRun(s, events) && AllInternal(events)
    ensures
      var end := Ran(s, events);
      end.active == [] && end.waiting == Without(s.waiting, i) && end.frontier == s.frontier - {s.waiting[i].hash}
  {
    StepExclusive(s, Take(i), first);
    var rest := HolderFinishes(After(s, Take(i)), first);
    events := [Take(i)] + rest;
    RunOne(s, Take(i), rest);
  }

  /** After a hash on an exact frontier is submitted again, the workers can go on to a state where it is inexact. */
  lemma DuplicateBreaks<L, D>(s: State<L, D>, job: Job<L, D>, first: D) returns (events: seq<Event<L, D>>)
    requires Exclusive(s, first) && FrontierExact(s) && job.hash in s.frontier
    ensures
      var t := After(s, Submit(job));
      CanRun(t, events) && AllInternal(events) && !FrontierExact(Ran(t, events))
  {
    var t := After(s, Submit(job));
    StepExclusive(s, Submit(job), first);
    assert Unfinished(s, job.hash);
    events := [];
    var u := t;
    if s.active != [] {
      events := HolderFinishes(t, first);
      u := Ran(t, events);
      AlwaysExclusive(t, events, first);
    }
    if s.active != [] && s.active[0].job.hash == job.hash {
      assert u.waiting[|s.waiting|] == job;
      assert Unfinished(u, job.hash) && job.hash !in u.frontier;
    } else {
      var i :| 0 <= i < |s.waiting| && s.waiting[i].hash == job.hash;
      assert u.waiting[i] == s.waiting[i];
      var more := WaiterFinishes(u, i, first);
      RunsJoin(t, events, more);
      var end := Ran(u, more);
      assert end.waiting[|s.waiting| - 1] == u.waiting[|s.waiting|] == job;
      assert Unfinished(end, job.hash) && job.hash !in end.frontier;
      events := events + more;
    }
  }

  ghost predicate ExactThroughout<L(!new), D(!new)>(s: State<L, D>) {
    forall events: seq<Event<L, D>> :: CanRun(s, events) && AllInternal(events) ==> FrontierExact(Ran(s, events))
  }

  /**
   What the client submits itself keeps the frontier exact, however the workers go on,
   if and only if its hash is not on the frontier.
   */
  lemma SubmitIsSafeIffFresh<L(!new), D(!new)>(s: State<L, D>, job: Job<L, D>, first: D)
    requires Exclusive(s, first) && FrontierExact(s) && Apart(s)
    ensures ExactThroughout(After(s, Submit(job))) <==> job.hash !in s.frontier
  {
    hide Exclusive, FrontierExact, Apart;
    var t := After(s, Submit(job));
    if job.hash in s.frontier {
      var events := DuplicateBreaks(s, job, first);
    } else {
      StepExclusive(s, Submit(job), first);
      StepFrontier(s, Submit(job), first);
      forall events: seq<Event<L, D>> | CanRun(t, events) && AllInternal(events) ensures FrontierExact(Ran(t, events)) {
        InternalIsFresh(t, events);
        FrontierStaysExact(t, events, first);
      }
    }
  }

  lemma {:induction false} InternalIsFresh<L, D>(s: State<L, D>, events: seq<Event<L, D>>)
    requires CanRun(s, events) && AllInternal(events)
    ensures AllFresh(s, events)
    decreases |events|
  {
    if events != [] {
      forall i | 0 <= i < |events[1..]| ensures Internal(events[1..][i]) {
        assert events[1..][i] == events[i + 1];
      }
      InternalIsFresh(After(s, events[0]), events[1..]);
    }
  }

  /** A concrete input: whatever its work is, a job submitted twice to an idle client leads to an inexact frontier. */
  lemma SubmittedTwice<L, D>(tables: D, job: Job<L, D>) returns (events: seq<Event<L, D>>)
    ensures
      var t := After(After(Initial<L, D>(tables), Submit(job)), Submit(job));
      CanRun(t, events) && AllInternal(events) && !FrontierExact(Ran(t, events))
  {
    var s := After(Initial<L, D>(tables), Submit(job));
    assert s.waiting[0] == job;
    events := DuplicateBreaks(s, job, tables);
  }

  lemma RunOne<L, D>(s: State<L, D>, e: Event<L, D>, rest: seq<Event<L, D>>)
    requires Enabled(s, e) && CanRun(After(s, e), rest)
    ensures CanRun(s, [e] + rest) && Ran(s, [e] + rest) == Ran(After(s, e), rest)
  {
    assert ([e] + rest)[1..] == rest;
  }
}
