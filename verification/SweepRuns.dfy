/** The runs of one protocol object, and how many attempts its sweep tasks can bring a frame to. */
module SweepRuns {
  import opened Bytes
  import opened Confirmations
  import opened Dicts
  import opened Retransmits
  import opened SweepTasks
  import opened Wrappers

  // ---- Runs -----------------------------------------------------------------------------

  /** What is sent along a run: anything, nothing, nothing under a code, or anything but a frame. */
  datatype Sending = Anything | Nothing | NotUnder(code: Byte) | AllBut(frame: Frame)

  predicate Allows(s: Sending, e: Event) {
    e.Wrote? ==>
      match s
      case Anything => true
      case Nothing => false
      case NotUnder(c) => e.code != c
      case AllBut(f) => Frame(e.code, e.data) != f
  }

  predicate Keeps(events: seq<Event>, s: Sending) {
    forall e | e in events :: Allows(s, e)
  }

  /** Some run from one machine to the other sends no more than that. */
  ghost predicate Leads(m: Machine, n: Machine, s: Sending) {
    exists events :: Feasible(m, events) && Run(m, events) == n && Keeps(events, s)
  }

  ghost predicate Reachable(m: Machine) {
    Leads(START, m, Anything)
  }

  predicate Stricter(s: Sending, w: Sending) {
    s == w || s.Nothing? || w.Anything? || (s.NotUnder? && w.AllBut? && s.code == w.frame.code)
  }

  lemma {:induction false} RunsConcat(m: Machine, a: seq<Event>, b: seq<Event>)
    requires Feasible(m, a) && Feasible(Run(m, a), b)
    ensures Feasible(m, a + b) && Run(m, a + b) == Run(Run(m, a), b)
    decreases |a|
  {
    if a == [] {
      assert a + b == b;
    } else {
      assert (a + b)[1..] == a[1..] + b;
      RunsConcat(Step(m, a[0]), a[1..], b);
    }
  }

  lemma LeadsFurther(m: Machine, n: Machine, k: Machine, s: Sending, w: Sending)
    requires Leads(m, n, w) && Leads(n, k, s) && Stricter(s, w)
    ensures Leads(m, k, w)
  {
    var a :| Feasible(m, a) && Run(m, a) == n && Keeps(a, w);
    var b :| Feasible(n, b) && Run(n, b) == k && Keeps(b, s);
    RunsConcat(m, a, b);
    assert Keeps(a + b, w);
  }

  lemma LeadsToItself(m: Machine, s: Sending)
    ensures Leads(m, m, s)
  {
    assert Feasible(m, []) && Run(m, []) == m && Keeps([], s);
  }

  lemma LeadsOneStep(m: Machine, e: Event, s: Sending)
    requires Possible(m, e) && Allows(s, e)
    ensures Leads(m, Step(m, e), s)
  {
    assert [e][1..] == [];
    assert Feasible(Step(m, e), []);
    assert Feasible(m, [e]) && Run(m, [e]) == Step(m, e) && Keeps([e], s);
  }

  lemma LeadsOn(m: Machine, n: Machine, e: Event, s: Sending)
    requires Leads(m, n, s) && Possible(n, e) && Allows(s, e)
    ensures Leads(m, Step(n, e), s)
  {
    LeadsOneStep(n, e, s);
    LeadsFurther(m, n, Step(n, e), s, s);
  }

  lemma LeadsToOk(m: Machine, n: Machine, s: Sending)
    requires MachineOk(m) && Leads(m, n, s)
    ensures MachineOk(n)
  {
    var events :| Feasible(m, events) && Run(m, events) == n && Keeps(events, s);
    RunIsOk(m, events);
  }

  // ---- One task alone -------------------------------------------------------------------

  /** What a task writes, and what it leaves of the tables, if its write number `writes` fails. */
  function Worked(p: Pool, abandon: seq<Byte>, retry: seq<Frame>, now: Instant, writes: nat): (Pool, seq<Frame>) {
    var r := AbandonAll(p, abandon);
    if writes < |retry| then (MarkAll(r, retry[..writes + 1], now), retry[..writes])
    else (MarkAll(r, retry, now), retry)
  }

  lemma AbandonsOne(m: Machine, i: nat, now: Instant, abandon: seq<Byte>, retry: seq<Frame>) returns (n: Machine)
    requires i < |m.tasks| && m.tasks[i] == Working(now, abandon, None, retry, None) && abandon != []
    ensures n == m.(pool := Release(RemovePending(m.pool, abandon[0]), abandon[0]),
                    tasks := m.tasks[i := Working(now, abandon[1..], None, retry, None)])
    ensures Leads(m, n, Nothing)
  {
    var e := Advance(i, now, true);
    n := Step(Step(m, e), e);
    LeadsOneStep(m, e, Nothing);
    LeadsOn(m, Step(m, e), e, Nothing);
    assert n.written == m.written;
  }

  lemma RetriesOne(m: Machine, i: nat, now: Instant, retry: seq<Frame>, ok: bool) returns (n: Machine)
    requires i < |m.tasks| && m.tasks[i] == Working(now, [], None, retry, None) && retry != []
    ensures n == Machine(MarkRetry(m.pool, retry[0], now),
                         m.tasks[i := if ok then Working(now, [], None, retry[1..], None) else Asleep],
                         if ok then m.written + [retry[0]] else m.written)
    ensures Leads(m, n, Nothing)
  {
    var mark, write := Advance(i, now, true), Advance(i, now, ok);
    n := Step(Step(m, mark), write);
    LeadsOneStep(m, mark, Nothing);
    LeadsOn(m, Step(m, mark), write, Nothing);
    assert Step(m, mark).written == m.written;
  }

  lemma FallsAsleep(m: Machine, i: nat, now: Instant)
    requires i < |m.tasks| && m.tasks[i] == Working(now, [], None, [], None)
    ensures Leads(m, m.(tasks := m.tasks[i := Asleep]), Nothing)
  {
    LeadsOneStep(m, Advance(i, now, true), Nothing);
    assert Step(m, Advance(i, now, true)) == m.(tasks := m.tasks[i := Asleep]);
  }

  /** The sections of a task at work, one after the other. */
  lemma {:induction false} WorksAlone(m: Machine, i: nat, now: Instant, abandon: seq<Byte>, retry: seq<Frame>,
                                      writes: nat)
    requires i < |m.tasks| && m.tasks[i] == Working(now, abandon, None, retry, None)
    ensures var (pool, written) := Worked(m.pool, abandon, retry, now, writes);
            Leads(m, Machine(pool, m.tasks[i := Asleep], m.written + written), Nothing)
    decreases |abandon| + |retry|
  {
    var (pool, written) := Worked(m.pool, abandon, retry, now, writes);
    var end := Machine(pool, m.tasks[i := Asleep], m.written + written);
    if abandon != [] {
      var n := AbandonsOne(m, i, now, abandon, retry);
      WorksAlone(n, i, now, abandon[1..], retry, writes);
      assert n.tasks[i := Asleep] == m.tasks[i := Asleep];
      LeadsFurther(m, n, end, Nothing, Nothing);
    } else if retry == [] {
      FallsAsleep(m, i, now);
      assert m.written + [] == m.written;
    } else {
      var n := RetriesOne(m, i, now, retry, writes > 0);
      assert n.tasks[i := Asleep] == m.tasks[i := Asleep];
      if writes > 0 {
        WorksAlone(n, i, now, [], retry[1..], writes - 1);
        WorkedFirst(m.pool, retry, now, writes);
        Regroup(m.written, [retry[0]], Worked(n.pool, [], retry[1..], now, writes - 1).1);
        LeadsFurther(m, n, end, Nothing, Nothing);
      } else {
        assert retry[..1][1..] == [] && m.written + [] == m.written;
        assert MarkAll(m.pool, retry[..1], now) == MarkRetry(m.pool, retry[0], now);
      }
    }
  }

  lemma WorkedFirst(p: Pool, retry: seq<Frame>, now: Instant, writes: nat)
    requires retry != [] && writes > 0
    ensures var (pool, written) := Worked(MarkRetry(p, retry[0], now), [], retry[1..], now, writes - 1);
            Worked(p, [], retry, now, writes) == (pool, [retry[0]] + written)
  {
    if writes < |retry| {
      assert retry[..writes + 1][0] == retry[0] && retry[..writes + 1][1..] == retry[1..][..writes];
      assert retry[..writes] == [retry[0]] + retry[1..][..writes - 1];
    } else {
      assert retry == [retry[0]] + retry[1..];
    }
  }

  /** A task whose sections run without interruption sweeps as a whole sweep does, a failing write included. */
  lemma TaskAloneIsSweep(m: Machine, i: nat, now: Instant, checked: Instant, writes: nat)
    requires i < |m.tasks| && m.tasks[i] == Asleep
    ensures var (pool, written) := SweepUpTo(m.pool, now, checked, writes);
            Leads(m, Machine(pool, m.tasks, m.written + written), Nothing)
  {
    var wake, check, list := Advance(i, now, true), Advance(i, checked, true), Advance(i, now, true);
    var m1 := Step(m, wake);
    var m2 := Step(m1, check);
    var m3 := Step(m2, list);
    LeadsOneStep(m, wake, Nothing);
    LeadsOn(m, m1, check, Nothing);
    LeadsOn(m, m2, list, Nothing);
    var p := m2.pool.pending;
    WorksAlone(m3, i, now, ToAbandon(p.values, p.order, now), ToRetry(p.values, p.order, now), writes);
    var (pool, written) := SweepUpTo(m.pool, now, checked, writes);
    assert m3.tasks[i := Asleep] == m.tasks && m3.written == m.written;
    LeadsFurther(m, m3, Machine(pool, m.tasks, m.written + written), Nothing, Nothing);
  }

  // ---- One frame in the tables ----------------------------------------------------------

  /** A pool with one frame awaiting its confirmation. */
  function Lone(c: Byte, since: Instant, data: seq<Byte>, attempts: nat, at: Instant): Pool {
    Pool(Entries([c], map[c := since]), Entries([c], map[c := Sent(data, attempts, at)]), 1)
  }

  lemma LoneIsQuiet(c: Byte, since: Instant, data: seq<Byte>, attempts: nat, at: Instant, now: Instant)
    requires now - since <= TIMEOUT
    ensures ReleaseTimedOut(Lone(c, since, data, attempts, at), now) == Lone(c, since, data, attempts, at)
  {
    var p := Lone(c, since, data, attempts, at);
    assert TimedOut(p, now) == {};
    WithoutNone(p.inUse, {});
    WithoutNone(p.pending, {});
  }

  lemma LoneIsRetried(c: Byte, data: seq<Byte>, attempts: nat, at: Instant, now: Instant)
    requires attempts < MAX_ATTEMPTS && at + RETRY_INTERVAL <= now
    ensures ToRetry(map[c := Sent(data, attempts, at)], [c], now) == [Frame(c, data)]
    ensures ToAbandon(map[c := Sent(data, attempts, at)], [c], now) == []
  {
    assert [c][1..] == [];
  }

  /** A task that has found the frame overdue, and one that has counted it and is about to write it. */
  function ReadyToMark(now: Instant, c: Byte, data: seq<Byte>): Task {
    Working(now, [], None, [Frame(c, data)], None)
  }

  function About(now: Instant, c: Byte, data: seq<Byte>): Task {
    Working(now, [], None, [], Some(Frame(c, data)))
  }

  lemma TaskFindsOverdue(m: Machine, i: nat, c: Byte, since: Instant, data: seq<Byte>, attempts: nat, at: Instant,
                         now: Instant)
    requires i < |m.tasks| && m.tasks[i].Asleep? && m.pool == Lone(c, since, data, attempts, at)
    requires attempts < MAX_ATTEMPTS && at + RETRY_INTERVAL <= now <= since + TIMEOUT
    ensures Leads(m, m.(tasks := m.tasks[i := ReadyToMark(now, c, data)]), Nothing)
  {
    var e := Advance(i, now, true);
    var m1 := Step(m, e);
    var m2 := Step(m1, e);
    LoneIsQuiet(c, since, data, attempts, at, now);
    var m3 := Step(m2, e);
    LeadsOneStep(m, e, Nothing);
    LeadsOn(m, m1, e, Nothing);
    LeadsOn(m, m2, e, Nothing);
    LoneIsRetried(c, data, attempts, at, now);
    assert m3.tasks[i] == ReadyToMark(now, c, data);
    assert m3 == m.(tasks := m.tasks[i := ReadyToMark(now, c, data)]);
  }

  /** The task counts the frame it has listed, whatever is pending under its code by then. */
  lemma TaskMarks(m: Machine, i: nat, c: Byte, since: Instant, data: seq<Byte>, entry: seq<Byte>, attempts: nat,
                  at: Instant, now: Instant)
    requires i < |m.tasks| && m.tasks[i] == ReadyToMark(now, c, data) && m.pool == Lone(c, since, entry, attempts, at)
    ensures Leads(m, m.(pool := Lone(c, since, data, attempts + 1, now), tasks := m.tasks[i := About(now, c, data)]),
                  Nothing)
  {
    var e := Advance(i, now, true);
    LeadsOneStep(m, e, Nothing);
    assert [Frame(c, data)][1..] == [];
    assert Step(m, e)
        == m.(pool := Lone(c, since, data, attempts + 1, now), tasks := m.tasks[i := About(now, c, data)]);
  }

  /** A task writes its frame and goes back to sleep. */
  lemma TaskFinishes(m: Machine, i: nat, c: Byte, data: seq<Byte>, now: Instant)
    requires i < |m.tasks| && m.tasks[i] == About(now, c, data)
    ensures Leads(m, m.(tasks := m.tasks[i := Asleep], written := m.written + [Frame(c, data)]), Nothing)
  {
    var e := Advance(i, now, true);
    LeadsOneStep(m, e, Nothing);
    LeadsOn(m, Step(m, e), e, Nothing);
    assert Step(Step(m, e), e).tasks == m.tasks[i := Asleep];
    assert m.written + [Frame(c, data)] + [] == m.written + [Frame(c, data)];
  }

  /** A task that has listed the frame counts it, writes it and goes back to sleep. */
  lemma TaskRewrites(m: Machine, i: nat, c: Byte, since: Instant, data: seq<Byte>, entry: seq<Byte>, attempts: nat,
                     at: Instant, now: Instant)
    requires i < |m.tasks| && m.tasks[i] == ReadyToMark(now, c, data) && m.pool == Lone(c, since, entry, attempts, at)
    ensures Leads(m, Machine(Lone(c, since, data, attempts + 1, now), m.tasks[i := Asleep],
                             m.written + [Frame(c, data)]), Nothing)
  {
    var marked := m.(pool := Lone(c, since, data, attempts + 1, now), tasks := m.tasks[i := About(now, c, data)]);
    TaskMarks(m, i, c, since, data, entry, attempts, at, now);
    TaskFinishes(marked, i, c, data, now);
    var done := marked.(tasks := marked.tasks[i := Asleep], written := marked.written + [Frame(c, data)]);
    LeadsFurther(m, marked, done, Nothing, Nothing);
    assert done.tasks == m.tasks[i := Asleep];
  }

  // ---- How many attempts are reached ----------------------------------------------------

  const FIRST: Byte := 0x68

  function Sleepers(n: nat): (tasks: seq<Task>)
    ensures |tasks| == n && forall i | 0 <= i < n :: tasks[i] == Asleep
  {
    seq(n, i => Asleep)
  }

  lemma {:induction false} ConnectionsMade(n: nat)
    ensures Reachable(Machine(EMPTY, Sleepers(n), []))
  {
    if n == 0 {
      LeadsToItself(START, Anything);
      assert Sleepers(0) == [];
    } else {
      ConnectionsMade(n - 1);
      LeadsOn(START, Machine(EMPTY, Sleepers(n - 1), []), Connect, Anything);
      assert Sleepers(n - 1) + [Asleep] == Sleepers(n);
    }
  }

  /** A frame is sent once all connections are made. */
  function JustSent(n: nat, data: seq<Byte>): Machine {
    Machine(Lone(FIRST, 0.0, data, 1, 0.0), Sleepers(n), [])
  }

  lemma JustSentIsReached(n: nat, data: seq<Byte>)
    ensures Reachable(JustSent(n, data))
  {
    var m := Machine(EMPTY, Sleepers(n), []);
    ConnectionsMade(n);
    var d := Step(m, Request(0.0));
    assert FIRST == CONFIRMATION_CODES[0];
    var e := Step(d, Wrote(FIRST, data, 0.0));
    LeadsOn(START, m, Request(0.0), Anything);
    LeadsOn(START, d, Wrote(FIRST, data, 0.0), Anything);
    assert Taken(EMPTY) == {};
    assert e.pool == Lone(FIRST, 0.0, data, 1, 0.0);
  }

  /** All tasks up to `i` have found the frame with two attempts, none has counted its own. */
  function Found(n: nat, i: nat, data: seq<Byte>): (m: Machine)
    requires i <= n
    ensures |m.tasks| == n
  {
    Machine(Lone(FIRST, 0.0, data, 2, 1.0), seq(n, j => if j < i then ReadyToMark(2.0, FIRST, data) else Asleep),
            [Frame(FIRST, data)])
  }

  /** Then the first `i` of them count it. */
  function Counted(n: nat, i: nat, data: seq<Byte>): (m: Machine)
    requires i <= n
    ensures |m.tasks| == n
  {
    Machine(Lone(FIRST, 0.0, data, 2 + i, if i == 0 then 1.0 else 2.0),
            seq(n, j => if j < i then About(2.0, FIRST, data) else ReadyToMark(2.0, FIRST, data)),
            [Frame(FIRST, data)])
  }

  /** The first task brings the frame to two attempts. */
  lemma TwoAttempts(n: nat, data: seq<Byte>)
    requires n > 0
    ensures Leads(JustSent(n, data), Found(n, 0, data), Nothing)
  {
    var m := JustSent(n, data);
    TaskFindsOverdue(m, 0, FIRST, 0.0, data, 1, 0.0, 1.0);
    var found := m.(tasks := m.tasks[0 := ReadyToMark(1.0, FIRST, data)]);
    TaskRewrites(found, 0, FIRST, 0.0, data, data, 1, 0.0, 1.0);
    LeadsFurther(m, found, Found(n, 0, data), Nothing, Nothing) by {
      assert found.tasks[0 := Asleep] == Found(n, 0, data).tasks && [] + [Frame(FIRST, data)] == [Frame(FIRST, data)];
    }
  }

  lemma {:induction false} AllFind(n: nat, i: nat, data: seq<Byte>)
    requires 0 < n && i <= n
    ensures Leads(JustSent(n, data), Found(n, i, data), Nothing)
  {
    if i == 0 {
      TwoAttempts(n, data);
    } else {
      var m := Found(n, i - 1, data);
      AllFind(n, i - 1, data);
      TaskFindsOverdue(m, i - 1, FIRST, 0.0, data, 2, 1.0, 2.0);
      assert m.tasks[i - 1 := ReadyToMark(2.0, FIRST, data)] == Found(n, i, data).tasks;
      LeadsFurther(JustSent(n, data), m, Found(n, i, data), Nothing, Nothing);
    }
  }

  lemma {:induction false} AllCount(n: nat, i: nat, data: seq<Byte>)
    requires 0 < n && i <= n
    ensures Leads(JustSent(n, data), Counted(n, i, data), Nothing)
  {
    if i == 0 {
      AllFind(n, n, data);
      assert Found(n, n, data).tasks == Counted(n, 0, data).tasks;
    } else {
      var m := Counted(n, i - 1, data);
      AllCount(n, i - 1, data);
      TaskMarks(m, i - 1, FIRST, 0.0, data, data, 1 + i, if i == 1 then 1.0 else 2.0, 2.0);
      assert m.tasks[i - 1 := About(2.0, FIRST, data)] == Counted(n, i, data).tasks;
      LeadsFurther(JustSent(n, data), m, Counted(n, i, data), Nothing, Nothing);
    }
  }

  /** Some run makes `n` calls of `connection_made` on the object and brings a frame to `k` attempts. */
  ghost predicate Attains(n: nat, k: nat) {
    exists m, c :: Reachable(m) && |m.tasks| == n && c in m.pool.pending.values
                   && m.pool.pending.values[c].attempts == k
  }

  /** The attempts an object can reach after `n` calls of `connection_made` are exactly those up to two plus `n`; so
      the limit of three holds for an object exactly if the call is made no more than once. */
  lemma AttemptsAttainedIff(n: nat, k: nat)
    requires n > 0
    ensures Attains(n, k) <==> 1 <= k <= 2 + n
  {
    if Attains(n, k) {
      var m, c :| Reachable(m) && |m.tasks| == n && c in m.pool.pending.values
                  && m.pool.pending.values[c].attempts == k;
      var events :| Feasible(START, events) && Run(START, events) == m && Keeps(events, Anything);
      AttemptsAreBounded(events, c);
    }
    JustSentIsReached(n, []);
    if k == 1 {
      assert FIRST in JustSent(n, []).pool.pending.values;
    } else if 2 <= k <= 2 + n {
      AllCount(n, k - 2, []);
      LeadsFurther(START, JustSent(n, []), Counted(n, k - 2, []), Nothing, Anything);
      assert FIRST in Counted(n, k - 2, []).pool.pending.values;
    }
  }
}
