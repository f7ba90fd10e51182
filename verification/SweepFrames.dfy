/** How often the sweep tasks of one protocol object write a frame, told by its code and its data: after its
    confirmation, after it was sent, and when its code is given to another frame. */
module SweepFrames {
  import opened Bytes
  import opened Confirmations
  import opened Dicts
  import opened Retransmits
  import opened SweepRuns
  import opened SweepTasks
  import opened Wrappers

  // ---- Counting frames ------------------------------------------------------------------

  function Times(frames: seq<Frame>, f: Frame): nat {
    if frames == [] then 0 else (if frames[0] == f then 1 else 0) + Times(frames[1..], f)
  }

  lemma {:induction false} TimesConcat(a: seq<Frame>, b: seq<Frame>, f: Frame)
    ensures Times(a + b, f) == Times(a, f) + Times(b, f)
  {
    if a == [] {
      assert a + b == b;
    } else {
      TimesConcat(a[1..], b, f);
      assert (a + b)[1..] == a[1..] + b;
    }
  }

  /** How often the tasks still mean to write a frame: those that list it, and those about to write it. */
  function Held(tasks: seq<Task>, f: Frame): nat {
    Tally(tasks, Lists(f)) + Tally(tasks, InHand(f))
  }

  /** How often it is written already, and how often the tasks still mean to. */
  function Total(m: Machine, f: Frame): nat {
    Times(m.written, f) + Held(m.tasks, f)
  }

  lemma {:induction false} TallyOfOneMore(tasks: seq<Task>, h: Hold)
    ensures Tally(tasks + [Asleep], h) == Tally(tasks, h)
  {
    if tasks == [] {
      assert tasks + [Asleep] == [Asleep] && [Asleep][1..] == [];
    } else {
      TallyOfOneMore(tasks[1..], h);
      assert (tasks + [Asleep])[1..] == tasks[1..] + [Asleep];
    }
  }

  lemma {:induction false} TallySome(tasks: seq<Task>, h: Hold)
    ensures Tally(tasks, h) > 0 <==> exists i | 0 <= i < |tasks| :: Has(tasks[i], h)
  {
    if tasks != [] {
      TallySome(tasks[1..], h);
      if i :| 0 <= i < |tasks[1..]| && Has(tasks[1..][i], h) {
        assert Has(tasks[i + 1], h);
      }
      if i :| 0 <= i < |tasks| && Has(tasks[i], h) {
        assert i > 0 ==> Has(tasks[1..][i - 1], h);
      }
    }
  }

  lemma ListedHasCode(frames: seq<Frame>, f: Frame)
    requires f in frames
    ensures f.code in CodesOf(frames)
  {
    var i :| 0 <= i < |frames| && frames[i] == f;
    assert CodesOf(frames)[i] == f.code;
  }

  lemma {:induction false} ListsItsCode(tasks: seq<Task>, f: Frame)
    ensures Tally(tasks, Lists(f)) <= Tally(tasks, ListsCode(f.code))
  {
    if tasks != [] {
      ListsItsCode(tasks[1..], f);
      if Has(tasks[0], Lists(f)) {
        ListedHasCode(tasks[0].retry, f);
      }
    }
  }

  // ---- What the tasks may still write ---------------------------------------------------

  /** How often a frame that `listed` of `most` tasks have on their lists can still be marked for writing. */
  function Remaining(p: Pool, listed: nat, most: nat, f: Frame): int {
    if f.code in p.pending.values then
      var sent := p.pending.values[f.code];
      if sent.data == f.data || listed > 0 then 2 + most - sent.attempts else 0
    else listed
  }

  /** What is written, is in hand, or may still be marked. */
  function Budget(m: Machine, f: Frame): int {
    Times(m.written, f) + Tally(m.tasks, InHand(f)) + Remaining(m.pool, Tally(m.tasks, Lists(f)), |m.tasks|, f)
  }

  predicate Affords(p: Pool, listed: nat, most: nat, f: Frame) {
    f.code in p.pending.values ==> p.pending.values[f.code].attempts + listed <= 2 + most
  }

  lemma MarkSpends(p: Pool, t: Task, f: Frame, listed: nat, most: nat)
    requires t.Working? && TaskOk(t) && t.sending.None? && t.retry != []
    requires Claim(t, Lists(f)) <= listed && Affords(p, listed, most, f)
    ensures var u := t.(retry := t.retry[1..], sending := Some(t.retry[0]));
            Claim(u, InHand(f))
            + Remaining(MarkRetry(p, t.retry[0], t.now), listed - Claim(t, Lists(f)) + Claim(u, Lists(f)), most, f)
            <= Remaining(p, listed, most, f)
  {
    TailCodes(t.retry, f.code);
    if f in t.retry[1..] {
      ListedHasCode(t.retry[1..], f);
    }
    assert f in t.retry <==> f == t.retry[0] || f in t.retry[1..];
  }

  /** A section of a task never adds to what may still be written. */
  lemma SectionSpends(p: Pool, t: Task, now: Instant, ok: bool, f: Frame, listed: nat, most: nat)
    requires TaskOk(t) && Claim(t, Lists(f)) <= listed && Affords(p, listed, most, f)
    ensures var (q, u, written) := TaskStep(p, t, now, ok);
            Times(written, f) + Claim(u, InHand(f))
            + Remaining(q, listed - Claim(t, Lists(f)) + Claim(u, Lists(f)), most, f)
            <= Claim(t, InHand(f)) + Remaining(p, listed, most, f)
  {
    if t.Working? {
      if t.sending.Some? {
        assert [t.sending.value][1..] == [];
      } else if t.freeing.None? && t.abandon == [] && t.retry != [] {
        MarkSpends(p, t, f, listed, most);
      }
    }
  }

  lemma MachineAffords(m: Machine, f: Frame)
    requires MachineOk(m)
    ensures Affords(m.pool, Tally(m.tasks, Lists(f)), |m.tasks|, f)
    ensures Remaining(m.pool, Tally(m.tasks, Lists(f)), |m.tasks|, f) >= 0
  {
    ListsItsCode(m.tasks, f);
  }

  /** A code is given to another frame only when no task lists the one in question. */
  predicate SafeEvent(m: Machine, e: Event, f: Frame) {
    e.Wrote? && e.code == f.code ==> e.data != f.data && Tally(m.tasks, Lists(f)) == 0
  }

  predicate SafeReuse(m: Machine, events: seq<Event>, f: Frame)
    requires Feasible(m, events)
    decreases |events|
  {
    events == [] || (SafeEvent(m, events[0], f) && SafeReuse(Step(m, events[0]), events[1..], f))
  }

  lemma StepSpends(m: Machine, e: Event, f: Frame)
    requires MachineOk(m) && Possible(m, e) && SafeEvent(m, e, f)
    ensures Budget(Step(m, e), f) <= Budget(m, f)
  {
    MachineAffords(m, f);
    if e.Advance? {
      var t := m.tasks[e.task];
      var (_, u, written) := TaskStep(m.pool, t, e.now, e.ok);
      assert TaskOk(t);
      TallyAfter(m.tasks, e.task, u, Lists(f));
      TallyAfter(m.tasks, e.task, u, InHand(f));
      TallySome(m.tasks, Lists(f));
      SectionSpends(m.pool, t, e.now, e.ok, f, Tally(m.tasks, Lists(f)), |m.tasks|);
      TimesConcat(m.written, written, f);
    } else if e.Connect? {
      TallyOfOneMore(m.tasks, Lists(f));
      TallyOfOneMore(m.tasks, InHand(f));
    }
  }

  lemma {:induction false} RunSpends(m: Machine, events: seq<Event>, f: Frame)
    requires MachineOk(m) && Feasible(m, events) && SafeReuse(m, events, f)
    ensures Times(Run(m, events).written, f) <= Budget(m, f)
    decreases |events|
  {
    if events == [] {
      MachineAffords(m, f);
    } else {
      StepIsOk(m, events[0]);
      StepSpends(m, events[0], f);
      RunSpends(Step(m, events[0]), events[1..], f);
    }
  }

  /** After its confirmation a frame is written no more often than tasks held it then, as long as its code is given to
      other frames only while none lists it. */
  lemma WritesAfterConfirmation(m: Machine, events: seq<Event>, f: Frame)
    requires MachineOk(m) && f.code !in m.pool.pending.values && Feasible(m, events) && SafeReuse(m, events, f)
    ensures Times(Run(m, events).written, f) <= Total(m, f)
  {
    RunSpends(m, events, f);
  }

  /** A frame that is sent is written again at most once more than there are tasks, besides the copies in hand. */
  lemma FramesAreLimited(m: Machine, f: Frame, now: Instant, events: seq<Event>)
    requires MachineOk(m) && Possible(m, Wrote(f.code, f.data, now))
    requires var sent := Step(m, Wrote(f.code, f.data, now)); Feasible(sent, events) && SafeReuse(sent, events, f)
    ensures Times(Run(Step(m, Wrote(f.code, f.data, now)), events).written, f)
         <= Times(m.written, f) + Tally(m.tasks, InHand(f)) + 1 + |m.tasks|
  {
    var w := Wrote(f.code, f.data, now);
    StepIsOk(m, w);
    RunSpends(Step(m, w), events, f);
  }

  /** So it is for every object of the program: with the first write, the limit of three. */
  lemma ProgramFramesAreLimited(past: seq<ProgramEvent>, m: Machine, f: Frame, now: Instant, events: seq<Event>)
    requires ProgramFeasible([], past) && m in ProgramRun([], past)
    requires Possible(m, Wrote(f.code, f.data, now)) && Tally(m.tasks, InHand(f)) == 0
    requires var sent := Step(m, Wrote(f.code, f.data, now)); Feasible(sent, events) && SafeReuse(sent, events, f)
    ensures Times(Run(Step(m, Wrote(f.code, f.data, now)), events).written, f)
         <= Times(m.written, f) + MAX_ATTEMPTS - 1
  {
    ProgramKeepsOneTaskEach([], past);
    FramesAreLimited(m, f, now, events);
  }

  // ---- What the tasks do when left to run -----------------------------------------------

  /** More than the number of sections a task has before it. */
  function Left(t: Task): nat {
    if t.Working? then
      1 + 2 * |t.abandon| + (if t.freeing.Some? then 1 else 0) + 2 * |t.retry| + (if t.sending.Some? then 1 else 0)
    else 0
  }

  lemma SectionConserves(p: Pool, t: Task, f: Frame)
    requires t.Working? && TaskOk(t)
    ensures var (_, u, written) := TaskStep(p, t, 0.0, true);
            && Times(written, f) + Claim(u, Lists(f)) + Claim(u, InHand(f)) == Claim(t, Lists(f)) + Claim(t, InHand(f))
            && Left(u) < Left(t)
  {
    if t.sending.Some? {
      assert [t.sending.value][1..] == [];
    } else if t.freeing.None? && t.abandon == [] && t.retry != [] {
      TailCodes(t.retry, f.code);
      if f in t.retry[1..] {
        ListedHasCode(t.retry[1..], f);
      }
      assert f in t.retry <==> f == t.retry[0] || f in t.retry[1..];
    }
  }

  /** One section of a task at work: what it held it still holds, or has written. */
  lemma WorkConserves(m: Machine, i: nat, f: Frame) returns (n: Machine)
    requires MachineOk(m) && i < |m.tasks| && m.tasks[i].Working?
    ensures n == Step(m, Advance(i, 0.0, true)) && MachineOk(n) && Leads(m, n, Nothing)
    ensures n.tasks == m.tasks[i := n.tasks[i]] && Left(n.tasks[i]) < Left(m.tasks[i])
    ensures Total(n, f) == Total(m, f)
  {
    var e := Advance(i, 0.0, true);
    n := Step(m, e);
    var (_, u, written) := TaskStep(m.pool, m.tasks[i], 0.0, true);
    StepIsOk(m, e);
    LeadsOneStep(m, e, Nothing);
    SectionConserves(m.pool, m.tasks[i], f);
    TallyAfter(m.tasks, i, u, Lists(f));
    TallyAfter(m.tasks, i, u, InHand(f));
    TimesConcat(m.written, written, f);
  }

  /** The task has nothing more to do with the entry of a code. */
  predicate LeavesAlone(t: Task, c: Byte) {
    t.Working? ==> c !in t.abandon && t.freeing != Some(c) && c !in CodesOf(t.retry)
  }

  predicate SameEntry(p: Pool, q: Pool, c: Byte) {
    c in p.pending.values ==> c in q.pending.values && q.pending.values[c] == p.pending.values[c]
  }

  lemma SectionLeavesAlone(p: Pool, t: Task, c: Byte)
    requires t.Working? && TaskOk(t) && LeavesAlone(t, c)
    ensures var (q, u, _) := TaskStep(p, t, 0.0, true); LeavesAlone(u, c) && SameEntry(p, q, c)
  {
    if t.sending.None? && t.freeing.None? && t.abandon == [] && t.retry != [] {
      TailCodes(t.retry, c);
    }
  }

  predicate EntryIsLeft(m: Machine, n: Machine, i: nat, c: Byte)
    requires i < |m.tasks|
  {
    LeavesAlone(m.tasks[i], c) ==> SameEntry(m.pool, n.pool, c)
  }

  lemma OneSectionOn(m: Machine, i: nat, f: Frame) returns (n: Machine)
    requires MachineOk(m) && i < |m.tasks| && m.tasks[i].Working?
    ensures MachineOk(n) && Leads(m, n, Nothing) && Total(n, f) == Total(m, f)
    ensures |n.tasks| == |m.tasks| && n.tasks == m.tasks[i := n.tasks[i]] && Left(n.tasks[i]) < Left(m.tasks[i])
    ensures n.tasks[i].Working? || n.tasks[i] == Asleep
    ensures EntryIsLeft(m, n, i, f.code) && (LeavesAlone(m.tasks[i], f.code) ==> LeavesAlone(n.tasks[i], f.code))
  {
    n := WorkConserves(m, i, f);
    if LeavesAlone(m.tasks[i], f.code) {
      assert TaskOk(m.tasks[i]);
      SectionLeavesAlone(m.pool, m.tasks[i], f.code);
    }
  }

  /** A task at work goes on until it sleeps. */
  lemma TaskWorksOn(m: Machine, i: nat, f: Frame) returns (n: Machine)
    requires MachineOk(m) && i < |m.tasks| && m.tasks[i].Working?
    ensures MachineOk(n) && Leads(m, n, Nothing) && n.tasks == m.tasks[i := Asleep] && Total(n, f) == Total(m, f)
    ensures EntryIsLeft(m, n, i, f.code)
    decreases Left(m.tasks[i])
  {
    n := OneSectionOn(m, i, f);
    if n.tasks[i].Working? {
      var next := n;
      n := TaskWorksOn(next, i, f);
      LeadsFurther(m, next, n, Nothing, Nothing);
      assert next.tasks[i := Asleep] == m.tasks[i := Asleep];
    }
  }

  lemma {:induction false} NoneAtWork(tasks: seq<Task>, h: Hold)
    requires forall t | t in tasks :: !t.Working?
    ensures Tally(tasks, h) == 0
  {
    if tasks != [] {
      NoneAtWork(tasks[1..], h);
    }
  }

  /** All tasks from the `k`-th on work until they sleep. */
  lemma TasksWorkOn(m: Machine, k: nat, f: Frame) returns (n: Machine)
    requires MachineOk(m) && k <= |m.tasks| && forall i | 0 <= i < k :: !m.tasks[i].Working?
    ensures Leads(m, n, Nothing) && Times(n.written, f) == Total(m, f)
    decreases |m.tasks| - k
  {
    if k == |m.tasks| {
      n := m;
      LeadsToItself(m, Nothing);
      NoneAtWork(m.tasks, Lists(f));
      NoneAtWork(m.tasks, InHand(f));
    } else if m.tasks[k].Working? {
      var next := TaskWorksOn(m, k, f);
      n := TasksWorkOn(next, k + 1, f);
      LeadsFurther(m, next, n, Nothing, Nothing);
    } else {
      n := TasksWorkOn(m, k + 1, f);
    }
  }

  /** Whether the task's next section puts the frame's data in the entry of its code. */
  predicate MarksNext(t: Task, f: Frame) {
    t.Working? && t.sending.None? && t.freeing.None? && t.abandon == [] && t.retry != [] && t.retry[0] == f
  }

  lemma SectionMarksListed(p: Pool, t: Task, f: Frame)
    requires TaskOk(t) && Has(t, Lists(f)) && f.code in p.pending.values
    ensures var (q, u, _) := TaskStep(p, t, 0.0, true);
            && u.Working? && u.now == t.now && f.code in q.pending.values
            && if MarksNext(t, f) then
                 && LeavesAlone(u, f.code)
                 && q.pending.values[f.code] == Sent(f.data, p.pending.values[f.code].attempts + 1, t.now)
               else Has(u, Lists(f)) && q.pending.values[f.code] == p.pending.values[f.code]
  {
    TailCodes(t.retry, f.code);
    ListedHasCode(t.retry, f);
    assert f in t.retry <==> f == t.retry[0] || f in t.retry[1..];
    if f in t.retry[1..] {
      ListedHasCode(t.retry[1..], f);
    }
  }

  /** The task has the frame in hand, and the entry of its code has its data and one attempt more. */
  predicate Marked(m: Machine, i: nat, f: Frame, attempts: nat, at: Instant) {
    && i < |m.tasks| && m.tasks[i].Working? && LeavesAlone(m.tasks[i], f.code)
    && f.code in m.pool.pending.values && m.pool.pending.values[f.code] == Sent(f.data, attempts + 1, at)
  }

  /** The task still lists the frame under its pending code. */
  predicate StillListed(m: Machine, i: nat, f: Frame, attempts: nat, at: Instant) {
    && i < |m.tasks| && Has(m.tasks[i], Lists(f)) && m.tasks[i].now == at
    && f.code in m.pool.pending.values && m.pool.pending.values[f.code].attempts == attempts
  }

  lemma OneSectionCloser(m: Machine, i: nat, f: Frame, attempts: nat, at: Instant) returns (n: Machine)
    requires MachineOk(m) && StillListed(m, i, f, attempts, at)
    ensures MachineOk(n) && Leads(m, n, Nothing) && Total(n, f) == Total(m, f)
    ensures |n.tasks| == |m.tasks| && Left(n.tasks[i]) < Left(m.tasks[i])
    ensures Marked(n, i, f, attempts, at) || StillListed(n, i, f, attempts, at)
  {
    n := WorkConserves(m, i, f);
    assert TaskOk(m.tasks[i]);
    SectionMarksListed(m.pool, m.tasks[i], f);
  }

  /** A task that lists a frame under a pending code puts the frame's data in the entry. */
  lemma TaskMarksListed(m: Machine, i: nat, f: Frame, attempts: nat, at: Instant) returns (n: Machine)
    requires MachineOk(m) && StillListed(m, i, f, attempts, at)
    ensures MachineOk(n) && Leads(m, n, Nothing) && Total(n, f) == Total(m, f)
    ensures Marked(n, i, f, attempts, at)
    decreases Left(m.tasks[i])
  {
    n := OneSectionCloser(m, i, f, attempts, at);
    if !Marked(n, i, f, attempts, at) {
      var next := n;
      n := TaskMarksListed(next, i, f, attempts, at);
      LeadsFurther(m, next, n, Nothing, Nothing);
    }
  }

  /** Some continuation that does not send the frame afresh writes it. */
  ghost predicate MayStillWrite(m: Machine, f: Frame) {
    exists n :: Leads(m, n, AllBut(f)) && Times(n.written, f) > Times(m.written, f)
  }

  predicate Untouched(m: Machine, f: Frame) {
    && Held(m.tasks, f) == 0
    && (f.code in m.pool.pending.values ==> m.pool.pending.values[f.code].data != f.data)
  }

  lemma SectionLeavesUntouched(p: Pool, t: Task, now: Instant, ok: bool, f: Frame)
    requires TaskOk(t) && !Has(t, Lists(f)) && !Has(t, InHand(f))
    requires f.code in p.pending.values ==> p.pending.values[f.code].data != f.data
    ensures var (q, u, written) := TaskStep(p, t, now, ok);
            && !Has(u, Lists(f)) && !Has(u, InHand(f)) && Times(written, f) == 0
            && (f.code in q.pending.values ==> q.pending.values[f.code].data != f.data)
  {
    SectionSpends(p, t, now, ok, f, 0, if f.code in p.pending.values then p.pending.values[f.code].attempts else 0);
  }

  lemma StepLeavesUntouched(m: Machine, e: Event, f: Frame)
    requires MachineOk(m) && Possible(m, e) && Allows(AllBut(f), e) && Untouched(m, f)
    ensures Untouched(Step(m, e), f) && Times(Step(m, e).written, f) == Times(m.written, f)
  {
    if e.Advance? {
      AdvanceLeavesUntouched(m, e.task, e.now, e.ok, f);
    } else if e.Connect? {
      TallyOfOneMore(m.tasks, Lists(f));
      TallyOfOneMore(m.tasks, InHand(f));
    }
  }

  lemma AdvanceLeavesUntouched(m: Machine, i: nat, now: Instant, ok: bool, f: Frame)
    requires MachineOk(m) && i < |m.tasks| && Untouched(m, f)
    ensures var n := Step(m, Advance(i, now, ok)); Untouched(n, f) && Times(n.written, f) == Times(m.written, f)
  {
    var (_, u, written) := TaskStep(m.pool, m.tasks[i], now, ok);
    assert TaskOk(m.tasks[i]);
    TallySome(m.tasks, Lists(f));
    TallySome(m.tasks, InHand(f));
    SectionLeavesUntouched(m.pool, m.tasks[i], now, ok, f);
    TallyAfter(m.tasks, i, u, Lists(f));
    TallyAfter(m.tasks, i, u, InHand(f));
    TimesConcat(m.written, written, f);
  }

  lemma {:induction false} RunLeavesUntouched(m: Machine, events: seq<Event>, f: Frame)
    requires MachineOk(m) && Feasible(m, events) && Keeps(events, AllBut(f)) && Untouched(m, f)
    ensures Times(Run(m, events).written, f) == Times(m.written, f)
    decreases |events|
  {
    if events != [] {
      assert events[0] in events && forall e | e in events[1..] :: e in events;
      StepIsOk(m, events[0]);
      StepLeavesUntouched(m, events[0], f);
      RunLeavesUntouched(Step(m, events[0]), events[1..], f);
    }
  }

  /** When a frame is confirmed, it may be written once more exactly if some task lists it or has it in hand by then;
      its code may be given to other frames meanwhile. */
  lemma ConfirmedIsWrittenAgainIffHeld(m: Machine, f: Frame)
    requires MachineOk(m) && Possible(m, Confirmed(f.code))
    ensures MayStillWrite(Step(m, Confirmed(f.code)), f) <==> Held(m.tasks, f) > 0
  {
    var n := Step(m, Confirmed(f.code));
    StepIsOk(m, Confirmed(f.code));
    if MayStillWrite(n, f) && Held(m.tasks, f) == 0 {
      var k :| Leads(n, k, AllBut(f)) && Times(k.written, f) > Times(n.written, f);
      var events :| Feasible(n, events) && Run(n, events) == k && Keeps(events, AllBut(f));
      RunLeavesUntouched(n, events, f);
      assert false;
    }
    if Held(m.tasks, f) > 0 {
      var k := TasksWorkOn(n, 0, f);
      LeadsToItself(n, AllBut(f));
      LeadsFurther(n, n, k, Nothing, AllBut(f));
    }
  }

  /** It happens, with the one task an object has: the confirmation comes when the sweep has listed the frame. */
  lemma ConfirmedFrameIsWritten(data: seq<Byte>)
    ensures exists m, f: Frame :: Reachable(m) && |m.tasks| == 1 && f.code in m.pool.pending.values
                           && Possible(m, Confirmed(f.code)) && MayStillWrite(Step(m, Confirmed(f.code)), f)
  {
    var m, f := Found(1, 1, data), Frame(FIRST, data);
    JustSentIsReached(1, data);
    AllFind(1, 1, data);
    LeadsFurther(START, JustSent(1, data), m, Nothing, Anything);
    LeadsToOk(START, m, Anything);
    assert m.tasks[0] == ReadyToMark(2.0, FIRST, data) && Has(m.tasks[0], Lists(f));
    TallySome(m.tasks, Lists(f));
    ConfirmedIsWrittenAgainIffHeld(m, f);
    assert f.code in m.pool.pending.values;
  }

  // ---- A code given to another frame ----------------------------------------------------

  /** From here on the entry of a code, while there is one, has this data. */
  ghost predicate EntryKeeps(m: Machine, c: Byte, data: seq<Byte>) {
    forall n | Leads(m, n, NotUnder(c)) && c in n.pool.pending.values :: n.pool.pending.values[c].data == data
  }

  /** Every task that lists the code lists it with this data. */
  predicate ListedWith(tasks: seq<Task>, c: Byte, data: seq<Byte>) {
    forall t | t in tasks :: TaskListsWith(t, c, data)
  }

  predicate TaskListsWith(t: Task, c: Byte, data: seq<Byte>) {
    t.Working? ==> forall f | f in t.retry :: f.code == c ==> f.data == data
  }

  predicate HasOnly(m: Machine, c: Byte, data: seq<Byte>) {
    && ListedWith(m.tasks, c, data)
    && (c in m.pool.pending.values ==> m.pool.pending.values[c].data == data)
  }

  lemma SectionListsWith(p: Pool, t: Task, now: Instant, ok: bool, c: Byte, data: seq<Byte>)
    requires TaskListsWith(t, c, data) && (c in p.pending.values ==> p.pending.values[c].data == data)
    ensures var (q, u, _) := TaskStep(p, t, now, ok);
            TaskListsWith(u, c, data) && (c in q.pending.values ==> q.pending.values[c].data == data)
  {}

  lemma StepHasOnly(m: Machine, e: Event, c: Byte, data: seq<Byte>)
    requires Possible(m, e) && Allows(NotUnder(c), e) && HasOnly(m, c, data)
    ensures HasOnly(Step(m, e), c, data)
  {
    if e.Advance? {
      SectionListsWith(m.pool, m.tasks[e.task], e.now, e.ok, c, data);
    }
  }

  lemma {:induction false} RunHasOnly(m: Machine, events: seq<Event>, c: Byte, data: seq<Byte>)
    requires Feasible(m, events) && Keeps(events, NotUnder(c)) && HasOnly(m, c, data)
    ensures HasOnly(Run(m, events), c, data)
    decreases |events|
  {
    if events != [] {
      assert events[0] in events && forall e | e in events[1..] :: e in events;
      StepHasOnly(m, events[0], c, data);
      RunHasOnly(Step(m, events[0]), events[1..], c, data);
    }
  }

  /** Once a frame is sent, the entry of its code keeps its data until the next is sent under the code, exactly if no
      task lists the code with other data by then. */
  lemma EntryKeepsItsDataIff(m: Machine, c: Byte, data: seq<Byte>, now: Instant)
    requires MachineOk(m) && Possible(m, Wrote(c, data, now))
    ensures EntryKeeps(Step(m, Wrote(c, data, now)), c, data) <==> ListedWith(m.tasks, c, data)
  {
    var n := Step(m, Wrote(c, data, now));
    StepIsOk(m, Wrote(c, data, now));
    if ListedWith(m.tasks, c, data) {
      forall k | Leads(n, k, NotUnder(c)) && c in k.pool.pending.values
        ensures k.pool.pending.values[c].data == data
      {
        var events :| Feasible(n, events) && Run(n, events) == k && Keeps(events, NotUnder(c));
        RunHasOnly(n, events, c, data);
      }
    } else {
      var t :| t in m.tasks && !TaskListsWith(t, c, data);
      var i :| 0 <= i < |m.tasks| && m.tasks[i] == t;
      var f :| f in t.retry && f.code == c && f.data != data;
      var k := TaskMarksListed(n, i, f, 1, t.now);
      LeadsToItself(n, NotUnder(c));
      LeadsFurther(n, n, k, Nothing, NotUnder(c));
    }
  }

  /** All codes but one are confirmed or given up. */
  lemma OthersAreFreed(m: Machine, c: Byte) returns (n: Machine)
    requires MachineOk(m)
    ensures MachineOk(n) && Leads(m, n, Nothing) && n.tasks == m.tasks && n.written == m.written
    ensures SameEntry(m.pool, n.pool, c) && forall k | k in n.pool.inUse.values :: k == c
    decreases Size(m.pool.inUse)
  {
    if k :| k in m.pool.inUse.values && k != c {
      var next := Step(m, Freed(k));
      StepIsOk(m, Freed(k));
      LeadsOneStep(m, Freed(k), Nothing);
      WithoutShrinks(m.pool.inUse, {k});
      n := OthersAreFreed(next, c);
      LeadsFurther(m, next, n, Nothing, Nothing);
    } else {
      n := m;
      LeadsToItself(m, Nothing);
    }
  }

  lemma OneOfAKind(d: Dict<Instant>, c: Byte)
    requires forall k | k in d.values :: k == c
    ensures Size(d) <= 1
  {
    KeysCount(d.order);
    SubsetIsSmaller(Keys(d.order), {c});
  }

  /** A moment at which the only code in use has not timed out. */
  function QuietMoment(p: Pool, c: Byte): Instant {
    if c in p.inUse.values then p.inUse.values[c] else 0.0
  }

  lemma OnlyCodeIsKept(p: Pool, c: Byte)
    requires forall k | k in p.inUse.values :: k == c
    ensures SameEntry(p, ReleaseTimedOut(p, QuietMoment(p, c)), c)
  {
    assert TimedOut(p, QuietMoment(p, c)) == {};
    OneOfAKind(Forget(p, {}).inUse, c);
  }

  /** A task that collects a frame with an attempt left holds it once more. */
  lemma TaskCollects(m: Machine, i: nat, f: Frame) returns (n: Machine)
    requires MachineOk(m) && i < |m.tasks| && m.tasks[i].Checked? && f.code in m.pool.pending.values
    requires var sent := m.pool.pending.values[f.code];
             sent.data == f.data && sent.attempts < MAX_ATTEMPTS && Overdue(sent, m.tasks[i].now)
    ensures MachineOk(n) && Leads(m, n, Nothing) && Total(n, f) == Total(m, f) + 1
  {
    var list := Advance(i, 0.0, true);
    n := Step(m, list);
    StepIsOk(m, list);
    LeadsOneStep(m, list, Nothing);
    RetryListHas(m.pool.pending.values, m.pool.pending.order, m.tasks[i].now, f.code);
    assert Has(n.tasks[i], Lists(f));
    TallyAfter(m.tasks, i, n.tasks[i], Lists(f));
    TallyAfter(m.tasks, i, n.tasks[i], InHand(f));
    assert n.written == m.written;
  }

  /** A sleeping task wakes, and checks the codes without releasing the only one in use. */
  lemma TaskChecks(m: Machine, i: nat, f: Frame, now: Instant) returns (n: Machine)
    requires MachineOk(m) && i < |m.tasks| && m.tasks[i].Asleep?
    requires forall k | k in m.pool.inUse.values :: k == f.code
    ensures MachineOk(n) && Leads(m, n, Nothing) && Total(n, f) == Total(m, f)
    ensures |n.tasks| == |m.tasks| && n.tasks[i] == Checked(now) && SameEntry(m.pool, n.pool, f.code)
  {
    var wake, check := Advance(i, now, true), Advance(i, QuietMoment(m.pool, f.code), true);
    var m1 := Step(m, wake);
    n := Step(m1, check);
    LeadsOneStep(m, wake, Nothing);
    LeadsOn(m, m1, check, Nothing);
    LeadsToOk(m, n, Nothing);
    OnlyCodeIsKept(m.pool, f.code);
    assert n.tasks == m.tasks[i := Checked(now)] && n.written == m.written;
    TallyAfter(m.tasks, i, Checked(now), Lists(f));
    TallyAfter(m.tasks, i, Checked(now), InHand(f));
  }

  /** A task that lists a frame when its code is given to another brings it back: it is listed a second time. */
  lemma ListedFrameReturns(m: Machine, i: nat, f: Frame) returns (n: Machine)
    requires MachineOk(m) && i < |m.tasks| && Has(m.tasks[i], Lists(f))
    requires f.code in m.pool.pending.values && m.pool.pending.values[f.code].attempts == 1
    ensures Leads(m, n, Nothing) && Times(n.written, f) == Total(m, f) + 1
  {
    var marked := TaskMarksListed(m, i, f, 1, m.tasks[i].now);
    var asleep := TaskWorksOn(marked, i, f);
    var freed := OthersAreFreed(asleep, f.code);
    var checked := TaskChecks(freed, i, f, m.tasks[i].now + RETRY_INTERVAL);
    var listed := TaskCollects(checked, i, f);
    n := TasksWorkOn(listed, 0, f);
    LeadsFurther(m, marked, asleep, Nothing, Nothing);
    LeadsFurther(m, asleep, freed, Nothing, Nothing);
    LeadsFurther(m, freed, checked, Nothing, Nothing);
    LeadsFurther(m, checked, listed, Nothing, Nothing);
    LeadsFurther(m, listed, n, Nothing, Nothing);
  }

  /** From here on, until its code is sent under again, a frame is written at most so many times in all. */
  ghost predicate WrittenAtMost(m: Machine, f: Frame, most: nat) {
    forall n | Leads(m, n, NotUnder(f.code)) :: Times(n.written, f) <= most
  }

  lemma {:induction false} NotUnderIsSafe(m: Machine, events: seq<Event>, f: Frame)
    requires Feasible(m, events) && Keeps(events, NotUnder(f.code))
    ensures SafeReuse(m, events, f)
    decreases |events|
  {
    if events != [] {
      assert events[0] in events && forall e | e in events[1..] :: e in events;
      NotUnderIsSafe(Step(m, events[0]), events[1..], f);
    }
  }

  lemma SafeReuseKeepsBound(m: Machine, f: Frame, other: seq<Byte>, now: Instant)
    requires MachineOk(m) && f.code !in m.pool.pending.values && Tally(m.tasks, Lists(f)) == 0
    requires Possible(m, Wrote(f.code, other, now)) && other != f.data
    ensures WrittenAtMost(Step(m, Wrote(f.code, other, now)), f, Total(m, f))
  {
    var n := Step(m, Wrote(f.code, other, now));
    StepIsOk(m, Wrote(f.code, other, now));
    forall k | Leads(n, k, NotUnder(f.code))
      ensures Times(k.written, f) <= Total(m, f)
    {
      var events :| Feasible(n, events) && Run(n, events) == k && Keeps(events, NotUnder(f.code));
      NotUnderIsSafe(n, events, f);
      RunSpends(n, events, f);
    }
  }

  lemma UnsafeReuseBreaksBound(m: Machine, f: Frame, other: seq<Byte>, now: Instant)
    requires MachineOk(m) && Tally(m.tasks, Lists(f)) > 0 && Possible(m, Wrote(f.code, other, now))
    ensures !WrittenAtMost(Step(m, Wrote(f.code, other, now)), f, Total(m, f))
  {
    var n := Step(m, Wrote(f.code, other, now));
    StepIsOk(m, Wrote(f.code, other, now));
    TallySome(m.tasks, Lists(f));
    var i :| 0 <= i < |m.tasks| && Has(m.tasks[i], Lists(f));
    var k := ListedFrameReturns(n, i, f);
    LeadsToItself(n, NotUnder(f.code));
    LeadsFurther(n, n, k, Nothing, NotUnder(f.code));
  }

  /** When the code of a confirmed frame is given to another, the frame keeps to the bound of those that held it exactly
      if no task lists it then. */
  lemma ReuseKeepsBoundIff(m: Machine, f: Frame, other: seq<Byte>, now: Instant)
    requires MachineOk(m) && f.code !in m.pool.pending.values
    requires Possible(m, Wrote(f.code, other, now)) && other != f.data
    ensures WrittenAtMost(Step(m, Wrote(f.code, other, now)), f, Total(m, f))
       <==> Tally(m.tasks, Lists(f)) == 0
  {
    if Tally(m.tasks, Lists(f)) == 0 {
      SafeReuseKeepsBound(m, f, other, now);
    } else {
      UnsafeReuseBreaksBound(m, f, other, now);
    }
  }

  // ---- The run in which it happens ------------------------------------------------------

  function Idle(next: nat): Pool {
    Pool(Entries([], map[]), Entries([], map[]), next)
  }

  lemma CodeIsHandedOutIdle(next: nat, now: Instant)
    requires next < CODE_COUNT
    ensures var code, after := CONFIRMATION_CODES[next], (next + 1) % CODE_COUNT;
            && TryAllocate(Idle(next), now).1 == Pool(Entries([code], map[code := now]), Entries([], map[]), after)
            && Release(TryAllocate(Idle(next), now).1, code) == Idle(after)
  {
    var code := CONFIRMATION_CODES[next];
    assert Taken(Idle(next)) == {};
    assert [] + [code] == [code] && [code][1..] == [];
    assert Except([code], {code}) == [];
  }

  /** The codes are handed out in turn, and each is free again before the next. */
  lemma {:induction false} CodesComeRound(m: Machine, n: nat)
    requires n <= CODE_COUNT - 1 && m.pool == Idle(1)
    ensures Leads(m, m.(pool := Idle((1 + n) % CODE_COUNT)), Nothing)
  {
    if n == 0 {
      LeadsToItself(m, Nothing);
    } else {
      CodesComeRound(m, n - 1);
      var before := m.(pool := Idle(n));
      var taken := Step(before, Request(2.0));
      CodeIsHandedOutIdle(n, 2.0);
      LeadsOn(m, before, Request(2.0), Nothing);
      LeadsOn(m, taken, Freed(CONFIRMATION_CODES[n]), Nothing);
    }
  }

  /** The frame that took over the code, with the task that listed the first frame still at it. */
  function TakenOver(data: seq<Byte>, other: seq<Byte>): Machine {
    Machine(Lone(FIRST, 2.0, other, 1, 2.0), [ReadyToMark(2.0, FIRST, data)], [Frame(FIRST, data)])
  }

  /** The first frame is confirmed when the task has listed it, and its code is free. */
  function ConfirmedLate(data: seq<Byte>, next: nat): Machine {
    Machine(Idle(next), [ReadyToMark(2.0, FIRST, data)], [Frame(FIRST, data)])
  }

  lemma FrameIsConfirmedLate(data: seq<Byte>)
    ensures Leads(JustSent(1, data), ConfirmedLate(data, 1), Nothing)
  {
    var s, m := JustSent(1, data), Found(1, 1, data);
    AllFind(1, 1, data);
    assert m.tasks == [ReadyToMark(2.0, FIRST, data)];
    var confirmed := Step(m, Confirmed(FIRST));
    LeadsOn(s, m, Confirmed(FIRST), Nothing);
    LeadsOn(s, confirmed, Freed(FIRST), Nothing);
    assert [FIRST][1..] == [] && Except([FIRST], {FIRST}) == [];
    assert Step(confirmed, Freed(FIRST)).pool == Idle(1);
  }

  lemma CodeIsTakenOver(data: seq<Byte>, other: seq<Byte>)
    requires data != other
    ensures Leads(JustSent(1, data), TakenOver(data, other), AllBut(Frame(FIRST, data)))
  {
    var s, w := JustSent(1, data), AllBut(Frame(FIRST, data));
    var free, round := ConfirmedLate(data, 1), ConfirmedLate(data, 0);
    LeadsToItself(s, w);
    FrameIsConfirmedLate(data);
    LeadsFurther(s, s, free, Nothing, w);
    CodesComeRound(free, CODE_COUNT - 1);
    LeadsFurther(s, free, round, Nothing, w);
    var taken := Step(round, Request(2.0));
    LeadsOn(s, round, Request(2.0), w);
    CodeIsHandedOutIdle(0, 2.0);
    LeadsOn(s, taken, Wrote(FIRST, other, 2.0), w);
    assert Step(taken, Wrote(FIRST, other, 2.0)) == TakenOver(data, other);
  }

  /** A frame goes out four times, with the one task an object has: it is sent once, and written three times again,
      though it was confirmed after the first of these and its code was given to another frame. The counter of
      attempts never exceeds three on the way (`ProgramKeepsTheLimit`), and the other frame is never written again. */
  lemma FourthWrite(data: seq<Byte>, other: seq<Byte>)
    requires data != other
    ensures var f := Frame(FIRST, data);
            && Reachable(JustSent(1, data)) && Times(JustSent(1, data).written, f) == 0
            && exists n :: Leads(JustSent(1, data), n, AllBut(f)) && |n.tasks| == 1 && n.written == [f, f, f]
  {
    var s, f := JustSent(1, data), Frame(FIRST, data);
    JustSentIsReached(1, data);
    var m := TakenOver(data, other);
    CodeIsTakenOver(data, other);
    TaskRewrites(m, 0, FIRST, 2.0, data, other, 1, 2.0, 2.0);
    var again := Machine(Lone(FIRST, 2.0, data, 2, 2.0), m.tasks[0 := Asleep], m.written + [f]);
    LeadsFurther(s, m, again, Nothing, AllBut(f));
    TaskFindsOverdue(again, 0, FIRST, 2.0, data, 2, 2.0, 3.0);
    var found := again.(tasks := again.tasks[0 := ReadyToMark(3.0, FIRST, data)]);
    LeadsFurther(s, again, found, Nothing, AllBut(f));
    TaskRewrites(found, 0, FIRST, 2.0, data, data, 2, 2.0, 3.0);
    var n := Machine(Lone(FIRST, 2.0, data, 3, 3.0), found.tasks[0 := Asleep], found.written + [f]);
    LeadsFurther(s, found, n, Nothing, AllBut(f));
    assert n.written == [f, f, f];
  }
}
