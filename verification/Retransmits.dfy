/** Bounded retransmission: how often a frame is written before it is confirmed or given up.

    First with whole sweeps taken as one step; then with every section of every task a step of its own. */
module Retransmits {
  import opened Bytes
  import opened Confirmations
  import opened Dicts

  // ---- One sweep ------------------------------------------------------------------------

  lemma {:induction false} AbandonAllEffect(p: Pool, codes: seq<Byte>, c: Byte)
    ensures var q := AbandonAll(p, codes);
            && (c in q.pending.values <==> c in p.pending.values && c !in codes)
            && (c in q.inUse.values <==> c in p.inUse.values && c !in codes)
            && (c in q.pending.values ==> q.pending.values[c] == p.pending.values[c])
            && (c in q.inUse.values ==> q.inUse.values[c] == p.inUse.values[c])
    decreases |codes|
  {
    if codes != [] {
      AbandonAllEffect(Release(RemovePending(p, codes[0]), codes[0]), codes[1..], c);
    }
  }

  function CodesOf(frames: seq<Frame>): (r: seq<Byte>)
    ensures |r| == |frames|
  {
    seq(|frames|, i requires 0 <= i < |frames| => frames[i].code)
  }

  lemma CodesCons(f: Frame, rest: seq<Frame>)
    ensures CodesOf([f] + rest) == [f.code] + CodesOf(rest)
  {}

  lemma {:induction false} MarkAllEffect(p: Pool, frames: seq<Frame>, now: Instant, c: Byte)
    requires NoDuplicates(CodesOf(frames))
    ensures var q := MarkAll(p, frames, now);
            && q.inUse == p.inUse
            && (c in q.pending.values <==> c in p.pending.values)
            && (c in p.pending.values && c !in CodesOf(frames) ==> q.pending.values[c] == p.pending.values[c])
            && (forall f | f in frames && f.code == c && c in p.pending.values ::
                  q.pending.values[c] == Sent(f.data, p.pending.values[c].attempts + 1, now))
    decreases |frames|
  {
    if frames != [] {
      var f, rest, q := frames[0], frames[1..], MarkRetry(p, frames[0], now);
      assert CodesOf(rest) == CodesOf(frames)[1..];
      MarkAllEffect(q, rest, now, c);
      if f.code == c {
        assert CodesOf(frames)[0] == c;
        assert forall g | g in rest :: g.code != c by {
          forall i | 0 <= i < |rest| ensures rest[i].code != c {
            assert CodesOf(frames)[i + 1] == rest[i].code;
          }
        }
      }
      assert forall g :: g in frames <==> g == f || g in rest;
      assert c in CodesOf(rest) ==> c in CodesOf(frames);
    }
  }

  /** The retry list has each overdue code with an attempt left once, with its data, and no other. */
  lemma {:induction false} RetryListHas(pending: map<Byte, Sent>, codes: seq<Byte>, now: Instant, c: Byte)
    requires forall k | k in codes :: k in pending
    ensures c in CodesOf(ToRetry(pending, codes, now))
       <==> c in codes && Overdue(pending[c], now) && pending[c].attempts < MAX_ATTEMPTS
    ensures c in CodesOf(ToRetry(pending, codes, now)) ==> Frame(c, pending[c].data) in ToRetry(pending, codes, now)
  {
    if codes != [] {
      var r, rest := ToRetry(pending, codes, now), ToRetry(pending, codes[1..], now);
      RetryListHas(pending, codes[1..], now, c);
      if r != rest {
        CodesCons(r[0], rest);
      }
    }
  }

  lemma {:induction false} RetryListIsDistinct(pending: map<Byte, Sent>, codes: seq<Byte>, now: Instant)
    requires NoDuplicates(codes) && forall k | k in codes :: k in pending
    ensures NoDuplicates(CodesOf(ToRetry(pending, codes, now)))
  {
    if codes != [] {
      var r, rest := ToRetry(pending, codes, now), ToRetry(pending, codes[1..], now);
      RetryListIsDistinct(pending, codes[1..], now);
      RetryListHas(pending, codes[1..], now, codes[0]);
      if r != rest {
        CodesCons(r[0], rest);
        OneMoreIsDistinct(codes[0], CodesOf(rest));
      }
    }
  }

  lemma OneMoreIsDistinct(c: Byte, s: seq<Byte>)
    requires NoDuplicates(s) && c !in s
    ensures NoDuplicates([c] + s)
  {}

  /** How often a frame with this code is written. */
  function Count(frames: seq<Frame>, c: Byte): nat {
    if frames == [] then 0 else (if frames[0].code == c then 1 else 0) + Count(frames[1..], c)
  }

  lemma {:induction false} DistinctCount(frames: seq<Frame>, c: Byte)
    requires NoDuplicates(CodesOf(frames))
    ensures Count(frames, c) == if c in CodesOf(frames) then 1 else 0
  {
    if frames != [] {
      assert CodesOf(frames[1..]) == CodesOf(frames)[1..];
      assert CodesOf(frames)[0] == frames[0].code;
      DistinctCount(frames[1..], c);
    }
  }

  /** What a sweep does to one frame that it finds pending and does not clean up: nothing before the interval is
      over; then one more write, if an attempt is left; else it is given up and its code freed. */
  lemma SweepEffect(p: Pool, now: Instant, checked: Instant, c: Byte)
    requires c in ReleaseTimedOut(p, checked).pending.values
    ensures var (q, written) := SweepAll(p, now, checked);
            var sent := p.pending.values[c];
            c in p.pending.values &&
            if !Overdue(sent, now) then
              Count(written, c) == 0 && c in q.pending.values && q.pending.values[c] == sent
            else if sent.attempts < MAX_ATTEMPTS then
              && Count(written, c) == 1 && Frame(c, sent.data) in written
              && c in q.pending.values && q.pending.values[c] == Sent(sent.data, sent.attempts + 1, now)
            else
              Count(written, c) == 0 && c !in q.pending.values && c !in q.inUse.values
  {
    var q := ReleaseTimedOut(p, checked);
    var retry := ToRetry(q.pending.values, q.pending.order, now);
    var abandon := ToAbandon(q.pending.values, q.pending.order, now);
    RetryListIsDistinct(q.pending.values, q.pending.order, now);
    RetryListHas(q.pending.values, q.pending.order, now, c);
    DistinctCount(retry, c);
    AbandonAllEffect(q, abandon, c);
    MarkAllEffect(AbandonAll(q, abandon), retry, now, c);
  }

  /** A sweep whose write fails after so many: just those before were written, in the order of a whole sweep; the frame
      that failed is counted like them, and those behind it stay as they were. */
  lemma FailedSweepEffect(p: Pool, now: Instant, checked: Instant, writes: nat, k: nat)
    requires k < |SweepAll(p, now, checked).1|
    ensures var (q, written) := SweepUpTo(p, now, checked, writes);
            var all := SweepAll(p, now, checked).1;
            && written == (if writes < |all| then all[..writes] else all)
            && all[k].code in ReleaseTimedOut(p, checked).pending.values && all[k].code in q.pending.values
            && var before := ReleaseTimedOut(p, checked).pending.values[all[k].code];
               && before.data == all[k].data && now - before.at >= 1.0 && before.attempts < 3
               && q.pending.values[all[k].code]
                  == if k <= writes then Sent(all[k].data, before.attempts + 1, now) else before
  {
    var q := ReleaseTimedOut(p, checked);
    var all := ToRetry(q.pending.values, q.pending.order, now);
    var abandon := ToAbandon(q.pending.values, q.pending.order, now);
    var n := if writes < |all| then writes + 1 else |all|;
    ListedIsPending(q, now, k);
    AbandonAllEffect(q, abandon, all[k].code);
    RetryListIsDistinct(q.pending.values, q.pending.order, now);
    MarkedPrefix(AbandonAll(q, abandon), all, n, now, k);
    assert all[..|all|] == all;
  }

  lemma ListedIsPending(q: Pool, now: Instant, k: nat)
    requires k < |ToRetry(q.pending.values, q.pending.order, now)|
    ensures var f := ToRetry(q.pending.values, q.pending.order, now)[k];
            && f.code in q.pending.values && q.pending.values[f.code].data == f.data
            && Overdue(q.pending.values[f.code], now) && q.pending.values[f.code].attempts < MAX_ATTEMPTS
            && f.code !in ToAbandon(q.pending.values, q.pending.order, now)
  {
    var all := ToRetry(q.pending.values, q.pending.order, now);
    assert CodesOf(all)[k] == all[k].code && all[k] in all;
    RetryListHas(q.pending.values, q.pending.order, now, all[k].code);
  }

  lemma MarkedPrefix(p: Pool, frames: seq<Frame>, n: nat, now: Instant, k: nat)
    requires n <= |frames| && k < |frames| && NoDuplicates(CodesOf(frames)) && frames[k].code in p.pending.values
    ensures var c, q := frames[k].code, MarkAll(p, frames[..n], now);
            && c in q.pending.values
            && q.pending.values[c]
               == if k < n then Sent(frames[k].data, p.pending.values[c].attempts + 1, now) else p.pending.values[c]
  {
    CodesOfPrefix(frames, n, k);
    MarkAllEffect(p, frames[..n], now, frames[k].code);
    if k < n {
      assert frames[..n][k] == frames[k];
    }
  }

  lemma CodesOfPrefix(frames: seq<Frame>, n: nat, k: nat)
    requires n <= |frames| && k < |frames| && NoDuplicates(CodesOf(frames))
    ensures NoDuplicates(CodesOf(frames[..n]))
    ensures frames[k].code in CodesOf(frames[..n]) <==> k < n
  {
    assert forall j | 0 <= j < n :: CodesOf(frames[..n])[j] == CodesOf(frames)[j];
    assert CodesOf(frames)[k] == frames[k].code;
    if k < n {
      assert CodesOf(frames[..n])[k] == frames[k].code;
    }
  }

  // ---- A frame nobody confirms ----------------------------------------------------------

  /** A sweep, or whatever the other tasks do. */
  datatype Turn = Sweep(now: Instant, checked: Instant) | Others(after: Pool)

  function TurnOn(p: Pool, t: Turn): Pool {
    match t
    case Sweep(now, checked) => SweepAll(p, now, checked).0
    case Others(after) => after
  }

  /** Nobody confirms the frame, takes its code, or cleans it up: but for the sweeps' retries it is left alone. */
  predicate LeftAlone(p: Pool, c: Byte, turns: seq<Turn>)
    decreases |turns|
  {
    turns == [] || (TurnLeaves(p, c, turns[0]) && LeftAlone(TurnOn(p, turns[0]), c, turns[1..]))
  }

  predicate TurnLeaves(p: Pool, c: Byte, t: Turn) {
    match t
    case Sweep(_, checked) => c in p.pending.values ==> c in ReleaseTimedOut(p, checked).pending.values
    case Others(after) =>
      && (c in after.pending.values <==> c in p.pending.values)
      && (c in p.pending.values ==> after.pending.values[c] == p.pending.values[c])
      && (c in after.inUse.values ==> c in p.inUse.values)
  }

  function PoolAfter(p: Pool, turns: seq<Turn>): Pool
    decreases |turns|
  {
    if turns == [] then p else PoolAfter(TurnOn(p, turns[0]), turns[1..])
  }

  /** When the sweeps write a frame with this code again, in order. */
  function Rewrites(p: Pool, c: Byte, turns: seq<Turn>): seq<Instant>
    decreases |turns|
  {
    if turns == [] then []
    else
      WrittenBy(p, c, turns[0]) + Rewrites(TurnOn(p, turns[0]), c, turns[1..])
  }

  /** The sweeps that come at least a retry interval after the last of their like, counted from `last`. */
  function SpacedSweeps(last: Instant, turns: seq<Turn>): seq<Instant>
    decreases |turns|
  {
    if turns == [] then []
    else match turns[0]
      case Sweep(now, _) =>
        if now - last >= RETRY_INTERVAL then [now] + SpacedSweeps(now, turns[1..]) else SpacedSweeps(last, turns[1..])
      case Others(_) => SpacedSweeps(last, turns[1..])
  }

  function AtMost(s: seq<Instant>, n: nat): seq<Instant> {
    if |s| <= n then s else s[..n]
  }

  predicate SpacedOut(s: seq<Instant>) {
    forall i | 1 <= i < |s| :: s[i] - s[i - 1] >= RETRY_INTERVAL
  }

  lemma {:induction false} SpacedSweepsAreApart(last: Instant, turns: seq<Turn>)
    ensures SpacedOut([last] + SpacedSweeps(last, turns))
    decreases |turns|
  {
    if turns != [] {
      if turns[0].Sweep? && turns[0].now - last >= RETRY_INTERVAL {
        var later := [turns[0].now] + SpacedSweeps(turns[0].now, turns[1..]);
        SpacedSweepsAreApart(turns[0].now, turns[1..]);
        assert forall i | 1 < i < |[last] + later| :: ([last] + later)[i] == later[i - 1];
      } else {
        SpacedSweepsAreApart(last, turns[1..]);
      }
    }
  }

  lemma {:induction false} GoneStaysGone(p: Pool, c: Byte, turns: seq<Turn>)
    requires c !in p.pending.values && c !in p.inUse.values && LeftAlone(p, c, turns)
    ensures Rewrites(p, c, turns) == []
    ensures c !in PoolAfter(p, turns).pending.values && c !in PoolAfter(p, turns).inUse.values
    decreases |turns|
  {
    if turns != [] {
      if turns[0].Sweep? {
        NothingToSweep(p, turns[0].now, turns[0].checked, c);
      }
      GoneStaysGone(TurnOn(p, turns[0]), c, turns[1..]);
    }
  }

  lemma NothingToSweep(p: Pool, now: Instant, checked: Instant, c: Byte)
    requires c !in p.pending.values && c !in p.inUse.values
    ensures Count(SweepAll(p, now, checked).1, c) == 0
    ensures c !in SweepAll(p, now, checked).0.pending.values && c !in SweepAll(p, now, checked).0.inUse.values
  {
    var q := ReleaseTimedOut(p, checked);
    RetryListIsDistinct(q.pending.values, q.pending.order, now);
    RetryListHas(q.pending.values, q.pending.order, now, c);
    DistinctCount(ToRetry(q.pending.values, q.pending.order, now), c);
    AbandonAllEffect(q, ToAbandon(q.pending.values, q.pending.order, now), c);
    MarkAllEffect(AbandonAll(q, ToAbandon(q.pending.values, q.pending.order, now)),
                  ToRetry(q.pending.values, q.pending.order, now), now, c);
  }

  function WrittenBy(p: Pool, c: Byte, t: Turn): seq<Instant> {
    match t
    case Sweep(now, checked) => seq(Count(SweepAll(p, now, checked).1, c), _ => now)
    case Others(_) => []
  }

  /** One turn against the clock of spaced sweeps: it either leaves the frame, writes it, or gives it up. */
  lemma TurnEffect(p: Pool, c: Byte, t: Turn)
    requires c in p.pending.values && p.pending.values[c].attempts <= MAX_ATTEMPTS && TurnLeaves(p, c, t)
    ensures var sent, q := p.pending.values[c], TurnOn(p, t);
            if t.Others? || !Overdue(sent, t.now) then
              WrittenBy(p, c, t) == [] && c in q.pending.values && q.pending.values[c] == sent
            else if sent.attempts < MAX_ATTEMPTS then
              WrittenBy(p, c, t) == [t.now]
              && c in q.pending.values && q.pending.values[c] == Sent(sent.data, sent.attempts + 1, t.now)
            else
              WrittenBy(p, c, t) == [] && c !in q.pending.values && c !in q.inUse.values
  {
    if t.Sweep? {
      SweepEffect(p, t.now, t.checked, c);
    }
  }

  /** What the sweeps' clock says of a frame sent `attempts` times, the last at `last`. */
  predicate OnSchedule(attempts: nat, last: Instant, turns: seq<Turn>, rewrites: seq<Instant>, end: Pool, c: Byte)
    requires attempts <= MAX_ATTEMPTS
  {
    var left, sweeps := MAX_ATTEMPTS - attempts, SpacedSweeps(last, turns);
    && rewrites == AtMost(sweeps, left)
    && (|sweeps| <= left ==> c in end.pending.values && end.pending.values[c].attempts == attempts + |sweeps|)
    && (|sweeps| > left ==> c !in end.pending.values && c !in end.inUse.values)
  }

  lemma OneTurnEarlier(p: Pool, c: Byte, t: Turn, rest: seq<Turn>, rewrites: seq<Instant>, end: Pool)
    requires c in p.pending.values && p.pending.values[c].attempts <= MAX_ATTEMPTS && TurnLeaves(p, c, t)
    requires var q := TurnOn(p, t);
             if c in q.pending.values then
               q.pending.values[c].attempts <= MAX_ATTEMPTS ==>
                 OnSchedule(q.pending.values[c].attempts, q.pending.values[c].at, rest, rewrites, end, c)
             else rewrites == [] && c !in end.pending.values && c !in end.inUse.values
    ensures OnSchedule(p.pending.values[c].attempts, p.pending.values[c].at, [t] + rest,
                       WrittenBy(p, c, t) + rewrites, end, c)
  {
    var sent := p.pending.values[c];
    TurnEffect(p, c, t);
    assert [] + rewrites == rewrites;
    if c in TurnOn(p, t).pending.values {
      ScheduleAdvances(sent, t, rest, rewrites, end, c);
    } else {
      ScheduleEnds(sent, t, rest, end, c);
    }
  }

  /** A frame with attempts left that nobody confirms is written again by the next spaced sweeps, as many as it has
      attempts left; it stays pending till then, and one spaced sweep later it is gone and its code is free. */
  lemma {:induction false} RetriesAreExact(p: Pool, c: Byte, turns: seq<Turn>)
    requires c in p.pending.values && p.pending.values[c].attempts <= MAX_ATTEMPTS && LeftAlone(p, c, turns)
    ensures OnSchedule(p.pending.values[c].attempts, p.pending.values[c].at, turns,
                       Rewrites(p, c, turns), PoolAfter(p, turns), c)
    decreases |turns|
  {
    if turns != [] {
      var t, rest := turns[0], turns[1..];
      var q := TurnOn(p, t);
      TurnEffect(p, c, t);
      if c in q.pending.values {
        RetriesAreExact(q, c, rest);
      } else {
        GoneStaysGone(q, c, rest);
      }
      Unroll(p, c, t, rest);
      assert turns == [t] + rest;
      OneTurnEarlier(p, c, t, rest, Rewrites(q, c, rest), PoolAfter(q, rest));
    }
  }

  lemma Unroll(p: Pool, c: Byte, t: Turn, rest: seq<Turn>)
    ensures Rewrites(p, c, [t] + rest) == WrittenBy(p, c, t) + Rewrites(TurnOn(p, t), c, rest)
    ensures PoolAfter(p, [t] + rest) == PoolAfter(TurnOn(p, t), rest)
  {
    assert ([t] + rest)[1..] == rest;
  }

  lemma ScheduleEnds(sent: Sent, t: Turn, rest: seq<Turn>, end: Pool, c: Byte)
    requires sent.attempts == MAX_ATTEMPTS && t.Sweep? && Overdue(sent, t.now)
    requires c !in end.pending.values && c !in end.inUse.values
    ensures OnSchedule(sent.attempts, sent.at, [t] + rest, [], end, c)
  {
    assert ([t] + rest)[1..] == rest;
  }

  lemma ScheduleAdvances(sent: Sent, t: Turn, rest: seq<Turn>, rewrites: seq<Instant>, end: Pool, c: Byte)
    requires sent.attempts <= MAX_ATTEMPTS
    ensures t.Others? || !Overdue(sent, t.now) ==>
              (OnSchedule(sent.attempts, sent.at, [t] + rest, rewrites, end, c)
               <==> OnSchedule(sent.attempts, sent.at, rest, rewrites, end, c))
    ensures t.Sweep? && Overdue(sent, t.now) && sent.attempts < MAX_ATTEMPTS
            && OnSchedule(sent.attempts + 1, t.now, rest, rewrites, end, c) ==>
              OnSchedule(sent.attempts, sent.at, [t] + rest, [t.now] + rewrites, end, c)
  {
    assert ([t] + rest)[1..] == rest;
  }

  /** From its first write on, a frame that nobody confirms is written exactly three times, at least the retry
      interval apart, if the sweeps go on long enough; and only then is its code free again. */
  lemma ExactlyThreeWrites(p: Pool, c: Byte, data: seq<Byte>, first: Instant, turns: seq<Turn>)
    requires LeftAlone(AddPending(p, c, data, first), c, turns)
    ensures var start := AddPending(p, c, data, first);
            var writes, end := [first] + Rewrites(start, c, turns), PoolAfter(start, turns);
            && |writes| <= 3 && SpacedOut(writes)
            && (c !in end.pending.values <==> |SpacedSweeps(first, turns)| >= 3)
            && (c !in end.pending.values ==> |writes| == 3 && c !in end.inUse.values)
            && (c in end.pending.values ==> end.pending.values[c].attempts == |writes|)
  {
    var start := AddPending(p, c, data, first);
    RetriesAreExact(start, c, turns);
    SpacedSweepsAreApart(first, turns);
    FirstAreSpacedOut(first, SpacedSweeps(first, turns), 2);
  }

  lemma FirstAreSpacedOut(first: Instant, sweeps: seq<Instant>, n: nat)
    requires SpacedOut([first] + sweeps)
    ensures SpacedOut([first] + AtMost(sweeps, n))
  {
    var all, some := [first] + sweeps, [first] + AtMost(sweeps, n);
    assert forall i | 0 <= i < |some| :: some[i] == all[i];
  }
}
