/** The pool of twenty confirmation codes: round-robin allocation, time-out, and forced release of the oldest.

    Each section the original runs under its lock is one function on the pool, and one method that performs it. */
module Confirmations {
  import opened Bytes
  import opened Dicts
  import opened Wrappers

  type Instant = real

  const TIMEOUT := 30.0
  const MAX_ATTEMPTS: nat := 3
  const RETRY_INTERVAL := 1.0
  /** Above this many codes in use, cleanup is forced: nine tenths of the codes there are. */
  const CROWDED: nat := 18
  const CODE_COUNT: nat := 20

  /** A frame that awaits its confirmation. */
  datatype Sent = Sent(data: seq<Byte>, attempts: nat, at: Instant)

  datatype Pool = Pool(inUse: Dict<Instant>, pending: Dict<Sent>, next: nat)

  const EMPTY := Pool(Entries([], map[]), Entries([], map[]), 0)

  predicate PoolOk(p: Pool) {
    && p.next < CODE_COUNT
    && (forall c | c in p.inUse.values :: c in CONFIRMATION_CODES)
    && (forall c | c in p.pending.values :: c in CONFIRMATION_CODES)
  }

  lemma AtMostTwenty(p: Pool)
    requires PoolOk(p)
    ensures Size(p.inUse) <= CODE_COUNT
  {
    KeysCount(p.inUse.order);
    KeysCount(CONFIRMATION_CODES);
    SubsetIsSmaller(Keys(p.inUse.order), Keys(CONFIRMATION_CODES));
  }

  /** Codes leave the pool of those in use, and with them the frames that await them. */
  function Forget(p: Pool, gone: set<Byte>): Pool {
    p.(inUse := Without(p.inUse, gone), pending := Without(p.pending, gone))
  }

  // ---- Release --------------------------------------------------------------------------

  /** A confirmation arrived, or the frame was given up: the code is free again. */
  function Release(p: Pool, code: Byte): Pool {
    if code in p.inUse.values then Forget(p, {code}) else p
  }

  function RemovePending(p: Pool, code: Byte): Pool {
    p.(pending := Without(p.pending, {code}))
  }

  function TimedOut(p: Pool, now: Instant): set<Byte> {
    set c | c in p.inUse.values && now - p.inUse.values[c] > TIMEOUT
  }

  /** The codes by their time of acquisition, oldest first; equally old codes stay in the order of the dictionary. */
  function ByAge(values: map<Byte, Instant>, codes: seq<Byte>): (r: seq<Byte>)
    requires forall c | c in codes :: c in values
    ensures |r| == |codes| && forall c :: c in r <==> c in codes
  {
    if codes == [] then []
    else
      assert forall c :: c in codes <==> c == codes[0] || c in codes[1..];
      Insert(values, codes[0], ByAge(values, codes[1..]))
  }

  function Insert(values: map<Byte, Instant>, code: Byte, sorted: seq<Byte>): (r: seq<Byte>)
    requires code in values && forall c | c in sorted :: c in values
    ensures |r| == |sorted| + 1 && forall c :: c in r <==> c == code || c in sorted
  {
    if sorted == [] || values[code] <= values[sorted[0]] then [code] + sorted
    else
      assert forall c :: c in sorted <==> c == sorted[0] || c in sorted[1..];
      [sorted[0]] + Insert(values, code, sorted[1..])
  }

  /** How many codes a forced cleanup releases: a quarter, at least one. */
  function Surplus(n: nat): nat {
    if n / 4 < 1 then 1 else n / 4
  }

  function Oldest(d: Dict<Instant>, n: nat): set<Byte>
    requires n <= Size(d)
  {
    Keys(ByAge(d.values, d.order)[..n])
  }

  function ForceRelease(p: Pool): Pool {
    if Size(p.inUse) > CROWDED then Forget(p, Oldest(p.inUse, Surplus(Size(p.inUse)))) else p
  }

  function ReleaseTimedOut(p: Pool, now: Instant): Pool {
    ForceRelease(Forget(p, TimedOut(p, now)))
  }

  // ---- Allocation -----------------------------------------------------------------------

  /** Takes up to `tries` codes in turn from position `next`, until one is not to be avoided. */
  function Seek(codes: seq<Byte>, avoid: set<Byte>, next: nat, tries: nat): (r: (Option<Byte>, nat))
    requires |codes| == CODE_COUNT && next < CODE_COUNT
    ensures r.1 < CODE_COUNT
    decreases tries
  {
    if tries == 0 then (None, next)
    else if codes[next] !in avoid then (Some(codes[next]), (next + 1) % CODE_COUNT)
    else Seek(codes, avoid, (next + 1) % CODE_COUNT, tries - 1)
  }

  function Taken(p: Pool): set<Byte> {
    Keys(p.inUse.order)
  }

  function TryAllocate(p: Pool, now: Instant): (Option<Byte>, Pool)
    requires p.next < CODE_COUNT
  {
    var (found, next) := Seek(CONFIRMATION_CODES, Taken(p), p.next, CODE_COUNT);
    if found.Some? then (found, p.(inUse := Put(p.inUse, found.value, now), next := next))
    else (None, p.(next := next))
  }

  /** The first of the codes with the least time of acquisition. */
  function FirstOldest(values: map<Byte, Instant>, codes: seq<Byte>): (r: Byte)
    requires codes != [] && forall c | c in codes :: c in values
    ensures r in codes && forall c | c in codes :: values[r] <= values[c]
  {
    if |codes| == 1 then codes[0]
    else
      var rest := FirstOldest(values, codes[1..]);
      assert forall c :: c in codes <==> c == codes[0] || c in codes[1..];
      if values[codes[0]] <= values[rest] then codes[0] else rest
  }

  /** All codes were found in use: the oldest is given up, and another one taken if there is any by now. */
  function Evict(p: Pool, now: Instant): (Byte, Pool)
    requires p.next < CODE_COUNT
  {
    if p.inUse.order == [] then
      (CONFIRMATION_CODES[0], p.(inUse := Put(p.inUse, CONFIRMATION_CODES[0], now)))
    else
      var oldest := FirstOldest(p.inUse.values, p.inUse.order);
      var q := Forget(p, {oldest});
      var (found, next) := Seek(CONFIRMATION_CODES, Taken(q) + {oldest}, q.next, CODE_COUNT);
      var code := if found.Some? then found.value else oldest;
      (code, q.(inUse := Put(q.inUse, code, now), next := next))
  }

  /** The three sections one after the other, nothing else running in between. */
  function Allocate(p: Pool, checked: Instant, now: Instant, later: Instant): (Byte, Pool)
    requires p.next < CODE_COUNT
  {
    var (found, q) := TryAllocate(ReleaseTimedOut(p, checked), now);
    if found.Some? then (found.value, q) else Evict(q, later)
  }

  /** A frame was written and now awaits its confirmation. */
  function AddPending(p: Pool, code: Byte, data: seq<Byte>, now: Instant): Pool {
    p.(pending := Put(p.pending, code, Sent(data, 1, now)))
  }

  // ---- The sweep ------------------------------------------------------------------------

  datatype Frame = Frame(code: Byte, data: seq<Byte>)

  predicate Overdue(sent: Sent, now: Instant) {
    now - sent.at >= RETRY_INTERVAL
  }

  /** The overdue frames that still have an attempt left, in the order of the table. */
  function ToRetry(pending: map<Byte, Sent>, codes: seq<Byte>, now: Instant): (r: seq<Frame>)
    requires forall c | c in codes :: c in pending
    ensures forall f | f in r :: f.code in codes && f.data == pending[f.code].data
  {
    if codes == [] then []
    else
      assert forall c | c in codes[1..] :: c in codes;
      var rest := ToRetry(pending, codes[1..], now);
      var sent := pending[codes[0]];
      if Overdue(sent, now) && sent.attempts < MAX_ATTEMPTS then [Frame(codes[0], sent.data)] + rest else rest
  }

  /** The overdue frames that have none left. */
  function ToAbandon(pending: map<Byte, Sent>, codes: seq<Byte>, now: Instant): (r: seq<Byte>)
    requires forall c | c in codes :: c in pending
    ensures forall c :: c in r <==> c in codes && Overdue(pending[c], now) && pending[c].attempts >= MAX_ATTEMPTS
  {
    if codes == [] then []
    else
      assert forall c :: c in codes <==> c == codes[0] || c in codes[1..];
      var rest := ToAbandon(pending, codes[1..], now);
      var sent := pending[codes[0]];
      if Overdue(sent, now) && sent.attempts >= MAX_ATTEMPTS then [codes[0]] + rest else rest
  }

  lemma {:induction false} RetryOneMore(pending: map<Byte, Sent>, codes: seq<Byte>, code: Byte, now: Instant)
    requires forall c | c in codes + [code] :: c in pending
    ensures code in pending
    ensures ToRetry(pending, codes + [code], now)
         == ToRetry(pending, codes, now)
            + if Overdue(pending[code], now) && pending[code].attempts < MAX_ATTEMPTS
              then [Frame(code, pending[code].data)] else []
  {
    assert code in codes + [code];
    if codes == [] {
      assert codes + [code] == [code];
    } else {
      assert (codes + [code])[1..] == codes[1..] + [code] && codes[0] in codes + [code];
      RetryOneMore(pending, codes[1..], code, now);
    }
  }

  lemma {:induction false} AbandonOneMore(pending: map<Byte, Sent>, codes: seq<Byte>, code: Byte, now: Instant)
    requires forall c | c in codes + [code] :: c in pending
    ensures code in pending
    ensures ToAbandon(pending, codes + [code], now)
         == ToAbandon(pending, codes, now)
            + if Overdue(pending[code], now) && pending[code].attempts >= MAX_ATTEMPTS then [code] else []
  {
    assert code in codes + [code];
    if codes == [] {
      assert codes + [code] == [code];
    } else {
      assert (codes + [code])[1..] == codes[1..] + [code] && codes[0] in codes + [code];
      AbandonOneMore(pending, codes[1..], code, now);
    }
  }

  /** What a sweep has collected of the codes seen so far. */
  predicate Collected(d: Dict<Sent>, n: nat, now: Instant, retry: seq<Frame>, abandon: seq<Byte>) {
    && n <= Size(d)
    && retry == ToRetry(d.values, d.order[..n], now)
    && abandon == ToAbandon(d.values, d.order[..n], now)
  }

  lemma CollectOneMore(d: Dict<Sent>, n: nat, now: Instant, retry: seq<Frame>, abandon: seq<Byte>)
    requires n < Size(d) && Collected(d, n, now, retry, abandon)
    ensures var code := d.order[n];
            code in d.values &&
            var sent := d.values[code];
            if !Overdue(sent, now) then Collected(d, n + 1, now, retry, abandon)
            else if sent.attempts < MAX_ATTEMPTS then
              Collected(d, n + 1, now, retry + [Frame(code, sent.data)], abandon)
            else Collected(d, n + 1, now, retry, abandon + [code])
  {
    assert d.order[n] in d.order && d.order[..n + 1] == d.order[..n] + [d.order[n]];
    RetryOneMore(d.values, d.order[..n], d.order[n], now);
    AbandonOneMore(d.values, d.order[..n], d.order[n], now);
  }

  /** A frame about to be written again is counted, if it still awaits its confirmation. */
  function MarkRetry(p: Pool, f: Frame, now: Instant): Pool {
    if f.code in p.pending.values
    then p.(pending := Put(p.pending, f.code, Sent(f.data, p.pending.values[f.code].attempts + 1, now)))
    else p
  }

  function AbandonAll(p: Pool, codes: seq<Byte>): Pool
    decreases |codes|
  {
    if codes == [] then p else AbandonAll(Release(RemovePending(p, codes[0]), codes[0]), codes[1..])
  }

  function MarkAll(p: Pool, frames: seq<Frame>, now: Instant): Pool
    decreases |frames|
  {
    if frames == [] then p else MarkAll(MarkRetry(p, frames[0], now), frames[1..], now)
  }

  /** A whole sweep with nothing running in between, and the frames it writes. */
  function SweepAll(p: Pool, now: Instant, checked: Instant): (Pool, seq<Frame>) {
    var q := ReleaseTimedOut(p, checked);
    var retry := ToRetry(q.pending.values, q.pending.order, now);
    var r := AbandonAll(q, ToAbandon(q.pending.values, q.pending.order, now));
    (MarkAll(r, retry, now), retry)
  }

  /** A sweep whose write number `writes` fails, if it makes that many: the frame it was to write is counted, those
      behind it are not. */
  function SweepUpTo(p: Pool, now: Instant, checked: Instant, writes: nat): (Pool, seq<Frame>) {
    var q := ReleaseTimedOut(p, checked);
    var retry := ToRetry(q.pending.values, q.pending.order, now);
    var r := AbandonAll(q, ToAbandon(q.pending.values, q.pending.order, now));
    if writes < |retry| then (MarkAll(r, retry[..writes + 1], now), retry[..writes]) else SweepAll(p, now, checked)
  }

  // ---- What cleanup does ----------------------------------------------------------------

  ghost predicate SortedByAge(values: map<Byte, Instant>, s: seq<Byte>)
    requires forall c | c in s :: c in values
  {
    forall i, j | 0 <= i < j < |s| :: values[s[i]] <= values[s[j]]
  }

  function OfAge(values: map<Byte, Instant>, s: seq<Byte>, t: Instant): seq<Byte>
    requires forall c | c in s :: c in values
  {
    if s == [] then []
    else if values[s[0]] == t then [s[0]] + OfAge(values, s[1..], t)
    else OfAge(values, s[1..], t)
  }

  lemma {:induction false} InsertSorts(values: map<Byte, Instant>, code: Byte, s: seq<Byte>)
    requires code in values && (forall c | c in s :: c in values) && SortedByAge(values, s)
    ensures SortedByAge(values, Insert(values, code, s))
  {
    if s != [] && values[code] > values[s[0]] {
      var rest := Insert(values, code, s[1..]);
      InsertSorts(values, code, s[1..]);
      assert forall c | c in rest :: values[s[0]] <= values[c];
    }
  }

  lemma OfAgeFirst(values: map<Byte, Instant>, code: Byte, s: seq<Byte>, t: Instant)
    requires code in values && forall c | c in s :: c in values
    ensures OfAge(values, [code] + s, t)
         == if values[code] == t then [code] + OfAge(values, s, t) else OfAge(values, s, t)
  {
    assert ([code] + s)[1..] == s;
  }

  lemma {:induction false} InsertIsStable(values: map<Byte, Instant>, code: Byte, s: seq<Byte>, t: Instant)
    requires code in values && forall c | c in s :: c in values
    ensures OfAge(values, Insert(values, code, s), t) == OfAge(values, [code] + s, t)
  {
    OfAgeFirst(values, code, s, t);
    if s != [] && values[code] > values[s[0]] {
      InsertIsStable(values, code, s[1..], t);
      OfAgeFirst(values, code, s[1..], t);
      OfAgeFirst(values, s[0], Insert(values, code, s[1..]), t);
    }
  }

  /** The codes sorted by age, and equally old ones left in their order: that is a stable sort. */
  lemma {:induction false} ByAgeIsStable(values: map<Byte, Instant>, codes: seq<Byte>, t: Instant)
    requires forall c | c in codes :: c in values
    ensures SortedByAge(values, ByAge(values, codes))
    ensures multiset(ByAge(values, codes)) == multiset(codes)
    ensures OfAge(values, ByAge(values, codes), t) == OfAge(values, codes, t)
  {
    ByAgeIsPermutation(values, codes);
    if codes != [] {
      var rest := ByAge(values, codes[1..]);
      ByAgeIsStable(values, codes[1..], t);
      InsertSorts(values, codes[0], rest);
      InsertIsStable(values, codes[0], rest, t);
      OfAgeFirst(values, codes[0], rest, t);
    }
  }

  lemma {:induction false} ByAgeIsPermutation(values: map<Byte, Instant>, codes: seq<Byte>)
    requires forall c | c in codes :: c in values
    ensures multiset(ByAge(values, codes)) == multiset(codes)
  {
    if codes != [] {
      ByAgeIsPermutation(values, codes[1..]);
      InsertAdds(values, codes[0], ByAge(values, codes[1..]));
      assert codes == [codes[0]] + codes[1..];
    }
  }

  lemma {:induction false} InsertAdds(values: map<Byte, Instant>, code: Byte, s: seq<Byte>)
    requires code in values && forall c | c in s :: c in values
    ensures multiset(Insert(values, code, s)) == multiset(s) + multiset{code}
  {
    if s != [] && values[code] > values[s[0]] {
      InsertAdds(values, code, s[1..]);
      assert s == [s[0]] + s[1..];
    }
  }

  lemma NoDuplicatesByAge(d: Dict<Instant>)
    ensures NoDuplicates(ByAge(d.values, d.order))
  {
    KeysCount(d.order);
    KeysCount(ByAge(d.values, d.order));
    assert Keys(ByAge(d.values, d.order)) == Keys(d.order);
  }

  lemma PrefixIsOldest(values: map<Byte, Instant>, s: seq<Byte>, n: nat, c: Byte, k: Byte)
    requires n <= |s| && (forall x | x in s :: x in values) && SortedByAge(values, s)
    requires c in s[..n] && k in s && k !in s[..n]
    ensures values[c] <= values[k]
  {
    var i :| 0 <= i < n && s[i] == c;
    var j :| 0 <= j < |s| && s[j] == k;
    assert forall h | 0 <= h < n :: s[h] in s[..n];
  }

  /** The `n` oldest codes: that many, all in use, and none younger than a code that stays. */
  lemma OldestAreOldest(d: Dict<Instant>, n: nat)
    requires n <= Size(d)
    ensures |Oldest(d, n)| == n
    ensures forall c | c in Oldest(d, n) :: c in d.values
    ensures forall c, k | c in Oldest(d, n) && k in d.values && k !in Oldest(d, n) :: d.values[c] <= d.values[k]
  {
    var s := ByAge(d.values, d.order);
    NoDuplicatesByAge(d);
    KeysCount(s[..n]);
    ByAgeIsStable(d.values, d.order, 0.0);
    forall c, k | c in Oldest(d, n) && k in d.values && k !in Oldest(d, n)
      ensures d.values[c] <= d.values[k]
    {
      PrefixIsOldest(d.values, s, n, c, k);
    }
  }

  function Stale(p: Pool, now: Instant): set<Byte> {
    set c | c in p.inUse.values && now - p.inUse.values[c] > 30.0
  }

  /** A cleanup at `now` that releases the codes timed out and those forced out, with their frames, and nothing else. */
  ghost predicate Cleaned(p: Pool, now: Instant, r: Pool, forced: set<Byte>) {
    var n := |Taken(p) - Stale(p, now)|;
    && forced <= Taken(p) - Stale(p, now)
    && r.inUse == Without(p.inUse, Stale(p, now) + forced)
    && r.pending == Without(p.pending, Stale(p, now) + forced) && r.next == p.next
    && (n <= 18 ==> forced == {})
    && (n > 18 ==> 4 * |forced| <= n < 4 * |forced| + 4)
    && (forall c, k | c in forced && k in r.inUse.values :: p.inUse.values[c] <= p.inUse.values[k])
    && Size(r.inUse) == n - |forced| <= 18
  }

  /** A cleanup releases the codes older than thirty seconds; of n codes left, if they are more than eighteen, a quarter
      rounded down as well, none of them younger than any code kept: four of nineteen, five of twenty. */
  lemma CleanupReleasesTheOldest(p: Pool, now: Instant)
    requires PoolOk(p)
    ensures exists forced :: Cleaned(p, now, ReleaseTimedOut(p, now), forced)
    ensures PoolOk(ReleaseTimedOut(p, now)) && Size(ReleaseTimedOut(p, now).inUse) <= 18
  {
    var q := Forget(p, TimedOut(p, now));
    KeysCount(q.inUse.order);
    assert TimedOut(p, now) == Stale(p, now) && Taken(q) == Taken(p) - Stale(p, now);
    AtMostTwenty(q);
    if Size(q.inUse) > CROWDED {
      var n := Surplus(Size(q.inUse));
      var forced := Oldest(q.inUse, n);
      OldestAreOldest(q.inUse, n);
      WithoutShrinks(q.inUse, forced);
      WithoutTwice(p.inUse, Stale(p, now), forced);
      WithoutTwice(p.pending, Stale(p, now), forced);
      assert Cleaned(p, now, ReleaseTimedOut(p, now), forced);
    } else {
      assert Stale(p, now) + {} == Stale(p, now);
      assert Cleaned(p, now, ReleaseTimedOut(p, now), {});
    }
  }

  // ---- What allocation does -------------------------------------------------------------

  /** The `k`-th code from a position on, around the circle. */
  function CodeAt(codes: seq<Byte>, next: nat, k: nat): Byte
    requires |codes| == CODE_COUNT
  {
    codes[(next + k) % CODE_COUNT]
  }

  /** The first code from `next` on that is not avoided is the `k`-th, and the search goes on after it next time. */
  predicate FoundAt(codes: seq<Byte>, avoid: set<Byte>, next: nat, k: nat, code: Byte, after: nat)
    requires |codes| == CODE_COUNT
  {
    && code == CodeAt(codes, next, k) && code !in avoid
    && AllAvoided(codes, avoid, next, k)
    && after == (next + k + 1) % CODE_COUNT
  }

  predicate AllAvoided(codes: seq<Byte>, avoid: set<Byte>, next: nat, k: nat)
    requires |codes| == CODE_COUNT
  {
    forall j | 0 <= j < k :: CodeAt(codes, next, j) in avoid
  }

  lemma WrapAround(next: nat, j: nat)
    ensures ((next + 1) % CODE_COUNT + j) % CODE_COUNT == (next + (j + 1)) % CODE_COUNT
  {}

  lemma AvoidedFromBefore(codes: seq<Byte>, avoid: set<Byte>, next: nat, k: nat)
    requires |codes| == CODE_COUNT && next < CODE_COUNT && codes[next] in avoid
    requires AllAvoided(codes, avoid, (next + 1) % CODE_COUNT, k)
    ensures AllAvoided(codes, avoid, next, k + 1)
  {
    forall j | 0 <= j < k + 1
      ensures CodeAt(codes, next, j) in avoid
    {
      if j > 0 {
        WrapAround(next, j - 1);
        assert CodeAt(codes, (next + 1) % CODE_COUNT, j - 1) in avoid;
      }
    }
  }

  lemma {:induction false} SeekTakesTheFirst(codes: seq<Byte>, avoid: set<Byte>, next: nat, tries: nat)
    requires |codes| == CODE_COUNT && next < CODE_COUNT
    ensures var r := Seek(codes, avoid, next, tries);
            && (r.0.Some? ==> exists k | 0 <= k < tries :: FoundAt(codes, avoid, next, k, r.0.value, r.1))
            && (r.0.None? ==> r.1 == (next + tries) % CODE_COUNT && AllAvoided(codes, avoid, next, tries))
    decreases tries
  {
    if tries > 0 && codes[next] in avoid {
      var after := (next + 1) % CODE_COUNT;
      SeekTakesTheFirst(codes, avoid, after, tries - 1);
      var r := Seek(codes, avoid, after, tries - 1);
      if r.0.Some? {
        var k :| 0 <= k < tries - 1 && FoundAt(codes, avoid, after, k, r.0.value, r.1);
        FoundFromBefore(codes, avoid, next, k, r.0.value, r.1);
      } else {
        WrapAround(next, tries - 1);
        AvoidedFromBefore(codes, avoid, next, tries - 1);
      }
    } else if tries > 0 {
      assert FoundAt(codes, avoid, next, 0, codes[next], (next + 1) % CODE_COUNT);
    }
  }

  lemma FoundFromBefore(codes: seq<Byte>, avoid: set<Byte>, next: nat, k: nat, code: Byte, after: nat)
    requires |codes| == CODE_COUNT && next < CODE_COUNT && codes[next] in avoid
    requires FoundAt(codes, avoid, (next + 1) % CODE_COUNT, k, code, after)
    ensures FoundAt(codes, avoid, next, k + 1, code, after)
  {
    WrapAround(next, k);
    WrapAround(next, k + 1);
    AvoidedFromBefore(codes, avoid, next, k);
  }

  /** Twenty tries see every code. */
  lemma TwentyTriesSeeAll(codes: seq<Byte>, avoid: set<Byte>, next: nat)
    requires |codes| == CODE_COUNT && next < CODE_COUNT && AllAvoided(codes, avoid, next, CODE_COUNT)
    ensures forall c | c in codes :: c in avoid
  {
    forall i | 0 <= i < CODE_COUNT
      ensures codes[i] in avoid
    {
      var k := if i >= next then i - next else i + CODE_COUNT - next;
      assert CodeAt(codes, next, k) == codes[i];
    }
  }

  lemma SeekFailsIffAllAvoided(codes: seq<Byte>, avoid: set<Byte>, next: nat)
    requires |codes| == CODE_COUNT && next < CODE_COUNT
    ensures Seek(codes, avoid, next, CODE_COUNT).0.None? <==> forall c | c in codes :: c in avoid
    ensures Seek(codes, avoid, next, CODE_COUNT).0.None? ==> Seek(codes, avoid, next, CODE_COUNT).1 == next
  {
    SeekTakesTheFirst(codes, avoid, next, CODE_COUNT);
    var r := Seek(codes, avoid, next, CODE_COUNT);
    if r.0.None? {
      TwentyTriesSeeAll(codes, avoid, next);
      FullCircle(next);
    } else {
      var k :| 0 <= k < CODE_COUNT && FoundAt(codes, avoid, next, k, r.0.value, r.1);
      CodeIsOne(codes, next, k);
    }
  }

  lemma FullCircle(next: nat)
    requires next < CODE_COUNT
    ensures (next + CODE_COUNT) % CODE_COUNT == next
  {}

  lemma CodeIsOne(codes: seq<Byte>, next: nat, k: nat)
    requires |codes| == CODE_COUNT
    ensures CodeAt(codes, next, k) in codes
  {}

  lemma CrowdIsTwenty(codes: seq<Byte>, p: Pool)
    requires |codes| == CODE_COUNT && NoDuplicates(codes)
    requires forall c :: c in codes <==> c in p.inUse.values
    ensures Size(p.inUse) == CODE_COUNT
  {
    KeysCount(p.inUse.order);
    KeysCount(codes);
    assert Keys(codes) == Taken(p);
  }

  /** An allocation fails exactly when all twenty codes are in use. */
  lemma AllocationFailsIffAllInUse(p: Pool, now: Instant)
    requires PoolOk(p)
    ensures TryAllocate(p, now).0.None? <==> forall c | c in CONFIRMATION_CODES :: c in p.inUse.values
    ensures TryAllocate(p, now).0.None? ==> TryAllocate(p, now).1 == p && Size(p.inUse) == CODE_COUNT
  {
    SeekFailsIffAllAvoided(CONFIRMATION_CODES, Taken(p), p.next);
    CodesAreDistinct();
    if TryAllocate(p, now).0.None? {
      CrowdIsTwenty(CONFIRMATION_CODES, p);
    }
  }

  lemma CodesAreDistinct()
    ensures NoDuplicates(CONFIRMATION_CODES)
  {
    assert forall i | 0 <= i < CODE_COUNT :: CONFIRMATION_CODES[i] == if i == 19 then 0x67 else 0x68 + i;
  }

  /** What a code handed out is: one of the twenty, recorded as in use from now, the others as before. */
  predicate HandedOut(p: Pool, q: Pool, code: Byte, now: Instant) {
    && code in CONFIRMATION_CODES && code in q.inUse.values && q.inUse.values[code] == now
    && (forall c | c in q.inUse.values && c != code :: c in p.inUse.values && q.inUse.values[c] == p.inUse.values[c])
  }

  lemma TryHandsOut(p: Pool, now: Instant)
    requires PoolOk(p)
    ensures PoolOk(TryAllocate(p, now).1)
    ensures var (found, q) := TryAllocate(p, now);
            found.Some? ==> HandedOut(p, q, found.value, now) && found.value !in p.inUse.values
                            && q.inUse.values == p.inUse.values[found.value := now]
                            && q.pending == p.pending && Size(q.inUse) == Size(p.inUse) + 1
  {
    SeekTakesTheFirst(CONFIRMATION_CODES, Taken(p), p.next, CODE_COUNT);
  }

  /** Whatever happened since the search failed, eviction hands out a valid code. */
  lemma EvictHandsOut(p: Pool, now: Instant)
    requires PoolOk(p)
    ensures PoolOk(Evict(p, now).1) && HandedOut(p, Evict(p, now).1, Evict(p, now).0, now)
    ensures p.inUse.order == [] ==>
              Evict(p, now).0 == 0x68 && Evict(p, now).1.next == p.next && Evict(p, now).1.pending == p.pending
  {
    if p.inUse.order != [] {
      var oldest := FirstOldest(p.inUse.values, p.inUse.order);
      assert oldest in p.inUse.values;
      SeekElsewhere(p, oldest);
    }
  }

  lemma FirstOldestFurther(values: map<Byte, Instant>, codes: seq<Byte>, i: int, code: Byte)
    requires codes != [] && forall c | c in codes :: c in values
    requires IsFirstOldest(values, codes[1..], i, code) && values[code] < values[codes[0]]
    ensures IsFirstOldest(values, codes, i + 1, code)
  {
    assert forall j | 1 <= j < |codes| :: codes[j] == codes[1..][j - 1];
  }

  lemma {:induction false} FirstOldestIsFirst(values: map<Byte, Instant>, codes: seq<Byte>) returns (i: nat)
    requires codes != [] && forall c | c in codes :: c in values
    ensures IsFirstOldest(values, codes, i, FirstOldest(values, codes))
  {
    i := 0;
    if |codes| > 1 {
      var rest := FirstOldest(values, codes[1..]);
      if values[codes[0]] > values[rest] {
        var j := FirstOldestIsFirst(values, codes[1..]);
        FirstOldestFurther(values, codes, j, rest);
        i := j + 1;
      }
    }
  }

  /** The code at position `i` is not younger than any, and older than all before it. */
  predicate IsFirstOldest(values: map<Byte, Instant>, codes: seq<Byte>, i: int, code: Byte)
    requires forall c | c in codes :: c in values
  {
    && 0 <= i < |codes| && codes[i] == code
    && (forall j | 0 <= j < |codes| :: values[code] <= values[codes[j]])
    && (forall j | 0 <= j < i :: values[code] < values[codes[j]])
  }

  /** The first of the oldest codes is given up, with the frame that awaited it, and nothing else; it is the one handed
      out only when all others are in use. */
  lemma EvictPrefersAnother(p: Pool, now: Instant)
    requires PoolOk(p) && p.inUse.order != []
    ensures exists i | 0 <= i < |p.inUse.order| ::
              && IsFirstOldest(p.inUse.values, p.inUse.order, i, p.inUse.order[i])
              && Replaces(p, Evict(p, now).1, p.inUse.order[i], Evict(p, now).0, now)
              && (Evict(p, now).0 == p.inUse.order[i] <==>
                    forall c | c in CONFIRMATION_CODES && c != p.inUse.order[i] :: c in p.inUse.values)
  {
    var oldest := FirstOldest(p.inUse.values, p.inUse.order);
    var i := FirstOldestIsFirst(p.inUse.values, p.inUse.order);
    SeekElsewhere(p, oldest);
    assert Replaces(p, Evict(p, now).1, oldest, Evict(p, now).0, now);
  }

  /** If there is a code not in use by then, eviction takes the first one in turn and goes on behind it next time; the
      turn stays where it is if the oldest is handed out again. */
  lemma EvictTakesTheFirst(p: Pool, now: Instant)
    requires PoolOk(p) && p.inUse.order != []
    ensures var (code, r) := Evict(p, now);
            if exists c | c in CONFIRMATION_CODES :: c !in p.inUse.values then
              exists k | 0 <= k < CODE_COUNT :: FoundAt(CONFIRMATION_CODES, Taken(p), p.next, k, code, r.next)
            else r.next == p.next
  {
    var oldest := FirstOldest(p.inUse.values, p.inUse.order);
    assert Taken(Forget(p, {oldest})) + {oldest} == Taken(p);
    SeekTakesTheFirst(CONFIRMATION_CODES, Taken(p), p.next, CODE_COUNT);
    SeekFailsIffAllAvoided(CONFIRMATION_CODES, Taken(p), p.next);
  }

  /** One code in use makes way for another, or for itself. */
  predicate Replaces(p: Pool, q: Pool, leaving: Byte, coming: Byte, now: Instant) {
    && q.inUse.values == (p.inUse.values - {leaving})[coming := now]
    && q.pending == Without(p.pending, {leaving})
  }

  lemma SeekElsewhere(p: Pool, oldest: Byte)
    requires PoolOk(p) && oldest in p.inUse.values
    ensures var found := Seek(CONFIRMATION_CODES, Taken(Forget(p, {oldest})) + {oldest}, p.next, CODE_COUNT).0;
            && (found.Some? ==> found.value in CONFIRMATION_CODES && found.value != oldest
                                && found.value !in p.inUse.values)
            && (found.None? <==> forall c | c in CONFIRMATION_CODES && c != oldest :: c in p.inUse.values)
  {
    var avoid := Taken(Forget(p, {oldest})) + {oldest};
    SeekTakesTheFirst(CONFIRMATION_CODES, avoid, p.next, CODE_COUNT);
    SeekFailsIffAllAvoided(CONFIRMATION_CODES, avoid, p.next);
    assert forall c :: c in avoid <==> c in p.inUse.values;
  }

  /** With nothing else running, a request gets the first code, in turn, that is not in use after cleanup; at most
      nineteen are in use then, and the oldest code is never evicted for it. */
  lemma AllocatorIsCorrect(p: Pool, checked: Instant, now: Instant, later: Instant)
    requires PoolOk(p)
    ensures var q := ReleaseTimedOut(p, checked);
            var (code, r) := Allocate(p, checked, now, later);
            && TryAllocate(q, now) == (Some(code), r)
            && (exists k | 0 <= k < CODE_COUNT :: FoundAt(CONFIRMATION_CODES, Taken(q), p.next, k, code, r.next))
            && HandedOut(q, r, code, now) && code !in q.inUse.values
            && Size(r.inUse) <= CODE_COUNT - 1 && PoolOk(r)
  {
    var q := ReleaseTimedOut(p, checked);
    CleanupReleasesTheOldest(p, checked);
    AllocationFailsIffAllInUse(q, now);
    SeekTakesTheFirst(CONFIRMATION_CODES, Taken(q), q.next, CODE_COUNT);
    TryHandsOut(q, now);
  }

  // ---- The protocol object --------------------------------------------------------------

  class PciProtocol {
    var inUse: Dict<Instant>
    var pending: Dict<Sent>
    var next: nat

    function Value(): Pool
      reads this
    {
      Pool(inUse, pending, next)
    }

    constructor ()
      ensures Value() == EMPTY
    {
      inUse, pending, next := Entries([], map[]), Entries([], map[]), 0;
    }

    /** On a new connection, and when one is lost. */
    method CleanupState()
      modifies this
      ensures Value() == EMPTY
    {
      inUse, pending, next := Entries([], map[]), Entries([], map[]), 0;
    }

    method RemoveFromPending(code: Byte)
      modifies this`pending
      ensures Value() == RemovePending(old(Value()), code)
    {
      pending := Without(pending, {code});
    }

    method ReleaseCode(code: Byte)
      modifies this
      ensures Value() == Release(old(Value()), code)
      ensures inUse == Without(old(inUse), {code})
      ensures pending == if code in old(inUse).values then Without(old(pending), {code}) else old(pending)
    {
      if code !in inUse.values {
        WithoutNone(inUse, {code});
      }
      if code in inUse.values {
        inUse := Without(inUse, {code});
        pending := Without(pending, {code});
      }
    }

    /** Deletes the codes one by one. */
    method ForgetAll(codes: seq<Byte>)
      modifies this`inUse, this`pending
      ensures Value() == Forget(old(Value()), Keys(codes))
    {
      assert Keys(codes[..0]) == {};
      WithoutNone(inUse, {});
      WithoutNone(pending, {});
      for i := 0 to |codes|
        invariant Value() == Forget(old(Value()), Keys(codes[..i]))
      {
        assert Keys(codes[..i + 1]) == Keys(codes[..i]) + {codes[i]};
        WithoutTwice(old(inUse), Keys(codes[..i]), {codes[i]});
        WithoutTwice(old(pending), Keys(codes[..i]), {codes[i]});
        inUse := Without(inUse, {codes[i]});
        pending := Without(pending, {codes[i]});
      }
      assert codes[..|codes|] == codes;
    }

    method CheckAndReleaseTimedOutCodes(now: Instant)
      modifies this`inUse, this`pending
      ensures Value() == ReleaseTimedOut(old(Value()), now)
    {
      var timedOut: seq<Byte> := [];
      for i := 0 to |inUse.order|
        invariant Value() == old(Value())
        invariant forall c :: c in timedOut <==> c in inUse.order[..i] && now - inUse.values[c] > TIMEOUT
      {
        var code := inUse.order[i];
        assert code in inUse.order;
        assert inUse.order[..i + 1] == inUse.order[..i] + [code];
        if now - inUse.values[code] > TIMEOUT {
          timedOut := timedOut + [code];
        }
      }
      assert Keys(timedOut) == TimedOut(Value(), now);
      ForgetAll(timedOut);
      if Size(inUse) > CROWDED {
        var codesByAge := ByAge(inUse.values, inUse.order);
        ForgetAll(codesByAge[..Surplus(|codesByAge|)]);
      }
    }

    /** Steps round the codes until one is not avoided, or all have been tried. */
    method NextFree(avoid: set<Byte>) returns (found: Option<Byte>)
      requires next < CODE_COUNT
      modifies this`next
      ensures (found, next) == Seek(CONFIRMATION_CODES, avoid, old(next), CODE_COUNT)
    {
      var n := 0;
      while n < CODE_COUNT
        invariant n <= CODE_COUNT && next < CODE_COUNT
        invariant Seek(CONFIRMATION_CODES, avoid, old(next), CODE_COUNT)
               == Seek(CONFIRMATION_CODES, avoid, next, CODE_COUNT - n)
      {
        var code := CONFIRMATION_CODES[next];
        next := (next + 1) % CODE_COUNT;
        if code !in avoid {
          return Some(code);
        }
        n := n + 1;
      }
      found := None;
    }

    method TryAllocateCode(now: Instant) returns (found: Option<Byte>)
      requires next < CODE_COUNT
      modifies this
      ensures (found, Value()) == TryAllocate(old(Value()), now)
    {
      found := NextFree(Keys(inUse.order));
      if found.Some? {
        inUse := Put(inUse, found.value, now);
      }
    }

    method EvictOldest(now: Instant) returns (code: Byte)
      requires next < CODE_COUNT
      modifies this
      ensures (code, Value()) == Evict(old(Value()), now)
    {
      if inUse.order == [] {
        code := CONFIRMATION_CODES[0];
      } else {
        var oldest := OldestCode();
        inUse := Without(inUse, {oldest});
        pending := Without(pending, {oldest});
        var found := NextFree(Keys(inUse.order) + {oldest});
        code := if found.Some? then found.value else oldest;
      }
      inUse := Put(inUse, code, now);
    }

    method OldestCode() returns (oldest: Byte)
      requires inUse.order != []
      ensures oldest == FirstOldest(inUse.values, inUse.order)
    {
      var codes := inUse.order;
      var i := |codes| - 1;
      oldest := codes[i];
      while i > 0
        invariant 0 <= i < |codes| && oldest == FirstOldest(inUse.values, codes[i..])
      {
        i := i - 1;
        assert codes[i..][1..] == codes[i + 1..] && codes[i] in codes;
        if inUse.values[codes[i]] <= inUse.values[oldest] {
          oldest := codes[i];
        }
      }
    }

    /** The clock is read in each section. */
    method GetConfirmationCode(checked: Instant, now: Instant, later: Instant) returns (code: Byte)
      requires PoolOk(Value())
      modifies this
      ensures (code, Value()) == Allocate(old(Value()), checked, now, later)
      ensures PoolOk(Value()) && HandedOut(ReleaseTimedOut(old(Value()), checked), Value(), code, now)
      ensures Size(inUse) <= CODE_COUNT - 1
    {
      ghost var before := Value();
      CheckAndReleaseTimedOutCodes(checked);
      var found := TryAllocateCode(now);
      if found.Some? {
        code := found.value;
      } else {
        code := EvictOldest(later);
      }
      AllocatorIsCorrect(before, checked, now, later);
    }

    method AwaitConfirmation(code: Byte, data: seq<Byte>, now: Instant)
      modifies this`pending
      ensures Value() == AddPending(old(Value()), code, data, now)
    {
      pending := Put(pending, code, Sent(data, 1, now));
    }

    /** Sorts the overdue frames into those to write again and those to give up. */
    method CollectOverdue(now: Instant) returns (retry: seq<Frame>, abandon: seq<Byte>)
      ensures retry == ToRetry(pending.values, pending.order, now)
      ensures abandon == ToAbandon(pending.values, pending.order, now)
    {
      retry, abandon := [], [];
      var codes := pending.order;
      for i := 0 to |codes|
        invariant Collected(pending, i, now, retry, abandon)
      {
        CollectOneMore(pending, i, now, retry, abandon);
        var sent := pending.values[codes[i]];
        if now - sent.at >= RETRY_INTERVAL {
          if sent.attempts < MAX_ATTEMPTS {
            retry := retry + [Frame(codes[i], sent.data)];
          } else {
            abandon := abandon + [codes[i]];
          }
        }
      }
      assert codes[..|codes|] == codes;
    }

    method MarkForRetry(f: Frame, now: Instant)
      modifies this`pending
      ensures Value() == MarkRetry(old(Value()), f, now)
    {
      if f.code in pending.values {
        var attempts := pending.values[f.code].attempts + 1;
        pending := Put(pending, f.code, Sent(f.data, attempts, now));
      }
    }

    /** One sweep; returns what it writes until a write fails, if one does. */
    method Sweep(now: Instant, checked: Instant, writes: nat) returns (written: seq<Frame>)
      modifies this
      ensures (Value(), written) == SweepUpTo(old(Value()), now, checked, writes)
    {
      CheckAndReleaseTimedOutCodes(checked);
      var retry, abandon := CollectOverdue(now);
      GiveUp(abandon);
      written := Resend(retry, now, writes);
    }

    method Resend(retry: seq<Frame>, now: Instant, writes: nat) returns (written: seq<Frame>)
      modifies this`pending
      ensures writes >= |retry| ==> Value() == MarkAll(old(Value()), retry, now) && written == retry
      ensures writes < |retry| ==>
                Value() == MarkAll(old(Value()), retry[..writes + 1], now) && written == retry[..writes]
    {
      written := [];
      ghost var counted := if writes < |retry| then retry[..writes + 1] else retry;
      for i := 0 to |retry|
        invariant i <= writes && written == retry[..i]
        invariant MarkAll(Value(), counted[i..], now) == MarkAll(old(Value()), counted, now)
      {
        assert counted[i..][0] == retry[i] && counted[i..][1..] == counted[i + 1..];
        MarkForRetry(retry[i], now);
        if i == writes {
          return;
        }
        written := written + [retry[i]];
      }
    }

    method GiveUp(abandon: seq<Byte>)
      modifies this
      ensures Value() == AbandonAll(old(Value()), abandon)
    {
      for i := 0 to |abandon|
        invariant AbandonAll(Value(), abandon[i..]) == AbandonAll(old(Value()), abandon)
      {
        assert abandon[i..][0] == abandon[i] && abandon[i..][1..] == abandon[i + 1..];
        RemoveFromPending(abandon[i]);
        ReleaseCode(abandon[i]);
      }
    }
  }
}
