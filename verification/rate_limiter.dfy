/** The per-identity rate limiter of the worker listener: fixed one-minute windows
    and a map that is pruned when it grows. */
module RateLimiter {
  import opened Basics

  const MINUTE := 60 * SECOND
  const PRUNE_ABOVE := 4096

  /** start 0 is the zero time. */
  datatype Rate = Rate(start: int, count: int)

  type Entries = map<string, Rate>

  datatype Request = Request(key: string, limit: int, now: int)

  datatype Answer = Granted | Refused(retryAfter: int)

  function Lookup(e: Entries, key: string): Rate { if key in e then e[key] else Rate(0, 0) }

  /** The window a request falls into. */
  function Window(rate: Rate, now: int): Rate {
    if rate.start == 0 || now >= rate.start + MINUTE then Rate(now, 0) else rate
  }

  function RetryAfter(rate: Rate, now: int): int {
    var whole := (rate.start + MINUTE - now) / SECOND;
    if whole < 1 then 1 else whole
  }

  function Answered(rate: Rate, q: Request): Answer {
    var window := Window(rate, q.now);
    if window.count >= q.limit then Refused(RetryAfter(window, q.now)) else Granted
  }

  function Counted(rate: Rate, q: Request): Rate {
    var window := Window(rate, q.now);
    if window.count >= q.limit then window else window.(count := window.count + 1)
  }

  predicate Old(rate: Rate, now: int) { now >= rate.start + 2 * MINUTE }

  function Pruned(e: Entries, now: int): Entries { map k | k in e && !Old(e[k], now) :: e[k] }

  /** The limiter that never prunes, and the one that does. */
  function Plain(e: Entries, q: Request): Entries { e[q.key := Counted(Lookup(e, q.key), q)] }

  function Pruning(e: Entries, q: Request): Entries {
    var after := Plain(e, q);
    if Answered(Lookup(e, q.key), q).Granted? && |after| > PRUNE_ABOVE then Pruned(after, q.now) else after
  }

  // ---------------------------------------------------------------- pruning

  /** p is f without entries that are already outdated at this instant. */
  ghost predicate Shadows(p: Entries, f: Entries, now: int) {
    && (forall k :: k in p ==> k in f && p[k] == f[k])
    && (forall k :: k in f && k !in p ==> Old(f[k], now))
  }

  lemma StepShadows(p: Entries, f: Entries, q: Request, before: int)
    requires Shadows(p, f, before) && before <= q.now
    ensures Answered(Lookup(p, q.key), q) == Answered(Lookup(f, q.key), q)
    ensures Shadows(Pruning(p, q), Plain(f, q), q.now)
  {
    assert Window(Lookup(p, q.key), q.now) == Window(Lookup(f, q.key), q.now);
  }

  function AfterPlain(requests: seq<Request>): Entries {
    if requests == [] then map[] else Plain(AfterPlain(requests[..|requests| - 1]), requests[|requests| - 1])
  }

  function AfterPruning(requests: seq<Request>): Entries {
    if requests == [] then map[] else Pruning(AfterPruning(requests[..|requests| - 1]), requests[|requests| - 1])
  }

  predicate Ordered(requests: seq<Request>) {
    forall i, j :: 0 <= i <= j < |requests| ==> requests[i].now <= requests[j].now
  }

  /** With a non-decreasing clock the pruning limiter gives the next request the
      answer, retry time included, of the limiter that never prunes. */
  lemma PruningIsInvisible(requests: seq<Request>, q: Request)
    requires Ordered(requests + [q])
    ensures Answered(Lookup(AfterPruning(requests), q.key), q) == Answered(Lookup(AfterPlain(requests), q.key), q)
  {
    var before := if requests == [] then q.now else requests[|requests| - 1].now;
    assert Ordered(requests) by { assert forall i :: 0 <= i < |requests| ==> (requests + [q])[i] == requests[i]; }
    if requests != [] {
      assert (requests + [q])[|requests| - 1].now <= (requests + [q])[|requests|].now;
    }
    RunShadows(requests, before);
    StepShadows(AfterPruning(requests), AfterPlain(requests), q, before);
  }

  lemma {:induction false} RunShadows(requests: seq<Request>, now: int)
    requires Ordered(requests) && (requests != [] ==> now == requests[|requests| - 1].now)
    ensures Shadows(AfterPruning(requests), AfterPlain(requests), now)
  {
    if requests != [] {
      var init, q := requests[..|requests| - 1], requests[|requests| - 1];
      var before := if init == [] then q.now else init[|init| - 1].now;
      RunShadows(init, before);
      StepShadows(AfterPruning(init), AfterPlain(init), q, before);
    }
  }

  // ------------------------------------------------------------------ bound

  predicate GrantedAt(requests: seq<Request>, i: nat)
    requires i < |requests|
  {
    Answered(Lookup(AfterPruning(requests[..i]), requests[i].key), requests[i]).Granted?
  }

  /** Grants to a key at the `span` instants that begin with `from`. Instants are
      whole nanoseconds: a minute with both its ends has one instant more than a
      minute without its last. */
  function Grants(requests: seq<Request>, key: string, from: int, span: int): nat {
    if requests == [] then 0
    else
      var last := |requests| - 1;
      Grants(requests[..last], key, from, span) +
      if requests[last].key == key && from <= requests[last].now < from + span && GrantedAt(requests, last) then 1
        else 0
  }

  predicate LimitedTo(requests: seq<Request>, key: string, limit: nat) {
    forall i :: 0 <= i < |requests| ==> requests[i].now > 0 && (requests[i].key == key ==> requests[i].limit <= limit)
  }

  /** Every request of the key is made under exactly this limit. */
  predicate Fixed(requests: seq<Request>, key: string, limit: nat) {
    forall i :: 0 <= i < |requests| ==> requests[i].key == key ==> requests[i].limit == limit
  }

  /** The bookkeeping behind the bounds: g grants were counted by `now`. A window that
      began by `from` accounts for all of them, a later one shares them with its
      predecessor only. Under one fixed limit the request that begins a window is
      itself granted, so a window that began before `from` has granted one uncounted. */
  predicate Accounted(g: nat, rate: Rate, limit: nat, fixed: bool, from: int, span: int, now: int) {
    && 0 <= rate.count <= limit && 0 <= rate.start <= now
    && (g > 0 ==> from < rate.start + MINUTE)
    && (rate.start == 0 ==> g == 0)
    && (rate.start <= from ==> g <= rate.count)
    && (from < rate.start < from + span ==> g <= limit + rate.count)
    && g <= 2 * limit
    && (fixed ==>
          && (rate.start > 0 ==> rate.count >= 1)
          && (0 < rate.start < from ==> g < rate.count)
          && (from <= rate.start < from + span && span <= MINUTE ==> g < limit + rate.count)
          && (span <= MINUTE ==> g < 2 * limit))
  }

  lemma GrantAccounted(g: nat, rate: Rate, limit: nat, fixed: bool, from: int, span: int, before: int, q: Request)
    requires Accounted(g, rate, limit, fixed, from, span, before) && 0 < q.now && before <= q.now
    requires q.limit <= limit && (fixed ==> q.limit == limit >= 1) && span <= MINUTE + 1
    ensures var counts := from <= q.now < from + span && Answered(rate, q).Granted?;
      Accounted(g + if counts then 1 else 0, Counted(rate, q), limit, fixed, from, span, q.now)
  {
  }

  /** What the first k requests have left, in the books. */
  predicate AccountedAt(requests: seq<Request>, k: nat, key: string, limit: nat, fixed: bool, from: int, span: int)
    requires k <= |requests|
  {
    Accounted(Grants(requests[..k], key, from, span), Lookup(AfterPlain(requests[..k]), key), limit, fixed, from, span,
      if k == 0 then 0 else requests[k - 1].now)
  }

  lemma NextAccounted(requests: seq<Request>, k: nat, key: string, limit: nat, fixed: bool, from: int, span: int)
    requires k < |requests| && Ordered(requests) && LimitedTo(requests, key, limit) && span <= MINUTE + 1
    requires fixed ==> limit >= 1 && Fixed(requests, key, limit)
    requires AccountedAt(requests, k, key, limit, fixed, from, span)
    ensures AccountedAt(requests, k + 1, key, limit, fixed, from, span)
  {
    var init, q := requests[..k], requests[k];
    assert init + [q] == requests[..k + 1];
    PruningIsInvisible(init, q);
    OneMoreAccounted(init, q, key, limit, fixed, from, span, if k == 0 then 0 else requests[k - 1].now);
  }

  /** Induction along the prefixes of a history. */
  lemma {:induction false} AlongPrefixes(holds: nat -> bool, n: nat)
    requires holds(0) && forall k: nat :: k < n && holds(k) ==> holds(k + 1)
    ensures holds(n)
  {
    if n > 0 {
      AlongPrefixes(holds, n - 1);
    }
  }

  lemma GrantsAccounted(requests: seq<Request>, key: string, limit: nat, fixed: bool, from: int, span: int)
    requires Ordered(requests) && LimitedTo(requests, key, limit) && span <= MINUTE + 1
    requires fixed ==> limit >= 1 && Fixed(requests, key, limit)
    ensures AccountedAt(requests, |requests|, key, limit, fixed, from, span)
  {
    forall k: nat | k < |requests| && AccountedAt(requests, k, key, limit, fixed, from, span)
      ensures AccountedAt(requests, k + 1, key, limit, fixed, from, span)
    {
      NextAccounted(requests, k, key, limit, fixed, from, span);
    }
    AlongPrefixes((k: nat) => k <= |requests| && AccountedAt(requests, k, key, limit, fixed, from, span), |requests|);
  }

  lemma OneMoreAccounted(init: seq<Request>, q: Request, key: string, limit: nat, fixed: bool,
                         from: int, span: int, before: int)
    requires Accounted(Grants(init, key, from, span), Lookup(AfterPlain(init), key), limit, fixed, from, span, before)
    requires 0 < q.now && before <= q.now && span <= MINUTE + 1
    requires q.key == key ==> q.limit <= limit && (fixed ==> q.limit == limit >= 1)
    requires Answered(Lookup(AfterPruning(init), q.key), q) == Answered(Lookup(AfterPlain(init), q.key), q)
    ensures var all := init + [q];
      Accounted(Grants(all, key, from, span), Lookup(AfterPlain(all), key), limit, fixed, from, span, q.now)
  {
    var all, rate := init + [q], Lookup(AfterPlain(init), key);
    assert all[..|all| - 1] == init && all[|all| - 1] == q;
    if q.key == key {
      GrantAccounted(Grants(init, key, from, span), rate, limit, fixed, from, span, before, q);
    } else {
      assert Lookup(AfterPlain(all), key) == rate;
    }
  }

  /** One key gets at most twice its limit in any one-minute interval with both its
      ends, on the limiter that prunes. */
  lemma AtMostTwiceTheLimit(requests: seq<Request>, key: string, limit: nat, from: int)
    requires Ordered(requests) && LimitedTo(requests, key, limit)
    ensures Grants(requests, key, from, MINUTE + 1) <= 2 * limit
  {
    GrantsAccounted(requests, key, limit, false, from, MINUTE + 1);
    assert requests[..|requests|] == requests;
  }

  /** Without one of its ends, a minute sees one grant less than that. */
  lemma HalfOpenMinute(requests: seq<Request>, key: string, limit: nat, from: int)
    requires Ordered(requests) && LimitedTo(requests, key, limit) && limit >= 1 && Fixed(requests, key, limit)
    ensures Grants(requests, key, from, MINUTE) <= 2 * limit - 1
  {
    GrantsAccounted(requests, key, limit, true, from, MINUTE);
    assert requests[..|requests|] == requests;
  }

  /** The same request n times more. */
  function Burst(before: seq<Request>, q: Request, n: nat): seq<Request> {
    if n == 0 then before else Burst(before, q, n - 1) + [q]
  }

  lemma OneMore(before: seq<Request>, q: Request, from: int, span: int)
    requires from <= q.now < from + span
    ensures var e := AfterPruning(before);
      && AfterPruning(before + [q]) == Pruning(e, q)
      && Grants(before + [q], q.key, from, span) ==
           Grants(before, q.key, from, span) + if Answered(Lookup(e, q.key), q).Granted? then 1 else 0
  {
    var all := before + [q];
    assert all[..|all| - 1] == before && all[|all| - 1] == q;
  }

  lemma OneEntry(e: Entries, q: Request)
    requires e.Keys <= {q.key}
    ensures Pruning(e, q) == map[q.key := Counted(Lookup(e, q.key), q)]
  {
    assert Plain(e, q).Keys == {q.key};
    assert |Plain(e, q)| == |Plain(e, q).Keys|;
  }

  /** Any run of states under a burst: if each further request q takes state(k) to
      state(k + 1) and is granted, a burst of n takes state(0) to state(n) with n grants. */
  lemma {:induction false} BurstRuns<S>(after: seq<Request> -> S, grants: seq<Request> -> nat, state: nat -> S,
                                        before: seq<Request>, q: Request, n: nat)
    requires after(before) == state(0)
    requires forall xs, k: nat :: k < n && after(xs) == state(k) ==>
      after(xs + [q]) == state(k + 1) && grants(xs + [q]) == grants(xs) + 1
    ensures after(Burst(before, q, n)) == state(n) && grants(Burst(before, q, n)) == grants(before) + n
  {
    if n > 0 {
      BurstRuns(after, grants, state, before, q, n - 1);
    }
  }

  /** The entries after k granted requests of the only key. */
  function Filled(e: Entries, key: string, window: Rate, k: nat): Entries {
    if k == 0 then e else map[key := window.(count := window.count + k)]
  }

  /** While its window has room, a request of the only key is granted. */
  lemma OneGrant(xs: seq<Request>, q: Request, from: int, span: int, e: Entries, window: Rate, k: nat)
    requires from <= q.now < from + span && e.Keys <= {q.key} && q.now > 0
    requires window == Window(Lookup(e, q.key), q.now) && window.count + k < q.limit
    requires AfterPruning(xs) == Filled(e, q.key, window, k)
    ensures AfterPruning(xs + [q]) == Filled(e, q.key, window, k + 1)
    ensures Grants(xs + [q], q.key, from, span) == Grants(xs, q.key, from, span) + 1
  {
    OneMore(xs, q, from, span);
    FilledGrant(e, q, window, k);
  }

  lemma FilledGrant(e: Entries, q: Request, window: Rate, k: nat)
    requires e.Keys <= {q.key} && q.now > 0
    requires window == Window(Lookup(e, q.key), q.now) && window.count + k < q.limit
    ensures var filled := Filled(e, q.key, window, k);
      Answered(Lookup(filled, q.key), q).Granted? && Pruning(filled, q) == Filled(e, q.key, window, k + 1)
  {
    OneEntry(Filled(e, q.key, window, k), q);
  }

  /** While the window of the only key has room, all n requests of a burst are granted. */
  lemma BurstFills(before: seq<Request>, q: Request, n: nat, from: int, span: int, e: Entries, window: Rate)
    requires from <= q.now < from + span && AfterPruning(before) == e
    requires e.Keys <= {q.key} && q.now > 0 && window == Window(Lookup(e, q.key), q.now) && window.count + n <= q.limit
    ensures AfterPruning(Burst(before, q, n)) == Filled(e, q.key, window, n)
    ensures Grants(Burst(before, q, n), q.key, from, span) == Grants(before, q.key, from, span) + n
  {
    forall xs, k: nat | k < n && AfterPruning(xs) == Filled(e, q.key, window, k)
      ensures AfterPruning(xs + [q]) == Filled(e, q.key, window, k + 1)
      ensures Grants(xs + [q], q.key, from, span) == Grants(xs, q.key, from, span) + 1
    {
      OneGrant(xs, q, from, span, e, window, k);
    }
    BurstRuns(AfterPruning, xs => Grants(xs, q.key, from, span), k => Filled(e, q.key, window, k), before, q, n);
  }

  /** A burst no earlier than what precedes it keeps order and limits. */
  lemma {:induction false} BurstOrdered(before: seq<Request>, q: Request, n: nat, limit: nat)
    requires Ordered(before) && LimitedTo(before, q.key, limit) && Fixed(before, q.key, limit)
    requires q.limit == limit && q.now > 0 && forall i :: 0 <= i < |before| ==> before[i].now <= q.now
    ensures var all := Burst(before, q, n);
      Ordered(all) && LimitedTo(all, q.key, limit) && Fixed(all, q.key, limit) && forall i :: 0 <= i < |all| ==>
        all[i].now <= q.now
  {
    if n > 0 {
      BurstOrdered(before, q, n - 1, limit);
    }
  }

  /** One early request, then the rest of its window's grants at the last instant of
      the window, then a whole burst at the first instant of the next. */
  function Bursts(key: string, limit: nat): seq<Request>
    requires limit >= 1
  {
    Burst(Burst([Request(key, limit, 1)], Request(key, limit, MINUTE), limit - 1), Request(key, limit, MINUTE + 1),
      limit)
  }

  lemma BurstsGranted(key: string, limit: nat, from: int, span: int)
    requires limit >= 1 && 1 <= from <= MINUTE && MINUTE + 1 < from + span
    ensures Grants(Bursts(key, limit), key, from, span) == 2 * limit - 1 + if from <= 1 then 1 else 0
  {
    var second := FirstWindow(key, limit, from, span);
    BurstFills(second, Request(key, limit, MINUTE + 1), limit, from, span, map[key := Rate(1, limit)],
      Rate(MINUTE + 1, 0));
  }

  lemma FirstWindow(key: string, limit: nat, from: int, span: int) returns (second: seq<Request>)
    requires limit >= 1 && 1 <= from <= MINUTE && MINUTE + 1 < from + span
    ensures second == Burst([Request(key, limit, 1)], Request(key, limit, MINUTE), limit - 1)
    ensures AfterPruning(second) == map[key := Rate(1, limit)]
    ensures Grants(second, key, from, span) == limit - 1 + if from <= 1 then 1 else 0
  {
    var first := FirstServed(key, limit, from, span);
    second := Burst(first, Request(key, limit, MINUTE), limit - 1);
    BurstFills(first, Request(key, limit, MINUTE), limit - 1, from, span, map[key := Rate(1, 1)], Rate(1, 1));
    FilledUp(key, limit);
  }

  lemma FilledUp(key: string, limit: nat)
    requires limit >= 1
    ensures Filled(map[key := Rate(1, 1)], key, Rate(1, 1), limit - 1) == map[key := Rate(1, limit)]
  {
  }

  lemma FirstServed(key: string, limit: nat, from: int, span: int) returns (first: seq<Request>)
    requires limit >= 1 && 1 <= from && 1 < from + span
    ensures first == [Request(key, limit, 1)] && AfterPruning(first) == map[key := Rate(1, 1)]
    ensures Grants(first, key, from, span) == if from <= 1 then 1 else 0
  {
    first := [Request(key, limit, 1)];
    assert first[..0] == [];
    OneEntry(map[], first[0]);
  }

  /** Both bounds are reached, for every limit. */
  lemma BoundsAreReached(key: string, limit: nat)
    requires limit >= 1
    ensures Ordered(Bursts(key, limit)) && LimitedTo(Bursts(key, limit), key, limit)
      && Fixed(Bursts(key, limit), key, limit)
    ensures Grants(Bursts(key, limit), key, 1, MINUTE + 1) == 2 * limit
    ensures Grants(Bursts(key, limit), key, 2, MINUTE) == 2 * limit - 1
  {
    BurstOrdered([Request(key, limit, 1)], Request(key, limit, MINUTE), limit - 1, limit);
    BurstOrdered(Burst([Request(key, limit, 1)], Request(key, limit, MINUTE), limit - 1),
      Request(key, limit, MINUTE + 1), limit, limit);
    BurstsGranted(key, limit, 1, MINUTE + 1);
    BurstsGranted(key, limit, 2, MINUTE);
  }

  // ------------------------------------------------------------ retry, memory

  /** The retry time of a refusal: between one second and a minute, never so long that
      the window would not have ended a second after it, and, from two seconds on, never
      so short that an earlier request would be granted. */
  lemma RetryAfterIsSound(rate: Rate, q: Request, later: Request)
    requires Answered(rate, q).Refused? && 0 <= rate.count && 0 < rate.start <= q.now && q.limit >= 1
    requires later.key == q.key && later.limit == q.limit && q.now <= later.now
    ensures var retry := Answered(rate, q).retryAfter;
      && 1 <= retry <= 60
      && (later.now >= q.now + (retry + 1) * SECOND ==> Answered(Counted(rate, q), later).Granted?)
      && (retry >= 2 && later.now < q.now + retry * SECOND ==> Answered(Counted(rate, q), later).Refused?)
  {
  }

  /** After a granted request the map is small or holds no window older than two
      minutes. */
  lemma PruningBoundsMemory(e: Entries, q: Request)
    requires Answered(Lookup(e, q.key), q).Granted?
    ensures |Pruning(e, q)| <= PRUNE_ABOVE || forall k :: k in Pruning(e, q) ==>
      q.now < Pruning(e, q)[k].start + 2 * MINUTE
  {
  }

  // ---------------------------------------------------------------- limiter

  class WorkerIdentityLimiter {
    var entries: Entries

    constructor ()
      ensures entries == map[]
    {
      entries := map[];
    }

    method Allow(key: string, limit: int, now: int) returns (allowed: bool, retryAfter: int)
      modifies this
      ensures var q := Request(key, limit, now);
        && entries == Pruning(old(entries), q)
        && (if allowed then Answered(Lookup(old(entries), key), q) == Granted && retryAfter == 0
            else Answered(Lookup(old(entries), key), q) == Refused(retryAfter) && retryAfter >= 1)
    {
      var entry := if key in entries then entries[key] else Rate(0, 0);
      if entry.start == 0 || now >= entry.start + MINUTE {
        entry := Rate(now, 0);
      }
      if entry.count >= limit {
        var retry := (entry.start + MINUTE - now) / SECOND;
        if retry < 1 { retry := 1; }
        entries := entries[key := entry];
        return false, retry;
      }
      entry := entry.(count := entry.count + 1);
      entries := entries[key := entry];
      if |entries| > PRUNE_ABOVE {
        Prune(now);
      }
      return true, 0;
    }

    method Prune(now: int)
      modifies this
      ensures entries == Pruned(old(entries), now)
    {
      var candidates := entries.Keys;
      while candidates != {}
        invariant candidates <= entries.Keys <= old(entries).Keys
        invariant forall k :: k in entries ==> entries[k] == old(entries)[k]
        invariant forall k :: k in old(entries) && k !in candidates ==> (k in entries <==> !Old(old(entries)[k], now))
        decreases candidates
      {
        var candidate :| candidate in candidates;
        if now >= entries[candidate].start + 2 * MINUTE {
          entries := entries - {candidate};
        }
        candidates := candidates - {candidate};
      }
    }
  }
}
