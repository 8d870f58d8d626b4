/** The audit writer: transactions that append, roll over, purge and verify the
    two audit tables. Each method is tied to the history its rows stand for. */
module AuditWriting {
  import opened Basics
  import opened AuditChain

  const DEFAULT_MAX_EVENTS := 10_000
  const DEFAULT_MAX_AGE := 24 * 3600 * SECOND
  const MAX_EVENTS_CEILING := 1_000_000
  const MAX_AGE_CEILING := 168 * 3600 * SECOND
  const MAX_WRITE_ATTEMPTS := 8

  predicate Usable(config: Limits) {
    && 0 <= config.maxEvents <= MAX_EVENTS_CEILING
    && (config.maxAge == 0 || SECOND <= config.maxAge <= MAX_AGE_CEILING)
  }

  /** Zero means the default; anything outside the ceilings is refused. */
  function ResolveLimits(config: Limits): (r: Result<Limits>)
    ensures r.Ok? <==> Usable(config)
    ensures r.Ok? ==> 1 <= r.value.maxEvents <= MAX_EVENTS_CEILING && SECOND <= r.value.maxAge <= MAX_AGE_CEILING
    ensures r.Ok? && config.maxEvents != 0 ==> r.value.maxEvents == config.maxEvents
    ensures r.Ok? && config.maxAge != 0 ==> r.value.maxAge == config.maxAge
  {
    var maxEvents := if config.maxEvents == 0 then DEFAULT_MAX_EVENTS else config.maxEvents;
    var maxAge := if config.maxAge == 0 then DEFAULT_MAX_AGE else config.maxAge;
    if maxEvents < 1 || maxEvents > MAX_EVENTS_CEILING then Err(InvalidState)
    else if maxAge < SECOND || maxAge > MAX_AGE_CEILING then Err(InvalidState)
    else Ok(Limits(maxEvents, maxAge))
  }

  /** The configuration source may fail itself. */
  function Resolved(config: Result<Limits>): (r: Result<Limits>)
    ensures r.Ok? ==> r.value.maxEvents >= 1
  {
    if config.Err? then Err(config.error) else ResolveLimits(config.value)
  }

  // ---------------------------------------- how the rows of a history change

  lemma RenderReplaceLast(h: Hasher, log: Log, s: Segment)
    requires log != []
    ensures var rows := CheckpointRows(h, log); var n := |log|;
      CheckpointRows(h, log[n - 1 := s]) == rows[n - 1 := CheckpointRow(h, n, LastHash(rows[..n - 1]), s)]
    ensures StoredEvents(h, log[|log| - 1 := s]) ==
      StoredEvents(h, log[..|log| - 1]) + (if s.purgedAt.Some? then [] else EventRows(h, |log|, s.bodies))
  {
    var n, replaced := |log|, log[|log| - 1 := s];
    assert replaced[..n - 1] == log[..n - 1];
    var before := CheckpointRows(h, log[..n - 1]);
    assert CheckpointRows(h, log)[..n - 1] == before;
  }

  lemma RenderSnoc(h: Hasher, log: Log, s: Segment)
    ensures CheckpointRows(h, log + [s]) ==
      CheckpointRows(h, log) + [CheckpointRow(h, |log| + 1, LastHash(CheckpointRows(h, log)), s)]
    ensures StoredEvents(h, log + [s]) ==
      StoredEvents(h, log) + (if s.purgedAt.Some? then [] else EventRows(h, |log| + 1, s.bodies))
  {
    assert (log + [s])[..|log|] == log;
  }

  lemma {:induction false} EntryHashPrefix(h: Hasher, no: int, bodies: seq<EventBody>, body: EventBody, k: nat)
    requires k <= |bodies|
    ensures EntryHash(h, no, bodies + [body], k) == EntryHash(h, no, bodies, k)
  {
    if k > 0 {
      EntryHashPrefix(h, no, bodies, body, k - 1);
    }
  }

  lemma EventRowsSnoc(h: Hasher, no: int, bodies: seq<EventBody>, body: EventBody)
    ensures var prev := EntryHash(h, no, bodies, |bodies|); var n := |bodies| + 1;
      && EntryHash(h, no, bodies + [body], n) == h.event(EventInput(no, n, body, prev))
      && EventRows(h, no, bodies + [body]) ==
           EventRows(h, no, bodies) + [EventRow(no, n, body, prev, h.event(EventInput(no, n, body, prev)))]
  {
    EntryHashPrefix(h, no, bodies, body, |bodies|);
    forall k | 0 <= k < |bodies|
      ensures EventRows(h, no, bodies + [body])[k] == EventRows(h, no, bodies)[k]
    {
      EntryHashPrefix(h, no, bodies, body, k);
      EntryHashPrefix(h, no, bodies, body, k + 1);
    }
    var longer := EventRows(h, no, bodies + [body]);
    assert longer[..|bodies|] == EventRows(h, no, bodies);
    assert longer == longer[..|bodies|] + [longer[|bodies|]];
  }

  function PurgedRow(row: Checkpoint, now: int): Checkpoint {
    row.(status := DetailsPurged, purgedAt := Some(now))
  }

  lemma RenderPurgedRow(h: Hasher, no: int, previousHash: string, s: Segment, now: int)
    requires s.closedAt.Some?
    ensures CheckpointRow(h, no, previousHash, s.(purgedAt := Some(now))) ==
      PurgedRow(CheckpointRow(h, no, previousHash, s), now)
  {
  }

  /** Purging rewrites one checkpoint row and leaves every hash as it was. */
  lemma {:induction false} RenderPurgedCheckpoints(h: Hasher, log: Log, i: nat, s: Segment, now: int)
    requires i < |log| && log[i].closedAt.Some? && s == log[i].(purgedAt := Some(now))
    ensures CheckpointRows(h, log[i := s]) == CheckpointRows(h, log)[i := PurgedRow(CheckpointRows(h, log)[i], now)]
  {
    var n, init, last := |log|, log[..|log| - 1], log[|log| - 1];
    if i < n - 1 {
      assert log == init + [last] && log[i := s] == init[i := s] + [last];
      RenderPurgedCheckpoints(h, init, i, s, now);
      RenderPurgedEarlier(h, init, last, i, s, now);
    } else {
      CheckpointRowAt(h, log, i);
      RenderReplaceLast(h, log, s);
      RenderPurgedRow(h, n, LastHash(CheckpointRows(h, log)[..i]), log[i], now);
    }
  }

  lemma RenderPurgedEarlier(h: Hasher, init: Log, last: Segment, i: nat, s: Segment, now: int)
    requires i < |init|
    requires CheckpointRows(h, init[i := s]) == CheckpointRows(h, init)[i := PurgedRow(CheckpointRows(h, init)[i], now)]
    ensures CheckpointRows(h, init[i := s] + [last]) ==
      CheckpointRows(h, init + [last])[i := PurgedRow(CheckpointRows(h, init + [last])[i], now)]
  {
    var rows := CheckpointRows(h, init);
    var row := PurgedRow(rows[i], now);
    RenderSnoc(h, init, last);
    RenderSnoc(h, init[i := s], last);
    assert LastHash(rows[i := row]) == LastHash(rows);
    SnocAfterUpdate(rows, i, row, CheckpointRow(h, |init| + 1, LastHash(rows), last));
  }

  lemma SnocAfterUpdate(rows: seq<Checkpoint>, i: nat, row: Checkpoint, last: Checkpoint)
    requires i < |rows|
    ensures rows[i := row] + [last] == (rows + [last])[i := row] && (rows + [last])[i] == rows[i]
  {
  }

  lemma {:induction false} WithoutSegmentConcat(p: seq<EventRow>, q: seq<EventRow>, no: int)
    ensures WithoutSegment(p + q, no) == WithoutSegment(p, no) + WithoutSegment(q, no)
  {
    if p == [] {
      assert p + q == q;
    } else {
      assert (p + q)[0] == p[0] && (p + q)[1..] == p[1..] + q;
      WithoutSegmentConcat(p[1..], q, no);
      var head := if p[0].segmentNo == no then [] else [p[0]];
      assert head + (WithoutSegment(p[1..], no) + WithoutSegment(q, no)) == (head + WithoutSegment(p[1..], no))
        + WithoutSegment(q, no);
    }
  }

  lemma {:induction false} WithoutSegmentUniform(rows: seq<EventRow>, no: int, unwanted: int)
    requires forall r :: r in rows ==> r.segmentNo == no
    ensures WithoutSegment(rows, unwanted) == if unwanted == no then [] else rows
  {
    if rows != [] {
      WithoutSegmentUniform(rows[1..], no, unwanted);
    }
  }

  /** The rows segment number n contributes to the event table. */
  function Contribution(h: Hasher, n: int, s: Segment): seq<EventRow> {
    if s.purgedAt.Some? then [] else EventRows(h, n, s.bodies)
  }

  lemma WithoutContribution(h: Hasher, n: int, s: Segment, no: int)
    ensures WithoutSegment(Contribution(h, n, s), no) == if no == n then [] else Contribution(h, n, s)
  {
    WithoutSegmentUniform(Contribution(h, n, s), n, no);
  }

  lemma {:induction false} WithoutAbsentSegment(h: Hasher, log: Log, no: int)
    requires no > |log|
    ensures WithoutSegment(StoredEvents(h, log), no) == StoredEvents(h, log)
  {
    if log != [] {
      var n, before, last := |log|, log[..|log| - 1], log[|log| - 1];
      WithoutAbsentSegment(h, before, no);
      WithoutSegmentConcat(StoredEvents(h, before), Contribution(h, n, last), no);
      WithoutContribution(h, n, last, no);
    }
  }

  /** Deleting a segment's rows is exactly what purging does to the event table. */
  lemma {:induction false} RenderPurgedEvents(h: Hasher, log: Log, i: nat, s: Segment)
    requires i < |log| && s.purgedAt.Some?
    ensures StoredEvents(h, log[i := s]) == WithoutSegment(StoredEvents(h, log), i + 1)
  {
    var n, purged := |log|, log[i := s];
    var before, last := log[..n - 1], log[n - 1];
    assert StoredEvents(h, log) == StoredEvents(h, before) + Contribution(h, n, last);
    WithoutSegmentConcat(StoredEvents(h, before), Contribution(h, n, last), i + 1);
    WithoutContribution(h, n, last, i + 1);
    if i < n - 1 {
      RenderPurgedEvents(h, before, i, s);
      assert purged[..n - 1] == before[i := s];
      assert StoredEvents(h, purged) == StoredEvents(h, before[i := s]) + Contribution(h, n, last);
    } else {
      assert purged[..n - 1] == before;
      WithoutAbsentSegment(h, before, i + 1);
      assert StoredEvents(h, purged) == StoredEvents(h, before) + [];
    }
  }

  /** The position of a segment's row, or the table size when it has none. */
  function Find(checkpoints: seq<Checkpoint>, no: int): (i: nat)
    ensures i <= |checkpoints|
    ensures i < |checkpoints| ==> checkpoints[i].segmentNo == no
    ensures forall k :: 0 <= k < i ==> checkpoints[k].segmentNo != no
  {
    if checkpoints == [] || checkpoints[0].segmentNo == no then 0 else 1 + Find(checkpoints[1..], no)
  }

  lemma {:induction false} FindAfterUpdate(checkpoints: seq<Checkpoint>, i: nat, row: Checkpoint)
    requires i < |checkpoints| && row.segmentNo == checkpoints[i].segmentNo && Find(checkpoints, row.segmentNo) == i
    ensures Find(checkpoints[i := row], row.segmentNo) == i
  {
    var updated := checkpoints[i := row];
    assert updated[i].segmentNo == row.segmentNo;
  }

  ghost predicate OnlyLastOpen(rows: seq<Checkpoint>) {
    forall i :: 0 <= i < |rows| - 1 ==> rows[i].status != Open
  }

  /** The row a new segment starts with. */
  function OpenRow(rows: seq<Checkpoint>, now: int): Checkpoint {
    var no := if rows == [] then 1 else rows[|rows| - 1].segmentNo + 1;
    Checkpoint(no, Open, LastHash(rows), "", "", 0, now, None, None, "")
  }

  /** The row after closing: cp is the snapshot the digest is taken from. */
  function ClosedRow(h: Hasher, cp: Checkpoint, row: Checkpoint, now: int): Checkpoint {
    row.(status := Closed, closedAt := Some(now), hash := h.checkpoint(cp.(closedAt := Some(now)).Input()))
  }

  /** The compare-and-swap guard on an open row. */
  predicate StillMatches(rows: seq<Checkpoint>, cp: Checkpoint) {
    var at := Find(rows, cp.segmentNo);
    at < |rows| && rows[at].status == Open && rows[at].count == cp.count && rows[at].lastHash == cp.lastHash
  }

  ghost predicate OpenReady(rows: seq<Checkpoint>) {
    && OnlyLastOpen(rows)
    && (rows != [] ==>
          var last := rows[|rows| - 1];
          if last.status == Open then Find(rows, last.segmentNo) == |rows| - 1 else last.hash != "")
  }

  /** The rows and the open row a write works on, from a table that is ready for it. */
  ghost function Opened(h: Hasher, rows: seq<Checkpoint>, now: int, limits: Limits): (seq<Checkpoint>, Checkpoint) {
    if rows == [] || rows[|rows| - 1].status != Open then (rows + [OpenRow(rows, now)], OpenRow(rows, now))
    else
      var last := rows[|rows| - 1];
      if last.count > 0 && (last.count >= limits.maxEvents || now - last.openedAt >= limits.maxAge) then
        var closed := rows[|rows| - 1 := ClosedRow(h, last, last, now)];
        (closed + [OpenRow(closed, now)], OpenRow(closed, now))
      else (rows, last)
  }

  /** The open row after one more event. */
  function GrownRow(h: Hasher, cp: Checkpoint, body: EventBody): Checkpoint {
    var entryHash := h.event(EventInput(cp.segmentNo, cp.count + 1, body, cp.lastHash));
    cp.(firstHash := if cp.count == 0 then entryHash else cp.firstHash, lastHash := entryHash, count := cp.count + 1)
  }

  lemma RenderedLast(h: Hasher, log: Log)
    requires log != []
    ensures var rows := CheckpointRows(h, log); var n := |log|;
      rows[n - 1] == CheckpointRow(h, n, LastHash(rows[..n - 1]), log[n - 1]) && Find(rows, n) == n - 1
  {
    CheckpointRowAt(h, log, |log| - 1);
    RenderedKeyed(h, log);
  }

  lemma RenderedReady(h: Hasher, log: Log)
    requires NeverEmpty(h) && WellFormed(log)
    ensures OpenReady(CheckpointRows(h, log))
  {
    var rows := CheckpointRows(h, log);
    forall i | 0 <= i < |rows| - 1 ensures rows[i].status != Open {
      CheckpointRowAt(h, log, i);
    }
    if log != [] {
      RenderedLast(h, log);
    }
  }

  /** Closing the last row renders closing the last segment. */
  lemma RenderedClose(h: Hasher, log: Log, now: int)
    requires log != [] && log[|log| - 1].closedAt.None? && log[|log| - 1].purgedAt.None?
    ensures var rows := CheckpointRows(h, log); var n := |log|;
      rows[n - 1 := ClosedRow(h, rows[n - 1], rows[n - 1], now)] ==
        CheckpointRows(h, log[n - 1 := log[n - 1].(closedAt := Some(now))])
    ensures StoredEvents(h, log[|log| - 1 := log[|log| - 1].(closedAt := Some(now))]) == StoredEvents(h, log)
  {
    RenderedLast(h, log);
    RenderReplaceLast(h, log, log[|log| - 1].(closedAt := Some(now)));
  }

  lemma RenderedOpen(h: Hasher, log: Log, now: int)
    ensures var rows := CheckpointRows(h, log);
      CheckpointRows(h, log + [Segment([], now, None, None)]) == rows + [OpenRow(rows, now)]
    ensures StoredEvents(h, log + [Segment([], now, None, None)]) == StoredEvents(h, log)
  {
    RenderSnoc(h, log, Segment([], now, None, None));
    RenderedKeyed(h, log);
  }

  lemma RenderedRollOver(h: Hasher, log: Log, now: int)
    requires log != [] && log[|log| - 1].closedAt.None? && log[|log| - 1].purgedAt.None?
    ensures var last := log[|log| - 1];
      var rolled := log[..|log| - 1] + [last.(closedAt := Some(now)), Segment([], now, None, None)];
      var rows := CheckpointRows(h, log);
      var closed := rows[|rows| - 1 := ClosedRow(h, rows[|rows| - 1], rows[|rows| - 1], now)];
      && CheckpointRows(h, rolled) == closed + [OpenRow(closed, now)]
      && StoredEvents(h, rolled) == StoredEvents(h, log)
  {
    var last := log[|log| - 1];
    var closed := log[|log| - 1 := last.(closedAt := Some(now))];
    RenderedClose(h, log, now);
    RenderedOpen(h, closed, now);
    assert log[..|log| - 1] + [last.(closedAt := Some(now)), Segment([], now, None, None)]
      == closed + [Segment([], now, None, None)];
  }

  /** Opening the table for a write renders rolling the history over. */
  lemma RenderedRoll(h: Hasher, log: Log, now: int, limits: Limits)
    requires WellFormed(log)
    ensures var rolled := Rolled(log, now, limits); var rows := CheckpointRows(h, rolled);
      && rolled != []
      && Opened(h, CheckpointRows(h, log), now, limits) == (rows, rows[|rows| - 1])
      && StoredEvents(h, rolled) == StoredEvents(h, log)
  {
    if log == [] {
      RenderedOpen(h, log, now);
    } else {
      RenderedLast(h, log);
      if log[|log| - 1].closedAt.Some? {
        RenderedOpen(h, log, now);
      } else {
        RenderedRollOver(h, log, now);
      }
    }
  }

  lemma {:induction false} InSegmentComplete(events: seq<EventRow>, r: EventRow)
    requires r in events
    ensures r in InSegment(events, r.segmentNo)
  {
    if r != events[0] {
      InSegmentComplete(events[1..], r);
    }
  }

  /** The position after the last event of an unpurged segment is free. */
  lemma RenderedFree(h: Hasher, log: Log)
    requires log != [] && log[|log| - 1].purgedAt.None?
    ensures !Occupied(StoredEvents(h, log), |log|, |log[|log| - 1].bodies| + 1)
  {
    var events, n := StoredEvents(h, log), |log|;
    StoredSegment(h, log, n);
    forall r | r in events && r.segmentNo == n ensures r.sequence <= |log[n - 1].bodies| {
      InSegmentComplete(events, r);
    }
  }

  /** The checkpoint table after the write, from the opened table. */
  ghost function WrittenRows(h: Hasher, rows: seq<Checkpoint>, body: EventBody, limits: Limits): seq<Checkpoint>
    requires rows != []
  {
    var grown := GrownRow(h, rows[|rows| - 1], body);
    rows[|rows| - 1 := if grown.count >= limits.maxEvents then ClosedRow(h, grown, grown, body.createdAt) else grown]
  }

  ghost function NewEvent(h: Hasher, cp: Checkpoint, body: EventBody): EventRow {
    EventRow(cp.segmentNo, cp.count + 1, body, cp.lastHash,
      h.event(EventInput(cp.segmentNo, cp.count + 1, body, cp.lastHash)))
  }

  /** The opened table takes the event without any conflict. */
  ghost predicate AppendReady(rows: seq<Checkpoint>, cp: Checkpoint, events: seq<EventRow>) {
    && rows != [] && cp == rows[|rows| - 1] && cp.status == Open && cp.count >= 0
    && Find(rows, cp.segmentNo) == |rows| - 1
    && !Occupied(events, cp.segmentNo, cp.count + 1)
  }

  /** Adding one row and advancing the open checkpoint renders adding one body. */
  lemma RenderedAppend(h: Hasher, log: Log, body: EventBody)
    requires log != [] && log[|log| - 1].closedAt.None? && log[|log| - 1].purgedAt.None?
    ensures var rows := CheckpointRows(h, log); var n := |log|; var cp := rows[n - 1];
      var grown := log[n - 1 := log[n - 1].(bodies := log[n - 1].bodies + [body])];
      && cp.segmentNo == n && cp.count == |log[n - 1].bodies| && cp.status == Open
      && CheckpointRows(h, grown) == rows[n - 1 := GrownRow(h, cp, body)]
      && StoredEvents(h, grown) == StoredEvents(h, log) + [NewEvent(h, cp, body)]
  {
    var n, s := |log|, log[|log| - 1];
    RenderedLast(h, log);
    GrownRowRenders(h, n, LastHash(CheckpointRows(h, log)[..n - 1]), s, body);
    RenderReplaceLast(h, log, s.(bodies := s.bodies + [body]));
  }

  /** One more body in an open segment: its checkpoint row and its event rows. */
  lemma GrownRowRenders(h: Hasher, no: int, previousHash: string, s: Segment, body: EventBody)
    requires s.closedAt.None? && s.purgedAt.None?
    ensures var cp := CheckpointRow(h, no, previousHash, s); var grown := s.(bodies := s.bodies + [body]);
      && CheckpointRow(h, no, previousHash, grown) == GrownRow(h, cp, body)
      && EventRows(h, no, grown.bodies) == EventRows(h, no, s.bodies) + [NewEvent(h, cp, body)]
  {
    EventRowsSnoc(h, no, s.bodies, body);
    if s.bodies != [] {
      EntryHashPrefix(h, no, s.bodies, body, 1);
    }
  }

  lemma RenderedAppendReady(h: Hasher, log: Log)
    requires log != [] && log[|log| - 1].closedAt.None? && log[|log| - 1].purgedAt.None?
    ensures AppendReady(CheckpointRows(h, log), CheckpointRows(h, log)[|log| - 1], StoredEvents(h, log))
  {
    RenderedLast(h, log);
    RenderedFree(h, log);
  }

  /** Growing, and closing at the limit, the last open segment of a history. */
  lemma RenderedGrow(h: Hasher, log: Log, body: EventBody, limits: Limits, grown: Segment, after: Segment)
    requires log != [] && log[|log| - 1].closedAt.None? && log[|log| - 1].purgedAt.None?
    requires grown == log[|log| - 1].(bodies := log[|log| - 1].bodies + [body])
    requires after == if |grown.bodies| >= limits.maxEvents then grown.(closedAt := Some(body.createdAt)) else grown
    ensures var rows := CheckpointRows(h, log);
      && CheckpointRows(h, log[|log| - 1 := after]) == WrittenRows(h, rows, body, limits)
      && StoredEvents(h, log[|log| - 1 := after]) == StoredEvents(h, log) + [NewEvent(h, rows[|log| - 1], body)]
  {
    var n, longer := |log|, log[|log| - 1 := grown];
    var rows := CheckpointRows(h, log);
    RenderedAppend(h, log, body);
    if |grown.bodies| >= limits.maxEvents {
      RenderedClose(h, longer, body.createdAt);
      UpdateTwice(log, n - 1, grown, after);
      var row := GrownRow(h, rows[n - 1], body);
      UpdateTwice(rows, n - 1, row, ClosedRow(h, row, row, body.createdAt));
    }
  }

  lemma UpdateTwice<T>(s: seq<T>, i: nat, x: T, y: T)
    requires i < |s|
    ensures s[i := x][i := y] == s[i := y] && s[i := x][i] == x
  {
  }

  /** Everything a write needs to know about the rows of a history. */
  lemma RenderedWrite(h: Hasher, log: Log, body: EventBody, limits: Limits)
    requires NeverEmpty(h) && WellFormed(log) && limits.maxEvents >= 1
    ensures OpenReady(CheckpointRows(h, log))
    ensures var (rows, cp) := Opened(h, CheckpointRows(h, log), body.createdAt, limits);
      && AppendReady(rows, cp, StoredEvents(h, log))
      && CheckpointRows(h, Written(log, body, limits)) == WrittenRows(h, rows, body, limits)
      && StoredEvents(h, Written(log, body, limits)) == StoredEvents(h, log) + [NewEvent(h, cp, body)]
  {
    RenderedReady(h, log);
    RenderedRoll(h, log, body.createdAt, limits);
    RolledFacts(log, body.createdAt, limits);
    var rolled := Rolled(log, body.createdAt, limits);
    var last := rolled[|rolled| - 1];
    var grown := last.(bodies := last.bodies + [body]);
    RenderedAppendReady(h, rolled);
    RenderedGrow(h, rolled, body, limits, grown,
                 if |grown.bodies| >= limits.maxEvents then grown.(closedAt := Some(body.createdAt)) else grown);
  }

  lemma RenderedFind(h: Hasher, log: Log, no: int)
    ensures Find(CheckpointRows(h, log), no) == if 1 <= no <= |log| then no - 1 else |log|
  {
    RenderedKeyed(h, log);
    var rows := CheckpointRows(h, log);
    if 1 <= no <= |log| {
      assert rows[no - 1].segmentNo == no;
    }
  }

  /** Everything a purge needs to know about the rows of a history. */
  lemma RenderedPurge(h: Hasher, log: Log, no: int, now: int)
    requires NeverEmpty(h) && WellFormed(log)
    ensures WellFormed(Purged(log, no, now))
    ensures Find(CheckpointRows(h, log), no) == if 1 <= no <= |log| then no - 1 else |log|
    ensures 1 <= no <= |log| ==> (CheckpointRows(h, log)[no - 1].status == Closed <==> Purgeable(log, no))
    ensures Purgeable(log, no) ==>
      var cp := CheckpointRows(h, log)[no - 1]; var events := StoredEvents(h, log);
      && cp.segmentNo == no && cp.closedAt.Some? && cp.hash == h.checkpoint(cp.Input())
      && DetailsAccepted(h, cp, SegmentEvents(events, no)) && |InSegment(events, no)| == cp.count
      && CheckpointRows(h, Purged(log, no, now)) == CheckpointRows(h, log)[no - 1 := PurgedRow(cp, now)]
      && StoredEvents(h, Purged(log, no, now)) == WithoutSegment(events, no)
  {
    RenderedFind(h, log, no);
    PurgeFacts(log, no, now);
    if 1 <= no <= |log| {
      CheckpointRowAt(h, log, no - 1);
    }
    if Purgeable(log, no) {
      RenderedPurgeable(h, log, no, now);
    }
  }

  lemma RenderedPurgeable(h: Hasher, log: Log, no: int, now: int)
    requires WellFormed(log) && Purgeable(log, no)
    ensures var cp := CheckpointRows(h, log)[no - 1]; var events := StoredEvents(h, log);
      && cp.segmentNo == no && cp.closedAt.Some? && cp.hash == h.checkpoint(cp.Input())
      && DetailsAccepted(h, cp, SegmentEvents(events, no)) && |InSegment(events, no)| == cp.count
      && CheckpointRows(h, Purged(log, no, now)) == CheckpointRows(h, log)[no - 1 := PurgedRow(cp, now)]
      && StoredEvents(h, Purged(log, no, now)) == WithoutSegment(events, no)
  {
    var i, purged := no - 1, log[no - 1].(purgedAt := Some(now));
    CheckpointRowAt(h, log, i);
    RenderedDetails(h, log, i, LastHash(CheckpointRows(h, log)[..i]));
    StoredSegment(h, log, no);
    RenderPurgedCheckpoints(h, log, i, purged, now);
    RenderPurgedEvents(h, log, i, purged);
  }

  predicate Occupied(events: seq<EventRow>, no: int, sequence: int) {
    exists r :: r in events && r.segmentNo == no && r.sequence == sequence
  }

  /** What the storage does to one attempt of a transaction. */
  datatype Fault = NoFault | Transient | Permanent

  /** Some attempt is reached and left undisturbed. */
  ghost predicate Reached(storage: nat -> Fault) {
    exists k: nat :: k < MAX_WRITE_ATTEMPTS && storage(k) == NoFault && forall j: nat :: j < k ==>
      storage(j) == Transient
  }

  class AuditWriter {
    const h: Hasher
    var checkpoints: seq<Checkpoint>
    var events: seq<EventRow>

    ghost function Rows(): Store reads this { Store(checkpoints, events) }

    /** The rows stand for this history. */
    ghost predicate Represents(log: Log) reads this {
      NeverEmpty(h) && WellFormed(log) && Rows() == Render(h, log)
    }

    constructor (h: Hasher)
      ensures this.h == h && Rows() == Render(h, [])
      ensures NeverEmpty(h) ==> Represents([])
    {
      this.h := h;
      checkpoints, events := [], [];
    }

    // ------------------------------------------------------------- verifier

    method VerifySegmentDetails(cp: Checkpoint) returns (r: Result<()>)
      ensures r.Ok? <==> DetailsAccepted(h, cp, SegmentEvents(events, cp.segmentNo))
      ensures r.Err? ==> r.error == InvalidState
    {
      var rows := SegmentEvents(events, cp.segmentNo);
      if |rows| != cp.count { return Err(InvalidState); }
      var previousHash := "";
      var index := 0;
      while index < |rows|
        invariant 0 <= index <= |rows|
        invariant previousHash == (if index == 0 then "" else rows[index - 1].entryHash)
        invariant forall i: nat :: i < index ==> EventAccepted(h, cp.segmentNo, rows, i)
      {
        var event := rows[index];
        if event.segmentNo != cp.segmentNo || event.sequence != index + 1 || event.prevHash != previousHash ||
           event.entryHash != h.event(event.Input())
        {
          assert !EventAccepted(h, cp.segmentNo, rows, index);
          return Err(InvalidState);
        }
        previousHash := event.entryHash;
        index := index + 1;
      }
      if |rows| == 0 {
        if cp.firstHash != "" || cp.lastHash != "" { return Err(InvalidState); }
        return Ok(());
      }
      if cp.firstHash != rows[0].entryHash || cp.lastHash != rows[|rows| - 1].entryHash { return Err(InvalidState); }
      return Ok(());
    }

    method VerifyCheckpoint(cp: Checkpoint, isLast: bool) returns (r: Result<()>)
      ensures r.Ok? <==> CheckpointAccepted(h, cp, isLast, events)
      ensures r.Err? ==> r.error == InvalidState
    {
      if cp.status.UnknownStatus? || cp.count < 0 { return Err(InvalidState); }
      if cp.status == Open {
        if !isLast || cp.closedAt.Some? || cp.hash != "" || cp.purgedAt.Some? { return Err(InvalidState); }
      } else {
        if cp.closedAt.None? || cp.hash == "" || cp.hash != h.checkpoint(cp.Input()) { return Err(InvalidState); }
      }
      if cp.status == DetailsPurged {
        if cp.purgedAt.None? || |InSegment(events, cp.segmentNo)| != 0 { return Err(InvalidState); }
        return Ok(());
      }
      r := VerifySegmentDetails(cp);
    }

    /** The scan accepts exactly the stores that satisfy Accepted. */
    method Verify() returns (r: Result<()>)
      ensures r.Ok? <==> Accepted(h, Rows())
      ensures r.Err? ==> r.error == InvalidState
    {
      var index := 0;
      while index < |checkpoints|
        invariant 0 <= index <= |checkpoints|
        invariant forall i: nat :: i < index ==> RowAccepted(h, Rows(), i)
      {
        var cp := checkpoints[index];
        ghost var here := RowAccepted(h, Rows(), index);
        if cp.segmentNo != index + 1 { assert !here; return Err(InvalidState); }
        if index == 0 {
          if cp.previousHash != "" { assert !here; return Err(InvalidState); }
        } else {
          var previous := checkpoints[index - 1];
          if previous.hash == "" || cp.previousHash != previous.hash { assert !here; return Err(InvalidState); }
        }
        r := VerifyCheckpoint(cp, index == |checkpoints| - 1);
        if r.Err? { assert !here; return; }
        index := index + 1;
      }
      return Ok(());
    }

    // --------------------------------------------------------------- writer

    /** A new open row after the latest one; refused while the latest is open. */
    method CreateCheckpoint(rows: seq<Checkpoint>, now: int) returns (r: Result<(seq<Checkpoint>, Checkpoint)>)
      ensures r.Err? ==> r.error == Conflict
      ensures r.Ok? <==> (rows != [] ==> rows[|rows| - 1].status != Open && rows[|rows| - 1].hash != "")
      ensures r.Ok? ==> r.value == (rows + [OpenRow(rows, now)], OpenRow(rows, now))
    {
      var nextSegment, previousHash := 1, "";
      if rows != [] {
        var latest := rows[|rows| - 1];
        if latest.status == Open || latest.hash == "" { return Err(Conflict); }
        nextSegment, previousHash := latest.segmentNo + 1, latest.hash;
      }
      var row := Checkpoint(nextSegment, Open, previousHash, "", "", 0, now, None, None, "");
      return Ok((rows + [row], row));
    }

    /** The guarded update that closes an open row. */
    method CloseCheckpoint(rows: seq<Checkpoint>, cp: Checkpoint, now: int) returns (r: Result<seq<Checkpoint>>)
      ensures r.Ok? <==> cp.status == Open && cp.count > 0 && StillMatches(rows, cp)
      ensures r.Ok? ==> r.value == rows[Find(rows, cp.segmentNo) := ClosedRow(h, cp, rows[Find(rows, cp.segmentNo)],
        now)]
    {
      if cp.status != Open || cp.count <= 0 { return Err(InvalidState); }
      var digest := h.checkpoint(cp.(closedAt := Some(now)).Input());
      var at := Find(rows, cp.segmentNo);
      if at == |rows| || rows[at].status != Open || rows[at].count != cp.count || rows[at].lastHash != cp.lastHash {
        return Err(Conflict);
      }
      return Ok(rows[at := rows[at].(status := Closed, closedAt := Some(now), hash := digest)]);
    }

    /** The open row a write appends to: the only open one, rolled over when it is
        full or too old, or a new one. */
    method OpenCheckpoint(rows: seq<Checkpoint>, now: int, limits: Limits)
        returns (r: Result<(seq<Checkpoint>, Checkpoint)>)
      ensures NeverEmpty(h) && OpenReady(rows) ==> r == Ok(Opened(h, rows, now, limits))
      ensures (exists i, j :: 0 <= i < j < |rows| && rows[i].status == Open && rows[j].status == Open) ==>
        r == Err(InvalidState)
    {
      var found: seq<Checkpoint> := [];
      var i := |rows|;
      while i > 0 && |found| < 2
        invariant 0 <= i <= |rows|
        invariant OnlyLastOpen(rows) ==>
          found == if i < |rows| && rows[|rows| - 1].status == Open then [rows[|rows| - 1]] else []
        invariant |found| <= 1 ==> forall j, k :: i <= j < k < |rows| ==>
          rows[j].status != Open || rows[k].status != Open
        invariant found == [] ==> forall j :: i <= j < |rows| ==> rows[j].status != Open
      {
        i := i - 1;
        if rows[i].status == Open { found := found + [rows[i]]; }
      }
      if |found| > 1 { return Err(InvalidState); }
      if |found| == 1 {
        var cp := found[0];
        if cp.count > 0 && (cp.count >= limits.maxEvents || now - cp.openedAt >= limits.maxAge) {
          var closed := CloseCheckpoint(rows, cp, now);
          if closed.Err? { return Err(closed.error); }
          r := CreateCheckpoint(closed.value, now);
          return;
        }
        return Ok((rows, cp));
      }
      r := CreateCheckpoint(rows, now);
    }

    /** Insert the event and advance the open row under its guard, closing the
        segment when it reaches the limit. */
    method Append(rows: seq<Checkpoint>, cp: Checkpoint, body: EventBody, limits: Limits)
      returns (r: Result<(seq<Checkpoint>, EventRow)>)
      ensures AppendReady(rows, cp, events) ==> r == Ok((WrittenRows(h, rows, body, limits), NewEvent(h, cp, body)))
      ensures Occupied(events, cp.segmentNo, cp.count + 1) ==> r == Err(StorageFailure)
      ensures !Occupied(events, cp.segmentNo, cp.count + 1) && !StillMatches(rows, cp) ==> r == Err(Conflict)
    {
      var sequence := cp.count + 1;
      var entryHash := h.event(EventInput(cp.segmentNo, sequence, body, cp.lastHash));
      var record := EventRow(cp.segmentNo, sequence, body, cp.lastHash, entryHash);
      if Occupied(events, cp.segmentNo, sequence) { return Err(StorageFailure); }
      var firstHash := if cp.count == 0 then entryHash else cp.firstHash;
      var at := Find(rows, cp.segmentNo);
      if at == |rows| || rows[at].status != Open || rows[at].count != cp.count || rows[at].lastHash != cp.lastHash {
        return Err(Conflict);
      }
      var advanced := rows[at := rows[at].(firstHash := firstHash, lastHash := entryHash, count := sequence)];
      var grown := cp.(firstHash := firstHash, lastHash := entryHash, count := sequence);
      if grown.count < limits.maxEvents { return Ok((advanced, record)); }
      FindAfterUpdate(rows, at, advanced[at]);
      var closed := CloseCheckpoint(advanced, grown, body.createdAt);
      if closed.Err? { return Err(closed.error); }
      assert advanced[at := closed.value[at]] == rows[at := closed.value[at]];
      return Ok((closed.value, record));
    }

    /** One append transaction. A failed one leaves both tables alone; on rows that
        stand for a history it succeeds and they then stand for the history with
        the event written under the limits in force. */
    method WriteTransaction(body: EventBody, limits: Limits, ghost log: Log) returns (r: Result<EventRow>)
      requires limits.maxEvents >= 1
      modifies this
      ensures r.Err? ==> Rows() == old(Rows())
      ensures r.Ok? ==> events == old(events) + [r.value]
      ensures old(Represents(log)) ==> r.Ok? && r.value.body == body && Represents(Written(log, body, limits))
    {
      if Represents(log) {
        RenderedWrite(h, log, body, limits);
        WriteRespectsLimit(log, body, limits);
      }
      var opening := OpenCheckpoint(checkpoints, body.createdAt, limits);
      if opening.Err? { return Err(opening.error); }
      var appended := Append(opening.value.0, opening.value.1, body, limits);
      if appended.Err? { return Err(appended.error); }
      checkpoints, events := appended.value.0, events + [appended.value.1];
      return Ok(appended.value.1);
    }

    /** The limits are resolved from the configuration at every write. Up to eight
        attempts follow; conflicts and transient storage errors are retried.
        Whatever the storage does to the attempts, the event is written at most
        once, and exactly when the configuration is usable and some attempt is
        reached and left undisturbed. */
    method Write(body: EventBody, config: Result<Limits>, storage: nat -> Fault, ghost log: Log)
      returns (r: Result<EventRow>)
      modifies this
      ensures r.Err? ==> Rows() == old(Rows())
      ensures r.Ok? ==> events == old(events) + [r.value]
      ensures Resolved(config).Err? ==> r == Err(Resolved(config).error)
      ensures old(Represents(log)) ==>
        && (r.Ok? <==> Resolved(config).Ok? && Reached(storage))
        && Represents(if r.Ok? then Written(log, body, Resolved(config).value) else log)
    {
      var resolved := Resolved(config);
      if resolved.Err? { return Err(resolved.error); }
      var limits := resolved.value;
      r := Err(StorageFailure);
      var attempt := 0;
      while attempt < MAX_WRITE_ATTEMPTS
        invariant 0 <= attempt <= MAX_WRITE_ATTEMPTS
        invariant r.Err? && Rows() == old(Rows())
        invariant old(Represents(log)) ==> forall j: nat :: j < attempt ==> storage(j) == Transient
      {
        match storage(attempt) {
          case Permanent => return Err(StorageFailure);
          case Transient => r := Err(StorageFailure);
          case NoFault =>
            r := WriteTransaction(body, limits, log);
            if r.Ok? { return; }
            if r.error != Conflict && r.error != StorageFailure { return; }
        }
        attempt := attempt + 1;
      }
    }

    // --------------------------------------------------------------- purger

    /** Deletes the details of one closed, verified segment. On rows that stand for
        a history it succeeds exactly for its closed, not yet purged segments. */
    method PurgeSegmentDetails(no: int, now: int, ghost log: Log) returns (r: Result<()>)
      modifies this
      ensures r.Err? ==> Rows() == old(Rows())
      ensures old(Represents(log)) ==> (r.Ok? <==> Purgeable(log, no)) && Represents(Purged(log, no, now))
    {
      if Represents(log) {
        RenderedPurge(h, log, no, now);
      }
      if no <= 0 { return Err(InvalidState); }
      var at := Find(checkpoints, no);
      if at == |checkpoints| { return Err(NotFound); }
      var cp := checkpoints[at];
      if cp.status != Closed || cp.closedAt.None? || cp.hash != h.checkpoint(cp.Input()) { return Err(InvalidState); }
      var details := VerifySegmentDetails(cp);
      if details.Err? { return Err(details.error); }
      if |InSegment(events, no)| != cp.count { return Err(Conflict); }
      events := WithoutSegment(events, no);
      checkpoints := checkpoints[at := PurgedRow(cp, now)];
      return Ok(());
    }
  }
}
