/** The hash-chained audit log as data: the rows, what the verifier accepts,
    how strongly the last checkpoint hash binds the history, and the history
    (segments of event bodies, without any hash) that the rows stand for. */
module AuditChain {
  import opened Basics

  /** Every hashed field of an event except its position and its predecessor. */
  datatype EventBody = EventBody(
    actorUserId: nat, actorUsername: string, actorRole: string,
    action: string, outcome: string,
    repositoryId: string, recoveryPointId: string, entryId: string,
    taskId: Option<nat>, taskRunId: Option<nat>,
    recoveryJobId: string, exportJobId: string,
    itemCount: int, byteCount: int, rangeCount: int, rangeBytes: int,
    fingerprintKeyVersion: Option<int>, pathFingerprint: string, queryFingerprint: string,
    stepUpAction: string, stepUpProofId: string, grantId: string,
    failureCode: string, fieldsJson: string, createdAt: int)

  datatype EventInput = EventInput(segmentNo: int, sequence: int, body: EventBody, prevHash: string)

  datatype EventRow = EventRow(segmentNo: int, sequence: int, body: EventBody, prevHash: string, entryHash: string)
  {
    function Input(): EventInput { EventInput(segmentNo, sequence, body, prevHash) }
  }

  datatype SegmentStatus = Open | Closed | DetailsPurged | UnknownStatus(name: string)

  datatype CheckpointInput = CheckpointInput(
    segmentNo: int, previousHash: string, firstHash: string, lastHash: string,
    count: int, openedAt: int, closedAt: Option<int>)

  datatype Checkpoint = Checkpoint(
    segmentNo: int, status: SegmentStatus, previousHash: string, firstHash: string, lastHash: string,
    count: int, openedAt: int, closedAt: Option<int>, purgedAt: Option<int>, hash: string)
  {
    function Input(): CheckpointInput {
      CheckpointInput(segmentNo, previousHash, firstHash, lastHash, count, openedAt, closedAt)
    }
  }

  /** The two digests, kept abstract. */
  datatype Hasher = Hasher(event: EventInput -> string, checkpoint: CheckpointInput -> string)

  /** A hex digest is never the empty string. */
  ghost predicate NeverEmpty(h: Hasher) {
    && (forall x :: h.event(x) != "")
    && (forall x :: h.checkpoint(x) != "")
  }

  /** Both tables: checkpoints in segment order, events in insertion order. */
  datatype Store = Store(checkpoints: seq<Checkpoint>, events: seq<EventRow>)

  /** segment_no is the primary key of the checkpoint table. */
  ghost predicate Keyed(checkpoints: seq<Checkpoint>) {
    forall i, j :: 0 <= i < j < |checkpoints| ==> checkpoints[i].segmentNo < checkpoints[j].segmentNo
  }

  // ---------------------------------------------------------------- queries

  function InSegment(events: seq<EventRow>, no: int): seq<EventRow> {
    if events == [] then []
    else (if events[0].segmentNo == no then [events[0]] else []) + InSegment(events[1..], no)
  }

  function WithoutSegment(events: seq<EventRow>, no: int): seq<EventRow> {
    if events == [] then []
    else (if events[0].segmentNo == no then [] else [events[0]]) + WithoutSegment(events[1..], no)
  }

  function InsertBySequence(row: EventRow, rows: seq<EventRow>): seq<EventRow> {
    if rows == [] then [row]
    else if row.sequence <= rows[0].sequence then [row] + rows
    else [rows[0]] + InsertBySequence(row, rows[1..])
  }

  function OrderBySequence(rows: seq<EventRow>): seq<EventRow> {
    if rows == [] then [] else InsertBySequence(rows[0], OrderBySequence(rows[1..]))
  }

  /** The rows of one segment, ordered by segment_sequence. */
  function SegmentEvents(events: seq<EventRow>, no: int): seq<EventRow> {
    OrderBySequence(InSegment(events, no))
  }

  // ------------------------------------------------------------- acceptance

  ghost predicate EventAccepted(h: Hasher, no: int, rows: seq<EventRow>, i: nat)
    requires i < |rows|
  {
    && rows[i].segmentNo == no
    && rows[i].sequence == i + 1
    && rows[i].prevHash == (if i == 0 then "" else rows[i - 1].entryHash)
    && rows[i].entryHash == h.event(rows[i].Input())
  }

  ghost predicate DetailsAccepted(h: Hasher, cp: Checkpoint, rows: seq<EventRow>) {
    && |rows| == cp.count
    && (forall i: nat :: i < |rows| ==> EventAccepted(h, cp.segmentNo, rows, i))
    && cp.firstHash == (if rows == [] then "" else rows[0].entryHash)
    && cp.lastHash == (if rows == [] then "" else rows[|rows| - 1].entryHash)
  }

  ghost predicate CheckpointAccepted(h: Hasher, cp: Checkpoint, isLast: bool, events: seq<EventRow>) {
    && cp.count >= 0
    && match cp.status
       case Open =>
         isLast && cp.closedAt.None? && cp.hash == "" && cp.purgedAt.None? &&
         DetailsAccepted(h, cp, SegmentEvents(events, cp.segmentNo))
       case Closed =>
         cp.closedAt.Some? && cp.hash != "" && cp.hash == h.checkpoint(cp.Input()) &&
         DetailsAccepted(h, cp, SegmentEvents(events, cp.segmentNo))
       case DetailsPurged =>
         cp.closedAt.Some? && cp.hash != "" && cp.hash == h.checkpoint(cp.Input()) &&
         cp.purgedAt.Some? && InSegment(events, cp.segmentNo) == []
       case UnknownStatus(_) => false
  }

  ghost predicate LinkAccepted(checkpoints: seq<Checkpoint>, i: nat)
    requires i < |checkpoints|
  {
    && checkpoints[i].segmentNo == i + 1
    && (if i == 0 then checkpoints[i].previousHash == ""
        else checkpoints[i - 1].hash != "" && checkpoints[i].previousHash == checkpoints[i - 1].hash)
  }

  /** What it means for the verifier to accept a store, as one condition on all rows. */
  ghost predicate Accepted(h: Hasher, s: Store) {
    forall i: nat :: i < |s.checkpoints| ==> RowAccepted(h, s, i)
  }

  ghost predicate RowAccepted(h: Hasher, s: Store, i: nat)
    requires i < |s.checkpoints|
  {
    && LinkAccepted(s.checkpoints, i)
    && CheckpointAccepted(h, s.checkpoints[i], i == |s.checkpoints| - 1, s.events)
  }

  // ---------------------------------------------------------------- binding

  /** No two different rows of the two stores hash alike. Injectivity of the
      digests implies it; a violation is a concrete collision. */
  ghost predicate CollisionFree(h: Hasher, a: Store, b: Store) {
    && (forall x, y | x in a.checkpoints && y in b.checkpoints ::
          h.checkpoint(x.Input()) == h.checkpoint(y.Input()) ==> x.Input() == y.Input())
    && (forall x, y | x in a.events && y in b.events ::
          h.event(x.Input()) == h.event(y.Input()) ==> x.Input() == y.Input())
  }

  /** Segment i of both stores: the same hashed checkpoint fields and hash, and,
      when both still hold the details, the same events in the same order. */
  ghost predicate SameSegment(a: Store, b: Store, i: nat)
    requires i < |a.checkpoints| && i < |b.checkpoints|
  {
    var x, y := a.checkpoints[i], b.checkpoints[i];
    && x.Input() == y.Input()
    && x.hash == y.hash
    && (x.status == Closed && y.status == Closed ==>
          SegmentEvents(a.events, x.segmentNo) == SegmentEvents(b.events, y.segmentNo))
  }

  lemma {:induction false} InsertMembers(row: EventRow, rows: seq<EventRow>)
    ensures forall r :: r in InsertBySequence(row, rows) ==> r == row || r in rows
  {
    if rows != [] && row.sequence > rows[0].sequence {
      InsertMembers(row, rows[1..]);
    }
  }

  lemma {:induction false} OrderMembers(rows: seq<EventRow>)
    ensures forall r :: r in OrderBySequence(rows) ==> r in rows
  {
    if rows != [] {
      OrderMembers(rows[1..]);
      InsertMembers(rows[0], OrderBySequence(rows[1..]));
    }
  }

  lemma {:induction false} InSegmentMembers(events: seq<EventRow>, no: int)
    ensures forall r :: r in InSegment(events, no) ==> r in events && r.segmentNo == no
  {
    if events != [] {
      InSegmentMembers(events[1..], no);
    }
  }

  /** The rows a segment query returns are rows of the table. */
  lemma SegmentEventsMembers(events: seq<EventRow>, no: int)
    ensures forall r :: r in SegmentEvents(events, no) ==> r in events && r.segmentNo == no
  {
    OrderMembers(InSegment(events, no));
    InSegmentMembers(events, no);
  }

  /** An entry hash fixes its event and, through prev_hash, every event before it. */
  lemma {:induction false} EventsBoundByLastHash(h: Hasher, a: Store, b: Store, no: int, p: seq<EventRow>,
      q: seq<EventRow>, k: nat)
    requires CollisionFree(h, a, b)
    requires k < |p| && k < |q|
    requires forall i: nat :: i <= k ==> EventAccepted(h, no, p, i) && EventAccepted(h, no, q, i)
    requires forall i: nat :: i <= k ==> p[i] in a.events && q[i] in b.events
    requires p[k].entryHash == q[k].entryHash
    ensures p[..k + 1] == q[..k + 1]
  {
    assert EventAccepted(h, no, p, k) && EventAccepted(h, no, q, k);
    assert p[k] in a.events && q[k] in b.events;
    assert p[k].Input() == q[k].Input();
    if k > 0 {
      EventsBoundByLastHash(h, a, b, no, p, q, k - 1);
      assert p[..k + 1] == p[..k] + [p[k]] && q[..k + 1] == q[..k] + [q[k]];
    }
  }

  /** Equal hashed checkpoint fields fix the whole ordered list of events. */
  lemma DetailsBound(h: Hasher, a: Store, b: Store, x: Checkpoint, y: Checkpoint, p: seq<EventRow>, q: seq<EventRow>)
    requires CollisionFree(h, a, b)
    requires x.Input() == y.Input()
    requires DetailsAccepted(h, x, p) && DetailsAccepted(h, y, q)
    requires forall r :: r in p ==> r in a.events
    requires forall r :: r in q ==> r in b.events
    ensures p == q
  {
    if p != [] {
      EventsBoundByLastHash(h, a, b, x.segmentNo, p, q, |p| - 1);
      assert p[..|p|] == p && q[..|q|] == q;
    }
  }

  /** One shared hash of a closed checkpoint fixes that segment. */
  lemma SegmentBound(h: Hasher, a: Store, b: Store, i: nat, j: nat)
    requires Accepted(h, a) && Accepted(h, b) && CollisionFree(h, a, b)
    requires i < |a.checkpoints| && j < |b.checkpoints|
    requires a.checkpoints[i].status != Open && b.checkpoints[j].status != Open
    requires a.checkpoints[i].hash == b.checkpoints[j].hash
    ensures i == j && SameSegment(a, b, i)
  {
    var x, y := a.checkpoints[i], b.checkpoints[j];
    assert RowAccepted(h, a, i) && RowAccepted(h, b, j);
    assert x in a.checkpoints && y in b.checkpoints;
    assert x.Input() == y.Input();
    if x.status == Closed && y.status == Closed {
      SegmentEventsMembers(a.events, x.segmentNo);
      SegmentEventsMembers(b.events, y.segmentNo);
      DetailsBound(h, a, b, x, y, SegmentEvents(a.events, x.segmentNo), SegmentEvents(b.events, y.segmentNo));
    }
  }

  /** If two accepted stores share the hash of a closed checkpoint anywhere, it
      is the same segment in both and the whole history up to it agrees. */
  lemma {:induction false} PrefixBinding(h: Hasher, a: Store, b: Store, i: nat, j: nat)
    requires Accepted(h, a) && Accepted(h, b) && CollisionFree(h, a, b)
    requires i < |a.checkpoints| && j < |b.checkpoints|
    requires a.checkpoints[i].status != Open && b.checkpoints[j].status != Open
    requires a.checkpoints[i].hash == b.checkpoints[j].hash
    ensures i == j
    ensures forall k: nat :: k <= i ==> SameSegment(a, b, k)
    decreases i
  {
    SegmentBound(h, a, b, i, j);
    if i > 0 {
      LinkBound(h, a, i);
      LinkBound(h, b, i);
      PrefixBinding(h, a, b, i - 1, i - 1);
    }
  }

  /** A row is linked to a closed one before it. */
  lemma LinkBound(h: Hasher, s: Store, i: nat)
    requires Accepted(h, s) && 0 < i < |s.checkpoints|
    ensures s.checkpoints[i - 1].status != Open && s.checkpoints[i].previousHash == s.checkpoints[i - 1].hash
  {
    assert RowAccepted(h, s, i) && RowAccepted(h, s, i - 1);
  }

  /** The chain is binding: with collision-free digests, two accepted stores that
      end in a closed checkpoint with the same hash have the same number of
      segments, the same hashed checkpoint fields, and the same events in every
      segment whose details both still hold. */
  lemma ChainBinding(h: Hasher, a: Store, b: Store)
    requires Accepted(h, a) && Accepted(h, b) && CollisionFree(h, a, b)
    requires a.checkpoints != [] && b.checkpoints != []
    requires a.checkpoints[|a.checkpoints| - 1].status != Open
    requires b.checkpoints[|b.checkpoints| - 1].status != Open
    requires a.checkpoints[|a.checkpoints| - 1].hash == b.checkpoints[|b.checkpoints| - 1].hash
    ensures |a.checkpoints| == |b.checkpoints|
    ensures forall k: nat :: k < |a.checkpoints| ==> SameSegment(a, b, k)
  {
    PrefixBinding(h, a, b, |a.checkpoints| - 1, |b.checkpoints| - 1);
  }

  // -------------------------------------------------- the history behind rows

  /** One segment of the history. Bodies survive a purge here: the history is
      what was written, not what is still stored. */
  datatype Segment = Segment(bodies: seq<EventBody>, openedAt: int, closedAt: Option<int>, purgedAt: Option<int>)

  type Log = seq<Segment>

  ghost predicate WellFormed(log: Log) {
    forall i :: 0 <= i < |log| ==>
      && log[i].bodies != []
      && (i < |log| - 1 ==> log[i].closedAt.Some?)
      && (log[i].purgedAt.Some? ==> log[i].closedAt.Some?)
  }

  function EntryHash(h: Hasher, no: int, bodies: seq<EventBody>, k: nat): string
    requires k <= |bodies|
  {
    if k == 0 then ""
    else h.event(EventInput(no, k, bodies[k - 1], EntryHash(h, no, bodies, k - 1)))
  }

  function EventRows(h: Hasher, no: int, bodies: seq<EventBody>): seq<EventRow> {
    seq(|bodies|, i requires 0 <= i < |bodies| =>
      EventRow(no, i + 1, bodies[i], EntryHash(h, no, bodies, i), EntryHash(h, no, bodies, i + 1)))
  }

  /** The checkpoint row of segment number no, given its predecessor's hash. */
  function CheckpointRow(h: Hasher, no: int, previousHash: string, s: Segment): Checkpoint {
    var first := if s.bodies == [] then "" else EntryHash(h, no, s.bodies, 1);
    var last := EntryHash(h, no, s.bodies, |s.bodies|);
    var status := if s.closedAt.None? then Open else if s.purgedAt.None? then Closed else DetailsPurged;
    var input := CheckpointInput(no, previousHash, first, last, |s.bodies|, s.openedAt, s.closedAt);
    Checkpoint(no, status, previousHash, first, last, |s.bodies|, s.openedAt, s.closedAt, s.purgedAt,
               if s.closedAt.None? then "" else h.checkpoint(input))
  }

  function LastHash(checkpoints: seq<Checkpoint>): string {
    if checkpoints == [] then "" else checkpoints[|checkpoints| - 1].hash
  }

  function CheckpointRows(h: Hasher, log: Log): (rows: seq<Checkpoint>)
    ensures |rows| == |log|
  {
    if log == [] then []
    else
      var before := CheckpointRows(h, log[..|log| - 1]);
      before + [CheckpointRow(h, |log|, LastHash(before), log[|log| - 1])]
  }

  function StoredEvents(h: Hasher, log: Log): seq<EventRow> {
    if log == [] then []
    else
      var s := log[|log| - 1];
      StoredEvents(h, log[..|log| - 1]) + (if s.purgedAt.Some? then [] else EventRows(h, |log|, s.bodies))
  }

  /** The rows that stand for a history. */
  function Render(h: Hasher, log: Log): Store {
    Store(CheckpointRows(h, log), StoredEvents(h, log))
  }

  lemma {:induction false} CheckpointRowAt(h: Hasher, log: Log, i: nat)
    requires i < |log|
    ensures var rows := CheckpointRows(h, log);
      rows[i] == CheckpointRow(h, i + 1, LastHash(rows[..i]), log[i])
    ensures CheckpointRows(h, log[..i]) == CheckpointRows(h, log)[..i]
  {
    var rows, before := CheckpointRows(h, log), CheckpointRows(h, log[..|log| - 1]);
    if i < |log| - 1 {
      CheckpointRowAt(h, log[..|log| - 1], i);
      assert log[..|log| - 1][..i] == log[..i];
      assert rows[..i] == before[..i];
    } else {
      assert rows[..i] == before;
    }
  }

  lemma {:induction false} InSegmentConcat(p: seq<EventRow>, q: seq<EventRow>, no: int)
    ensures InSegment(p + q, no) == InSegment(p, no) + InSegment(q, no)
  {
    if p == [] {
      assert p + q == q;
    } else {
      assert (p + q)[0] == p[0] && (p + q)[1..] == p[1..] + q;
      InSegmentConcat(p[1..], q, no);
      var head := if p[0].segmentNo == no then [p[0]] else [];
      assert head + (InSegment(p[1..], no) + InSegment(q, no)) == (head + InSegment(p[1..], no)) + InSegment(q, no);
    }
  }

  lemma {:induction false} InSegmentUniform(rows: seq<EventRow>, no: int, wanted: int)
    requires forall r :: r in rows ==> r.segmentNo == no
    ensures InSegment(rows, wanted) == if wanted == no then rows else []
  {
    if rows != [] {
      InSegmentUniform(rows[1..], no, wanted);
    }
  }

  /** Selecting a segment from the stored events gives back exactly its rows. */
  lemma {:induction false} StoredSegment(h: Hasher, log: Log, no: int)
    ensures InSegment(StoredEvents(h, log), no) ==
      if 1 <= no <= |log| && log[no - 1].purgedAt.None? then EventRows(h, no, log[no - 1].bodies) else []
  {
    if log != [] {
      var n, before, s := |log|, log[..|log| - 1], log[|log| - 1];
      var rows := if s.purgedAt.Some? then [] else EventRows(h, n, s.bodies);
      StoredSegment(h, before, no);
      assert StoredEvents(h, log) == StoredEvents(h, before) + rows;
      InSegmentConcat(StoredEvents(h, before), rows, no);
      InSegmentUniform(rows, n, no);
    }
  }

  ghost predicate Ascending(rows: seq<EventRow>) {
    forall i, j :: 0 <= i < j < |rows| ==> rows[i].sequence < rows[j].sequence
  }

  /** Ordering rows that are already ascending changes nothing. */
  lemma {:induction false} OrderAscending(rows: seq<EventRow>)
    requires Ascending(rows)
    ensures OrderBySequence(rows) == rows
  {
    if rows != [] {
      OrderAscending(rows[1..]);
      assert rows == [rows[0]] + rows[1..];
    }
  }

  lemma RenderedSegment(h: Hasher, log: Log, no: int)
    requires 1 <= no <= |log| && log[no - 1].purgedAt.None?
    ensures SegmentEvents(StoredEvents(h, log), no) == EventRows(h, no, log[no - 1].bodies)
  {
    StoredSegment(h, log, no);
    OrderAscending(EventRows(h, no, log[no - 1].bodies));
  }

  lemma RenderedEvent(h: Hasher, no: int, bodies: seq<EventBody>, k: nat)
    requires k < |bodies|
    ensures EventAccepted(h, no, EventRows(h, no, bodies), k)
  {
    assert EntryHash(h, no, bodies, k + 1) == h.event(EventInput(no, k + 1, bodies[k], EntryHash(h, no, bodies, k)));
  }

  lemma RenderedDetails(h: Hasher, log: Log, i: nat, previousHash: string)
    requires i < |log| && log[i].purgedAt.None?
    ensures DetailsAccepted(h, CheckpointRow(h, i + 1, previousHash, log[i]),
      SegmentEvents(StoredEvents(h, log), i + 1))
  {
    RenderedSegment(h, log, i + 1);
    RenderedRows(h, i + 1, previousHash, log[i]);
  }

  lemma RenderedRows(h: Hasher, no: int, previousHash: string, s: Segment)
    ensures DetailsAccepted(h, CheckpointRow(h, no, previousHash, s), EventRows(h, no, s.bodies))
  {
    forall k: nat | k < |s.bodies| ensures EventAccepted(h, no, EventRows(h, no, s.bodies), k) {
      RenderedEvent(h, no, s.bodies, k);
    }
  }

  lemma RenderedKeyed(h: Hasher, log: Log)
    ensures Keyed(CheckpointRows(h, log))
    ensures forall i :: 0 <= i < |log| ==> CheckpointRows(h, log)[i].segmentNo == i + 1
  {
    forall i | 0 <= i < |log| ensures CheckpointRows(h, log)[i].segmentNo == i + 1 {
      CheckpointRowAt(h, log, i);
    }
  }

  /** The verifier accepts the rows of every well-formed history. */
  lemma RenderedAccepted(h: Hasher, log: Log)
    requires NeverEmpty(h) && WellFormed(log)
    ensures Accepted(h, Render(h, log))
  {
    var rows, events := CheckpointRows(h, log), StoredEvents(h, log);
    forall i: nat | i < |rows|
      ensures RowAccepted(h, Render(h, log), i)
    {
      CheckpointRowAt(h, log, i);
      if i > 0 {
        CheckpointRowAt(h, log, i - 1);
      }
      if log[i].purgedAt.None? {
        RenderedDetails(h, log, i, LastHash(rows[..i]));
      } else {
        StoredSegment(h, log, i + 1);
      }
    }
  }

  // ------------------------------------------------------- nothing but history

  function BodiesOf(rows: seq<EventRow>): seq<EventBody> { seq(|rows|, i requires 0 <= i < |rows| => rows[i].body) }

  lemma {:induction false} AcceptedHashes(h: Hasher, no: int, rows: seq<EventRow>, k: nat)
    requires k <= |rows| && forall i: nat :: i < |rows| ==> EventAccepted(h, no, rows, i)
    ensures EntryHash(h, no, BodiesOf(rows), k) == if k == 0 then "" else rows[k - 1].entryHash
  {
    if k > 0 {
      AcceptedHashes(h, no, rows, k - 1);
      assert EventAccepted(h, no, rows, k - 1);
      assert rows[k - 1].Input() == EventInput(no, k, rows[k - 1].body, rows[k - 1].prevHash);
    }
  }

  lemma AcceptedRows(h: Hasher, no: int, rows: seq<EventRow>)
    requires forall i: nat :: i < |rows| ==> EventAccepted(h, no, rows, i)
    ensures rows == EventRows(h, no, BodiesOf(rows))
  {
    forall k: nat | k < |rows| ensures rows[k] == EventRows(h, no, BodiesOf(rows))[k] {
      assert EventAccepted(h, no, rows, k);
      AcceptedHashes(h, no, rows, k);
      AcceptedHashes(h, no, rows, k + 1);
    }
  }

  /** A checkpoint with accepted details is the one its rows give. */
  lemma AcceptedCheckpoint(h: Hasher, cp: Checkpoint, isLast: bool, events: seq<EventRow>, rows: seq<EventRow>)
    requires CheckpointAccepted(h, cp, isLast, events) && cp.status != DetailsPurged
    requires rows == SegmentEvents(events, cp.segmentNo)
    ensures forall i: nat :: i < |rows| ==> EventAccepted(h, cp.segmentNo, rows, i)
    ensures cp.(purgedAt := None) ==
      CheckpointRow(h, cp.segmentNo, cp.previousHash, Segment(BodiesOf(rows), cp.openedAt, cp.closedAt, None))
  {
    assert DetailsAccepted(h, cp, rows);
    AcceptedHashes(h, cp.segmentNo, rows, |rows|);
    if rows != [] {
      AcceptedHashes(h, cp.segmentNo, rows, 1);
    }
  }

  /** The converse of acceptance: whatever the verifier accepts is the rendering of a
      history. A segment whose details are still held has exactly the rows, and its
      checkpoint exactly the fields, that its events give. */
  lemma AcceptedIsHistory(h: Hasher, s: Store, i: nat)
    requires Accepted(h, s) && i < |s.checkpoints| && s.checkpoints[i].status != DetailsPurged
    ensures var cp, rows := s.checkpoints[i], SegmentEvents(s.events, i + 1);
      && rows == EventRows(h, i + 1, BodiesOf(rows))
      && cp.(purgedAt := None) == CheckpointRow(h, i + 1, if i == 0 then "" else s.checkpoints[i - 1].hash,
        Segment(BodiesOf(rows), cp.openedAt, cp.closedAt, None))
  {
    assert RowAccepted(h, s, i);
    var rows := SegmentEvents(s.events, i + 1);
    AcceptedCheckpoint(h, s.checkpoints[i], i == |s.checkpoints| - 1, s.events, rows);
    AcceptedRows(h, i + 1, rows);
  }

  // ------------------------------------------------------------------- runs

  /** The limits in force at one write. */
  datatype Limits = Limits(maxEvents: int, maxAge: int)

  /** The history as a write finds it: the segment that is to take the event is
      last and open, rolled over first when it is full or too old. */
  function Rolled(log: Log, now: int, limits: Limits): Log {
    if log == [] || log[|log| - 1].closedAt.Some? then log + [Segment([], now, None, None)]
    else
      var last := log[|log| - 1];
      if |last.bodies| > 0 && (|last.bodies| >= limits.maxEvents || now - last.openedAt >= limits.maxAge)
      then log[..|log| - 1] + [last.(closedAt := Some(now)), Segment([], now, None, None)]
      else log
  }

  function Written(log: Log, body: EventBody, limits: Limits): Log {
    var rolled := Rolled(log, body.createdAt, limits);
    var last := rolled[|rolled| - 1];
    var grown := last.(bodies := last.bodies + [body]);
    rolled[|rolled| - 1 := if |grown.bodies| >= limits.maxEvents then grown.(closedAt := Some(body.createdAt))
      else grown]
  }

  predicate Purgeable(log: Log, no: int) {
    1 <= no <= |log| && log[no - 1].closedAt.Some? && log[no - 1].purgedAt.None?
  }

  function Purged(log: Log, no: int, now: int): Log {
    if Purgeable(log, no) then log[no - 1 := log[no - 1].(purgedAt := Some(now))] else log
  }

  /** One committed or rolled-back transaction; limits may differ at every write. */
  datatype Op = Write(body: EventBody, limits: Limits) | Purge(no: int, now: int) | RolledBack

  function Apply(log: Log, op: Op): Log {
    match op
    case Write(body, limits) => Written(log, body, limits)
    case Purge(no, now) => Purged(log, no, now)
    case RolledBack => log
  }

  function Run(ops: seq<Op>): Log {
    if ops == [] then [] else Apply(Run(ops[..|ops| - 1]), ops[|ops| - 1])
  }

  function WrittenBodies(ops: seq<Op>): seq<EventBody> {
    if ops == [] then []
    else WrittenBodies(ops[..|ops| - 1]) + (if ops[|ops| - 1].Write? then [ops[|ops| - 1].body] else [])
  }

  function Bodies(log: Log): seq<EventBody> {
    if log == [] then [] else Bodies(log[..|log| - 1]) + log[|log| - 1].bodies
  }

  lemma BodiesSnoc(log: Log, s: Segment)
    ensures Bodies(log + [s]) == Bodies(log) + s.bodies
  {
    assert (log + [s])[..|log|] == log;
  }

  lemma BodiesReplaceLast(log: Log, s: Segment)
    requires log != []
    ensures Bodies(log[|log| - 1 := s]) == Bodies(log[..|log| - 1]) + s.bodies
  {
    assert log[|log| - 1 := s][..|log| - 1] == log[..|log| - 1];
  }

  lemma {:induction false} BodiesIgnoreTimes(p: Log, q: Log)
    requires |p| == |q| && forall i :: 0 <= i < |p| ==> p[i].bodies == q[i].bodies
    ensures Bodies(p) == Bodies(q)
  {
    if p != [] {
      BodiesIgnoreTimes(p[..|p| - 1], q[..|q| - 1]);
    }
  }

  lemma RolledFacts(log: Log, now: int, limits: Limits)
    requires WellFormed(log) && limits.maxEvents >= 1
    ensures var r := Rolled(log, now, limits);
      && r != [] && r[|r| - 1].closedAt.None? && r[|r| - 1].purgedAt.None?
      && |r[|r| - 1].bodies| < limits.maxEvents
      && (r[|r| - 1].bodies != [] ==> now - r[|r| - 1].openedAt < limits.maxAge)
      && (forall i :: 0 <= i < |r| - 1 ==> r[i].bodies != [] && r[i].closedAt.Some?)
      && Bodies(r) == Bodies(log)
  {
    var newest := Segment([], now, None, None);
    if log == [] || log[|log| - 1].closedAt.Some? {
      BodiesSnoc(log, newest);
    } else {
      var last := log[|log| - 1];
      if |last.bodies| > 0 && (|last.bodies| >= limits.maxEvents || now - last.openedAt >= limits.maxAge) {
        var closed := log[..|log| - 1] + [last.(closedAt := Some(now))];
        assert Rolled(log, now, limits) == closed + [newest];
        BodiesSnoc(closed, newest);
        BodiesIgnoreTimes(log, closed);
      }
    }
  }

  /** A write only replaces the last segment of the rolled history, by one that holds
      the event in addition. */
  lemma WrittenShape(log: Log, body: EventBody, limits: Limits) returns (r: Log, s: Segment)
    requires WellFormed(log) && limits.maxEvents >= 1
    ensures r == Rolled(log, body.createdAt, limits) && r != [] && Written(log, body, limits) == r[|r| - 1 := s]
    ensures s.bodies == r[|r| - 1].bodies + [body] && s.openedAt == r[|r| - 1].openedAt && s.purgedAt.None?
    ensures s.closedAt == if |s.bodies| >= limits.maxEvents then Some(body.createdAt) else None
  {
    RolledFacts(log, body.createdAt, limits);
    r := Rolled(log, body.createdAt, limits);
    var grown := r[|r| - 1].(bodies := r[|r| - 1].bodies + [body]);
    s := if |grown.bodies| >= limits.maxEvents then grown.(closedAt := Some(body.createdAt)) else grown;
  }

  /** A write keeps the history well formed and never adds its event to a
      segment at or over the limit in force at that write, nor to one that holds
      events and is too old. */
  lemma WriteRespectsLimit(log: Log, body: EventBody, limits: Limits)
    requires WellFormed(log) && limits.maxEvents >= 1
    ensures var w := Written(log, body, limits);
      && WellFormed(w) && w != []
      && |w[|w| - 1].bodies| <= limits.maxEvents
      && (|w[|w| - 1].bodies| > 1 ==> body.createdAt - w[|w| - 1].openedAt < limits.maxAge)
      && w[|w| - 1].bodies[|w[|w| - 1].bodies| - 1] == body
  {
    var r, s := WrittenShape(log, body, limits);
    RolledFacts(log, body.createdAt, limits);
  }

  /** The converse: a write rolls over exactly when it must. It extends the open segment
      if that has room and is young enough or still empty, and starts a new one
      otherwise, closing the old; and it closes the segment it wrote to exactly when
      that has reached the limit. */
  lemma WriteRollsIff(log: Log, body: EventBody, limits: Limits)
    requires WellFormed(log) && limits.maxEvents >= 1
    ensures var w := Written(log, body, limits);
      var open := log != [] && log[|log| - 1].closedAt.None?;
      var fits := open && |log[|log| - 1].bodies| < limits.maxEvents
        && body.createdAt - log[|log| - 1].openedAt < limits.maxAge;
      && |w| == (if fits then |log| else |log| + 1)
      && (fits ==> w[..|log| - 1] == log[..|log| - 1] && w[|log| - 1].openedAt == log[|log| - 1].openedAt
                   && w[|log| - 1].bodies == log[|log| - 1].bodies + [body])
      && (!fits ==> w[|log|].bodies == [body] && w[|log|].openedAt == body.createdAt
                    && w[..|log|] == if open then log[|log| - 1 := log[|log| - 1].(closedAt := Some(body.createdAt))]
                      else log)
      && (w[|w| - 1].closedAt == if |w[|w| - 1].bodies| >= limits.maxEvents then Some(body.createdAt) else None)
  {
    var r, s := WrittenShape(log, body, limits);
    var last := r[|r| - 1];
    assert s.closedAt == if |s.bodies| >= limits.maxEvents then Some(body.createdAt) else None;
  }

  lemma BodiesGrowLast(r: Log, s: Segment, body: EventBody)
    requires r != [] && s.bodies == r[|r| - 1].bodies + [body]
    ensures Bodies(r[|r| - 1 := s]) == Bodies(r) + [body]
  {
    BodiesReplaceLast(r, s);
    var before := Bodies(r[..|r| - 1]);
    assert before + (r[|r| - 1].bodies + [body]) == (before + r[|r| - 1].bodies) + [body];
  }

  /** A write adds its event at the very end of the history and loses none. */
  lemma WriteAppends(log: Log, body: EventBody, limits: Limits)
    requires WellFormed(log) && limits.maxEvents >= 1
    ensures Bodies(Written(log, body, limits)) == Bodies(log) + [body]
  {
    var r, s := WrittenShape(log, body, limits);
    RolledFacts(log, body.createdAt, limits);
    BodiesGrowLast(r, s, body);
  }

  lemma PurgeFacts(log: Log, no: int, now: int)
    requires WellFormed(log)
    ensures WellFormed(Purged(log, no, now)) && Bodies(Purged(log, no, now)) == Bodies(log)
  {
    BodiesIgnoreTimes(log, Purged(log, no, now));
  }

  /** One transaction: what every step keeps and adds. */
  lemma ApplyFacts(log: Log, op: Op)
    requires WellFormed(log)
    requires op.Write? ==> op.limits.maxEvents >= 1
    ensures WellFormed(Apply(log, op))
    ensures Bodies(Apply(log, op)) == Bodies(log) + (if op.Write? then [op.body] else [])
  {
    match op
    case Write(body, limits) =>
      WriteRespectsLimit(log, body, limits);
      WriteAppends(log, body, limits);
    case Purge(no, now) => PurgeFacts(log, no, now);
    case RolledBack =>
  }

  ghost predicate UsableLimits(ops: seq<Op>) {
    forall op :: op in ops && op.Write? ==> op.limits.maxEvents >= 1
  }

  /** Nothing written is lost, reordered or invented, whatever else happens. */
  lemma {:induction false} RunConserves(ops: seq<Op>)
    requires UsableLimits(ops)
    ensures WellFormed(Run(ops)) && Bodies(Run(ops)) == WrittenBodies(ops)
  {
    if ops != [] {
      RunConserves(ops[..|ops| - 1]);
      ApplyFacts(Run(ops[..|ops| - 1]), ops[|ops| - 1]);
    }
  }

  /** Whatever mix of writes, rolled-back attempts, limit changes and purges of
      closed segments led there, the verifier accepts the store, and segments
      are numbered 1..n with only the last one open. */
  lemma EveryRunAccepted(h: Hasher, ops: seq<Op>)
    requires NeverEmpty(h) && UsableLimits(ops)
    ensures var s := Render(h, Run(ops));
      && Accepted(h, s)
      && (forall i :: 0 <= i < |s.checkpoints| ==>
            s.checkpoints[i].segmentNo == i + 1 && (s.checkpoints[i].status == Open ==> i == |s.checkpoints| - 1))
  {
    RunConserves(ops);
    var log := Run(ops);
    RenderedAccepted(h, log);
    forall i | 0 <= i < |log|
      ensures var row := CheckpointRows(h, log)[i]; row.segmentNo == i + 1 && (row.status == Open ==> i == |log| - 1)
    {
      CheckpointRowAt(h, log, i);
    }
  }
}
