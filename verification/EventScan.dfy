/** The chain event scan: a lower-bound search for the block window, a pool of workers that share
    one block counter, and a final sort. */
module EventScan {
  import opened Wrappers
  import opened Ordering

  const EVENT_SCAN_CONCURRENCY: nat := 8

  datatype Record = Record(section: string, name: string, phase: string, data: string, human: string)

  datatype ChainEvent = ChainEvent(block: int, timestampMs: int, event: string, phase: string, data: string, human: string)

  /** The finalized chain: a timestamp and the event records of every block. */
  datatype Chain = Chain(timestamp: int -> int, records: int -> seq<Record>)

  // --- Which records count ---

  predicate HasPrefix(text: string, needle: string) {
    |needle| <= |text| && text[..|needle|] == needle
  }

  predicate Includes(text: string, needle: string) {
    HasPrefix(text, needle) || (text != "" && Includes(text[1..], needle))
  }

  function Searchable(r: Record): string {
    r.section + "." + r.name + " " + r.data + " " + r.human
  }

  predicate Wanted(r: Record, sequenceNeedles: seq<string>, aliases: seq<string>) {
    && (r.section == "acurast" || r.section == "acurastMarketplace")
    && (exists k :: 0 <= k < |sequenceNeedles| && Includes(Searchable(r), sequenceNeedles[k]))
    && (exists k :: 0 <= k < |aliases| && Includes(Searchable(r), aliases[k]))
  }

  datatype Query = Query(chain: Chain, sequenceNeedles: seq<string>, aliases: seq<string>)

  function EventOf(q: Query, block: int, r: Record): ChainEvent {
    ChainEvent(block, q.chain.timestamp(block), r.section + "." + r.name, r.phase, r.data, r.human)
  }

  /** The events of some of a block's records, in record order. */
  function Matching(q: Query, block: int, records: seq<Record>): seq<ChainEvent> {
    if records == [] then []
    else
      Matching(q, block, records[..|records| - 1])
      + (var last := records[|records| - 1];
         if Wanted(last, q.sequenceNeedles, q.aliases) then [EventOf(q, block, last)] else [])
  }

  function BlockEvents(q: Query, block: int): seq<ChainEvent> {
    Matching(q, block, q.chain.records(block))
  }

  /** One worker, block after block. */
  function SequentialScan(q: Query, fromBlock: int, end: int): seq<ChainEvent>
    decreases end - fromBlock
  {
    if end <= fromBlock then [] else SequentialScan(q, fromBlock, end - 1) + BlockEvents(q, end - 1)
  }

  function EventLeq(leq: (string, string) -> bool): (ChainEvent, ChainEvent) -> bool {
    (a: ChainEvent, b: ChainEvent) => a.block < b.block || (a.block == b.block && leq(a.event, b.event))
  }

  function OfBlock(block: int): ChainEvent -> bool {
    (e: ChainEvent) => e.block == block
  }

  // --- The worker pool ---

  /** Where a worker is: at the loop test, at the k-th of the four awaits on its block, or finished.
      Between awaits a worker runs without interruption. */
  datatype Worker = AtLoop | Awaiting(block: int, stage: nat) | Finished

  ghost predicate Holds(workers: seq<Worker>, block: int) {
    exists i :: 0 <= i < |workers| && workers[i].Awaiting? && workers[i].block == block
  }

  function Steps(w: Worker): nat {
    match w
    case AtLoop => 1
    case Awaiting(_, stage) => if stage <= 3 then 5 - stage else 1
    case Finished => 0
  }

  function TotalSteps(workers: seq<Worker>): nat {
    if workers == [] then 0 else TotalSteps(workers[..|workers| - 1]) + Steps(workers[|workers| - 1])
  }

  lemma {:induction false} TotalStepsUpdate(workers: seq<Worker>, i: nat, w: Worker)
    requires i < |workers|
    ensures TotalSteps(workers[i := w]) == TotalSteps(workers) - Steps(workers[i]) + Steps(w)
  {
    var n := |workers| - 1;
    if i < n {
      TotalStepsUpdate(workers[..n], i, w);
      assert workers[i := w][..n] == workers[..n][i := w];
    } else {
      assert workers[i := w][..n] == workers[..n];
    }
  }

  /** The loop over one block's records. */
  method PushBlock(q: Query, block: int, events: seq<ChainEvent>) returns (pushed: seq<ChainEvent>)
    ensures pushed == events + BlockEvents(q, block)
  {
    pushed := events;
    var records := q.chain.records(block);
    for k := 0 to |records|
      invariant pushed == events + Matching(q, block, records[..k])
    {
      assert records[..k + 1][..k] == records[..k];
      var record := records[k];
      if record.section != "acurast" && record.section != "acurastMarketplace" { continue; }
      if !(exists n :: 0 <= n < |q.sequenceNeedles| && Includes(Searchable(record), q.sequenceNeedles[n])) { continue; }
      if !(exists n :: 0 <= n < |q.aliases| && Includes(Searchable(record), q.aliases[n])) { continue; }
      pushed := pushed + [EventOf(q, block, record)];
    }
    assert records[..|records|] == records;
  }

  lemma {:induction false} MatchingBlock(q: Query, block: int, records: seq<Record>)
    ensures forall e :: e in Matching(q, block, records) ==> e.block == block
  {
    if records != [] {
      MatchingBlock(q, block, records[..|records| - 1]);
    }
  }

  lemma BlockEventsFilter(q: Query, block: int, other: int)
    ensures Filter(OfBlock(other), BlockEvents(q, block)) == if other == block then BlockEvents(q, block) else []
  {
    MatchingBlock(q, block, q.chain.records(block));
    if other == block {
      FilterEverything(OfBlock(other), BlockEvents(q, block));
    } else {
      FilterNothing(OfBlock(other), BlockEvents(q, block));
    }
  }

  lemma {:induction false} SequentialFilter(q: Query, fromBlock: int, end: int, block: int)
    ensures Filter(OfBlock(block), SequentialScan(q, fromBlock, end)) == if fromBlock <= block < end then BlockEvents(q, block) else []
    decreases end - fromBlock
  {
    if fromBlock < end {
      SequentialFilter(q, fromBlock, end - 1, block);
      FilterConcat(OfBlock(block), SequentialScan(q, fromBlock, end - 1), BlockEvents(q, end - 1));
      BlockEventsFilter(q, end - 1, block);
    }
  }

  lemma EventLeqPreorder(leq: (string, string) -> bool)
    requires TotalPreorder(leq)
    ensures TotalPreorder(EventLeq(leq))
  {
    var order := EventLeq(leq);
    forall a, b ensures order(a, b) || order(b, a) {
      assert leq(a.event, b.event) || leq(b.event, a.event);
    }
    forall a, b, c | order(a, b) && order(b, c) ensures order(a, c) {
      assert leq(a.event, b.event) && leq(b.event, c.event) ==> leq(a.event, c.event);
    }
  }

  /** The sort cannot see the interleaving: events of different blocks are never tied, so only the
      order inside each block matters. */
  lemma SameBlocksSameSort(leq: (string, string) -> bool, a: seq<ChainEvent>, b: seq<ChainEvent>)
    requires TotalPreorder(leq)
    requires forall block :: Filter(OfBlock(block), a) == Filter(OfBlock(block), b)
    ensures StableSort(EventLeq(leq), a) == StableSort(EventLeq(leq), b)
  {
    EventLeqPreorder(leq);
    forall z ensures Filter(TiedWith(EventLeq(leq), z), a) == Filter(TiedWith(EventLeq(leq), z), b) {
      FilterFilter(TiedWith(EventLeq(leq), z), OfBlock(z.block), a);
      FilterFilter(TiedWith(EventLeq(leq), z), OfBlock(z.block), b);
    }
    SortDeterminedByTies(EventLeq(leq), a, b);
  }

  function Range(a: int, b: int): (r: seq<int>)
    ensures |r| == (if a < b then b - a else 0) && forall i :: 0 <= i < |r| ==> r[i] == a + i
    decreases b - a
  {
    if b <= a then [] else Range(a, b - 1) + [b - 1]
  }

  ghost predicate Claimed(workers: seq<Worker>, fromBlock: int, nextBlock: int) {
    && (forall i :: 0 <= i < |workers| && workers[i].Awaiting? ==> fromBlock <= workers[i].block < nextBlock && workers[i].stage <= 3)
    && (forall i, j :: 0 <= i < j < |workers| && workers[i].Awaiting? && workers[j].Awaiting? ==> workers[i].block != workers[j].block)
  }

  ghost predicate Collected(q: Query, workers: seq<Worker>, fromBlock: int, nextBlock: int, events: seq<ChainEvent>) {
    forall block :: Filter(OfBlock(block), events)
      == if fromBlock <= block < nextBlock && !Holds(workers, block) then BlockEvents(q, block) else []
  }

  /** A worker that holds a block pushes all its events at once; nobody else touches that block. */
  lemma CollectOne(q: Query, workers: seq<Worker>, i: nat, w: Worker, fromBlock: int, nextBlock: int, events: seq<ChainEvent>)
    requires i < |workers| && workers[i].Awaiting? && !w.Awaiting?
    requires Claimed(workers, fromBlock, nextBlock) && Collected(q, workers, fromBlock, nextBlock, events)
    ensures Claimed(workers[i := w], fromBlock, nextBlock)
    ensures Collected(q, workers[i := w], fromBlock, nextBlock, events + BlockEvents(q, workers[i].block))
  {
    var mine := workers[i].block;
    forall block
      ensures Filter(OfBlock(block), events + BlockEvents(q, mine))
           == if fromBlock <= block < nextBlock && !Holds(workers[i := w], block) then BlockEvents(q, block) else []
    {
      FilterConcat(OfBlock(block), events, BlockEvents(q, mine));
      BlockEventsFilter(q, mine, block);
      SameHolds(workers, i, w, block);
    }
  }

  lemma SameHolds(workers: seq<Worker>, i: nat, w: Worker, block: int)
    requires i < |workers|
    requires forall k :: 0 <= k < |workers| && k != i && workers[i].Awaiting? && workers[k].Awaiting? ==> workers[k].block != workers[i].block
    ensures Holds(workers[i := w], block)
       <==> (w.Awaiting? && w.block == block) || (Holds(workers, block) && !(workers[i].Awaiting? && workers[i].block == block))
  {
    if Holds(workers, block) && !(workers[i].Awaiting? && workers[i].block == block) {
      var k :| 0 <= k < |workers| && workers[k].Awaiting? && workers[k].block == block;
      assert workers[i := w][k] == workers[k];
    }
    if w.Awaiting? && w.block == block {
      assert workers[i := w][i] == w;
    }
    if Holds(workers[i := w], block) {
      var k :| 0 <= k < |workers| && workers[i := w][k].Awaiting? && workers[i := w][k].block == block;
      assert k == i || workers[k] == workers[i := w][k];
    }
  }

  /** The loop head: claim the next block, or finish. */
  lemma ClaimNext(q: Query, workers: seq<Worker>, i: nat, fromBlock: int, nextBlock: int, events: seq<ChainEvent>)
    requires i < |workers| && !workers[i].Awaiting? && fromBlock <= nextBlock
    requires Claimed(workers, fromBlock, nextBlock) && Collected(q, workers, fromBlock, nextBlock, events)
    ensures Claimed(workers[i := Awaiting(nextBlock, 0)], fromBlock, nextBlock + 1)
    ensures Collected(q, workers[i := Awaiting(nextBlock, 0)], fromBlock, nextBlock + 1, events)
  {
    forall block ensures Filter(OfBlock(block), events)
      == if fromBlock <= block < nextBlock + 1 && !Holds(workers[i := Awaiting(nextBlock, 0)], block) then BlockEvents(q, block) else []
    {
      SameHolds(workers, i, Awaiting(nextBlock, 0), block);
    }
  }

  lemma ChangeIdle(q: Query, workers: seq<Worker>, i: nat, w: Worker, fromBlock: int, nextBlock: int, events: seq<ChainEvent>)
    requires i < |workers|
    requires Claimed(workers, fromBlock, nextBlock) && Collected(q, workers, fromBlock, nextBlock, events)
    requires (!workers[i].Awaiting? && !w.Awaiting?)
          || (workers[i].Awaiting? && w.Awaiting? && w.block == workers[i].block && w.stage <= 3)
    ensures Claimed(workers[i := w], fromBlock, nextBlock) && Collected(q, workers[i := w], fromBlock, nextBlock, events)
  {
    forall block ensures Holds(workers[i := w], block) <==> Holds(workers, block) {
      SameHolds(workers, i, w, block);
      if workers[i].Awaiting? && workers[i].block == block {
        assert Holds(workers, block);
      }
    }
  }

  ghost predicate PoolOk(q: Query, workers: seq<Worker>, fromBlock: int, toBlock: int, nextBlock: int, events: seq<ChainEvent>) {
    && fromBlock <= nextBlock && (nextBlock <= toBlock + 1 || nextBlock == fromBlock)
    && Claimed(workers, fromBlock, nextBlock)
    && Collected(q, workers, fromBlock, nextBlock, events)
    && ((exists i :: 0 <= i < |workers| && workers[i] == Finished) ==> nextBlock > toBlock)
  }

  function BlocksLeft(toBlock: int, nextBlock: int): nat {
    if nextBlock <= toBlock then toBlock + 1 - nextBlock else 0
  }

  /** The loop test of worker i: it claims the next block, or finishes. */
  method AtLoopTest(q: Query, workers: seq<Worker>, i: nat, fromBlock: int, toBlock: int, nextBlock: int, ghost events: seq<ChainEvent>)
    returns (after: seq<Worker>, next: int)
    requires i < |workers| && workers[i] == AtLoop && PoolOk(q, workers, fromBlock, toBlock, nextBlock, events)
    ensures PoolOk(q, after, fromBlock, toBlock, next, events) && |after| == |workers|
    ensures next == if nextBlock <= toBlock then nextBlock + 1 else nextBlock
    ensures after == workers[i := if nextBlock <= toBlock then Awaiting(nextBlock, 0) else Finished]
    ensures nextBlock > toBlock ==> TotalSteps(after) == TotalSteps(workers) - 1
  {
    if nextBlock <= toBlock {
      ClaimNext(q, workers, i, fromBlock, nextBlock, events);
      after, next := workers[i := Awaiting(nextBlock, 0)], nextBlock + 1;
    } else {
      ChangeIdle(q, workers, i, Finished, fromBlock, nextBlock, events);
      TotalStepsUpdate(workers, i, Finished);
      after, next := workers[i := Finished], nextBlock;
    }
  }

  /** Worker i comes back from an await. After the last one it pushes its block's events and goes
      on, without interruption, to the loop test. */
  method Resume(q: Query, workers: seq<Worker>, i: nat, fromBlock: int, toBlock: int, nextBlock: int, events: seq<ChainEvent>)
    returns (after: seq<Worker>, next: int, pushed: seq<ChainEvent>)
    requires i < |workers| && workers[i].Awaiting? && PoolOk(q, workers, fromBlock, toBlock, nextBlock, events)
    ensures PoolOk(q, after, fromBlock, toBlock, next, pushed) && |after| == |workers|
    ensures next == nextBlock || (next == nextBlock + 1 && nextBlock <= toBlock)
    ensures next == nextBlock ==> TotalSteps(after) < TotalSteps(workers)
  {
    if workers[i].stage < 3 {
      var w := workers[i].(stage := workers[i].stage + 1);
      TotalStepsUpdate(workers, i, w);
      ChangeIdle(q, workers, i, w, fromBlock, nextBlock, events);
      after, next, pushed := workers[i := w], nextBlock, events;
      assert forall k :: 0 <= k < |after| && after[k] == Finished ==> workers[k] == Finished;
    } else {
      pushed := PushBlock(q, workers[i].block, events);
      CollectOne(q, workers, i, AtLoop, fromBlock, nextBlock, events);
      TotalStepsUpdate(workers, i, AtLoop);
      var idle := workers[i := AtLoop];
      assert forall k :: 0 <= k < |idle| && idle[k] == Finished ==> workers[k] == Finished;
      after, next := AtLoopTest(q, idle, i, fromBlock, toBlock, nextBlock, pushed);
    }
  }

  /** One turn of an unfinished worker. */
  method Turn(q: Query, workers: seq<Worker>, i: nat, fromBlock: int, toBlock: int, nextBlock: int, events: seq<ChainEvent>)
    returns (after: seq<Worker>, next: int, pushed: seq<ChainEvent>)
    requires i < |workers| && workers[i] != Finished && PoolOk(q, workers, fromBlock, toBlock, nextBlock, events)
    ensures PoolOk(q, after, fromBlock, toBlock, next, pushed) && |after| == |workers|
    ensures next == nextBlock || (next == nextBlock + 1 && nextBlock <= toBlock)
    ensures next == nextBlock ==> TotalSteps(after) < TotalSteps(workers)
  {
    if workers[i].Awaiting? {
      after, next, pushed := Resume(q, workers, i, fromBlock, toBlock, nextBlock, events);
    } else {
      pushed := events;
      after, next := AtLoopTest(q, workers, i, fromBlock, toBlock, nextBlock, events);
    }
  }

  lemma PoolDone(q: Query, leq: (string, string) -> bool, workers: seq<Worker>, fromBlock: int, toBlock: int, nextBlock: int, events: seq<ChainEvent>)
    requires TotalPreorder(leq) && PoolOk(q, workers, fromBlock, toBlock, nextBlock, events)
    requires |workers| > 0 && forall i :: 0 <= i < |workers| ==> workers[i] == Finished
    ensures StableSort(EventLeq(leq), events) == StableSort(EventLeq(leq), SequentialScan(q, fromBlock, toBlock + 1))
    ensures Range(fromBlock, nextBlock) == Range(fromBlock, toBlock + 1)
  {
    assert workers[0] == Finished;
    RangeEmpty(fromBlock, nextBlock, toBlock + 1);
    forall block ensures Filter(OfBlock(block), events) == Filter(OfBlock(block), SequentialScan(q, fromBlock, toBlock + 1)) {
      SequentialFilter(q, fromBlock, toBlock + 1, block);
    }
    SameBlocksSameSort(leq, events, SequentialScan(q, fromBlock, toBlock + 1));
  }

  /** The pool. Which unfinished worker runs next is left open, so this covers every interleaving.
      The sorted result is that of a sequential scan of the window, every block of the window is
      claimed exactly once, in order, and every schedule comes to an end. */
  method ScanBlocks(q: Query, leq: (string, string) -> bool, fromBlock: int, toBlock: int)
    returns (events: seq<ChainEvent>, ghost claims: seq<int>)
    requires TotalPreorder(leq)
    ensures events == StableSort(EventLeq(leq), SequentialScan(q, fromBlock, toBlock + 1))
    ensures claims == Range(fromBlock, toBlock + 1)
  {
    events, claims := [], [];
    var nextBlock := fromBlock;
    var workers := seq(EVENT_SCAN_CONCURRENCY, i => AtLoop);
    while exists i :: 0 <= i < |workers| && workers[i] != Finished
      invariant |workers| == EVENT_SCAN_CONCURRENCY
      invariant PoolOk(q, workers, fromBlock, toBlock, nextBlock, events)
      invariant claims == Range(fromBlock, nextBlock)
      decreases BlocksLeft(toBlock, nextBlock), TotalSteps(workers)
    {
      var i :| 0 <= i < |workers| && workers[i] != Finished;
      ghost var before := nextBlock;
      workers, nextBlock, events := Turn(q, workers, i, fromBlock, toBlock, nextBlock, events);
      claims := claims + if nextBlock > before then [before] else [];
    }
    PoolDone(q, leq, workers, fromBlock, toBlock, nextBlock, events);
    events := StableSort(EventLeq(leq), events);
  }

  lemma RangeEmpty(a: int, b: int, c: int)
    requires b == c || (b == a && c <= a)
    ensures Range(a, b) == Range(a, c)
  {}

  // --- The block window ---

  ghost predicate StampsIncrease(chain: Chain, finalized: int) {
    forall a, b :: 0 <= a < b <= finalized ==> chain.timestamp(a) < chain.timestamp(b)
  }

  /** The least block below `upper` stamped at or after the target, or `upper` when there is none. */
  ghost predicate IsFirstAtOrAfter(chain: Chain, target: int, upper: int, block: int) {
    && 0 <= block <= upper
    && (forall b :: 0 <= b < block ==> chain.timestamp(b) < target)
    && (block < upper ==> chain.timestamp(block) >= target)
  }

  method FirstBlockAtOrAfterTimestamp(chain: Chain, target: int, upper: nat) returns (low: int)
    requires StampsNeverDecrease(chain, upper)
    ensures IsFirstAtOrAfter(chain, target, upper, low)
  {
    low := 0;
    var high := upper;
    while low < high
      invariant 0 <= low <= high <= upper
      invariant forall b :: 0 <= b < low ==> chain.timestamp(b) < target
      invariant forall b :: high <= b < upper ==> chain.timestamp(b) >= target
    {
      var mid := (low + high) / 2;
      var midTimestamp := chain.timestamp(mid);
      if midTimestamp < target {
        low := mid + 1;
      } else {
        high := mid;
      }
    }
  }

  function Max(a: int, b: int): int { if a < b then b else a }

  function Min(a: int, b: int): int { if a < b then a else b }

  /** The span of time to scan, from the deployment's schedule and the chain's clock. */
  function ScanWindow(startTime: Option<int>, endTime: Option<int>, chainTimestampMs: int): (int, int) {
    var scanStartMs := Max(0, (if startTime.Some? then startTime.value else chainTimestampMs) - 120_000);
    var scanEndMs := if endTime.Some? then Min(chainTimestampMs, endTime.value + 600_000) else chainTimestampMs;
    if scanEndMs < scanStartMs then (Max(0, scanEndMs - 120_000), chainTimestampMs) else (scanStartMs, scanEndMs)
  }

  /** Instant t lies within two minutes before the scheduled start (the chain's clock, when there is
      none) and ten minutes after the scheduled end (without limit, when there is none). */
  predicate NearSchedule(startTime: Option<int>, endTime: Option<int>, chainTimestampMs: int, t: int) {
    && (if startTime.Some? then startTime.value else chainTimestampMs) - 120_000 <= t
    && (endTime.Some? ==> t <= endTime.value + 600_000)
  }

  /** Some instant up to the chain's clock is near the schedule. */
  ghost predicate ScheduleReached(startTime: Option<int>, endTime: Option<int>, chainTimestampMs: int) {
    exists t :: 0 <= t <= chainTimestampMs && NearSchedule(startTime, endTime, chainTimestampMs, t)
  }

  /** The instants to scan: those near the schedule when there are any; otherwise those from two minutes
      before the clock or ten minutes after the scheduled end, whichever comes first. */
  ghost predicate ToScan(startTime: Option<int>, endTime: Option<int>, chainTimestampMs: int, t: int) {
    && 0 <= t <= chainTimestampMs
    && if ScheduleReached(startTime, endTime, chainTimestampMs) then NearSchedule(startTime, endTime, chainTimestampMs, t)
       else chainTimestampMs - 120_000 <= t || (endTime.Some? && endTime.value + 600_000 - 120_000 <= t)
  }

  lemma ScheduleReachedExactly(startTime: Option<int>, endTime: Option<int>, chainTimestampMs: nat)
    ensures ScheduleReached(startTime, endTime, chainTimestampMs) <==>
            var start := (if startTime.Some? then startTime.value else chainTimestampMs) - 120_000;
            && start <= chainTimestampMs
            && (endTime.Some? ==> start <= endTime.value + 600_000 && 0 <= endTime.value + 600_000)
  {
    var start := (if startTime.Some? then startTime.value else chainTimestampMs) - 120_000;
    var t := if start < 0 then 0 else start;
    if start <= chainTimestampMs && (endTime.Some? ==> start <= endTime.value + 600_000 && 0 <= endTime.value + 600_000) {
      assert NearSchedule(startTime, endTime, chainTimestampMs, t);
    }
  }

  /** The window is exactly the instants to scan. It is never inverted, also for a deployment whose
      schedule lies in the future or is long over. */
  lemma ScanWindowExactly(startTime: Option<int>, endTime: Option<int>, chainTimestampMs: nat)
    ensures var (scanStartMs, scanEndMs) := ScanWindow(startTime, endTime, chainTimestampMs);
      && 0 <= scanStartMs <= scanEndMs <= chainTimestampMs
      && forall t :: scanStartMs <= t <= scanEndMs <==> ToScan(startTime, endTime, chainTimestampMs, t)
  {
    ScheduleReachedExactly(startTime, endTime, chainTimestampMs);
  }

  /** The window is never inverted. */
  lemma ScanWindowOrdered(startTime: Option<int>, endTime: Option<int>, chainTimestampMs: nat)
    ensures var (scanStartMs, scanEndMs) := ScanWindow(startTime, endTime, chainTimestampMs);
      0 <= scanStartMs <= scanEndMs <= chainTimestampMs
  {
    ScanWindowExactly(startTime, endTime, chainTimestampMs);
  }

  // --- What is reported ---

  ghost predicate StandsAt(text: string, needle: string, i: nat) {
    i + |needle| <= |text| && text[i..i + |needle|] == needle
  }

  /** The needle stands somewhere in the text. */
  ghost predicate Occurs(text: string, needle: string) {
    exists i: nat :: StandsAt(text, needle, i)
  }

  lemma StandsInTail(text: string, needle: string, i: nat)
    requires text != "" && i > 0
    ensures StandsAt(text, needle, i) <==> StandsAt(text[1..], needle, i - 1)
  {
    if i + |needle| <= |text| {
      assert text[1..][i - 1..i - 1 + |needle|] == text[i..i + |needle|];
    }
  }

  lemma {:induction false} IncludesExactly(text: string, needle: string)
    ensures Includes(text, needle) <==> Occurs(text, needle)
  {
    assert HasPrefix(text, needle) <==> StandsAt(text, needle, 0);
    if text != "" {
      IncludesExactly(text[1..], needle);
      if Occurs(text[1..], needle) {
        var i: nat :| StandsAt(text[1..], needle, i);
        StandsInTail(text, needle, i + 1);
      }
      if Occurs(text, needle) && !HasPrefix(text, needle) {
        var i: nat :| StandsAt(text, needle, i);
        StandsInTail(text, needle, i);
      }
    }
  }

  ghost predicate SomeOccurs(text: string, needles: seq<string>) {
    exists k :: 0 <= k < |needles| && Occurs(text, needles[k])
  }

  /** Event e reports record k of a block: a record of one of the two pallets in whose printed form
      stand one of the sequence needles and one of the account's aliases. */
  ghost predicate Reports(q: Query, block: int, k: nat, e: ChainEvent) {
    var records := q.chain.records(block);
    k < |records| &&
    var r := records[k];
    var text := r.section + "." + r.name + " " + r.data + " " + r.human;
    && (r.section == "acurast" || r.section == "acurastMarketplace")
    && SomeOccurs(text, q.sequenceNeedles) && SomeOccurs(text, q.aliases)
    && e == ChainEvent(block, q.chain.timestamp(block), r.section + "." + r.name, r.phase, r.data, r.human)
  }

  lemma WantedExactly(q: Query, r: Record)
    ensures Wanted(r, q.sequenceNeedles, q.aliases) <==>
            var text := r.section + "." + r.name + " " + r.data + " " + r.human;
            (r.section == "acurast" || r.section == "acurastMarketplace") && SomeOccurs(text, q.sequenceNeedles) && SomeOccurs(text, q.aliases)
  {
    var text := r.section + "." + r.name + " " + r.data + " " + r.human;
    SomeIncluded(text, q.sequenceNeedles);
    SomeIncluded(text, q.aliases);
  }

  lemma SomeIncluded(text: string, needles: seq<string>)
    ensures (exists k :: 0 <= k < |needles| && Includes(text, needles[k])) <==> SomeOccurs(text, needles)
  {
    forall k | 0 <= k < |needles| ensures Includes(text, needles[k]) <==> Occurs(text, needles[k]) {
      IncludesExactly(text, needles[k]);
    }
  }

  lemma {:induction false} MatchingExactly(q: Query, block: int, n: nat, e: ChainEvent)
    requires n <= |q.chain.records(block)|
    ensures e in Matching(q, block, q.chain.records(block)[..n]) <==> exists k: nat :: k < n && Reports(q, block, k, e)
  {
    if n > 0 {
      var records := q.chain.records(block);
      assert records[..n][..n - 1] == records[..n - 1];
      MatchingExactly(q, block, n - 1, e);
      WantedExactly(q, records[n - 1]);
      assert e in Matching(q, block, records[..n]) <==> e in Matching(q, block, records[..n - 1]) || Reports(q, block, n - 1, e);
    }
  }

  ghost predicate ReportedFrom(q: Query, block: int, e: ChainEvent) {
    exists k: nat :: Reports(q, block, k, e)
  }

  lemma BlockEventsExactly(q: Query, block: int, e: ChainEvent)
    ensures e in BlockEvents(q, block) <==> ReportedFrom(q, block, e)
  {
    var records := q.chain.records(block);
    assert records[..|records|] == records;
    MatchingExactly(q, block, |records|, e);
  }

  lemma {:induction false} ScanExactly(q: Query, fromBlock: int, end: int, e: ChainEvent)
    ensures e in SequentialScan(q, fromBlock, end) <==> exists block :: fromBlock <= block < end && ReportedFrom(q, block, e)
    decreases end - fromBlock
  {
    if fromBlock < end {
      ScanExactly(q, fromBlock, end - 1, e);
      BlockEventsExactly(q, end - 1, e);
    }
  }

  /** The events of the result are exactly those that report some record of some block of the window. */
  lemma EventsExactly(q: Query, leq: (string, string) -> bool, fromBlock: int, toBlock: int, e: ChainEvent)
    ensures e in StableSort(EventLeq(leq), SequentialScan(q, fromBlock, toBlock + 1))
       <==> exists block :: fromBlock <= block <= toBlock && ReportedFrom(q, block, e)
  {
    SortMembers(EventLeq(leq), SequentialScan(q, fromBlock, toBlock + 1));
    ScanExactly(q, fromBlock, toBlock + 1, e);
  }

  /** By block, then by the event's name. */
  ghost predicate InOrder(leq: (string, string) -> bool, events: seq<ChainEvent>) {
    forall i, j :: 0 <= i < j < |events| ==>
      events[i].block < events[j].block || (events[i].block == events[j].block && leq(events[i].event, events[j].event))
  }

  lemma EventsInOrder(q: Query, leq: (string, string) -> bool, fromBlock: int, toBlock: int)
    requires TotalPreorder(leq)
    ensures InOrder(leq, StableSort(EventLeq(leq), SequentialScan(q, fromBlock, toBlock + 1)))
  {
    EventLeqPreorder(leq);
    SortSorted(EventLeq(leq), SequentialScan(q, fromBlock, toBlock + 1));
    var out := StableSort(EventLeq(leq), SequentialScan(q, fromBlock, toBlock + 1));
    forall i, j | 0 <= i < j < |out|
      ensures out[i].block < out[j].block || (out[i].block == out[j].block && leq(out[i].event, out[j].event))
    {
      assert EventLeq(leq)(out[i], out[j]);
    }
  }

  ghost predicate StampsNeverDecrease(chain: Chain, finalized: int) {
    forall a, b :: 0 <= a < b <= finalized ==> chain.timestamp(a) <= chain.timestamp(b)
  }

  /** Two finalized blocks are stamped exactly at `stamp`. */
  ghost predicate TwoStampedAt(chain: Chain, finalized: int, stamp: int) {
    exists a, b :: 0 <= a < b <= finalized && chain.timestamp(a) == stamp && chain.timestamp(b) == stamp
  }

  /** The block window holds every finalized block stamped within the time window. */
  ghost predicate WindowComplete(chain: Chain, finalized: int, scanStartMs: int, scanEndMs: int, fromBlock: int, toBlock: int) {
    forall block :: 0 <= block <= finalized && scanStartMs <= chain.timestamp(block) <= scanEndMs ==> fromBlock <= block <= toBlock
  }

  lemma IncreasingStamps(chain: Chain, finalized: int, stamp: int)
    requires StampsIncrease(chain, finalized)
    ensures StampsNeverDecrease(chain, finalized) && !TwoStampedAt(chain, finalized, stamp)
  {}

  /** The block window is complete exactly when no two finalized blocks are stamped at the very end of
      the time window. */
  lemma WindowCompleteExactly(chain: Chain, finalized: nat, scanStartMs: int, scanEndMs: int, fromBlock: int, toBlock: int)
    requires StampsNeverDecrease(chain, finalized) && scanStartMs <= scanEndMs
    requires IsFirstAtOrAfter(chain, scanStartMs, finalized, fromBlock) && IsFirstAtOrAfter(chain, scanEndMs, finalized, toBlock)
    ensures WindowComplete(chain, finalized, scanStartMs, scanEndMs, fromBlock, toBlock) <==> !TwoStampedAt(chain, finalized, scanEndMs)
  {
    if TwoStampedAt(chain, finalized, scanEndMs) {
      var a, b :| 0 <= a < b <= finalized && chain.timestamp(a) == scanEndMs && chain.timestamp(b) == scanEndMs;
      assert toBlock <= a;
    } else {
      forall block | 0 <= block <= finalized && scanStartMs <= chain.timestamp(block) <= scanEndMs
        ensures fromBlock <= block <= toBlock
      {
        assert toBlock < block ==> scanEndMs <= chain.timestamp(toBlock) <= chain.timestamp(block);
      }
    }
  }

  /** With strictly increasing stamps no block of the time window is missed. */
  lemma WindowHolds(chain: Chain, finalized: nat, scanStartMs: int, scanEndMs: int, fromBlock: int, toBlock: int, block: int)
    requires StampsIncrease(chain, finalized)
    requires IsFirstAtOrAfter(chain, scanStartMs, finalized, fromBlock) && IsFirstAtOrAfter(chain, scanEndMs, finalized, toBlock)
    requires 0 <= block <= finalized && scanStartMs <= chain.timestamp(block) <= scanEndMs
    ensures fromBlock <= block <= toBlock
  {
    IncreasingStamps(chain, finalized, scanEndMs);
    WindowCompleteExactly(chain, finalized, scanStartMs, scanEndMs, fromBlock, toBlock);
  }

  /** So two blocks with one stamp can cost a block: with stamps 0, 10, 10, 10 and a window that
      ends at 10, the scan stops at block 1. */
  lemma EqualStampsLoseABlock()
    ensures var chain := Chain(b => if b <= 0 then 0 else 10, b => []);
      && StampsNeverDecrease(chain, 3)
      && IsFirstAtOrAfter(chain, 0, 3, 0) && IsFirstAtOrAfter(chain, 10, 3, 1)
      && !WindowComplete(chain, 3, 0, 10, 0, 1)
  {
    var chain := Chain(b => if b <= 0 then 0 else 10, b => []);
    assert chain.timestamp(1) == 10 && chain.timestamp(2) == 10;
    assert TwoStampedAt(chain, 3, 10);
    WindowCompleteExactly(chain, 3, 0, 10, 0, 1);
  }

  /** Every record to report of every finalized block stamped at an instant to scan is in the list. */
  ghost predicate ReportsWindow(q: Query, finalized: int, startTime: Option<int>, endTime: Option<int>, chainTimestampMs: int,
                                events: seq<ChainEvent>) {
    forall block, e :: 0 <= block <= finalized && ReportedFrom(q, block, e) ==>
      (ToScan(startTime, endTime, chainTimestampMs, q.chain.timestamp(block)) ==> e in events)
  }

  /** The whole scan. The result is the sorted sequential scan of the block window, which is complete
      exactly when no two finalized blocks are stamped at the end of the time window (so always with
      strictly increasing stamps); then every record to report is reported. */
  method ScanDeploymentEvents(q: Query, leq: (string, string) -> bool, finalized: nat,
                              startTime: Option<int>, endTime: Option<int>, chainTimestampMs: nat)
    returns (fromBlock: int, toBlock: int, events: seq<ChainEvent>)
    requires TotalPreorder(leq) && StampsNeverDecrease(q.chain, finalized)
    ensures var (scanStartMs, scanEndMs) := ScanWindow(startTime, endTime, chainTimestampMs);
      && IsFirstAtOrAfter(q.chain, scanStartMs, finalized, fromBlock)
      && IsFirstAtOrAfter(q.chain, scanEndMs, finalized, toBlock)
      && (WindowComplete(q.chain, finalized, scanStartMs, scanEndMs, fromBlock, toBlock) <==> !TwoStampedAt(q.chain, finalized, scanEndMs))
      && (!TwoStampedAt(q.chain, finalized, scanEndMs) ==> ReportsWindow(q, finalized, startTime, endTime, chainTimestampMs, events))
    ensures StampsIncrease(q.chain, finalized) ==> ReportsWindow(q, finalized, startTime, endTime, chainTimestampMs, events)
    ensures forall e :: e in events <==> exists block :: fromBlock <= block <= toBlock && ReportedFrom(q, block, e)
    ensures events == StableSort(EventLeq(leq), SequentialScan(q, fromBlock, toBlock + 1)) && InOrder(leq, events)
  {
    var (scanStartMs, scanEndMs) := ScanWindow(startTime, endTime, chainTimestampMs);
    var first := FirstBlockAtOrAfterTimestamp(q.chain, scanStartMs, finalized);
    fromBlock := Min(finalized, first);
    var last := FirstBlockAtOrAfterTimestamp(q.chain, scanEndMs, finalized);
    toBlock := Min(finalized, last);
    ghost var claims;
    events, claims := ScanBlocks(q, leq, fromBlock, toBlock);
    ScanWindowOrdered(startTime, endTime, chainTimestampMs);
    WindowCompleteExactly(q.chain, finalized, scanStartMs, scanEndMs, fromBlock, toBlock);
    if StampsIncrease(q.chain, finalized) {
      IncreasingStamps(q.chain, finalized, scanEndMs);
    }
    if WindowComplete(q.chain, finalized, scanStartMs, scanEndMs, fromBlock, toBlock) {
      CompleteReports(q, leq, finalized, startTime, endTime, chainTimestampMs, fromBlock, toBlock);
    }
    EventsInOrder(q, leq, fromBlock, toBlock);
    forall e ensures e in events <==> exists block :: fromBlock <= block <= toBlock && ReportedFrom(q, block, e) {
      EventsExactly(q, leq, fromBlock, toBlock, e);
    }
  }

  lemma CompleteReports(q: Query, leq: (string, string) -> bool, finalized: nat, startTime: Option<int>, endTime: Option<int>,
                        chainTimestampMs: nat, fromBlock: int, toBlock: int)
    requires var (scanStartMs, scanEndMs) := ScanWindow(startTime, endTime, chainTimestampMs);
      WindowComplete(q.chain, finalized, scanStartMs, scanEndMs, fromBlock, toBlock)
    ensures ReportsWindow(q, finalized, startTime, endTime, chainTimestampMs,
                          StableSort(EventLeq(leq), SequentialScan(q, fromBlock, toBlock + 1)))
  {
    ScanWindowExactly(startTime, endTime, chainTimestampMs);
    forall block, e | 0 <= block <= finalized && ToScan(startTime, endTime, chainTimestampMs, q.chain.timestamp(block))
                      && ReportedFrom(q, block, e)
      ensures e in StableSort(EventLeq(leq), SequentialScan(q, fromBlock, toBlock + 1))
    {
      EventsExactly(q, leq, fromBlock, toBlock, e);
    }
  }
}
