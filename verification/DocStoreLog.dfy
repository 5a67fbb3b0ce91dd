/** What holds in every reachable state of the store: the log replays to the documents, sequence
    numbers count the log, and revisions of one id never come back. */
module DocStoreLog {
  import opened Wrappers
  import opened Ordering
  import opened DocStore
  import Decimal

  /** The last log entry of every id. */
  function Replay<T>(changes: seq<Change<T>>): map<string, Change<T>> {
    if changes == [] then map[]
    else
      var last := changes[|changes| - 1];
      Replay(changes[..|changes| - 1])[last.id := last]
  }

  /** How many log entries `id` has. */
  function Writes<T>(changes: seq<Change<T>>, id: string): nat {
    if changes == [] then 0
    else Writes(changes[..|changes| - 1], id) + if changes[|changes| - 1].id == id then 1 else 0
  }

  function LastRev<T>(changes: seq<Change<T>>, id: string): Option<string> {
    if id in Replay(changes) then Some(Replay(changes)[id].rev) else None
  }

  ghost predicate Agrees<T>(documents: map<string, Document<T>>, latest: map<string, Change<T>>) {
    && documents.Keys == latest.Keys
    && forall id :: id in documents ==> documents[id].id == id && ChangeFromDocument(documents[id]) == latest[id]
  }

  /** The revision of log entry i carries the number of writes of its id up to there. */
  ghost predicate GenerationCounts<T>(changes: seq<Change<T>>, i: nat)
    requires i < |changes|
  {
    Generation(changes[i].rev) == Writes(changes[..i + 1], changes[i].id)
  }

  /** The reachable-state invariant. */
  ghost predicate Consistent<T>(s: Snapshot<T>) {
    && |s.changes| == s.sequence
    && (forall i :: 0 <= i < |s.changes| ==> s.changes[i].sequence == i + 1)
    && (forall i :: 0 <= i < |s.changes| ==> GenerationCounts(s.changes, i))
    && Agrees(s.documents, Replay(s.changes))
  }

  // --- Revisions carry their generation ---

  lemma {:induction false} BeforeDashOf(a: string, rest: string)
    requires forall i :: 0 <= i < |a| ==> a[i] != '-'
    ensures BeforeDash(a + "-" + rest) == a
  {
    var s := a + "-" + rest;
    if a != "" {
      BeforeDashOf(a[1..], rest);
      assert s[0] == a[0] && s[1..] == a[1..] + "-" + rest;
    }
  }

  /** A new revision's generation is one more than that of the revision it replaces. */
  lemma NextGeneration<T>(env: Env<T>, previous: Option<string>, sequence: nat, value: T)
    ensures Generation(NextRevision(env, previous, sequence, value))
         == 1 + if previous.Some? then Generation(previous.value) else 0
  {
    var generation := 1 + if previous.Some? then Generation(previous.value) else 0;
    var text := Decimal.ToText(generation);
    assert forall i :: 0 <= i < |text| ==> text[i] != '-' by {
      assert forall i :: 0 <= i < |text| ==> text[i] in text;
    }
    BeforeDashOf(text, env.digest(sequence, value));
    Decimal.ReadBack(generation);
  }

  // --- Log bookkeeping ---

  lemma AppendedPrefix<A>(a: seq<A>, x: A)
    ensures (a + [x])[..|a + [x]| - 1] == a
  {}

  lemma {:induction false} WritesGrow<T>(changes: seq<Change<T>>, i: nat, j: nat, id: string)
    requires i <= j <= |changes|
    ensures Writes(changes[..i], id) <= Writes(changes[..j], id)
    ensures (forall k :: i <= k < j ==> changes[k].id != id) ==> Writes(changes[..i], id) == Writes(changes[..j], id)
    ensures (exists k :: i <= k < j && changes[k].id == id) ==> Writes(changes[..i], id) < Writes(changes[..j], id)
    decreases j
  {
    if i < j {
      WritesGrow(changes, i, j - 1, id);
      assert changes[..j][..j - 1] == changes[..j - 1];
    }
  }

  /** The replayed entry of `id` is its last entry in the log. */
  lemma {:induction false} ReplayIndex<T>(changes: seq<Change<T>>, id: string) returns (i: int)
    ensures id in Replay(changes) <==> Writes(changes, id) > 0
    ensures id in Replay(changes) ==> 0 <= i < |changes| && changes[i] == Replay(changes)[id] && changes[i].id == id
    ensures id in Replay(changes) ==> Writes(changes[..i + 1], id) == Writes(changes, id)
    ensures id in Replay(changes) ==> forall k :: i < k < |changes| ==> changes[k].id != id
  {
    if changes == [] {
      i := -1;
    } else if changes[|changes| - 1].id == id {
      i := |changes| - 1;
      assert changes[..i + 1] == changes;
    } else {
      var before := changes[..|changes| - 1];
      i := ReplayIndex(before, id);
      if id in Replay(changes) {
        assert changes[..i + 1] == before[..i + 1];
      }
    }
  }

  lemma DocumentGeneration<T>(s: Snapshot<T>, id: string)
    requires Consistent(s)
    ensures id in s.documents <==> Writes(s.changes, id) > 0
    ensures id in s.documents ==> Generation(s.documents[id].rev) == Writes(s.changes, id)
    ensures LastRev(s.changes, id) == RevOf(Lookup(s.documents, id))
  {
    var i := ReplayIndex(s.changes, id);
    assert id in s.documents ==> GenerationCounts(s.changes, i);
  }

  /** What replaying the log gives for an id: its document's revision, sequence, time and deleted flag,
      and its value unless it is a tombstone; and it gives nothing for other ids. */
  lemma ReplayGives<T>(s: Snapshot<T>, id: string)
    requires Consistent(s)
    ensures id in Replay(s.changes) <==> id in s.documents
    ensures id in s.documents ==>
      var c, d := Replay(s.changes)[id], s.documents[id];
      && c.id == id && c.rev == d.rev && c.sequence == d.sequence && c.updatedAt == d.updatedAt && c.deleted == d.deleted
      && (if d.deleted then c.value == None else c.value == Some(d.value))
  {
    assert id in s.documents ==> ChangeFromDocument(s.documents[id]) == Replay(s.changes)[id];
  }

  lemma CommitConsistent<T>(s: Snapshot<T>, d: Document<T>)
    requires Consistent(s)
    requires d.sequence == s.sequence + 1 && Generation(d.rev) == Writes(s.changes, d.id) + 1
    ensures Consistent(Commit(s, d))
    ensures forall id :: Writes(Commit(s, d).changes, id) == Writes(s.changes, id) + if id == d.id then 1 else 0
  {
    var t := Commit(s, d);
    AppendedPrefix(s.changes, ChangeFromDocument(d));
    forall i | 0 <= i < |t.changes| ensures GenerationCounts(t.changes, i) {
      if i < |s.changes| {
        assert GenerationCounts(s.changes, i);
        assert t.changes[i] == s.changes[i] && t.changes[..i + 1] == s.changes[..i + 1];
      } else {
        assert t.changes[..i + 1] == t.changes;
      }
    }
    CommitAgrees(s, d);
  }

  lemma CommitAgrees<T>(s: Snapshot<T>, d: Document<T>)
    requires Agrees(s.documents, Replay(s.changes))
    ensures Agrees(Commit(s, d).documents, Replay(Commit(s, d).changes))
  {
    AppendedPrefix(s.changes, ChangeFromDocument(d));
  }

  /** The revision that the next write of `id` gets. */
  function RevFor<T>(env: Env<T>, s: Snapshot<T>, id: string, value: T): string {
    Decimal.ToText(Writes(s.changes, id) + 1) + "-" + env.digest(s.sequence + 1, value)
  }

  lemma NextRevFor<T(!new)>(env: Env<T>, s: Snapshot<T>, id: string, value: T)
    requires Consistent(s)
    ensures NextRevision(env, RevOf(Lookup(s.documents, id)), s.sequence + 1, value) == RevFor(env, s, id, value)
    ensures Generation(RevFor(env, s, id, value)) == Writes(s.changes, id) + 1
  {
    DocumentGeneration(s, id);
    NextGeneration(env, RevOf(Lookup(s.documents, id)), s.sequence + 1, value);
  }

  lemma PutCommits<T(!new)>(env: Env<T>, s: Snapshot<T>, id: string, value: T, expectedRev: Option<string>, at: int)
    requires Consistent(s)
    ensures var (t, written) := PutStep(env, s, id, value, expectedRev, at); var existing := RevOf(Lookup(s.documents, id));
      if expectedRev == existing then
        var d := Document(id, RevFor(env, s, id, value), s.sequence + 1, at, value, false);
        written == Success(d) && t == Commit(s, d)
      else written == Failure(RevisionConflict(id, expectedRev, existing)) && t == s
    ensures Generation(RevFor(env, s, id, value)) == Writes(s.changes, id) + 1
  {
    NextRevFor(env, s, id, value);
  }

  lemma DeleteCommits<T(!new)>(env: Env<T>, s: Snapshot<T>, id: string, expectedRev: Option<string>, at: int)
    requires Consistent(s)
    ensures var (t, written) := DeleteStep(env, s, id, expectedRev, at); var existing := Lookup(s.documents, id);
      if existing.Some? && expectedRev == RevOf(existing) then
        var rev := RevFor(env, s, id, existing.value.value);
        var d := Document(id, rev, s.sequence + 1, at, existing.value.value, true);
        written == Success(d) && t == Commit(s, d) && Generation(rev) == Writes(s.changes, id) + 1
      else written == Failure(RevisionConflict(id, expectedRev, RevOf(existing))) && t == s
  {
    if id in s.documents {
      NextRevFor(env, s, id, s.documents[id].value);
    }
  }

  /** A put or delete that goes through writes exactly one document, one generation up. */
  lemma WriteCommits<T(!new)>(env: Env<T>, s: Snapshot<T>, op: Op<T>)
    requires Consistent(s)
    requires op.Put? || op.Delete?
    ensures var (t, reply) := Step(env, s, op);
      match reply
      case Written(Success(d)) =>
        && d.id == op.id && d.sequence == s.sequence + 1 && d.updatedAt == op.at && d.deleted == op.Delete?
        && (op.Put? ==> d.value == op.value)
        && (op.Delete? ==> op.id in s.documents && d.value == s.documents[op.id].value)
        && d.rev == Decimal.ToText(Writes(s.changes, d.id) + 1) + "-" + env.digest(d.sequence, d.value)
        && Generation(d.rev) == Writes(s.changes, d.id) + 1
        && t == Commit(s, d)
        && op.expectedRev == LastRev(s.changes, op.id)
      case Written(Failure(e)) =>
        && t == s && e == RevisionConflict(op.id, op.expectedRev, LastRev(s.changes, op.id))
        && (op.expectedRev == LastRev(s.changes, op.id) ==> op.Delete? && op.expectedRev == None)
      case _ => false
  {
    DocumentGeneration(s, op.id);
    if op.Put? {
      PutCommits(env, s, op.id, op.value, op.expectedRev, op.at);
    } else {
      DeleteCommits(env, s, op.id, op.expectedRev, op.at);
    }
  }

  /** One step on: nothing written, or one document more. */
  ghost predicate Extends<T>(s: Snapshot<T>, t: Snapshot<T>) {
    && Consistent(t) && s.changes <= t.changes
    && (forall id :: Writes(s.changes, id) <= Writes(t.changes, id))
    && (forall id :: Writes(s.changes, id) == Writes(t.changes, id) ==> Lookup(t.documents, id) == Lookup(s.documents, id))
  }

  lemma LeaseOpsKeepLog<T(!new)>(env: Env<T>, s: Snapshot<T>, op: Op<T>)
    requires !op.Put? && !op.Delete?
    ensures var t := Step(env, s, op).0; t == s.(leases := t.leases)
  {}

  lemma StepConsistent<T(!new)>(env: Env<T>, s: Snapshot<T>, op: Op<T>)
    requires Consistent(s)
    ensures Extends(s, Step(env, s, op).0)
  {
    var t := Step(env, s, op).0;
    if op.Put? || op.Delete? {
      WriteCommits(env, s, op);
      var reply := Step(env, s, op).1;
      if reply.written.Success? {
        CommitExtends(s, reply.written.value);
      }
    } else {
      LeaseOpsKeepLog(env, s, op);
    }
  }

  lemma CommitExtends<T>(s: Snapshot<T>, d: Document<T>)
    requires Consistent(s)
    requires d.sequence == s.sequence + 1 && Generation(d.rev) == Writes(s.changes, d.id) + 1
    ensures Extends(s, Commit(s, d))
  {
    CommitConsistent(s, d);
  }

  // --- Main results ---

  /** Every state that a run from the empty store reaches is consistent: the sequence number counts
      the log, log entry i has sequence i + 1, replaying the log gives every document's id, rev,
      sequence, time, deleted flag and live value, and nothing else. The log only grows. */
  lemma {:induction false} ReachableConsistent<T(!new)>(env: Env<T>, s: Snapshot<T>, ops: seq<Op<T>>)
    requires Consistent(s)
    ensures Extends(s, Run(env, s, ops))
    decreases |ops|
  {
    if ops != [] {
      var t := Step(env, s, ops[0]).0;
      StepConsistent(env, s, ops[0]);
      ReachableConsistent(env, t, ops[1..]);
      ExtendsTransitive(s, t, Run(env, t, ops[1..]));
    }
  }

  lemma ExtendsTransitive<T>(s: Snapshot<T>, t: Snapshot<T>, u: Snapshot<T>)
    requires Extends(s, t) && Extends(t, u)
    ensures Extends(s, u)
  {}

  lemma EmptyConsistent<T(!new)>(env: Env<T>, ops: seq<Op<T>>)
    ensures Consistent(Run(env, Empty(), ops))
  {
    ReachableConsistent(env, Empty(), ops);
  }

  /** A put is accepted exactly when it names the revision of the id's last write (none for a new
      id), a delete exactly when it names the revision of an existing id, tombstones included. */
  lemma AcceptedExactly<T(!new)>(env: Env<T>, s: Snapshot<T>, op: Op<T>)
    requires Consistent(s) && (op.Put? || op.Delete?)
    ensures Step(env, s, op).1.written.Success?
       <==> op.expectedRev == LastRev(s.changes, op.id) && (op.Delete? ==> op.expectedRev.Some?)
  {
    WriteCommits(env, s, op);
  }

  /** Over a whole run: every accepted write names the revision of the write just before it on the
      same id, adds one log entry for exactly that document, and its generation is the number of
      writes of the id so far; every refused one changes nothing. */
  lemma WriteChain<T(!new)>(env: Env<T>, ops: seq<Op<T>>, k: nat)
    requires k < |ops| && (ops[k].Put? || ops[k].Delete?)
    ensures var s, t, reply := Run(env, Empty(), ops[..k]), Run(env, Empty(), ops[..k + 1]), Replies(env, Empty(), ops);
      |reply| == |ops| &&
      match reply[k]
      case Written(Success(d)) =>
        && ops[k].expectedRev == LastRev(s.changes, d.id)
        && t.changes == s.changes + [ChangeFromDocument(d)]
        && Generation(d.rev) == Writes(t.changes, d.id) == Writes(s.changes, d.id) + 1
        && t.documents == s.documents[d.id := d]
        && d.deleted == ops[k].Delete? && d.updatedAt == ops[k].at
        && (d.deleted ==> d.id in s.documents && d.value == s.documents[d.id].value)
        && (!d.deleted ==> ops[k].Put? && d.value == ops[k].value)
      case _ => t == s
  {
    var s := Run(env, Empty(), ops[..k]);
    EmptyConsistent(env, ops[..k]);
    assert ops[..k + 1] == ops[..k] + [ops[k]];
    assert ops == ops[..k] + ops[k..];
    RunConcat(env, Empty(), ops[..k], [ops[k]]);
    RunConcat(env, Empty(), ops[..k], ops[k..]);
    RepliesLength(env, Empty(), ops[..k]);
    RepliesLength(env, Empty(), ops);
    assert Run(env, s, [ops[k]]) == Step(env, s, ops[k]).0;
    WriteCommits(env, s, ops[k]);
    var reply := Step(env, s, ops[k]).1;
    if reply.written.Success? {
      CommitConsistent(s, reply.written.value);
    }
  }

  lemma {:induction false} RepliesLength<T(!new)>(env: Env<T>, s: Snapshot<T>, ops: seq<Op<T>>)
    ensures |Replies(env, s, ops)| == |ops|
    decreases |ops|
  {
    if ops != [] {
      RepliesLength(env, Step(env, s, ops[0]).0, ops[1..]);
    }
  }

  /** No ABA: two log entries of one id never have the same revision, even across a delete and a
      recreation. */
  lemma RevsNeverRepeat<T>(s: Snapshot<T>, i: nat, j: nat)
    requires Consistent(s) && i < j < |s.changes|
    requires s.changes[i].id == s.changes[j].id
    ensures s.changes[i].rev != s.changes[j].rev
  {
    assert GenerationCounts(s.changes, i) && GenerationCounts(s.changes, j);
    WritesGrow(s.changes, i + 1, j + 1, s.changes[i].id);
  }

  /** No lost update: however many operations run after a client read a document, its write with
      the revision it read is accepted exactly when nobody has written the id in between; then the
      document is still the one it read. */
  lemma NoLostUpdate<T(!new)>(env: Env<T>, s: Snapshot<T>, ops: seq<Op<T>>, id: string, value: T, at: int)
    requires Consistent(s) && id in s.documents
    ensures var t, read := Run(env, s, ops), s.documents[id];
      && (PutStep(env, t, id, value, Some(read.rev), at).1.Success? <==> Writes(t.changes, id) == Writes(s.changes, id))
      && (DeleteStep(env, t, id, Some(read.rev), at).1.Success? <==> Writes(t.changes, id) == Writes(s.changes, id))
      && (Writes(t.changes, id) == Writes(s.changes, id) ==> Lookup(t.documents, id) == Some(read))
  {
    var t := Run(env, s, ops);
    ReachableConsistent(env, s, ops);
    DocumentGeneration(s, id);
    DocumentGeneration(t, id);
    AcceptedExactly(env, t, Op.Put(id, value, Some(s.documents[id].rev), at));
    AcceptedExactly(env, t, Op<T>.Delete(id, Some(s.documents[id].rev), at));
  }

  lemma {:induction false} FilterSuffix<T>(changes: seq<Change<T>>, first: nat, since: int)
    requires forall i :: 0 <= i < |changes| ==> changes[i].sequence == first + i
    ensures Filter(NewerThan(since), changes)
         == changes[if since < first then 0 else if since - first + 1 > |changes| then |changes| else since - first + 1..]
  {
    if changes != [] {
      FilterSuffix(changes[1..], first + 1, since);
    }
  }

  /** The changes after a checkpoint are the rest of the log from there, and sorting them moves
      nothing. */
  lemma ChangesSinceIsSuffix<T>(s: Snapshot<T>, since: int)
    requires Consistent(s)
    ensures ReadChanges(s, since)
         == s.changes[if since < 0 then 0 else if since > |s.changes| then |s.changes| else since..]
  {
    FilterSuffix(s.changes, 1, since);
    SortOfSorted(BySequence(), Filter(NewerThan(since), s.changes));
  }
}
