/** A replica that follows the primary through `changesSince`, over a network that may deliver old
    batches late, more than once, in any order, and cut short. */
module DocStoreReplica {
  import opened Wrappers
  import opened Ordering
  import opened DocStore
  import opened DocStoreLog

  datatype Replica<T> = Replica(checkpoint: nat, view: map<string, Change<T>>)

  /** Entries at or below the checkpoint were applied before and are skipped. */
  function Apply<T>(r: Replica<T>, c: Change<T>): Replica<T> {
    if c.sequence <= r.checkpoint then r else Replica(c.sequence, r.view[c.id := c])
  }

  function ApplyBatch<T>(r: Replica<T>, batch: seq<Change<T>>): Replica<T>
    decreases |batch|
  {
    if batch == [] then r else ApplyBatch(Apply(r, batch[0]), batch[1..])
  }

  function AsDocument<T>(c: Change<T>): Document<T>
    requires c.value.Some?
  {
    Document(c.id, c.rev, c.sequence, c.updatedAt, c.value.value, c.deleted)
  }

  /** The documents that a replica can serve. */
  function Served<T>(r: Replica<T>): map<string, Document<T>> {
    map id | id in r.view && r.view[id].value.Some? :: AsDocument(r.view[id])
  }

  datatype System<T> = System(primary: Snapshot<T>, replica: Replica<T>, network: seq<seq<Change<T>>>)

  datatype Event<T> =
    | Client(op: Op<T>)                  // an operation on the primary
    | Fetch(since: int)                  // the replica asks for changes after a checkpoint it has reached
    | Deliver(batch: nat, length: nat)   // part or all of some fetched batch arrives

  ghost function Next<T(!new)>(env: Env<T>, sys: System<T>, e: Event<T>): System<T> {
    match e
    case Client(op) => sys.(primary := Step(env, sys.primary, op).0)
    case Fetch(since) =>
      if since <= sys.replica.checkpoint then sys.(network := sys.network + [ReadChanges(sys.primary, since)]) else sys
    case Deliver(i, length) =>
      if i < |sys.network| && length <= |sys.network[i]| then
        sys.(replica := ApplyBatch(sys.replica, sys.network[i][..length]))
      else sys
  }

  ghost function RunSystem<T(!new)>(env: Env<T>, sys: System<T>, events: seq<Event<T>>): System<T>
    decreases |events|
  {
    if events == [] then sys else RunSystem(env, Next(env, sys, events[0]), events[1..])
  }

  ghost predicate SliceFrom<T>(changes: seq<Change<T>>, q: nat, batch: seq<Change<T>>) {
    q + |batch| <= |changes| && batch == changes[q..q + |batch|]
  }

  ghost predicate Following<T>(changes: seq<Change<T>>, r: Replica<T>) {
    r.checkpoint <= |changes| && r.view == Replay(changes[..r.checkpoint])
  }

  ghost predicate Known<T>(sys: System<T>, batch: seq<Change<T>>) {
    exists q: nat :: q <= sys.replica.checkpoint && SliceFrom(sys.primary.changes, q, batch)
  }

  ghost predicate Invariant<T>(sys: System<T>) {
    && Consistent(sys.primary)
    && Following(sys.primary.changes, sys.replica)
    && forall i :: 0 <= i < |sys.network| ==> Known(sys, sys.network[i])
  }

  lemma ApplyNext<T>(s: Snapshot<T>, r: Replica<T>, q: nat)
    requires Consistent(s) && Following(s.changes, r) && q <= r.checkpoint && q < |s.changes|
    ensures Following(s.changes, Apply(r, s.changes[q]))
    ensures Apply(r, s.changes[q]).checkpoint == if q + 1 > r.checkpoint then q + 1 else r.checkpoint
  {
    assert s.changes[q].sequence == q + 1;
    assert s.changes[..q + 1][..q] == s.changes[..q];
  }

  /** A slice of the log that starts at or before the checkpoint brings the replica to the slice's
      end, or leaves it where it was when it is further already. */
  lemma {:induction false} ApplySlice<T>(s: Snapshot<T>, r: Replica<T>, q: nat, batch: seq<Change<T>>)
    requires Consistent(s) && Following(s.changes, r) && q <= r.checkpoint && SliceFrom(s.changes, q, batch)
    ensures Following(s.changes, ApplyBatch(r, batch))
    ensures ApplyBatch(r, batch).checkpoint == if q + |batch| > r.checkpoint then q + |batch| else r.checkpoint
    decreases |batch|
  {
    if batch != [] {
      var c := batch[0];
      assert c == s.changes[q];
      ApplyNext(s, r, q);
      assert batch[1..] == s.changes[q + 1..q + 1 + |batch[1..]|];
      ApplySlice(s, Apply(r, c), q + 1, batch[1..]);
    }
  }

  lemma SliceOfLongerLog<T>(a: seq<Change<T>>, b: seq<Change<T>>, q: nat, batch: seq<Change<T>>)
    requires a <= b && SliceFrom(a, q, batch)
    ensures SliceFrom(b, q, batch)
  {}

  lemma KnownStays<T>(sys: System<T>, later: System<T>, batch: seq<Change<T>>)
    requires Known(sys, batch)
    requires sys.primary.changes <= later.primary.changes && sys.replica.checkpoint <= later.replica.checkpoint
    ensures Known(later, batch)
  {
    var q: nat :| q <= sys.replica.checkpoint && SliceFrom(sys.primary.changes, q, batch);
    SliceOfLongerLog(sys.primary.changes, later.primary.changes, q, batch);
  }

  lemma FetchedIsKnown<T>(sys: System<T>, since: int)
    requires Invariant(sys) && since <= sys.replica.checkpoint
    ensures Known(sys, ReadChanges(sys.primary, since))
    ensures ReadChanges(sys.primary, since) == sys.primary.changes[if since < 0 then 0 else since..]
  {
    ChangesSinceIsSuffix(sys.primary, since);
    var q := if since < 0 then 0 else since;
    assert SliceFrom(sys.primary.changes, q, ReadChanges(sys.primary, since));
  }

  lemma ClientKeepsInvariant<T(!new)>(env: Env<T>, sys: System<T>, op: Op<T>)
    requires Invariant(sys)
    ensures Invariant(Next(env, sys, Client(op)))
  {
    var next := Next(env, sys, Client(op));
    StepConsistent(env, sys.primary, op);
    assert next.primary.changes[..sys.replica.checkpoint] == sys.primary.changes[..sys.replica.checkpoint];
    forall i | 0 <= i < |next.network| ensures Known(next, next.network[i]) {
      KnownStays(sys, next, sys.network[i]);
    }
  }

  lemma NextKeepsInvariant<T(!new)>(env: Env<T>, sys: System<T>, e: Event<T>)
    requires Invariant(sys)
    ensures Invariant(Next(env, sys, e))
  {
    var next := Next(env, sys, e);
    match e
    case Client(op) => ClientKeepsInvariant(env, sys, op);
    case Fetch(since) =>
      if since <= sys.replica.checkpoint {
        FetchedIsKnown(sys, since);
        forall i | 0 <= i < |next.network| ensures Known(next, next.network[i]) {
          KnownStays(sys, next, next.network[i]);
        }
      }
    case Deliver(i, length) =>
      if i < |sys.network| && length <= |sys.network[i]| {
        var batch := sys.network[i];
        var q: nat :| q <= sys.replica.checkpoint && SliceFrom(sys.primary.changes, q, batch);
        assert SliceFrom(sys.primary.changes, q, batch[..length]);
        ApplySlice(sys.primary, sys.replica, q, batch[..length]);
        forall k | 0 <= k < |next.network| ensures Known(next, next.network[k]) {
          KnownStays(sys, next, sys.network[k]);
        }
      }
  }

  lemma {:induction false} RunKeepsInvariant<T(!new)>(env: Env<T>, sys: System<T>, events: seq<Event<T>>)
    requires Invariant(sys)
    ensures Invariant(RunSystem(env, sys, events))
    decreases |events|
  {
    if events != [] {
      NextKeepsInvariant(env, sys, events[0]);
      RunKeepsInvariant(env, Next(env, sys, events[0]), events[1..]);
    }
  }

  /** What an up-to-date replica serves is what the primary's `get` and `list` return. */
  lemma UpToDateServesPrimary<T(!new)>(env: Env<T>, s: Snapshot<T>, r: Replica<T>)
    requires Consistent(s) && Following(s.changes, r) && r.checkpoint == s.sequence
    ensures forall id :: Lookup(Served(r), id) == GetDocument(s, id)
    ensures forall out :: IsListing(env.leq, Served(r), out) <==> IsListing(env.leq, s.documents, out)
  {
    assert s.changes[..r.checkpoint] == s.changes;
    forall id ensures Lookup(Served(r), id) == GetDocument(s, id) {
      if id in s.documents {
        assert r.view[id] == ChangeFromDocument(s.documents[id]);
      }
    }
    forall out ensures IsListing(env.leq, Served(r), out) <==> IsListing(env.leq, s.documents, out) {
      ServedLive(s, r);
      SameLiveSameListings(env.leq, Served(r), s.documents, out);
      SameLiveSameListings(env.leq, s.documents, Served(r), out);
    }
  }

  lemma ServedLive<T>(s: Snapshot<T>, r: Replica<T>)
    requires forall id :: Lookup(Served(r), id) == GetDocument(s, id)
    ensures forall id :: id in Served(r) && !Served(r)[id].deleted <==> id in s.documents && !s.documents[id].deleted
    ensures forall id :: id in Served(r) && !Served(r)[id].deleted ==> Served(r)[id] == s.documents[id]
  {
    forall id
      ensures id in Served(r) && !Served(r)[id].deleted <==> id in s.documents && !s.documents[id].deleted
      ensures id in Served(r) && !Served(r)[id].deleted ==> Served(r)[id] == s.documents[id]
    {
      assert Lookup(Served(r), id) == GetDocument(s, id);
    }
  }

  /** Catching up, for every run of clients, fetches and deliveries: the replica always shows the
      primary as it was at its checkpoint, and after a fetch from any reached checkpoint whose batch
      arrives whole it serves exactly what the primary serves. */
  lemma ReplicaCatchesUp<T(!new)>(env: Env<T>, events: seq<Event<T>>, since: int)
    ensures var sys := RunSystem(env, System(Empty(), Replica(0, map[]), []), events);
      && Following(sys.primary.changes, sys.replica)
      && (since <= sys.replica.checkpoint ==>
            var r := ApplyBatch(sys.replica, ReadChanges(sys.primary, since));
            && r.checkpoint == sys.primary.sequence
            && (forall id :: Lookup(Served(r), id) == GetDocument(sys.primary, id))
            && (forall out :: IsListing(env.leq, Served(r), out) <==> IsListing(env.leq, sys.primary.documents, out)))
  {
    var start: System<T> := System(Empty(), Replica(0, map[]), []);
    RunKeepsInvariant(env, start, events);
    var sys := RunSystem(env, start, events);
    if since <= sys.replica.checkpoint {
      FetchedIsKnown(sys, since);
      var q := if since < 0 then 0 else since;
      ApplySlice(sys.primary, sys.replica, q, ReadChanges(sys.primary, since));
      UpToDateServesPrimary(env, sys.primary, ApplyBatch(sys.replica, ReadChanges(sys.primary, since)));
    }
  }
}
