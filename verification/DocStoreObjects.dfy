/** The store classes: an in-memory store that updates its snapshot in place, and a file-backed one
    that reloads and flushes around every call. */
module DocStoreObjects {
  import opened Wrappers
  import opened Ordering
  import opened DocStore
  import opened DocStoreLog

  class MemoryStore<T(!new)> {
    const env: Env<T>
    var sequence: nat
    var documents: map<string, Document<T>>
    var changes: seq<Change<T>>
    var leases: map<string, Lease>

    function Current(): Snapshot<T>
      reads this
    {
      Snapshot(sequence, documents, changes, leases)
    }

    constructor (env: Env<T>, initial: Option<Snapshot<T>>)
      ensures this.env == env
      ensures Current() == if initial.Some? then initial.value else Empty()
    {
      this.env := env;
      sequence := if initial.Some? then initial.value.sequence else 0;
      documents := if initial.Some? then initial.value.documents else map[];
      changes := if initial.Some? then initial.value.changes else [];
      leases := if initial.Some? then initial.value.leases else map[];
    }

    method Save(snapshot: Snapshot<T>)
      modifies this
      ensures Current() == snapshot
    {
      sequence, documents, changes, leases := snapshot.sequence, snapshot.documents, snapshot.changes, snapshot.leases;
    }

    method NextSequence() returns (next: nat)
      modifies this`sequence
      ensures next == sequence == old(sequence) + 1
    {
      sequence := sequence + 1;
      next := sequence;
    }

    method GetOne(id: string) returns (found: Option<Document<T>>)
      ensures found == GetDocument(Current(), id)
      ensures found.Some? <==> id in documents && !documents[id].deleted
      ensures found.Some? ==> found.value == documents[id]
    {
      found := Lookup(documents, id);
      if found.Some? && found.value.deleted {
        found := None;
      }
    }

    /** Enumerates the documents in no particular order and sorts the live ones by id. */
    method ListAll() returns (listed: seq<Document<T>>)
      ensures IsListing(env.leq, documents, listed)
      ensures TotalPreorder(env.leq) ==> forall i, j :: 0 <= i < j < |listed| ==> env.leq(listed[i].id, listed[j].id)
      ensures forall d :: d in listed <==> exists id :: id in documents && documents[id] == d && !documents[id].deleted
    {
      listed := [];
      ghost var ids: seq<string> := [];
      var todo := documents.Keys;
      while todo != {}
        invariant todo <= documents.Keys && NoDuplicates(ids)
        invariant forall id :: id in ids <==> id in documents && !documents[id].deleted && id !in todo
        invariant listed == DocumentsAt(documents, ids)
        decreases todo
      {
        var id :| id in todo;
        var d := documents[id];
        if !d.deleted {
          assert (ids + [id])[..|ids|] == ids;
          listed, ids := listed + [d], ids + [id];
        }
        todo := todo - {id};
      }
      assert EnumeratesLive(documents, ids);
      listed := StableSort(ById(env.leq), listed);
      ListingMeans(env.leq, documents, listed);
      forall d ensures d in listed <==> exists id :: id in documents && documents[id] == d && !documents[id].deleted {
        assert d in listed <==> IsLive(documents, d);
      }
    }

    method PutOne(id: string, value: T, expectedRev: Option<string>, at: int) returns (written: Result<Document<T>, Error>)
      modifies this
      ensures (Current(), written) == PutStep(env, old(Current()), id, value, expectedRev, at)
      ensures written.Failure? ==> Current() == old(Current())
    {
      var existing := Lookup(documents, id);
      var refused := AssertExpectedRevision(id, existing, expectedRev);
      if refused.Some? {
        return Failure(refused.value);
      }
      var next := NextSequence();
      var document := Document(id, NextRevision(env, RevOf(existing), next, value), next, at, value, false);
      documents := documents[id := document];
      changes := changes + [ChangeFromDocument(document)];
      written := Success(document);
    }

    method DeleteOne(id: string, expectedRev: Option<string>, at: int) returns (written: Result<Document<T>, Error>)
      modifies this
      ensures (Current(), written) == DeleteStep(env, old(Current()), id, expectedRev, at)
      ensures written.Failure? ==> Current() == old(Current())
    {
      var existing := Lookup(documents, id);
      var refused := AssertExpectedRevision(id, existing, expectedRev);
      if refused.Some? {
        return Failure(refused.value);
      }
      if existing.None? {
        return Failure(RevisionConflict(id, expectedRev, None));
      }
      var next := NextSequence();
      var rev := NextRevision(env, Some(existing.value.rev), next, existing.value.value);
      var document := existing.value.(rev := rev, sequence := next, updatedAt := at, deleted := true);
      documents := documents[id := document];
      changes := changes + [ChangeFromDocument(document)];
      written := Success(document);
    }

    method ReadSince(since: int) returns (changed: seq<Change<T>>)
      ensures changed == ReadChanges(Current(), since)
      ensures Consistent(Current()) && 0 <= since <= sequence ==> changed == changes[since..]
    {
      changed := StableSort(BySequence(), Filter(NewerThan(since), changes));
      if Consistent(Current()) {
        ChangesSinceIsSuffix(Current(), since);
      }
    }

    method Acquire(name: string, ownerId: string, ttlMs: int, now: int, token: string) returns (leased: Result<Option<Lease>, Error>)
      modifies this`leases
      ensures (Current(), leased) == AcquireStep(old(Current()), name, ownerId, ttlMs, now, token)
    {
      if ttlMs <= 0 {
        return Failure(InvalidLeaseTtl(ttlMs));
      }
      var existing := Lookup(leases, name);
      if existing.Some? && existing.value.expiresAt > now && existing.value.ownerId != ownerId {
        return Success(None);
      }
      var lease := Lease(name, ownerId, token, now, now + ttlMs);
      leases := leases[name := lease];
      leased := Success(Some(lease));
    }

    method Release(name: string, token: string) returns (released: bool)
      modifies this`leases
      ensures (Current(), released) == ReleaseStep(old(Current()), name, token)
    {
      var existing := Lookup(leases, name);
      if existing.None? || existing.value.token != token {
        return false;
      }
      leases := leases - {name};
      released := true;
    }
  }

  /** The file on disk: absent, or holding a snapshot. */
  class StoreFile<T(!new)> {
    var contents: Option<Snapshot<T>>

    function View(): Snapshot<T>
      reads this
    {
      if contents.Some? then contents.value else Empty()
    }

    constructor ()
      ensures contents == None
    {
      contents := None;
    }
  }

  class JsonFileStore<T(!new)> {
    const file: StoreFile<T>
    const memory: MemoryStore<T>

    constructor (env: Env<T>, file: StoreFile<T>)
      ensures this.file == file && memory.env == env && fresh(memory)
    {
      this.file := file;
      memory := new MemoryStore(env, None);
    }

    method Reload()
      modifies memory
      ensures memory.Current() == file.View()
    {
      memory.Save(file.View());
    }

    method Flush()
      modifies file
      ensures file.contents == Some(memory.Current())
    {
      file.contents := Some(memory.Current());
    }

    method GetOne(id: string) returns (found: Option<Document<T>>)
      modifies memory
      ensures found == GetDocument(file.View(), id)
    {
      Reload();
      found := memory.GetOne(id);
    }

    method ListAll() returns (listed: seq<Document<T>>)
      modifies memory
      ensures IsListing(memory.env.leq, file.View().documents, listed)
    {
      Reload();
      listed := memory.ListAll();
    }

    method PutOne(id: string, value: T, expectedRev: Option<string>, at: int) returns (written: Result<Document<T>, Error>)
      modifies memory, file
      ensures (file.View(), written) == PutStep(memory.env, old(file.View()), id, value, expectedRev, at)
      ensures written.Failure? ==> file.contents == old(file.contents)
    {
      Reload();
      written := memory.PutOne(id, value, expectedRev, at);
      if written.Success? {
        Flush();
      }
    }

    method DeleteOne(id: string, expectedRev: Option<string>, at: int) returns (written: Result<Document<T>, Error>)
      modifies memory, file
      ensures (file.View(), written) == DeleteStep(memory.env, old(file.View()), id, expectedRev, at)
      ensures written.Failure? ==> file.contents == old(file.contents)
    {
      Reload();
      written := memory.DeleteOne(id, expectedRev, at);
      if written.Success? {
        Flush();
      }
    }

    method ReadSince(since: int) returns (changed: seq<Change<T>>)
      modifies memory
      ensures changed == ReadChanges(file.View(), since)
    {
      Reload();
      changed := memory.ReadSince(since);
    }

    /** A refused lease still flushes (and so creates an absent file); only a throwing call does not. */
    method Acquire(name: string, ownerId: string, ttlMs: int, now: int, token: string) returns (leased: Result<Option<Lease>, Error>)
      modifies memory, file
      ensures (file.View(), leased) == AcquireStep(old(file.View()), name, ownerId, ttlMs, now, token)
      ensures leased.Failure? ==> file.contents == old(file.contents)
      ensures leased.Success? ==> file.contents.Some?
    {
      Reload();
      leased := memory.Acquire(name, ownerId, ttlMs, now, token);
      if leased.Success? {
        Flush();
      }
    }

    method Release(name: string, token: string) returns (released: bool)
      modifies memory, file
      ensures (file.View(), released) == ReleaseStep(old(file.View()), name, token)
      ensures !released ==> file.contents == old(file.contents)
    {
      Reload();
      released := memory.Release(name, token);
      if released {
        Flush();
      }
    }

    method Call(op: Op<T>) returns (reply: Reply<T>)
      modifies memory, file
      ensures file.View() == Step(memory.env, old(file.View()), op).0
      ensures Answers(memory.env, old(file.View()), op, reply)
    {
      match op
      case Put(id, value, expectedRev, at) =>
        var written := PutOne(id, value, expectedRev, at);
        reply := Written(written);
      case Delete(id, expectedRev, at) =>
        var written := DeleteOne(id, expectedRev, at);
        reply := Written(written);
      case Get(id) =>
        var found := GetOne(id);
        reply := Found(found);
      case List =>
        var listed := ListAll();
        reply := Listed(listed);
      case ChangesSince(since) =>
        var changed := ReadSince(since);
        reply := Changed(changed);
      case AcquireLease(name, ownerId, ttlMs, now, token) =>
        var leased := Acquire(name, ownerId, ttlMs, now, token);
        reply := Leased(leased);
      case ReleaseLease(name, token) =>
        var released := Release(name, token);
        reply := Released(released);
    }
  }

  /** Reply k answers operation k in the state that the operations before it lead to. */
  ghost predicate AnswersAll<T(!new)>(env: Env<T>, s: Snapshot<T>, ops: seq<Op<T>>, replies: seq<Reply<T>>) {
    && |replies| == |ops|
    && forall k :: 0 <= k < |ops| ==> Answers(env, Run(env, s, ops[..k]), ops[k], replies[k])
  }

  /** Any number of file-backed stores over one file, called one at a time in any order, answer like
      one memory store that starts from the file's contents, and leave its state in the file. When
      the collation is a total order and documents are stored under their own ids, every reply is
      determined. */
  method CallInTurn<T(!new)>(env: Env<T>, file: StoreFile<T>, stores: seq<JsonFileStore<T>>, script: seq<(nat, Op<T>)>)
    returns (replies: seq<Reply<T>>)
    requires forall i :: 0 <= i < |stores| ==> stores[i].file == file && stores[i].memory.env == env
    requires forall k :: 0 <= k < |script| ==> script[k].0 < |stores|
    modifies file, set i | 0 <= i < |stores| :: stores[i].memory
    ensures file.View() == Run(env, old(file.View()), OpsOf(script))
    ensures AnswersAll(env, old(file.View()), OpsOf(script), replies)
    ensures TotalOrder(env.leq) && Keyed(old(file.View()).documents) ==> replies == Replies(env, old(file.View()), OpsOf(script))
  {
    replies := [];
    ghost var start := file.View();
    for k := 0 to |script|
      invariant file.View() == Run(env, start, OpsOf(script[..k]))
      invariant AnswersAll(env, start, OpsOf(script[..k]), replies)
    {
      var (i, op) := script[k];
      RunOneMore(env, start, OpsOf(script[..k]), op);
      assert OpsOf(script[..k + 1]) == OpsOf(script[..k]) + [op];
      var reply := stores[i].Call(op);
      AnswersOneMore(env, start, OpsOf(script[..k]), replies, op, reply);
      replies := replies + [reply];
    }
    assert script[..|script|] == script;
    if TotalOrder(env.leq) && Keyed(start.documents) {
      RepliesDetermined(env, start, OpsOf(script), replies);
    }
  }

  lemma AnswersOneMore<T(!new)>(env: Env<T>, s: Snapshot<T>, ops: seq<Op<T>>, replies: seq<Reply<T>>, op: Op<T>, reply: Reply<T>)
    requires AnswersAll(env, s, ops, replies) && Answers(env, Run(env, s, ops), op, reply)
    ensures AnswersAll(env, s, ops + [op], replies + [reply])
  {
    var longer := ops + [op];
    forall k | 0 <= k < |longer| ensures Answers(env, Run(env, s, longer[..k]), longer[k], (replies + [reply])[k]) {
      if k < |ops| {
        assert longer[..k] == ops[..k];
      } else {
        assert longer[..k] == ops;
      }
    }
  }

  lemma StepKeyed<T(!new)>(env: Env<T>, s: Snapshot<T>, op: Op<T>)
    requires Keyed(s.documents)
    ensures Keyed(Step(env, s, op).0.documents)
  {}

  lemma AnswerDetermined<T(!new)>(env: Env<T>, s: Snapshot<T>, op: Op<T>, reply: Reply<T>)
    requires TotalOrder(env.leq) && Keyed(s.documents) && Answers(env, s, op, reply)
    ensures reply == Step(env, s, op).1
  {
    if op.List? {
      TotalOrderDistinguishes(env.leq, s.documents);
      ListingUnique(env.leq, s.documents, reply.listed, Listing(env.leq, s.documents));
    }
  }

  lemma {:induction false} RepliesDetermined<T(!new)>(env: Env<T>, s: Snapshot<T>, ops: seq<Op<T>>, replies: seq<Reply<T>>)
    requires TotalOrder(env.leq) && Keyed(s.documents) && AnswersAll(env, s, ops, replies)
    ensures replies == Replies(env, s, ops) && Keyed(Run(env, s, ops).documents)
    decreases |ops|
  {
    if ops != [] {
      var n := |ops| - 1;
      assert AnswersAll(env, s, ops[..n], replies[..n]) by {
        assert forall k :: 0 <= k < n ==> ops[..n][..k] == ops[..k];
      }
      RepliesDetermined(env, s, ops[..n], replies[..n]);
      RunOneMore(env, s, ops[..n], ops[n]);
      AnswerDetermined(env, Run(env, s, ops[..n]), ops[n], replies[n]);
      StepKeyed(env, Run(env, s, ops[..n]), ops[n]);
      assert ops == ops[..n] + [ops[n]] && replies == replies[..n] + [replies[n]];
    }
  }

  function OpsOf<T>(script: seq<(nat, Op<T>)>): seq<Op<T>> {
    seq(|script|, i requires 0 <= i < |script| => script[i].1)
  }

  lemma RunOneMore<T(!new)>(env: Env<T>, s: Snapshot<T>, ops: seq<Op<T>>, op: Op<T>)
    ensures Run(env, s, ops + [op]) == Step(env, Run(env, s, ops), op).0
    ensures Replies(env, s, ops + [op]) == Replies(env, s, ops) + [Step(env, Run(env, s, ops), op).1]
  {
    RunConcat(env, s, ops, [op]);
    var last := Step(env, Run(env, s, ops), op).0;
    assert [op][1..] == [];
    assert Run(env, last, []) == last && Replies(env, last, []) == [];
  }
}
