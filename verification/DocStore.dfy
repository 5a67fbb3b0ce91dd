/** The replicated document store as a state machine: one function per operation, from the snapshot
    before the call to the snapshot after it and the reply. The classes in DocStoreObjects carry
    out the same operations in place and are proved against these functions. */
module DocStore {
  import opened Wrappers
  import opened Ordering
  import Decimal

  datatype Document<T> = Document(id: string, rev: string, sequence: nat, updatedAt: int, value: T, deleted: bool)

  /** A log entry. A tombstone's entry carries no value, although the tombstone itself keeps one. */
  datatype Change<T> = Change(sequence: nat, id: string, rev: string, updatedAt: int, deleted: bool, value: Option<T>)

  datatype Lease = Lease(name: string, ownerId: string, token: string, acquiredAt: int, expiresAt: int)

  datatype Snapshot<T> = Snapshot(sequence: nat, documents: map<string, Document<T>>, changes: seq<Change<T>>,
                                  leases: map<string, Lease>)

  datatype Error =
    | RevisionConflict(id: string, expectedRev: Option<string>, actualRev: Option<string>)
    | InvalidLeaseTtl(ttlMs: int)

  /** What the store takes from outside: the content digest of a revision and the collation order. */
  datatype Env<!T> = Env(digest: (nat, T) -> string, leq: (string, string) -> bool)

  datatype Op<T> =
    | Put(id: string, value: T, expectedRev: Option<string>, at: int)
    | Delete(id: string, expectedRev: Option<string>, at: int)
    | Get(id: string)
    | List
    | ChangesSince(since: int)
    | AcquireLease(name: string, ownerId: string, ttlMs: int, now: int, token: string)
    | ReleaseLease(name: string, token: string)

  datatype Reply<T> =
    | Written(written: Result<Document<T>, Error>)
    | Found(found: Option<Document<T>>)
    | Listed(listed: seq<Document<T>>)
    | Changed(changed: seq<Change<T>>)
    | Leased(leased: Result<Option<Lease>, Error>)
    | Released(released: bool)

  function Empty<T>(): Snapshot<T> {
    Snapshot(0, map[], [], map[])
  }

  function Lookup<V>(m: map<string, V>, key: string): Option<V> {
    if key in m then Some(m[key]) else None
  }

  // --- Revisions: "<generation>-<digest>" ---

  function BeforeDash(s: string): string {
    if s == "" || s[0] == '-' then "" else [s[0]] + BeforeDash(s[1..])
  }

  /** The number in front of the first dash. Every revision that NextRevision makes has one. */
  function Generation(rev: string): nat {
    var prefix := BeforeDash(rev);
    if Decimal.IsDecimal(prefix) then Decimal.Value(prefix) else 0
  }

  function NextRevision<T>(env: Env<T>, previous: Option<string>, sequence: nat, value: T): string {
    var previousGeneration := if previous.Some? && previous.value != "" then Generation(previous.value) else 0;
    Decimal.ToText(previousGeneration + 1) + "-" + env.digest(sequence, value)
  }

  function RevOf<T>(existing: Option<Document<T>>): Option<string> {
    if existing.Some? then Some(existing.value.rev) else None
  }

  function AssertExpectedRevision<T>(id: string, existing: Option<Document<T>>, expectedRev: Option<string>): Option<Error> {
    if existing.Some? && expectedRev != RevOf(existing) then
      Some(RevisionConflict(id, expectedRev, RevOf(existing)))
    else if existing.None? && expectedRev.Some? then
      Some(RevisionConflict(id, expectedRev, None))
    else
      None
  }

  function ChangeFromDocument<T>(d: Document<T>): Change<T> {
    Change(d.sequence, d.id, d.rev, d.updatedAt, d.deleted, if d.deleted then None else Some(d.value))
  }

  // --- Operations ---

  /** Takes the next sequence number, stores the document and logs it. */
  function Commit<T>(s: Snapshot<T>, d: Document<T>): Snapshot<T> {
    s.(sequence := s.sequence + 1, documents := s.documents[d.id := d], changes := s.changes + [ChangeFromDocument(d)])
  }

  function PutStep<T>(env: Env<T>, s: Snapshot<T>, id: string, value: T, expectedRev: Option<string>, at: int)
    : (Snapshot<T>, Result<Document<T>, Error>)
  {
    var existing := Lookup(s.documents, id);
    var refused := AssertExpectedRevision(id, existing, expectedRev);
    if refused.Some? then (s, Failure(refused.value))
    else
      var sequence := s.sequence + 1;
      var d := Document(id, NextRevision(env, RevOf(existing), sequence, value), sequence, at, value, false);
      (Commit(s, d), Success(d))
  }

  function DeleteStep<T>(env: Env<T>, s: Snapshot<T>, id: string, expectedRev: Option<string>, at: int)
    : (Snapshot<T>, Result<Document<T>, Error>)
  {
    var existing := Lookup(s.documents, id);
    var refused := AssertExpectedRevision(id, existing, expectedRev);
    if refused.Some? then (s, Failure(refused.value))
    else if existing.None? then (s, Failure(RevisionConflict(id, expectedRev, None)))
    else
      var sequence := s.sequence + 1;
      var rev := NextRevision(env, RevOf(existing), sequence, existing.value.value);
      var d := existing.value.(rev := rev, sequence := sequence, updatedAt := at, deleted := true);
      (s.(sequence := sequence, documents := s.documents[id := d], changes := s.changes + [ChangeFromDocument(d)]), Success(d))
  }

  function GetDocument<T>(s: Snapshot<T>, id: string): Option<Document<T>> {
    if id in s.documents && !s.documents[id].deleted then Some(s.documents[id]) else None
  }

  function ById<T>(leq: (string, string) -> bool): (Document<T>, Document<T>) -> bool {
    (a: Document<T>, b: Document<T>) => leq(a.id, b.id)
  }

  /** The ids of the live documents in some order. */
  ghost predicate EnumeratesLive<T>(documents: map<string, Document<T>>, ids: seq<string>) {
    NoDuplicates(ids) && forall id :: id in ids <==> id in documents && !documents[id].deleted
  }

  function DocumentsAt<T>(documents: map<string, Document<T>>, ids: seq<string>): (out: seq<Document<T>>)
    requires forall id :: id in ids ==> id in documents
    ensures |out| == |ids| && forall i :: 0 <= i < |ids| ==> out[i] == documents[ids[i]]
  {
    if ids == [] then [] else DocumentsAt(documents, ids[..|ids| - 1]) + [documents[ids[|ids| - 1]]]
  }

  /** What `list` may return. The order in which an object's properties are enumerated is left open. */
  ghost predicate IsListing<T(!new)>(leq: (string, string) -> bool, documents: map<string, Document<T>>, out: seq<Document<T>>) {
    exists ids :: EnumeratesLive(documents, ids) && out == StableSort(ById(leq), DocumentsAt(documents, ids))
  }

  ghost function AnyOrder<V(!new)>(s: set<V>): (out: seq<V>)
    ensures NoDuplicates(out) && forall x :: x in out <==> x in s
  {
    if s == {} then [] else
      var x :| x in s;
      [x] + AnyOrder(s - {x})
  }

  /** The listing of one enumeration. */
  ghost function Listing<T(!new)>(leq: (string, string) -> bool, documents: map<string, Document<T>>): (out: seq<Document<T>>)
    ensures IsListing(leq, documents, out)
  {
    var ids := AnyOrder(set id | id in documents && !documents[id].deleted);
    assert EnumeratesLive(documents, ids);
    StableSort(ById(leq), DocumentsAt(documents, ids))
  }

  function BySequence<T>(): (Change<T>, Change<T>) -> bool {
    (a: Change<T>, b: Change<T>) => a.sequence <= b.sequence
  }

  function NewerThan<T>(since: int): Change<T> -> bool {
    (c: Change<T>) => c.sequence > since
  }

  function ReadChanges<T>(s: Snapshot<T>, since: int): seq<Change<T>> {
    StableSort(BySequence(), Filter(NewerThan(since), s.changes))
  }

  function AcquireStep<T>(s: Snapshot<T>, name: string, ownerId: string, ttlMs: int, now: int, token: string)
    : (Snapshot<T>, Result<Option<Lease>, Error>)
  {
    if ttlMs <= 0 then (s, Failure(InvalidLeaseTtl(ttlMs)))
    else if name in s.leases && s.leases[name].expiresAt > now && s.leases[name].ownerId != ownerId then (s, Success(None))
    else
      var lease := Lease(name, ownerId, token, now, now + ttlMs);
      (s.(leases := s.leases[name := lease]), Success(Some(lease)))
  }

  function ReleaseStep<T>(s: Snapshot<T>, name: string, token: string): (Snapshot<T>, bool) {
    if name !in s.leases || s.leases[name].token != token then (s, false)
    else (s.(leases := s.leases - {name}), true)
  }

  // --- Runs ---

  ghost function Step<T(!new)>(env: Env<T>, s: Snapshot<T>, op: Op<T>): (Snapshot<T>, Reply<T>) {
    match op
    case Put(id, value, expectedRev, at) =>
      var r := PutStep(env, s, id, value, expectedRev, at); (r.0, Written(r.1))
    case Delete(id, expectedRev, at) =>
      var r := DeleteStep(env, s, id, expectedRev, at); (r.0, Written(r.1))
    case Get(id) => (s, Found(GetDocument(s, id)))
    case List => (s, Listed(Listing(env.leq, s.documents)))
    case ChangesSince(since) => (s, Changed(ReadChanges(s, since)))
    case AcquireLease(name, ownerId, ttlMs, now, token) =>
      var r := AcquireStep(s, name, ownerId, ttlMs, now, token); (r.0, Leased(r.1))
    case ReleaseLease(name, token) =>
      var r := ReleaseStep(s, name, token); (r.0, Released(r.1))
  }

  ghost function Run<T(!new)>(env: Env<T>, s: Snapshot<T>, ops: seq<Op<T>>): Snapshot<T>
    decreases |ops|
  {
    if ops == [] then s else Run(env, Step(env, s, ops[0]).0, ops[1..])
  }

  ghost function Replies<T(!new)>(env: Env<T>, s: Snapshot<T>, ops: seq<Op<T>>): seq<Reply<T>>
    decreases |ops|
  {
    if ops == [] then [] else [Step(env, s, ops[0]).1] + Replies(env, Step(env, s, ops[0]).0, ops[1..])
  }

  /** A list is answered with any listing, everything else with the one reply of `Step`. */
  ghost predicate Answers<T(!new)>(env: Env<T>, s: Snapshot<T>, op: Op<T>, reply: Reply<T>) {
    if op.List? then reply.Listed? && IsListing(env.leq, s.documents, reply.listed) else reply == Step(env, s, op).1
  }

  lemma {:induction false} RunConcat<T(!new)>(env: Env<T>, s: Snapshot<T>, a: seq<Op<T>>, b: seq<Op<T>>)
    ensures Run(env, s, a + b) == Run(env, Run(env, s, a), b)
    ensures Replies(env, s, a + b) == Replies(env, s, a) + Replies(env, Run(env, s, a), b)
    decreases |a|
  {
    if a == [] {
      assert a + b == b;
    } else {
      assert (a + b)[1..] == a[1..] + b;
      RunConcat(env, Step(env, s, a[0]).0, a[1..], b);
    }
  }

  // --- What list means ---

  lemma ByIdPreorder<T(!new)>(leq: (string, string) -> bool)
    requires TotalPreorder(leq)
    ensures TotalPreorder<Document<T>>(ById(leq))
  {
    var order := ById<T>(leq);
    forall a, b ensures order(a, b) || order(b, a) {
      assert leq(a.id, b.id) || leq(b.id, a.id);
    }
    forall a, b, c | order(a, b) && order(b, c) ensures order(a, c) {
      assert leq(a.id, b.id) && leq(b.id, c.id);
    }
  }

  /** No document stands after one whose id the collation puts later. */
  ghost predicate IdsAscend<T>(leq: (string, string) -> bool, out: seq<Document<T>>) {
    forall i, j :: 0 <= i < j < |out| ==> leq(out[i].id, out[j].id)
  }

  ghost predicate IsLive<T>(documents: map<string, Document<T>>, d: Document<T>) {
    exists id :: id in documents && documents[id] == d && !d.deleted
  }

  /** Every document is stored under its own id. */
  ghost predicate Keyed<T>(documents: map<string, Document<T>>) {
    forall id :: id in documents ==> documents[id].id == id
  }

  lemma EnumerationHolds<T(!new)>(documents: map<string, Document<T>>, ids: seq<string>)
    requires EnumeratesLive(documents, ids)
    ensures forall d :: d in DocumentsAt(documents, ids) <==> IsLive(documents, d)
    ensures Keyed(documents) ==> NoDuplicates(DocumentsAt(documents, ids))
  {
    var out := DocumentsAt(documents, ids);
    forall d ensures d in out <==> IsLive(documents, d) {
      if IsLive(documents, d) {
        var id :| id in documents && documents[id] == d && !d.deleted;
        assert id in ids;
        var i :| 0 <= i < |ids| && ids[i] == id;
        assert out[i] == d;
      }
      if d in out {
        var i :| 0 <= i < |out| && out[i] == d;
        assert ids[i] in ids;
      }
    }
    if Keyed(documents) {
      forall i, j | 0 <= i < j < |out| ensures out[i] != out[j] {
        assert ids[i] in ids && ids[j] in ids;
        assert out[i].id == ids[i] && out[j].id == ids[j];
      }
    }
  }

  /** Every listing is sorted by id and holds exactly the live documents, once each when documents
      are stored under their own ids. */
  lemma ListingMeans<T(!new)>(leq: (string, string) -> bool, documents: map<string, Document<T>>, out: seq<Document<T>>)
    requires IsListing(leq, documents, out)
    ensures TotalPreorder(leq) ==> IdsAscend(leq, out)
    ensures forall d :: d in out <==> IsLive(documents, d)
    ensures Keyed(documents) ==> NoDuplicates(out)
  {
    var ids :| EnumeratesLive(documents, ids) && out == StableSort(ById(leq), DocumentsAt(documents, ids));
    var any := DocumentsAt(documents, ids);
    EnumerationHolds(documents, ids);
    SortMultiset(ById(leq), any);
    forall d ensures d in out <==> IsLive(documents, d) {
      assert d in multiset(out) <==> d in multiset(any);
    }
    if Keyed(documents) {
      SortNoDuplicates(ById(leq), any);
    }
    if TotalPreorder(leq) {
      ByIdPreorder<T>(leq);
      SortSorted(ById(leq), any);
      SortedAscends(leq, out);
    }
  }

  lemma SortedAscends<T(!new)>(leq: (string, string) -> bool, out: seq<Document<T>>)
    ensures Sorted(ById(leq), out) <==> IdsAscend(leq, out)
  {
    forall i, j | 0 <= i < j < |out| ensures ById(leq)(out[i], out[j]) <==> leq(out[i].id, out[j].id) {}
  }

  /** The collation can tell any two live documents apart. */
  ghost predicate Distinguishable<T(!new)>(leq: (string, string) -> bool, documents: map<string, Document<T>>) {
    forall x, y :: IsLive(documents, x) && IsLive(documents, y) && TiedWith(ById(leq), y)(x) ==> x == y
  }

  lemma TotalOrderDistinguishes<T(!new)>(leq: (string, string) -> bool, documents: map<string, Document<T>>)
    requires TotalOrder(leq) && Keyed(documents)
    ensures Distinguishable(leq, documents)
  {
    forall x, y | IsLive(documents, x) && IsLive(documents, y) && TiedWith(ById(leq), y)(x) ensures x == y {
      assert x.id == y.id;
    }
  }

  lemma BagWithout<A>(s: seq<A>, j: nat)
    requires j < |s|
    ensures multiset(s) == multiset(Dropped(s, j)) + multiset{s[j]}
  {
    assert s == s[..j] + [s[j]] + s[j + 1..];
  }

  lemma WithoutOne<T>(documents: map<string, Document<T>>, ids: seq<string>, j: nat)
    requires j < |ids| && forall id :: id in ids ==> id in documents
    ensures AllIn(documents, Dropped(ids, j))
    ensures multiset(DocumentsAt(documents, ids)) == multiset(DocumentsAt(documents, Dropped(ids, j))) + multiset{documents[ids[j]]}
  {
    var out, rest := DocumentsAt(documents, ids), DocumentsAt(documents, Dropped(ids, j));
    assert Dropped(out, j) == rest;
    BagWithout(out, j);
  }

  ghost predicate AllIn<T>(documents: map<string, Document<T>>, ids: seq<string>) {
    forall id :: id in ids ==> id in documents
  }

  lemma BagCancels<A>(a: multiset<A>, b: multiset<A>, x: A)
    requires a + multiset{x} == b + multiset{x}
    ensures a == b
  {
    forall y ensures a[y] == b[y] {
      assert (a + multiset{x})[y] == (b + multiset{x})[y];
    }
  }

  function Dropped<A>(s: seq<A>, j: nat): seq<A>
    requires j < |s|
  {
    s[..j] + s[j + 1..]
  }

  lemma SameBagDropped(a: seq<string>, b: seq<string>) returns (j: nat)
    requires multiset(a) == multiset(b) && a != []
    ensures j < |b| && b[j] == a[0] && multiset(Dropped(a, 0)) == multiset(Dropped(b, j))
  {
    assert a[0] in multiset(b);
    j :| 0 <= j < |b| && b[j] == a[0];
    BagWithout(a, 0);
    BagWithout(b, j);
    BagCancels(multiset(Dropped(a, 0)), multiset(Dropped(b, j)), a[0]);
  }

  lemma {:induction false} SameIdsSameBag<T>(documents: map<string, Document<T>>, a: seq<string>, b: seq<string>)
    requires multiset(a) == multiset(b) && AllIn(documents, a) && AllIn(documents, b)
    ensures multiset(DocumentsAt(documents, a)) == multiset(DocumentsAt(documents, b))
    decreases |a|
  {
    if a == [] {
      assert |b| == |multiset(b)| == 0;
    } else {
      var j := SameBagDropped(a, b);
      WithoutOne(documents, a, 0);
      WithoutOne(documents, b, j);
      SameIdsSameBag(documents, Dropped(a, 0), Dropped(b, j));
    }
  }

  lemma ListingUnique<T(!new)>(leq: (string, string) -> bool, documents: map<string, Document<T>>, a: seq<Document<T>>, b: seq<Document<T>>)
    requires TotalPreorder(leq) && Distinguishable(leq, documents)
    requires IsListing(leq, documents, a) && IsListing(leq, documents, b)
    ensures a == b
  {
    var i :| EnumeratesLive(documents, i) && a == StableSort(ById(leq), DocumentsAt(documents, i));
    var j :| EnumeratesLive(documents, j) && b == StableSort(ById(leq), DocumentsAt(documents, j));
    SameSetSameBag(i, j);
    SameIdsSameBag(documents, i, j);
    SortMultiset(ById(leq), DocumentsAt(documents, i));
    SortMultiset(ById(leq), DocumentsAt(documents, j));
    ListingMeans(leq, documents, a);
    ListingMeans(leq, documents, b);
    SortedAscends(leq, a);
    SortedAscends(leq, b);
    forall x, y | x in a && y in a && ById(leq)(x, y) && ById(leq)(y, x) ensures x == y {
      assert IsLive(documents, x) && IsLive(documents, y) && TiedWith(ById(leq), y)(x);
    }
    SortedDeterminedByBag(ById(leq), a, b);
  }

  ghost predicate OneListing<T(!new)>(leq: (string, string) -> bool, documents: map<string, Document<T>>) {
    forall a, b :: IsListing(leq, documents, a) && IsListing(leq, documents, b) ==> a == b
  }

  lemma PairInFront(all: set<string>, i: string, j: string, rest: seq<string>)
    requires i in all && j in all && i != j && NoDuplicates(rest) && forall id :: id in rest <==> id in all - {i, j}
    ensures NoDuplicates([i, j] + rest) && NoDuplicates([j, i] + rest)
    ensures forall id :: id in [i, j] + rest <==> id in all
    ensures forall id :: id in [j, i] + rest <==> id in all
  {
    assert i !in rest && j !in rest;
    DistinctInFront(i, j, rest);
    DistinctInFront(j, i, rest);
  }

  lemma DistinctInFront(i: string, j: string, rest: seq<string>)
    requires i != j && NoDuplicates(rest) && i !in rest && j !in rest
    ensures NoDuplicates([i, j] + rest)
  {
    var s := [i, j] + rest;
    forall a, b | 0 <= a < b < |s| ensures s[a] != s[b] {
      assert s[b] in [j] + rest;
      assert a >= 2 ==> s[a] == rest[a - 2] && s[b] == rest[b - 2];
    }
  }

  lemma TwoInFront<T>(documents: map<string, Document<T>>, i: string, j: string, rest: seq<string>)
    requires i in documents && j in documents && forall id :: id in rest ==> id in documents
    ensures DocumentsAt(documents, [i, j] + rest) == [documents[i], documents[j]] + DocumentsAt(documents, rest)
  {}

  lemma TwoEnumerations<T>(documents: map<string, Document<T>>, i: string, j: string) returns (rest: seq<string>)
    requires i in documents && j in documents && !documents[i].deleted && !documents[j].deleted && i != j
    ensures EnumeratesLive(documents, [i, j] + rest) && EnumeratesLive(documents, [j, i] + rest)
    ensures AllIn(documents, rest)
  {
    var live := set id | id in documents && !documents[id].deleted;
    rest := AnyOrder(live - {i, j});
    PairInFront(live, i, j, rest);
  }

  ghost function ListedAs<T(!new)>(leq: (string, string) -> bool, documents: map<string, Document<T>>, ids: seq<string>): (out: seq<Document<T>>)
    requires EnumeratesLive(documents, ids)
    ensures IsListing(leq, documents, out)
  {
    StableSort(ById(leq), DocumentsAt(documents, ids))
  }

  lemma SwappedListingsDiffer<T(!new)>(leq: (string, string) -> bool, documents: map<string, Document<T>>, i: string, j: string,
                                       rest: seq<string>)
    requires TotalPreorder(leq) && i in documents && j in documents && AllIn(documents, rest)
    requires EnumeratesLive(documents, [i, j] + rest) && EnumeratesLive(documents, [j, i] + rest)
    requires documents[i] != documents[j] && TiedWith(ById(leq), documents[j])(documents[i])
    ensures ListedAs(leq, documents, [i, j] + rest) != ListedAs(leq, documents, [j, i] + rest)
  {
    TwoInFront(documents, i, j, rest);
    TwoInFront(documents, j, i, rest);
    ByIdPreorder<T>(leq);
    TiedSwapped(ById(leq), documents[i], documents[j], DocumentsAt(documents, rest));
  }

  lemma TiedListingsDiffer<T(!new)>(leq: (string, string) -> bool, documents: map<string, Document<T>>, x: Document<T>, y: Document<T>)
    requires TotalPreorder(leq) && IsLive(documents, x) && IsLive(documents, y) && TiedWith(ById(leq), y)(x) && x != y
    ensures !OneListing(leq, documents)
  {
    var i :| i in documents && documents[i] == x;
    var j :| j in documents && documents[j] == y;
    var rest := TwoEnumerations(documents, i, j);
    SwappedListingsDiffer(leq, documents, i, j, rest);
    assert IsListing(leq, documents, ListedAs(leq, documents, [i, j] + rest));
    assert IsListing(leq, documents, ListedAs(leq, documents, [j, i] + rest));
  }

  /** What `list` returns is fixed by the documents, whatever order the object's properties are
      enumerated in, exactly when the collation can tell the live documents apart. */
  lemma ListingUniqueExactly<T(!new)>(leq: (string, string) -> bool, documents: map<string, Document<T>>)
    requires TotalPreorder(leq)
    ensures OneListing(leq, documents) <==> Distinguishable(leq, documents)
  {
    if Distinguishable(leq, documents) {
      forall a, b | IsListing(leq, documents, a) && IsListing(leq, documents, b) ensures a == b {
        ListingUnique(leq, documents, a, b);
      }
    } else {
      var x, y :| IsLive(documents, x) && IsLive(documents, y) && TiedWith(ById(leq), y)(x) && x != y;
      TiedListingsDiffer(leq, documents, x, y);
    }
  }

  /** Listings only look at the live documents. */
  lemma SameLiveSameListings<T(!new)>(leq: (string, string) -> bool, a: map<string, Document<T>>, b: map<string, Document<T>>,
                                      out: seq<Document<T>>)
    requires forall id :: (id in a && !a[id].deleted <==> id in b && !b[id].deleted) && (id in a && !a[id].deleted ==> a[id] == b[id])
    ensures IsListing(leq, a, out) ==> IsListing(leq, b, out)
  {
    if IsListing(leq, a, out) {
      var ids :| EnumeratesLive(a, ids) && out == StableSort(ById(leq), DocumentsAt(a, ids));
      assert EnumeratesLive(b, ids);
      assert DocumentsAt(a, ids) == DocumentsAt(b, ids) by {
        assert forall i :: 0 <= i < |ids| ==> ids[i] in ids;
      }
    }
  }
}
