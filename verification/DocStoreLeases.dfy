/** Safety of named leases over whole runs of the store. */
module DocStoreLeases {
  import opened Wrappers
  import opened DocStore

  datatype LeaseEvent = Granted(lease: Lease) | Freed(name: string, token: string)

  function NameOf(e: LeaseEvent): string {
    match e
    case Granted(lease) => lease.name
    case Freed(name, _) => name
  }

  function EventOf<T>(op: Op<T>, reply: Reply<T>): seq<LeaseEvent> {
    match (op, reply)
    case (AcquireLease(_, _, _, _, _), Leased(Success(Some(lease)))) => [Granted(lease)]
    case (ReleaseLease(name, token), Released(true)) => [Freed(name, token)]
    case _ => []
  }

  /** The grants and releases of a run, in order. */
  ghost function History<T(!new)>(env: Env<T>, s: Snapshot<T>, ops: seq<Op<T>>): seq<LeaseEvent>
    decreases |ops|
  {
    if ops == [] then []
    else EventOf(ops[0], Step(env, s, ops[0]).1) + History(env, Step(env, s, ops[0]).0, ops[1..])
  }

  /** The lease on `name` after a history: the last grant, unless it was released. */
  function Holder(h: seq<LeaseEvent>, name: string): Option<Lease> {
    if h == [] then None
    else
      var last := h[|h| - 1];
      if NameOf(last) != name then Holder(h[..|h| - 1], name)
      else if last.Granted? then Some(last.lease) else None
  }

  ghost predicate LegalAt(h: seq<LeaseEvent>, j: nat)
    requires j < |h|
  {
    var stored := Holder(h[..j], NameOf(h[j]));
    match h[j]
    case Granted(lease) =>
      stored.None? || stored.value.ownerId == lease.ownerId || stored.value.expiresAt <= lease.acquiredAt
    case Freed(_, token) => stored.Some? && stored.value.token == token
  }

  ghost predicate Legal(h: seq<LeaseEvent>) {
    forall j :: 0 <= j < |h| ==> LegalAt(h, j)
  }

  ghost predicate Stores<T>(s: Snapshot<T>, h: seq<LeaseEvent>) {
    forall name :: Lookup(s.leases, name) == Holder(h, name)
  }

  ghost predicate NonDecreasingClock<T>(ops: seq<Op<T>>) {
    forall i, j :: 0 <= i < j < |ops| && ops[i].AcquireLease? && ops[j].AcquireLease? ==> ops[i].now <= ops[j].now
  }

  ghost predicate FreshTokens<T>(ops: seq<Op<T>>) {
    forall i, j :: 0 <= i < j < |ops| && ops[i].AcquireLease? && ops[j].AcquireLease? ==> ops[i].token != ops[j].token
  }

  ghost predicate Ordered(h: seq<LeaseEvent>) {
    forall i, j :: 0 <= i < j < |h| && h[i].Granted? && h[j].Granted? ==> h[i].lease.acquiredAt <= h[j].lease.acquiredAt
  }

  ghost predicate DistinctTokens(h: seq<LeaseEvent>) {
    forall i, j :: 0 <= i < j < |h| && h[i].Granted? && h[j].Granted? ==> h[i].lease.token != h[j].lease.token
  }

  // --- Histories of the store ---

  lemma StepLegal<T(!new)>(env: Env<T>, s: Snapshot<T>, h: seq<LeaseEvent>, op: Op<T>)
    requires Stores(s, h) && Legal(h)
    ensures var (t, reply) := Step(env, s, op); Stores(t, h + EventOf(op, reply)) && Legal(h + EventOf(op, reply))
  {
    var (t, reply) := Step(env, s, op);
    var events := EventOf(op, reply);
    var later := h + events;
    if events == [] {
      assert later == h;
      assert t.leases == s.leases;
    } else {
      assert later[..|h|] == h;
      assert Lookup(s.leases, op.name) == Holder(h, op.name);
      forall name ensures Lookup(t.leases, name) == Holder(later, name) {
        assert Lookup(s.leases, name) == Holder(h, name);
      }
      forall j | 0 <= j < |later| ensures LegalAt(later, j) {
        assert j < |h| ==> LegalAt(h, j) && later[..j] == h[..j];
      }
    }
  }

  lemma {:induction false} HistoryLegal<T(!new)>(env: Env<T>, s: Snapshot<T>, before: seq<LeaseEvent>, ops: seq<Op<T>>)
    requires Stores(s, before) && Legal(before)
    ensures Legal(before + History(env, s, ops))
    ensures Stores(Run(env, s, ops), before + History(env, s, ops))
    decreases |ops|
  {
    if ops == [] {
      assert before + [] == before;
    } else {
      var (t, reply) := Step(env, s, ops[0]);
      StepLegal(env, s, before, ops[0]);
      HistoryLegal(env, t, before + EventOf(ops[0], reply), ops[1..]);
      assert before + EventOf(ops[0], reply) + History(env, t, ops[1..]) == before + History(env, s, ops);
    }
  }

  lemma {:induction false} GrantsComeFromCalls<T(!new)>(env: Env<T>, s: Snapshot<T>, ops: seq<Op<T>>)
    ensures forall e :: e in History(env, s, ops) && e.Granted? ==>
      exists k :: 0 <= k < |ops| && ops[k].AcquireLease? && ops[k].now == e.lease.acquiredAt && ops[k].token == e.lease.token
    decreases |ops|
  {
    if ops != [] {
      var (t, reply) := Step(env, s, ops[0]);
      GrantsComeFromCalls(env, t, ops[1..]);
      forall e | e in History(env, s, ops) && e.Granted?
        ensures exists k :: 0 <= k < |ops| && ops[k].AcquireLease? && ops[k].now == e.lease.acquiredAt && ops[k].token == e.lease.token
      {
        if e in EventOf(ops[0], reply) {
          assert ops[0].AcquireLease?;
        } else {
          var k :| 0 <= k < |ops[1..]| && ops[1..][k].AcquireLease? && ops[1..][k].now == e.lease.acquiredAt
                && ops[1..][k].token == e.lease.token;
          assert ops[k + 1] == ops[1..][k];
        }
      }
    }
  }

  lemma LaterGrant<T(!new)>(env: Env<T>, s: Snapshot<T>, ops: seq<Op<T>>, j: nat)
    requires ops != [] && ops[0].AcquireLease?
    requires var rest := History(env, Step(env, s, ops[0]).0, ops[1..]); j < |rest| && rest[j].Granted?
    ensures var later := History(env, Step(env, s, ops[0]).0, ops[1..])[j].lease;
      && (NonDecreasingClock(ops) ==> ops[0].now <= later.acquiredAt)
      && (FreshTokens(ops) ==> ops[0].token != later.token)
  {
    var t := Step(env, s, ops[0]).0;
    GrantsComeFromCalls(env, t, ops[1..]);
    var e := History(env, t, ops[1..])[j];
    assert e in History(env, t, ops[1..]);
    var k :| 0 <= k < |ops[1..]| && ops[1..][k].AcquireLease? && ops[1..][k].now == e.lease.acquiredAt && ops[1..][k].token == e.lease.token;
    assert ops[k + 1] == ops[1..][k];
  }

  lemma TailOrdered<T>(ops: seq<Op<T>>)
    requires ops != []
    ensures NonDecreasingClock(ops) ==> NonDecreasingClock(ops[1..])
    ensures FreshTokens(ops) ==> FreshTokens(ops[1..])
  {
    assert forall i :: 0 <= i < |ops| - 1 ==> ops[1..][i] == ops[i + 1];
  }

  lemma {:induction false} HistoryOrdered<T(!new)>(env: Env<T>, s: Snapshot<T>, ops: seq<Op<T>>)
    ensures NonDecreasingClock(ops) ==> Ordered(History(env, s, ops))
    ensures FreshTokens(ops) ==> DistinctTokens(History(env, s, ops))
    decreases |ops|
  {
    if ops != [] {
      var (t, reply) := Step(env, s, ops[0]);
      var first, rest := EventOf(ops[0], reply), History(env, t, ops[1..]);
      HistoryOrdered(env, t, ops[1..]);
      forall j | 0 <= j < |rest| && rest[j].Granted? && first != [] && first[0].Granted?
        ensures NonDecreasingClock(ops) ==> first[0].lease.acquiredAt <= rest[j].lease.acquiredAt
        ensures FreshTokens(ops) ==> first[0].lease.token != rest[j].lease.token
      {
        LaterGrant(env, s, ops, j);
      }
      TailOrdered(ops);
      GrantInFront(first, rest);
    }
  }

  lemma GrantInFront(first: seq<LeaseEvent>, rest: seq<LeaseEvent>)
    requires |first| <= 1
    ensures Ordered(rest) && (forall j :: 0 <= j < |rest| && rest[j].Granted? && first != [] && first[0].Granted? ==>
                                first[0].lease.acquiredAt <= rest[j].lease.acquiredAt)
      ==> Ordered(first + rest)
    ensures DistinctTokens(rest) && (forall j :: 0 <= j < |rest| && rest[j].Granted? && first != [] && first[0].Granted? ==>
                                       first[0].lease.token != rest[j].lease.token)
      ==> DistinctTokens(first + rest)
  {
    assert first == [] ==> first + rest == rest;
  }

  lemma {:induction false} HolderIs(h: seq<LeaseEvent>, i: nat, name: string)
    requires i < |h| && h[i].Granted? && h[i].lease.name == name
    requires forall k :: i < k < |h| ==> NameOf(h[k]) != name
    ensures Holder(h, name) == Some(h[i].lease)
    decreases |h|
  {
    if i < |h| - 1 {
      HolderIs(h[..|h| - 1], i, name);
    }
  }

  lemma {:induction false} HolderFrom(h: seq<LeaseEvent>, name: string) returns (i: int)
    ensures Holder(h, name).Some? ==> 0 <= i < |h| && h[i] == Granted(Holder(h, name).value) && NameOf(h[i]) == name
    ensures Holder(h, name).Some? ==> forall k :: i < k < |h| ==> NameOf(h[k]) != name
  {
    i := |h| - 1;
    if h != [] && NameOf(h[|h| - 1]) != name {
      i := HolderFrom(h[..|h| - 1], name);
    }
  }

  lemma {:induction false} NextEvent(h: seq<LeaseEvent>, name: string, i: nat, j: nat) returns (n: nat)
    requires i < j < |h| && NameOf(h[j]) == name
    ensures i < n <= j && NameOf(h[n]) == name
    ensures forall k :: i < k < n ==> NameOf(h[k]) != name
    decreases j - i
  {
    if NameOf(h[i + 1]) == name {
      n := i + 1;
    } else {
      n := NextEvent(h, name, i + 1, j);
    }
  }

  /** Lease k belongs to the tenure that is over by `now`: it had run out, or it was given up with
      its own token before event j. */
  ghost predicate EndedBy(h: seq<LeaseEvent>, k: nat, j: nat, now: int)
    requires k < j <= |h| && h[k].Granted?
  {
    || h[k].lease.expiresAt <= now
    || exists m :: k < m < j && h[m] == Freed(h[k].lease.name, h[k].lease.token)
  }

  lemma {:induction false} SomeGrantEnds(h: seq<LeaseEvent>, i: nat, j: nat) returns (k: nat)
    requires Legal(h) && Ordered(h) && i < j < |h|
    requires h[i].Granted? && h[j].Granted? && h[i].lease.name == h[j].lease.name
    requires h[i].lease.ownerId != h[j].lease.ownerId
    ensures i <= k < j && h[k].Granted? && h[k].lease.name == h[i].lease.name && h[k].lease.ownerId == h[i].lease.ownerId
    ensures EndedBy(h, k, j, h[j].lease.acquiredAt)
    decreases j - i
  {
    var name := h[i].lease.name;
    var n := NextEvent(h, name, i, j);
    assert LegalAt(h, n);
    HolderIs(h[..n], i, name);
    k := i;
    if h[n].Freed? {
      assert h[n] == Freed(name, h[i].lease.token);
    } else if h[n].lease.ownerId == h[i].lease.ownerId {
      k := SomeGrantEnds(h, n, j);
    }
  }

  ghost predicate GrantedTo(e: LeaseEvent, name: string, ownerId: string) {
    e.Granted? && e.lease.name == name && e.lease.ownerId == ownerId
  }

  /** Grant k is the last one of `name` to this owner before event j: the latest of its tenure. */
  ghost predicate LastGrant(h: seq<LeaseEvent>, k: nat, j: nat, name: string, ownerId: string)
    requires k < j <= |h|
  {
    GrantedTo(h[k], name, ownerId) && forall m :: k < m < j ==> !GrantedTo(h[m], name, ownerId)
  }

  lemma {:induction false} FindLastGrant(h: seq<LeaseEvent>, i: nat, j: nat, name: string, ownerId: string) returns (k: nat)
    requires i < j <= |h| && GrantedTo(h[i], name, ownerId)
    ensures i <= k < j && LastGrant(h, k, j, name, ownerId)
    decreases j - i
  {
    if m :| i < m < j && GrantedTo(h[m], name, ownerId) {
      k := FindLastGrant(h, m, j, name, ownerId);
    } else {
      k := i;
    }
  }

  /** When a name is granted to B, the last grant that A had of it is over: it had run out by B's
      `now`, or it had been released with its own token. */
  lemma TenureEnds(h: seq<LeaseEvent>, k: nat, j: nat, ownerId: string)
    requires Legal(h) && Ordered(h) && k < j < |h| && h[j].Granted? && h[j].lease.ownerId != ownerId
    requires LastGrant(h, k, j, h[j].lease.name, ownerId)
    ensures EndedBy(h, k, j, h[j].lease.acquiredAt)
  {
    var ended := SomeGrantEnds(h, k, j);
    assert GrantedTo(h[ended], h[j].lease.name, ownerId);
  }

  /** Grant i is for `name` and nothing has happened to that name since. */
  ghost predicate StillCurrent(h: seq<LeaseEvent>, i: nat, name: string)
    requires i < |h|
  {
    NameOf(h[i]) == name && forall k :: i < k < |h| ==> NameOf(h[k]) != name
  }

  lemma HolderHasToken(h: seq<LeaseEvent>, i: nat, name: string)
    requires DistinctTokens(h) && i < |h| && h[i].Granted?
    ensures (Holder(h, name).Some? && Holder(h, name).value.token == h[i].lease.token) <==> StillCurrent(h, i, name)
  {
    var last := HolderFrom(h, name);
    if StillCurrent(h, i, name) {
      HolderIs(h, i, name);
    }
  }

  lemma ReleasesExactly<T>(s: Snapshot<T>, h: seq<LeaseEvent>, i: nat, name: string)
    requires Stores(s, h) && DistinctTokens(h) && i < |h| && h[i].Granted?
    ensures ReleaseStep(s, name, h[i].lease.token).1 <==> StillCurrent(h, i, name)
  {
    assert Lookup(s.leases, name) == Holder(h, name);
    HolderHasToken(h, i, name);
  }

  // --- Main results ---

  lemma LegalFromEmpty<T(!new)>(env: Env<T>, ops: seq<Op<T>>)
    ensures Legal(History(env, Empty(), ops)) && Stores(Run(env, Empty(), ops), History(env, Empty(), ops))
  {
    HistoryLegal(env, Empty(), [], ops);
    assert [] + History(env, Empty(), ops) == History(env, Empty(), ops);
  }

  lemma HandOverIn(h: seq<LeaseEvent>, i: nat, j: nat)
    requires Legal(h) && Ordered(h) && i < j < |h| && h[i].Granted? && h[j].Granted?
    requires h[i].lease.name == h[j].lease.name && h[i].lease.ownerId != h[j].lease.ownerId
    ensures exists k :: i <= k < j && LastGrant(h, k, j, h[j].lease.name, h[i].lease.ownerId)
                        && EndedBy(h, k, j, h[j].lease.acquiredAt)
  {
    var k := FindLastGrant(h, i, j, h[j].lease.name, h[i].lease.ownerId);
    TenureEnds(h, k, j, h[i].lease.ownerId);
  }

  /** Hand-over. In every run with a non-decreasing clock: when a name is granted to B after it was
      granted to A, then the last grant that A had of it before that had run out by B's `now` or had
      been released with its own token. */
  lemma HandOverIsSafe<T(!new)>(env: Env<T>, ops: seq<Op<T>>, i: nat, j: nat)
    requires NonDecreasingClock(ops)
    requires var h := History(env, Empty(), ops);
      && i < j < |h| && h[i].Granted? && h[j].Granted?
      && h[i].lease.name == h[j].lease.name && h[i].lease.ownerId != h[j].lease.ownerId
    ensures var h := History(env, Empty(), ops);
      exists k :: i <= k < j && LastGrant(h, k, j, h[j].lease.name, h[i].lease.ownerId)
                  && EndedBy(h, k, j, h[j].lease.acquiredAt)
  {
    LegalFromEmpty(env, ops);
    HistoryOrdered(env, Empty(), ops);
    HandOverIn(History(env, Empty(), ops), i, j);
  }

  /** The lease that is stored when a name goes to somebody else had expired by then. */
  lemma TakeoverOnlyAfterExpiry<T(!new)>(env: Env<T>, ops: seq<Op<T>>, name: string, ownerId: string, ttlMs: int, now: int, token: string)
    ensures var s := Run(env, Empty(), ops);
      var reply := AcquireStep(s, name, ownerId, ttlMs, now, token).1;
      var stored := Holder(History(env, Empty(), ops), name);
      && (reply.Success? && reply.value.Some? <==>
            ttlMs > 0 && (stored.None? || stored.value.ownerId == ownerId || stored.value.expiresAt <= now))
      && (reply.Success? && reply.value.Some? ==> reply.value.value == Lease(name, ownerId, token, now, now + ttlMs))
      && (reply.Failure? <==> ttlMs <= 0)
  {
    var h := History(env, Empty(), ops);
    HistoryLegal(env, Empty(), [], ops);
    assert [] + h == h;
    assert Lookup(Run(env, Empty(), ops).leases, name) == Holder(h, name);
  }

  /** Tokens. With fresh tokens, the token of a grant releases a lease exactly when it is presented
      for its own name and nothing has happened to that name since: after a renewal, a release or a
      takeover it releases nothing. */
  lemma TokenReleasesOnlyItsLease<T(!new)>(env: Env<T>, ops: seq<Op<T>>, i: nat, name: string)
    requires FreshTokens(ops)
    requires var h := History(env, Empty(), ops); i < |h| && h[i].Granted?
    ensures var h := History(env, Empty(), ops);
      ReleaseStep(Run(env, Empty(), ops), name, h[i].lease.token).1 <==> StillCurrent(h, i, name)
  {
    LegalFromEmpty(env, ops);
    HistoryOrdered(env, Empty(), ops);
    ReleasesExactly(Run(env, Empty(), ops), History(env, Empty(), ops), i, name);
  }

  /** A renewal may shorten the term: A holds a lease to 100, renews it to 11, and B is granted the
      name at 20. So "no grant before an earlier grant's printed expiry" does not hold; what holds
      is HandOverIsSafe, about the latest grant of the tenure. */
  lemma RenewalMayShorten<T(!new)>(env: Env<T>)
    ensures History(env, Empty(), [
              Op<T>.AcquireLease("n", "A", 100, 0, "t1"), Op.AcquireLease("n", "A", 10, 1, "t2"), Op.AcquireLease("n", "B", 50, 20, "t3")])
         == [Granted(Lease("n", "A", "t1", 0, 100)), Granted(Lease("n", "A", "t2", 1, 11)), Granted(Lease("n", "B", "t3", 20, 70))]
  {
    var a, b, c := Op<T>.AcquireLease("n", "A", 100, 0, "t1"), Op<T>.AcquireLease("n", "A", 10, 1, "t2"), Op<T>.AcquireLease("n", "B", 50, 20, "t3");
    var s1 := Step(env, Empty(), a).0;
    var s2 := Step(env, s1, b).0;
    var s3 := Step(env, s2, c).0;
    assert [a, b, c][1..] == [b, c] && [b, c][1..] == [c];
    assert History(env, s3, []) == [];
    assert History(env, s2, [c]) == [Granted(Lease("n", "B", "t3", 20, 70))];
    assert History(env, s1, [b, c]) == [Granted(Lease("n", "A", "t2", 1, 11))] + History(env, s2, [c]);
  }
}
