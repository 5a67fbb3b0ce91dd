/** Settlement leadership: an order of the active relays that everybody can compute, and a failover
    timeline over it. */
module RelayLeadership {
  import opened Wrappers
  import opened Ordering

  datatype Relay = Relay(relayId: string, active: Option<bool>)

  /** `score` is the digest of seed and relay id; `leq` is the collation order of `localeCompare`,
      which may be unable to tell distinct texts apart. */
  datatype Env = Env(score: (string, string) -> string, leq: (string, string) -> bool)

  datatype Leadership = Leadership(orderedRelayIds: seq<string>, leaderId: string, leaderIndex: nat,
                                   failoverGraceSeconds: int, primaryDeadlineUnixSeconds: int)

  datatype Error = InvalidGrace(seconds: int)

  predicate Counts(r: Relay) {
    r.active != Some(false) && r.relayId != ""
  }

  ghost function ActiveIds(relays: seq<Relay>): set<string> {
    set r | r in relays && Counts(r) :: r.relayId
  }

  function AddId(ids: seq<string>, r: Relay): seq<string> {
    if Counts(r) && r.relayId !in ids then ids + [r.relayId] else ids
  }

  /** The ids of the active relays in order of first appearance. */
  function UniqueIds(relays: seq<Relay>): seq<string> {
    if relays == [] then [] else AddId(UniqueIds(relays[..|relays| - 1]), relays[|relays| - 1])
  }

  method ActiveUniqueRelayIds(relays: seq<Relay>) returns (ids: seq<string>)
    ensures ids == UniqueIds(relays)
    ensures NoDuplicates(ids) && forall id :: id in ids <==> id in ActiveIds(relays)
  {
    var seen: set<string> := {};
    ids := [];
    for k := 0 to |relays|
      invariant ids == UniqueIds(relays[..k])
      invariant forall id :: id in seen <==> id in ids
    {
      assert relays[..k + 1][..k] == relays[..k];
      var relay := relays[k];
      if (if relay.active.Some? then relay.active.value else true) == false || relay.relayId == "" || relay.relayId in seen {
        continue;
      }
      seen := seen + {relay.relayId};
      ids := ids + [relay.relayId];
    }
    assert relays[..|relays|] == relays;
    UniqueIdsMembers(relays);
  }

  lemma {:induction false} UniqueIdsMembers(relays: seq<Relay>)
    ensures NoDuplicates(UniqueIds(relays))
    ensures forall id :: id in UniqueIds(relays) <==> id in ActiveIds(relays)
  {
    if relays != [] {
      var before, last := relays[..|relays| - 1], relays[|relays| - 1];
      UniqueIdsMembers(before);
      assert relays == before + [last];
    }
  }

  /** By score, then by id. */
  function ByScore(env: Env, seed: string): (string, string) -> bool {
    (a: string, b: string) =>
      var sa, sb := env.score(seed, a), env.score(seed, b);
      env.leq(sa, sb) && (env.leq(sb, sa) ==> env.leq(a, b))
  }

  lemma ByScorePreorder(env: Env, seed: string)
    requires TotalPreorder(env.leq)
    ensures TotalPreorder(ByScore(env, seed))
  {
    var order := ByScore(env, seed);
    forall a, b ensures order(a, b) || order(b, a) {
      var sa, sb := env.score(seed, a), env.score(seed, b);
      assert (env.leq(sa, sb) || env.leq(sb, sa)) && (env.leq(a, b) || env.leq(b, a));
    }
    forall a, b, c | order(a, b) && order(b, c) ensures order(a, c) {
      var sa, sb, sc := env.score(seed, a), env.score(seed, b), env.score(seed, c);
      assert env.leq(sa, sb) && env.leq(sb, sc);
      assert env.leq(sc, sa) ==> env.leq(sb, sa) && env.leq(sc, sb);
      assert env.leq(a, b) && env.leq(b, c) ==> env.leq(a, c);
    }
  }

  function OrderedIds(env: Env, seed: string, relays: seq<Relay>): seq<string> {
    StableSort(ByScore(env, seed), UniqueIds(relays))
  }

  /** No two distinct active relays have scores and ids that the collation cannot tell apart. */
  ghost predicate Distinguishable(env: Env, seed: string, ids: set<string>) {
    forall a, b :: a in ids && b in ids && a != b ==> !TiedWith(ByScore(env, seed), b)(a)
  }

  // --- The order ---

  /** The settlement order lists every active relay once, sorted by score and id. */
  lemma OrderIsPermutation(env: Env, seed: string, relays: seq<Relay>)
    requires TotalPreorder(env.leq)
    ensures var order := OrderedIds(env, seed, relays);
      && NoDuplicates(order) && Sorted(ByScore(env, seed), order)
      && forall id :: id in order <==> id in ActiveIds(relays)
  {
    UniqueIdsMembers(relays);
    ByScorePreorder(env, seed);
    SortSorted(ByScore(env, seed), UniqueIds(relays));
    SortNoDuplicates(ByScore(env, seed), UniqueIds(relays));
    SortMembers(ByScore(env, seed), UniqueIds(relays));
  }

  /** No relay stands after one whose score the collation puts later, nor, when the collation cannot tell
      their scores apart, after one whose id it puts later. */
  ghost predicate ScoresAscend(env: Env, seed: string, order: seq<string>) {
    forall i, j :: 0 <= i < j < |order| ==>
      var a, b := env.score(seed, order[i]), env.score(seed, order[j]);
      env.leq(a, b) && (env.leq(b, a) ==> env.leq(order[i], order[j]))
  }

  /** The order goes by score first and by id among equal scores. */
  lemma OrderGoesByScore(env: Env, seed: string, relays: seq<Relay>)
    requires TotalPreorder(env.leq)
    ensures ScoresAscend(env, seed, OrderedIds(env, seed, relays))
  {
    OrderIsPermutation(env, seed, relays);
    var order := OrderedIds(env, seed, relays);
    forall i, j | 0 <= i < j < |order|
      ensures env.leq(env.score(seed, order[i]), env.score(seed, order[j]))
      ensures env.leq(env.score(seed, order[j]), env.score(seed, order[i])) ==> env.leq(order[i], order[j])
    {
      assert ByScore(env, seed)(order[i], order[j]);
    }
  }

  /** Active relays: listed with a non-empty id and not marked inactive. */
  lemma ActiveExactly(relays: seq<Relay>, id: string)
    ensures id in ActiveIds(relays)
       <==> id != "" && exists i :: 0 <= i < |relays| && relays[i].relayId == id && relays[i].active != Some(false)
  {
    if i :| 0 <= i < |relays| && relays[i].relayId == id && relays[i].active != Some(false) && id != "" {
      assert relays[i] in relays && Counts(relays[i]);
    }
  }

  lemma SameSetSameOrder(env: Env, seed: string, a: seq<Relay>, b: seq<Relay>)
    requires TotalPreorder(env.leq) && ActiveIds(a) == ActiveIds(b) && Distinguishable(env, seed, ActiveIds(a))
    ensures OrderedIds(env, seed, a) == OrderedIds(env, seed, b)
  {
    OrderIsPermutation(env, seed, a);
    OrderIsPermutation(env, seed, b);
    var x, y := OrderedIds(env, seed, a), OrderedIds(env, seed, b);
    assert forall id :: id in x <==> id in y;
    SortedDeterminedBySet(ByScore(env, seed), x, y);
  }

  /** A tie between two ids is a tie between their scores and between the ids themselves. */
  lemma TiesExactly(env: Env, seed: string, a: string, b: string)
    ensures TiedWith(ByScore(env, seed), b)(a)
       <==> env.leq(env.score(seed, a), env.score(seed, b)) && env.leq(env.score(seed, b), env.score(seed, a))
            && env.leq(a, b) && env.leq(b, a)
  {}

  /** No two of the ids have scores that the collation cannot tell apart. */
  ghost predicate ScoresDiffer(env: Env, seed: string, ids: set<string>) {
    forall a, b :: a in ids && b in ids && a != b ==> !TiedWith(env.leq, env.score(seed, b))(env.score(seed, a))
  }

  /** Ids with different scores can be told apart, whatever the collation makes of the ids. */
  lemma ScoresDistinguish(env: Env, seed: string, ids: set<string>)
    requires ScoresDiffer(env, seed, ids)
    ensures Distinguishable(env, seed, ids)
  {
    forall a, b | a in ids && b in ids && a != b ensures !TiedWith(ByScore(env, seed), b)(a) {
      assert !TiedWith(env.leq, env.score(seed, b))(env.score(seed, a));
      TiesExactly(env, seed, a, b);
    }
  }

  /** A collation that is a total order tells all ids apart, whatever their scores. */
  lemma TotalOrderDistinguishes(env: Env, seed: string, ids: set<string>)
    requires TotalOrder(env.leq)
    ensures Distinguishable(env, seed, ids)
  {
    forall a, b | a in ids && b in ids && a != b ensures !TiedWith(ByScore(env, seed), b)(a) {
      TiesExactly(env, seed, a, b);
    }
  }

  /** Two ids of the set have one digest. */
  ghost predicate Collision(env: Env, seed: string, ids: set<string>) {
    exists a, b :: a in ids && b in ids && a != b && env.score(seed, a) == env.score(seed, b)
  }

  /** The collation tells different digests apart, as `localeCompare` does for lower-case hex texts. */
  ghost predicate TellsDigestsApart(env: Env, seed: string) {
    forall a, b :: TiedWith(env.leq, env.score(seed, b))(env.score(seed, a)) ==> env.score(seed, a) == env.score(seed, b)
  }

  /** With digests for scores, the order depends only on the set of active relays unless two of them
      collide. */
  lemma SameSetSameOrderUnlessCollision(env: Env, seed: string, a: seq<Relay>, b: seq<Relay>)
    requires TotalPreorder(env.leq) && TellsDigestsApart(env, seed) && ActiveIds(a) == ActiveIds(b)
    ensures OrderedIds(env, seed, a) == OrderedIds(env, seed, b) || Collision(env, seed, ActiveIds(a))
  {
    if !Collision(env, seed, ActiveIds(a)) {
      NoCollisionDistinguishes(env, seed, ActiveIds(a));
      SameSetSameOrder(env, seed, a, b);
    }
  }

  lemma NoCollisionDistinguishes(env: Env, seed: string, ids: set<string>)
    requires TellsDigestsApart(env, seed) && !Collision(env, seed, ids)
    ensures Distinguishable(env, seed, ids)
  {
    ScoresDistinguish(env, seed, ids);
  }

  function Listed(ids: seq<string>): seq<Relay> {
    seq(|ids|, i requires 0 <= i < |ids| => Relay(ids[i], None))
  }

  lemma {:induction false} ListedIds(ids: seq<string>)
    requires NoDuplicates(ids) && "" !in ids
    ensures UniqueIds(Listed(ids)) == ids
  {
    if ids != [] {
      var n := |ids| - 1;
      ListedIds(ids[..n]);
      ListedLast(ids);
      assert ids == ids[..n] + [ids[n]];
      assert ids[n] !in ids[..n] && ids[n] in ids;
    }
  }

  lemma ListedLast(ids: seq<string>)
    requires ids != []
    ensures UniqueIds(Listed(ids)) == AddId(UniqueIds(Listed(ids[..|ids| - 1])), Relay(ids[|ids| - 1], None))
  {
    assert Listed(ids)[..|ids| - 1] == Listed(ids[..|ids| - 1]);
  }

  /** Two tied relays keep the order in which they were listed. */
  lemma TiedKeepInputOrder(env: Env, seed: string, a: string, b: string, rest: seq<string>)
    requires TotalPreorder(env.leq) && TiedWith(ByScore(env, seed), b)(a)
    requires NoDuplicates([a, b] + rest) && "" !in [a, b] + rest
    ensures OrderedIds(env, seed, Listed([a, b] + rest)) != OrderedIds(env, seed, Listed([b, a] + rest))
  {
    ByScorePreorder(env, seed);
    var x, y := [a, b] + rest, [b, a] + rest;
    assert x[0] == a && x[1] == b && a != b;
    forall i, j | 0 <= i < j < |y| ensures y[i] != y[j] {
      assert j >= 2 ==> x[0] != x[j] && x[1] != x[j];
      assert i >= 2 ==> x[i] != x[j];
    }
    assert "" !in y by {
      forall i | 0 <= i < |y| ensures y[i] != "" {
        assert x[0] != "" && x[1] != "" && (i >= 2 ==> x[i] != "") by {
          assert forall k :: 0 <= k < |x| ==> x[k] in x;
        }
      }
    }
    ListedIds(x);
    ListedIds(y);
    TiedSwapped(ByScore(env, seed), a, b, rest);
  }

  lemma {:induction false} SetToListed(ids: set<string>) returns (s: seq<string>)
    ensures NoDuplicates(s) && forall x :: x in s <==> x in ids
  {
    s := [];
    if ids != {} {
      var x :| x in ids;
      var rest := SetToListed(ids - {x});
      s := [x] + rest;
    }
  }

  ghost predicate DependsOnlyOnSet(env: Env, seed: string, ids: set<string>) {
    forall a, b :: ActiveIds(a) == ids && ActiveIds(b) == ids ==> OrderedIds(env, seed, a) == OrderedIds(env, seed, b)
  }

  lemma ListedActive(ids: seq<string>)
    requires "" !in ids
    ensures ActiveIds(Listed(ids)) == set x | x in ids
  {
    var relays := Listed(ids);
    forall x | x in ids ensures x in ActiveIds(relays) {
      var i :| 0 <= i < |ids| && ids[i] == x;
      assert relays[i] in relays && Counts(relays[i]);
    }
  }

  lemma TiedOrdersDiffer(env: Env, seed: string, ids: set<string>, a: string, b: string) returns (x: seq<Relay>, y: seq<Relay>)
    requires TotalPreorder(env.leq) && "" !in ids
    requires a in ids && b in ids && a != b && TiedWith(ByScore(env, seed), b)(a)
    ensures ActiveIds(x) == ids && ActiveIds(y) == ids && OrderedIds(env, seed, x) != OrderedIds(env, seed, y)
  {
    var rest := SetToListed(ids - {a, b});
    var s, t := [a, b] + rest, [b, a] + rest;
    assert forall z :: z in s <==> z in ids;
    assert forall z :: z in t <==> z in ids;
    assert a !in rest && b !in rest;
    TiedKeepInputOrder(env, seed, a, b, rest);
    ListedActive(s);
    ListedActive(t);
    x, y := Listed(s), Listed(t);
    assert (set z | z in s) == ids && (set z | z in t) == ids;
  }

  /** For a set of active ids, the order is a function of the set (no matter how the relays are
      permuted, repeated, or mixed with inactive ones) exactly when the collation can tell the ids
      apart. */
  lemma OrderDependsOnlyOnSetExactly(env: Env, seed: string, ids: set<string>)
    requires TotalPreorder(env.leq) && "" !in ids
    ensures DependsOnlyOnSet(env, seed, ids) <==> Distinguishable(env, seed, ids)
  {
    if Distinguishable(env, seed, ids) {
      forall a, b | ActiveIds(a) == ids && ActiveIds(b) == ids ensures OrderedIds(env, seed, a) == OrderedIds(env, seed, b) {
        SameSetSameOrder(env, seed, a, b);
      }
    } else {
      var a, b :| a in ids && b in ids && a != b && TiedWith(ByScore(env, seed), b)(a);
      var x, y := TiedOrdersDiffer(env, seed, ids, a, b);
    }
  }

  // --- Removing a relay ---

  function Without(id: string): Relay -> bool {
    (r: Relay) => r.relayId != id
  }

  function OtherThan(id: string): string -> bool {
    (x: string) => x != id
  }

  lemma AddIdWithout(ids: seq<string>, r: Relay, id: string)
    ensures Filter(OtherThan(id), AddId(ids, r))
         == if r.relayId == id then Filter(OtherThan(id), ids) else AddId(Filter(OtherThan(id), ids), r)
  {
    FilterMembers(OtherThan(id), ids);
    FilterConcat(OtherThan(id), ids, [r.relayId]);
  }

  lemma UniqueIdsOneMore(relays: seq<Relay>, r: Relay)
    ensures UniqueIds(relays + [r]) == AddId(UniqueIds(relays), r)
  {
    assert (relays + [r])[..|relays + [r]| - 1] == relays;
  }

  lemma WithoutOneMore(relays: seq<Relay>, r: Relay, id: string)
    ensures Filter(Without(id), relays + [r]) == Filter(Without(id), relays) + if r.relayId == id then [] else [r]
  {
    FilterConcat(Without(id), relays, [r]);
    assert [r][1..] == [];
  }

  lemma {:induction false} UniqueIdsWithout(relays: seq<Relay>, id: string)
    ensures UniqueIds(Filter(Without(id), relays)) == Filter(OtherThan(id), UniqueIds(relays))
  {
    if relays != [] {
      var before, last := relays[..|relays| - 1], relays[|relays| - 1];
      UniqueIdsWithout(before, id);
      assert relays == before + [last];
      WithoutOneMore(before, last, id);
      AddIdWithout(UniqueIds(before), last, id);
      if last.relayId == id {
        assert Filter(Without(id), relays) == Filter(Without(id), before);
      } else {
        UniqueIdsOneMore(Filter(Without(id), before), last);
      }
    }
  }

  /** Taking one relay away leaves the relative order of all the others as it was. */
  lemma RemovalKeepsOrder(env: Env, seed: string, relays: seq<Relay>, id: string)
    requires TotalPreorder(env.leq)
    ensures OrderedIds(env, seed, Filter(Without(id), relays)) == Filter(OtherThan(id), OrderedIds(env, seed, relays))
  {
    UniqueIdsWithout(relays, id);
    ByScorePreorder(env, seed);
    FilterSort(ByScore(env, seed), OtherThan(id), UniqueIds(relays));
  }

  // --- The failover timeline ---

  function Max(a: int, b: int): int { if a < b then b else a }

  function Min(a: int, b: int): int { if a < b then a else b }

  function LeaderIndex(n: nat, grace: int, windowEnd: int, now: int): (i: nat)
    requires n > 0 && grace > 0
    ensures i < n
  {
    Min(Max(0, now - windowEnd) / grace, n - 1)
  }

  method SelectSettlementLeader(env: Env, seed: string, relays: seq<Relay>, grace: Option<int>, windowEnd: int, now: int)
    returns (r: Result<Option<Leadership>, Error>)
    requires TotalPreorder(env.leq)
    ensures ActiveIds(relays) == {} <==> r == Success(None)
    ensures r.Failure? <==> ActiveIds(relays) != {} && grace.Some? && grace.value <= 0
    ensures r.Success? && r.value.Some? ==>
      var l := r.value.value;
      && l.orderedRelayIds == OrderedIds(env, seed, relays)
      && l.failoverGraceSeconds == (if grace.Some? then grace.value else 300)
      && l.leaderIndex < |l.orderedRelayIds| && l.leaderId == l.orderedRelayIds[l.leaderIndex]
      && l.leaderIndex == LeaderIndex(|l.orderedRelayIds|, l.failoverGraceSeconds, windowEnd, now)
      && l.primaryDeadlineUnixSeconds == windowEnd + l.failoverGraceSeconds
      && (|l.orderedRelayIds| > 1 ==> forall clock: int ::
            LeaderIndex(|l.orderedRelayIds|, l.failoverGraceSeconds, windowEnd, clock) == 0 <==> clock < l.primaryDeadlineUnixSeconds)
  {
    OrderIsPermutation(env, seed, relays);
    var ids := ActiveUniqueRelayIds(relays);
    var orderedRelayIds := StableSort(ByScore(env, seed), ids);
    NoMembers(orderedRelayIds);
    if |orderedRelayIds| == 0 {
      assert ActiveIds(relays) == {};
      return Success(None);
    }
    assert orderedRelayIds[0] in ActiveIds(relays);
    var failoverGraceSeconds := if grace.Some? then grace.value else 300;
    if failoverGraceSeconds <= 0 {
      return Failure(InvalidGrace(failoverGraceSeconds));
    }
    var elapsedAfterWindow := Max(0, now - windowEnd);
    var leaderIndex := Min(elapsedAfterWindow / failoverGraceSeconds, |orderedRelayIds| - 1);
    forall clock: int | |orderedRelayIds| > 1
      ensures LeaderIndex(|orderedRelayIds|, failoverGraceSeconds, windowEnd, clock) == 0 <==> clock < windowEnd + failoverGraceSeconds
    {
      FirstHandOver(|orderedRelayIds|, failoverGraceSeconds, windowEnd, clock);
    }
    r := Success(Some(Leadership(orderedRelayIds, orderedRelayIds[leaderIndex], leaderIndex, failoverGraceSeconds,
                                 windowEnd + failoverGraceSeconds)));
  }

  lemma DivisionBounds(x: nat, g: int, i: nat)
    requires g > 0
    ensures x / g == i <==> i * g <= x < (i + 1) * g
    ensures x / g >= i <==> i * g <= x
  {
    assert x == (x / g) * g + x % g;
    var q := x / g;
    if q > i {
      assert q * g >= (i + 1) * g;
    }
    if q < i {
      assert (q + 1) * g <= i * g;
    }
  }

  /** With more than one relay, the first one leads exactly until the primary deadline. */
  lemma FirstHandOver(n: nat, grace: int, windowEnd: int, now: int)
    requires grace > 0 && n > 0
    ensures n > 1 ==> (LeaderIndex(n, grace, windowEnd, now) == 0 <==> now < windowEnd + grace)
  {
    Timeline(n, grace, windowEnd, now, 0);
  }

  /** Position i leads exactly during its grace interval after the window; the last position leads
      from its interval on, for good. */
  lemma Timeline(n: nat, grace: int, windowEnd: int, now: int, i: nat)
    requires grace > 0 && i < n
    ensures i < n - 1 ==> (LeaderIndex(n, grace, windowEnd, now) == i <==> i * grace <= Max(0, now - windowEnd) < (i + 1) * grace)
    ensures i == n - 1 ==> (LeaderIndex(n, grace, windowEnd, now) == i <==> i * grace <= Max(0, now - windowEnd))
  {
    DivisionBounds(Max(0, now - windowEnd), grace, i);
  }

  /** The same by the clock: position i takes over i graces after the window's end (the first one has
      led all along) and hands over one grace later, if there is a next one. */
  lemma TimelineByClock(n: nat, grace: int, windowEnd: int, now: int, i: nat)
    requires grace > 0 && i < n
    ensures LeaderIndex(n, grace, windowEnd, now) == i
       <==> (i == 0 || windowEnd + i * grace <= now) && (i == n - 1 || now < windowEnd + (i + 1) * grace)
  {
    Timeline(n, grace, windowEnd, now, i);
    if i > 0 { assert i * grace >= grace; }
    assert (i + 1) * grace == i * grace + grace;
  }

  /** The lead never goes back. */
  lemma LeadMovesForward(n: nat, grace: int, windowEnd: int, now: int, later: int)
    requires grace > 0 && n > 0 && now <= later
    ensures LeaderIndex(n, grace, windowEnd, now) <= LeaderIndex(n, grace, windowEnd, later)
  {
    var x, y := Max(0, now - windowEnd), Max(0, later - windowEnd);
    DivisionBounds(x, grace, x / grace);
    DivisionBounds(y, grace, x / grace);
  }

  /** At every instant exactly one active relay is the leader, every active relay's turn comes, and
      leadership changes hands to the next relay in order, one grace interval after another. */
  lemma EveryRelayLeadsInTurn(env: Env, seed: string, relays: seq<Relay>, grace: int, windowEnd: int)
    requires TotalPreorder(env.leq) && grace > 0 && ActiveIds(relays) != {}
    ensures var order := OrderedIds(env, seed, relays);
      && |order| > 0
      && (forall now :: order[LeaderIndex(|order|, grace, windowEnd, now)] in ActiveIds(relays))
      && (forall i :: 0 <= i < |order| ==> LeaderIndex(|order|, grace, windowEnd, windowEnd + i * grace) == i)
      && (forall id :: id in ActiveIds(relays) ==>
            exists i :: 0 <= i < |order| && order[i] == id && LeaderIndex(|order|, grace, windowEnd, windowEnd + i * grace) == i)
  {
    var order := OrderedIds(env, seed, relays);
    OrderIsPermutation(env, seed, relays);
    var id :| id in ActiveIds(relays);
    assert id in order;
    forall i | 0 <= i < |order| ensures LeaderIndex(|order|, grace, windowEnd, windowEnd + i * grace) == i {
      assert 0 <= i * grace && (i + 1) * grace == i * grace + grace;
      Timeline(|order|, grace, windowEnd, windowEnd + i * grace, i);
    }
  }

  /** Two nodes that list the same active relays in any order, with clocks in the same grace
      interval, name the same leader. */
  lemma NodesAgree(env: Env, seed: string, a: seq<Relay>, b: seq<Relay>, grace: int, windowEnd: int, nowA: int, nowB: int)
    requires TotalPreorder(env.leq) && grace > 0
    requires ActiveIds(a) == ActiveIds(b) != {} && Distinguishable(env, seed, ActiveIds(a))
    requires Max(0, nowA - windowEnd) / grace == Max(0, nowB - windowEnd) / grace
    ensures var x, y := OrderedIds(env, seed, a), OrderedIds(env, seed, b);
      && |x| == |y| && |x| > 0
      && x[LeaderIndex(|x|, grace, windowEnd, nowA)] == y[LeaderIndex(|y|, grace, windowEnd, nowB)]
  {
    SameSetSameOrder(env, seed, a, b);
    EveryRelayLeadsInTurn(env, seed, a, grace, windowEnd);
  }

  /** So nodes agree unless two active relays have one digest. */
  lemma NodesAgreeUnlessCollision(env: Env, seed: string, a: seq<Relay>, b: seq<Relay>, grace: int, windowEnd: int, nowA: int, nowB: int)
    requires TotalPreorder(env.leq) && TellsDigestsApart(env, seed) && grace > 0
    requires ActiveIds(a) == ActiveIds(b) != {} && !Collision(env, seed, ActiveIds(a))
    requires Max(0, nowA - windowEnd) / grace == Max(0, nowB - windowEnd) / grace
    ensures var x, y := OrderedIds(env, seed, a), OrderedIds(env, seed, b);
      && |x| == |y| && |x| > 0
      && x[LeaderIndex(|x|, grace, windowEnd, nowA)] == y[LeaderIndex(|y|, grace, windowEnd, nowB)]
  {
    NoCollisionDistinguishes(env, seed, ActiveIds(a));
    NodesAgree(env, seed, a, b, grace, windowEnd, nowA, nowB);
  }

  /** Exactly one relay answers yes to isSettlementLeader. */
  method IsSettlementLeader(env: Env, seed: string, relays: seq<Relay>, grace: Option<int>, windowEnd: int, now: int, relayId: string)
    returns (r: Result<bool, Error>)
    requires TotalPreorder(env.leq)
    ensures r.Failure? <==> ActiveIds(relays) != {} && grace.Some? && grace.value <= 0
    ensures r.Success? && r.value ==> relayId in ActiveIds(relays)
    ensures r.Success? && ActiveIds(relays) != {} ==>
      var order, g := OrderedIds(env, seed, relays), if grace.Some? then grace.value else 300;
      |order| > 0 && g > 0 && (r.value <==> relayId == order[LeaderIndex(|order|, g, windowEnd, now)])
  {
    var selected := SelectSettlementLeader(env, seed, relays, grace, windowEnd, now);
    OrderIsPermutation(env, seed, relays);
    match selected
    case Failure(e) => r := Failure(e);
    case Success(None) => r := Success(false);
    case Success(Some(l)) =>
      r := Success(l.leaderId == relayId);
      assert l.leaderId in l.orderedRelayIds;
  }
}
