/** The launch-demo allocator: a two-pass greedy choice of members that spreads over gateways first
    and then takes the best ranked processors. */
module LaunchDemo {
  import opened Wrappers
  import opened Ordering
  import Decimal

  /** A normalised processor id: "0x" and hex digits, of any length. Only that it has no colon matters
      here. */
  type ProcessorId = s: string | ':' !in s

  datatype Member = Member(memberId: string, operatorId: string, gatewayId: string, processor: string, processorId: ProcessorId,
                           reportId: string, activeRouteCount: int, routeCapacity: int, heartbeatAgeSeconds: Option<int>)

  datatype Error =
    | TooFewCandidates(found: nat, wanted: int)
    | OneEligibleGateway
    | OneSelectedGateway(selected: int)
    | TooFewReady(selected: int, minReady: int)

  const MAX_SAFE_INTEGER: int := 9_007_199_254_740_991

  // --- Ranking ---

  function Age(m: Member): int {
    if m.heartbeatAgeSeconds.Some? then m.heartbeatAgeSeconds.value else MAX_SAFE_INTEGER
  }

  /** "compare(left, right) <= 0": fewer active routes, then more capacity, then a fresher heartbeat,
      then the processor name. */
  function RankLeq(leq: (string, string) -> bool): (Member, Member) -> bool {
    (left: Member, right: Member) =>
      if left.activeRouteCount != right.activeRouteCount then left.activeRouteCount < right.activeRouteCount
      else if left.routeCapacity != right.routeCapacity then right.routeCapacity < left.routeCapacity
      else if Age(left) != Age(right) then Age(left) < Age(right)
      else leq(left.processor, right.processor)
  }

  lemma RankPreorder(leq: (string, string) -> bool)
    requires TotalPreorder(leq)
    ensures TotalPreorder(RankLeq(leq))
  {
    var order := RankLeq(leq);
    forall a, b ensures order(a, b) || order(b, a) {
      assert leq(a.processor, b.processor) || leq(b.processor, a.processor);
    }
    forall a, b, c | order(a, b) && order(b, c) ensures order(a, c) {
      assert leq(a.processor, b.processor) && leq(b.processor, c.processor) ==> leq(a.processor, c.processor);
    }
  }

  /** The age of a heartbeat; an unknown one counts as the oldest safe integer. */
  function AgeOf(m: Member): int {
    match m.heartbeatAgeSeconds
    case Some(seconds) => seconds
    case None => 9_007_199_254_740_991
  }

  /** Member `a` is strictly better than `b`: fewer active routes; or as many and more capacity; or those
      equal and a fresher heartbeat; or all equal and a name that comes strictly first. */
  predicate Better(leq: (string, string) -> bool, a: Member, b: Member) {
    || a.activeRouteCount < b.activeRouteCount
    || (a.activeRouteCount == b.activeRouteCount && a.routeCapacity > b.routeCapacity)
    || (a.activeRouteCount == b.activeRouteCount && a.routeCapacity == b.routeCapacity && AgeOf(a) < AgeOf(b))
    || (a.activeRouteCount == b.activeRouteCount && a.routeCapacity == b.routeCapacity && AgeOf(a) == AgeOf(b)
        && !leq(b.processor, a.processor))
  }

  /** What the comparator means in the members' own fields. */
  lemma RankMeans(leq: (string, string) -> bool, a: Member, b: Member)
    requires TotalPreorder(leq)
    ensures RankLeq(leq)(a, b) <==> !Better(leq, b, a)
    ensures RankLeq(leq)(a, b) && !RankLeq(leq)(b, a) <==> Better(leq, a, b)
  {
    assert leq(a.processor, b.processor) || leq(b.processor, a.processor);
  }

  function Key(m: Member): string {
    m.gatewayId + ":" + m.processorId
  }

  lemma SamePrefixLength(g: string, p: string, h: string, q: string)
    requires g + ":" + p == h + ":" + q && ':' !in q
    ensures |g| <= |h|
  {
    var key := g + ":" + p;
    assert key[|g|] == ':';
    assert forall i :: |h| < i < |key| ==> key[i] == q[i - |h| - 1] && q[i - |h| - 1] in q;
  }

  /** The key text names the gateway and the processor, even when gateway ids contain colons: its last
      colon is the one in between. */
  lemma KeyNamesPair(a: Member, b: Member)
    requires Key(a) == Key(b)
    ensures a.gatewayId == b.gatewayId && a.processorId == b.processorId
  {
    SamePrefixLength(a.gatewayId, a.processorId, b.gatewayId, b.processorId);
    SamePrefixLength(b.gatewayId, b.processorId, a.gatewayId, a.processorId);
    var n := |a.gatewayId|;
    assert a.gatewayId == Key(a)[..n] && b.gatewayId == Key(b)[..n];
    assert a.processorId == Key(a)[n + 1..] && b.processorId == Key(b)[n + 1..];
  }

  // --- What the two passes take, as positions in the ranking ---

  function Gateways(s: seq<Member>): set<string> {
    if s == [] then {} else Gateways(s[..|s| - 1]) + {s[|s| - 1].gatewayId}
  }

  function Keys(s: seq<Member>): set<string> {
    if s == [] then {} else Keys(s[..|s| - 1]) + {Key(s[|s| - 1])}
  }

  lemma {:induction false} InGateways(s: seq<Member>, g: string)
    ensures g in Gateways(s) <==> exists i :: 0 <= i < |s| && s[i].gatewayId == g
  {
    if s != [] {
      InGateways(s[..|s| - 1], g);
    }
  }

  lemma {:induction false} InKeys(s: seq<Member>, key: string)
    ensures key in Keys(s) <==> exists i :: 0 <= i < |s| && Key(s[i]) == key
  {
    if s != [] {
      InKeys(s[..|s| - 1], key);
    }
  }

  /** The sets only depend on which members there are. */
  lemma SameMembersSameSets(a: seq<Member>, b: seq<Member>)
    requires forall m :: m in a ==> m in b
    ensures Gateways(a) <= Gateways(b) && Keys(a) <= Keys(b)
  {
    forall g | g in Gateways(a) ensures g in Gateways(b) {
      InGateways(a, g);
      InGateways(b, g);
      var i :| 0 <= i < |a| && a[i].gatewayId == g;
      assert a[i] in b;
    }
    forall k | k in Keys(a) ensures k in Keys(b) {
      InKeys(a, k);
      InKeys(b, k);
      var i :| 0 <= i < |a| && Key(a[i]) == k;
      assert a[i] in b;
    }
  }

  predicate GatewayFirst(s: seq<Member>, i: nat)
    requires i < |s|
  {
    forall j :: 0 <= j < i ==> s[j].gatewayId != s[i].gatewayId
  }

  predicate KeyFirst(s: seq<Member>, i: nat)
    requires i < |s|
  {
    forall j :: 0 <= j < i ==> Key(s[j]) != Key(s[i])
  }

  /** Positions below x that come first for their gateway. */
  function Firsts(s: seq<Member>, x: nat): nat
    requires x <= |s|
  {
    if x == 0 then 0 else Firsts(s, x - 1) + if GatewayFirst(s, x - 1) then 1 else 0
  }

  /** Positions below x that come first for their key but not for their gateway. */
  function Others(s: seq<Member>, x: nat): nat
    requires x <= |s|
  {
    if x == 0 then 0 else Others(s, x - 1) + if KeyFirst(s, x - 1) && !GatewayFirst(s, x - 1) then 1 else 0
  }

  function Min(a: nat, b: nat): nat { if a < b then a else b }

  predicate TakenFirst(s: seq<Member>, count: nat, i: nat)
    requires i < |s|
  {
    GatewayFirst(s, i) && Firsts(s, i) < count
  }

  /** What is left to fill after the first pass. */
  function Room(s: seq<Member>, count: nat): nat {
    count - Min(count, Firsts(s, |s|))
  }

  predicate TakenSecond(s: seq<Member>, room: nat, i: nat)
    requires i < |s|
  {
    !GatewayFirst(s, i) && KeyFirst(s, i) && Others(s, i) < room
  }

  /** Positions below x taken by the first pass, the second pass, and either. */
  function FirstPass(s: seq<Member>, count: nat, x: nat): seq<nat>
    requires x <= |s|
  {
    if x == 0 then [] else FirstPass(s, count, x - 1) + if TakenFirst(s, count, x - 1) then [x - 1] else []
  }

  function SecondPass(s: seq<Member>, room: nat, x: nat): seq<nat>
    requires x <= |s|
  {
    if x == 0 then [] else SecondPass(s, room, x - 1) + if TakenSecond(s, room, x - 1) then [x - 1] else []
  }

  function Taken(s: seq<Member>, count: nat, room: nat, x: nat): seq<nat>
    requires x <= |s|
  {
    if x == 0 then []
    else Taken(s, count, room, x - 1) + if TakenFirst(s, count, x - 1) || TakenSecond(s, room, x - 1) then [x - 1] else []
  }

  ghost predicate Below(positions: seq<nat>, n: nat) {
    forall k :: 0 <= k < |positions| ==> positions[k] < n
  }

  ghost predicate Increasing(positions: seq<nat>) {
    forall j, k :: 0 <= j < k < |positions| ==> positions[j] < positions[k]
  }

  function At(s: seq<Member>, positions: seq<nat>): (members: seq<Member>)
    requires Below(positions, |s|)
    ensures |members| == |positions| && forall k :: 0 <= k < |members| ==> members[k] == s[positions[k]]
  {
    seq(|positions|, k requires 0 <= k < |positions| && positions[k] < |s| => s[positions[k]])
  }

  lemma AtConcat(s: seq<Member>, a: seq<nat>, b: seq<nat>)
    requires Below(a, |s|) && Below(b, |s|)
    ensures Below(a + b, |s|) && At(s, a + b) == At(s, a) + At(s, b)
  {}

  lemma Extend(members: seq<Member>, m: Member)
    ensures Keys(members + [m]) == Keys(members) + {Key(m)}
    ensures Gateways(members + [m]) == Gateways(members) + {m.gatewayId}
  {
    assert (members + [m])[..|members + [m]| - 1] == members;
  }

  lemma {:induction false} FirstPassBelow(s: seq<Member>, count: nat, x: nat)
    requires x <= |s|
    ensures Below(FirstPass(s, count, x), x)
  {
    if x > 0 {
      FirstPassBelow(s, count, x - 1);
    }
  }

  lemma {:induction false} SecondPassBelow(s: seq<Member>, room: nat, x: nat)
    requires x <= |s|
    ensures Below(SecondPass(s, room, x), x)
  {
    if x > 0 {
      SecondPassBelow(s, room, x - 1);
    }
  }

  lemma {:induction false} TakenInOrder(s: seq<Member>, count: nat, room: nat, x: nat)
    requires x <= |s|
    ensures Below(Taken(s, count, room, x), x) && Increasing(Taken(s, count, room, x))
  {
    if x > 0 {
      TakenInOrder(s, count, room, x - 1);
    }
  }

  lemma {:induction false} TakenIsBothPasses(s: seq<Member>, count: nat, room: nat, x: nat)
    requires x <= |s|
    ensures multiset(FirstPass(s, count, x)) + multiset(SecondPass(s, room, x)) == multiset(Taken(s, count, room, x))
  {
    if x > 0 {
      TakenIsBothPasses(s, count, room, x - 1);
    }
  }

  lemma PickedBelow(s: seq<Member>, count: nat, x: nat)
    requires x <= |s|
    ensures Below(FirstPass(s, count, |s|), |s|) && Below(SecondPass(s, Room(s, count), x), |s|)
  {
    FirstPassBelow(s, count, |s|);
    SecondPassBelow(s, Room(s, count), x);
  }

  // --- Counting ---

  lemma GatewaySeen(s: seq<Member>, i: nat)
    requires i < |s|
    ensures s[..i + 1] == s[..i] + [s[i]]
    ensures s[i].gatewayId in Gateways(s[..i]) <==> !GatewayFirst(s, i)
    ensures Key(s[i]) in Keys(s[..i]) <==> !KeyFirst(s, i)
  {
    InGateways(s[..i], s[i].gatewayId);
    InKeys(s[..i], Key(s[i]));
    assert forall j :: 0 <= j < i ==> s[..i][j] == s[j];
  }

  lemma SizeOneMore(a: set<string>, x: string)
    ensures |a + {x}| == if x in a then |a| else |a| + 1
  {
    if x in a { assert a + {x} == a; }
  }

  lemma {:induction false} FirstsCountGateways(s: seq<Member>, x: nat)
    requires x <= |s|
    ensures |Gateways(s[..x])| == Firsts(s, x)
  {
    if x > 0 {
      FirstsCountGateways(s, x - 1);
      GatewaySeen(s, x - 1);
      Extend(s[..x - 1], s[x - 1]);
      SizeOneMore(Gateways(s[..x - 1]), s[x - 1].gatewayId);
    }
  }

  /** A position that comes first for its gateway comes first for its key. */
  lemma GatewayFirstIsKeyFirst(s: seq<Member>, i: nat)
    requires i < |s| && GatewayFirst(s, i)
    ensures KeyFirst(s, i)
  {
    forall j | 0 <= j < i ensures Key(s[j]) != Key(s[i]) {
      KeyDiffers(s[j], s[i]);
    }
  }

  lemma KeyDiffers(a: Member, b: Member)
    requires a.gatewayId != b.gatewayId
    ensures Key(a) != Key(b)
  {
    if Key(a) == Key(b) {
      KeyNamesPair(a, b);
    }
  }

  lemma CountKeysStep(s: seq<Member>, x: nat)
    requires x < |s|
    ensures |Keys(s[..x + 1])| == |Keys(s[..x])| + if KeyFirst(s, x) then 1 else 0
    ensures GatewayFirst(s, x) ==> KeyFirst(s, x)
  {
    GatewaySeen(s, x);
    Extend(s[..x], s[x]);
    SizeOneMore(Keys(s[..x]), Key(s[x]));
    if GatewayFirst(s, x) {
      GatewayFirstIsKeyFirst(s, x);
    }
  }

  lemma {:induction false} CountKeys(s: seq<Member>, x: nat)
    requires x <= |s|
    ensures |Keys(s[..x])| == Firsts(s, x) + Others(s, x)
  {
    if x > 0 {
      CountKeys(s, x - 1);
      CountKeysStep(s, x - 1);
    }
  }

  lemma {:induction false} PassSizes(s: seq<Member>, count: nat, room: nat, x: nat)
    requires x <= |s|
    ensures |FirstPass(s, count, x)| == Min(count, Firsts(s, x))
    ensures |SecondPass(s, room, x)| == Min(room, Others(s, x))
  {
    if x > 0 {
      PassSizes(s, count, room, x - 1);
    }
  }

  lemma {:induction false} FirstsGrow(s: seq<Member>, x: nat, y: nat)
    requires x <= y <= |s|
    ensures Firsts(s, x) <= Firsts(s, y) && Others(s, x) <= Others(s, y)
    decreases y
  {
    if x < y {
      FirstsGrow(s, x, y - 1);
    }
  }

  // --- Which positions are taken ---

  lemma {:induction false} InFirstPass(s: seq<Member>, count: nat, x: nat, i: nat)
    requires x <= |s|
    ensures i in FirstPass(s, count, x) <==> i < x && TakenFirst(s, count, i)
  {
    if x > 0 {
      InFirstPass(s, count, x - 1, i);
    }
  }

  lemma {:induction false} InSecondPass(s: seq<Member>, room: nat, x: nat, i: nat)
    requires x <= |s|
    ensures i in SecondPass(s, room, x) <==> i < x && TakenSecond(s, room, i)
  {
    if x > 0 {
      InSecondPass(s, room, x - 1, i);
    }
  }

  lemma {:induction false} FirstPassStops(s: seq<Member>, count: nat, x: nat, y: nat)
    requires x <= y <= |s| && Firsts(s, x) >= count
    ensures FirstPass(s, count, y) == FirstPass(s, count, x)
    decreases y
  {
    if x < y {
      FirstPassStops(s, count, x, y - 1);
      FirstsGrow(s, x, y - 1);
    }
  }

  lemma {:induction false} SecondPassStops(s: seq<Member>, room: nat, x: nat, y: nat)
    requires x <= y <= |s| && Others(s, x) >= room
    ensures SecondPass(s, room, y) == SecondPass(s, room, x)
    decreases y
  {
    if x < y {
      SecondPassStops(s, room, x, y - 1);
      FirstsGrow(s, x, y - 1);
    }
  }

  ghost function FirstPassMembers(s: seq<Member>, count: nat, x: nat): (members: seq<Member>)
    requires x <= |s|
  {
    FirstPassBelow(s, count, x);
    At(s, FirstPass(s, count, x))
  }

  lemma FirstPassMembersStep(s: seq<Member>, count: nat, x: nat)
    requires x < |s|
    ensures FirstPassMembers(s, count, x + 1) == FirstPassMembers(s, count, x) + if TakenFirst(s, count, x) then [s[x]] else []
  {
    FirstPassBelow(s, count, x);
    if TakenFirst(s, count, x) {
      AtConcat(s, FirstPass(s, count, x), [x]);
    }
  }

  /** What the first pass keeps of the gateways: never one it has not seen, never one twice, and all
      of them while it has room. */
  ghost predicate Covers(taken: set<string>, seen: set<string>, size: nat, hadRoom: bool) {
    taken <= seen && |taken| == size && (hadRoom ==> taken == seen)
  }

  lemma FirstPassSizeStep(s: seq<Member>, count: nat, x: nat)
    requires x < |s|
    ensures |FirstPass(s, count, x + 1)| == |FirstPass(s, count, x)| + if TakenFirst(s, count, x) then 1 else 0
    ensures Firsts(s, x + 1) == Firsts(s, x) + if GatewayFirst(s, x) then 1 else 0
    ensures !TakenFirst(s, count, x) ==> FirstPassMembers(s, count, x + 1) == FirstPassMembers(s, count, x)
    ensures s[..x + 1] == s[..x] + [s[x]]
  {
    FirstPassMembersStep(s, count, x);
  }

  lemma {:induction false} FirstPassGateways(s: seq<Member>, count: nat, x: nat)
    requires x <= |s|
    ensures Covers(Gateways(FirstPassMembers(s, count, x)), Gateways(s[..x]), |FirstPass(s, count, x)|, Firsts(s, x) <= count)
  {
    if x > 0 {
      FirstPassGateways(s, count, x - 1);
      FirstPassGatewaysStep(s, count, x - 1);
    }
  }

  lemma FirstPassGatewaysStep(s: seq<Member>, count: nat, x: nat)
    requires x < |s|
    requires Covers(Gateways(FirstPassMembers(s, count, x)), Gateways(s[..x]), |FirstPass(s, count, x)|, Firsts(s, x) <= count)
    ensures Covers(Gateways(FirstPassMembers(s, count, x + 1)), Gateways(s[..x + 1]), |FirstPass(s, count, x + 1)|,
                   Firsts(s, x + 1) <= count)
  {
    var g, take := s[x].gatewayId, TakenFirst(s, count, x);
    var taken, seen, size := Gateways(FirstPassMembers(s, count, x)), Gateways(s[..x]), |FirstPass(s, count, x)|;
    GatewaySeen(s, x);
    FirstPassSizeStep(s, count, x);
    FirstPassMembersStep(s, count, x);
    CoversOneMore(taken, seen, size, Firsts(s, x) <= count, g, take, Firsts(s, x + 1) <= count);
    Extend(s[..x], s[x]);
    Extend(FirstPassMembers(s, count, x), s[x]);
    assert Gateways(FirstPassMembers(s, count, x + 1)) == if take then taken + {g} else taken;
  }

  lemma CoversOneMore(taken: set<string>, seen: set<string>, size: nat, hadRoom: bool, g: string, take: bool, hasRoom: bool)
    requires Covers(taken, seen, size, hadRoom) && (hasRoom ==> hadRoom)
    requires (take ==> g !in seen) && (g !in seen && !take ==> !hasRoom)
    ensures Covers(if take then taken + {g} else taken, seen + {g}, if take then size + 1 else size, hasRoom)
  {}

  lemma KeyAt(s: seq<Member>, positions: seq<nat>, p: nat)
    requires Below(positions, |s|) && p in positions
    ensures p < |s| && Key(s[p]) in Keys(At(s, positions))
  {
    var k :| 0 <= k < |positions| && positions[k] == p;
    InKeys(At(s, positions), Key(s[p]));
    assert Key(At(s, positions)[k]) == Key(s[p]);
  }

  /** A key that is not new to the ranking has been taken by one of the passes, as long as there is
      room. */
  lemma SeenKeyIsTaken(s: seq<Member>, count: nat, room: nat, x: nat)
    requires x < |s| && Firsts(s, |s|) <= count && Others(s, x) < room && (GatewayFirst(s, x) || !KeyFirst(s, x))
    requires Below(FirstPass(s, count, |s|), |s|) && Below(SecondPass(s, room, x), |s|)
    ensures Key(s[x]) in Keys(At(s, FirstPass(s, count, |s|))) + Keys(At(s, SecondPass(s, room, x)))
  {
    var y := if GatewayFirst(s, x) then x else FirstOfKey(s, x);
    if GatewayFirst(s, y) {
      FirstsGrow(s, y + 1, |s|);
      InFirstPass(s, count, |s|, y);
      KeyAt(s, FirstPass(s, count, |s|), y);
    } else {
      FirstsGrow(s, y, x);
      InSecondPass(s, room, x, y);
      KeyAt(s, SecondPass(s, room, x), y);
    }
  }

  ghost function FirstOfKey(s: seq<Member>, x: nat): (y: nat)
    requires x < |s|
    ensures y <= x && KeyFirst(s, y) && Key(s[y]) == Key(s[x])
  {
    if KeyFirst(s, x) then x else
      var j :| 0 <= j < x && Key(s[j]) == Key(s[x]);
      FirstOfKey(s, j)
  }

  /** A key that is new to the ranking, at a position that is not its gateway's first, has not been
      taken: the first pass only takes gateways' first members. */
  lemma NewKeyIsFree(s: seq<Member>, count: nat, room: nat, x: nat)
    requires x < |s| && !GatewayFirst(s, x) && KeyFirst(s, x)
    requires Below(FirstPass(s, count, |s|), |s|) && Below(SecondPass(s, room, x), |s|)
    ensures Key(s[x]) !in Keys(At(s, FirstPass(s, count, |s|))) + Keys(At(s, SecondPass(s, room, x)))
  {
    var first, second := FirstPass(s, count, |s|), SecondPass(s, room, x);
    InKeys(At(s, first), Key(s[x]));
    InKeys(At(s, second), Key(s[x]));
    forall k | 0 <= k < |first| ensures Key(s[first[k]]) != Key(s[x]) {
      var p := first[k];
      assert p in first;
      InFirstPass(s, count, |s|, p);
      if s[p].gatewayId == s[x].gatewayId {
        assert p < x;
      } else {
        KeyDiffers(s[p], s[x]);
      }
    }
    forall k | 0 <= k < |second| ensures Key(s[second[k]]) != Key(s[x]) {
      assert second[k] in second;
      InSecondPass(s, room, x, second[k]);
    }
  }

  function AtLeastZero(count: int): nat { if count < 0 then 0 else count }

  /** The positions that the two passes take, in the order in which they take them. */
  function Picked(s: seq<Member>, count: nat): seq<nat> {
    FirstPass(s, count, |s|) + SecondPass(s, Room(s, count), |s|)
  }

  /** The same positions in rank order. */
  function InRankOrder(s: seq<Member>, count: nat): seq<nat> {
    Taken(s, count, Room(s, count), |s|)
  }

  function Selection(s: seq<Member>, count: nat): seq<Member> {
    PickedBelow(s, count, |s|);
    At(s, Picked(s, count))
  }

  function Renumbered(members: seq<Member>): seq<Member> {
    seq(|members|, i requires 0 <= i < |members| => members[i].(memberId := "member-" + Decimal.ToText(i + 1)))
  }

  // --- What the choice means ---

  ghost function FirstOfGateway(s: seq<Member>, x: nat): (y: nat)
    requires x < |s|
    ensures y <= x && GatewayFirst(s, y) && s[y].gatewayId == s[x].gatewayId
  {
    if GatewayFirst(s, x) then x else
      var j :| 0 <= j < x && s[j].gatewayId == s[x].gatewayId;
      FirstOfGateway(s, j)
  }

  lemma PickedExactly(s: seq<Member>, count: nat, i: nat)
    ensures i in Picked(s, count) <==> i < |s| && (TakenFirst(s, count, i) || TakenSecond(s, Room(s, count), i))
  {
    InFirstPass(s, count, |s|, i);
    InSecondPass(s, Room(s, count), |s|, i);
  }

  /** With a member, the best of its gateway is picked too. */
  lemma GatewayBestPicked(s: seq<Member>, count: nat, i: nat)
    requires i in Picked(s, count)
    ensures i < |s| && FirstOfGateway(s, i) in Picked(s, count) && TakenFirst(s, count, FirstOfGateway(s, i))
  {
    PickedExactly(s, count, i);
    var f := FirstOfGateway(s, i);
    PickedExactly(s, count, f);
    FirstsGrow(s, f + 1, |s|);
  }

  /** Everything picked stands before a gateway that was left out. */
  lemma BeforeLeftOutGateway(s: seq<Member>, count: nat, i: nat, c: nat)
    requires i in Picked(s, count) && c < |s| && FirstOfGateway(s, c) !in Picked(s, count)
    ensures i < |s| && i < c
  {
    var f := FirstOfGateway(s, c);
    PickedExactly(s, count, i);
    PickedExactly(s, count, f);
    FirstsGrow(s, f, |s|);
    if i >= f {
      FirstsGrow(s, f, i);
    }
  }

  /** Everything picked but the best of a gateway stands before a key that was left out. */
  lemma BeforeLeftOutKey(s: seq<Member>, count: nat, i: nat, c: nat)
    requires i in Picked(s, count) && c < |s| && FirstOfKey(s, c) !in Picked(s, count)
    ensures i < |s| && (TakenFirst(s, count, i) || i < c)
  {
    var f := FirstOfKey(s, c);
    PickedExactly(s, count, i);
    PickedExactly(s, count, f);
    FirstsGrow(s, f, |s|);
    if i >= f {
      FirstsGrow(s, f, i);
    }
  }

  /** No candidate of the gateway is better. */
  ghost predicate BestOfGateway(leq: (string, string) -> bool, candidates: seq<Member>, m: Member) {
    forall c :: c in candidates && c.gatewayId == m.gatewayId ==> !Better(leq, c, m)
  }

  ghost predicate HasBest(leq: (string, string) -> bool, candidates: seq<Member>, members: seq<Member>, gatewayId: string) {
    exists m :: m in members && m.gatewayId == gatewayId && BestOfGateway(leq, candidates, m)
  }

  /** The members are well chosen: of every gateway among them the best candidate is there; no candidate
      of a gateway that was left out is better than any member; and no candidate whose key was left
      out is better than any member that is not itself the best of its gateway. */
  ghost predicate WellChosen(leq: (string, string) -> bool, candidates: seq<Member>, members: seq<Member>) {
    && (forall m :: m in members ==> HasBest(leq, candidates, members, m.gatewayId))
    && (forall m, c :: m in members && c in candidates && c.gatewayId !in Gateways(members) ==> !Better(leq, c, m))
    && (forall m, c :: m in members && c in candidates && Key(c) !in Keys(members) ==>
          BestOfGateway(leq, candidates, m) || !Better(leq, c, m))
  }

  lemma EarlierIsNoWorse(leq: (string, string) -> bool, s: seq<Member>, i: nat, j: nat)
    requires TotalPreorder(leq) && Sorted(RankLeq(leq), s) && i <= j < |s|
    ensures !Better(leq, s[j], s[i])
  {
    RankMeans(leq, s[i], s[j]);
  }

  lemma FirstIsBest(leq: (string, string) -> bool, s: seq<Member>, i: nat)
    requires TotalPreorder(leq) && Sorted(RankLeq(leq), s) && i < |s| && GatewayFirst(s, i)
    ensures BestOfGateway(leq, s, s[i])
  {
    forall c | c in s && c.gatewayId == s[i].gatewayId ensures !Better(leq, c, s[i]) {
      var j :| 0 <= j < |s| && s[j] == c;
      EarlierIsNoWorse(leq, s, i, j);
    }
  }

  lemma PickedPosition(s: seq<Member>, count: nat, m: Member) returns (i: nat)
    requires m in Selection(s, count)
    ensures i in Picked(s, count) && i < |s| && s[i] == m
  {
    PickedBelow(s, count, |s|);
    var k :| 0 <= k < |Selection(s, count)| && Selection(s, count)[k] == m;
    i := Picked(s, count)[k];
  }

  lemma PickedSelected(s: seq<Member>, count: nat, i: nat)
    requires i in Picked(s, count)
    ensures i < |s| && s[i] in Selection(s, count)
  {
    PickedBelow(s, count, |s|);
    var k :| 0 <= k < |Picked(s, count)| && Picked(s, count)[k] == i;
    assert Selection(s, count)[k] == s[i];
  }

  /** Gateway and key of a picked position are among those selected. */
  lemma PickedNamed(s: seq<Member>, count: nat, i: nat)
    requires i < |s|
    ensures i in Picked(s, count) ==> s[i].gatewayId in Gateways(Selection(s, count)) && Key(s[i]) in Keys(Selection(s, count))
  {
    InGateways(Selection(s, count), s[i].gatewayId);
    InKeys(Selection(s, count), Key(s[i]));
    if i in Picked(s, count) {
      PickedSelected(s, count, i);
    }
  }

  lemma SelectionHasBest(leq: (string, string) -> bool, s: seq<Member>, count: nat, m: Member)
    requires TotalPreorder(leq) && Sorted(RankLeq(leq), s) && m in Selection(s, count)
    ensures HasBest(leq, s, Selection(s, count), m.gatewayId)
  {
    var i := PickedPosition(s, count, m);
    GatewayBestPicked(s, count, i);
    PickedSelected(s, count, FirstOfGateway(s, i));
    FirstIsBest(leq, s, FirstOfGateway(s, i));
  }

  lemma GatewayLeftOut(leq: (string, string) -> bool, s: seq<Member>, count: nat, m: Member, c: Member)
    requires TotalPreorder(leq) && Sorted(RankLeq(leq), s) && m in Selection(s, count)
    requires c in s && c.gatewayId !in Gateways(Selection(s, count))
    ensures !Better(leq, c, m)
  {
    var i := PickedPosition(s, count, m);
    var j :| 0 <= j < |s| && s[j] == c;
    PickedNamed(s, count, FirstOfGateway(s, j));
    BeforeLeftOutGateway(s, count, i, j);
    EarlierIsNoWorse(leq, s, i, j);
  }

  lemma KeyLeftOut(leq: (string, string) -> bool, s: seq<Member>, count: nat, m: Member, c: Member)
    requires TotalPreorder(leq) && Sorted(RankLeq(leq), s) && m in Selection(s, count)
    requires c in s && Key(c) !in Keys(Selection(s, count))
    ensures BestOfGateway(leq, s, m) || !Better(leq, c, m)
  {
    var i := PickedPosition(s, count, m);
    var j :| 0 <= j < |s| && s[j] == c;
    PickedNamed(s, count, FirstOfKey(s, j));
    BeforeLeftOutKey(s, count, i, j);
    if TakenFirst(s, count, i) {
      FirstIsBest(leq, s, i);
    } else {
      EarlierIsNoWorse(leq, s, i, j);
    }
  }

  /** The greedy selection is well chosen. */
  lemma SelectionWellChosen(leq: (string, string) -> bool, s: seq<Member>, count: nat)
    requires TotalPreorder(leq) && Sorted(RankLeq(leq), s)
    ensures WellChosen(leq, s, Selection(s, count))
  {
    forall m | m in Selection(s, count) ensures HasBest(leq, s, Selection(s, count), m.gatewayId) {
      SelectionHasBest(leq, s, count, m);
    }
    forall m, c | m in Selection(s, count) && c in s && c.gatewayId !in Gateways(Selection(s, count)) ensures !Better(leq, c, m) {
      GatewayLeftOut(leq, s, count, m, c);
    }
    forall m, c | m in Selection(s, count) && c in s && Key(c) !in Keys(Selection(s, count))
      ensures BestOfGateway(leq, s, m) || !Better(leq, c, m)
    {
      KeyLeftOut(leq, s, count, m, c);
    }
  }

  lemma {:induction false} PassesInOrder(s: seq<Member>, count: nat, room: nat, x: nat)
    requires x <= |s|
    ensures Below(FirstPass(s, count, x), x) && Increasing(FirstPass(s, count, x))
    ensures Below(SecondPass(s, room, x), x) && Increasing(SecondPass(s, room, x))
  {
    if x > 0 {
      PassesInOrder(s, count, room, x - 1);
    }
  }

  /** First one member of each gateway, best first; then the others, best first. */
  ghost predicate TwoRuns(leq: (string, string) -> bool, members: seq<Member>) {
    var g := |Gateways(members)|;
    && (forall i, j :: 0 <= i < j < g <= |members| ==>
          members[i].gatewayId != members[j].gatewayId && !Better(leq, members[j], members[i]))
    && (forall i, j :: g <= i < j < |members| ==> !Better(leq, members[j], members[i]))
  }

  lemma FirstsOfDifferentGateways(s: seq<Member>, count: nat, i: nat, j: nat)
    requires i < j < |FirstPass(s, count, |s|)|
    ensures var p := FirstPass(s, count, |s|);
      p[i] < p[j] < |s| && s[p[i]].gatewayId != s[p[j]].gatewayId
  {
    var p := FirstPass(s, count, |s|);
    PassesInOrder(s, count, 0, |s|);
    assert p[j] in p;
    InFirstPass(s, count, |s|, p[j]);
  }

  lemma FirstRun(leq: (string, string) -> bool, s: seq<Member>, count: nat, i: nat, j: nat)
    requires TotalPreorder(leq) && Sorted(RankLeq(leq), s) && i < j < |FirstPass(s, count, |s|)|
    ensures var members := Selection(s, count);
      j < |members| && members[i].gatewayId != members[j].gatewayId && !Better(leq, members[j], members[i])
  {
    PickedBelow(s, count, |s|);
    var p := FirstPass(s, count, |s|);
    FirstsOfDifferentGateways(s, count, i, j);
    EarlierIsNoWorse(leq, s, p[i], p[j]);
    assert Picked(s, count)[i] == p[i] && Picked(s, count)[j] == p[j];
  }

  lemma SecondRun(leq: (string, string) -> bool, s: seq<Member>, count: nat, i: nat, j: nat)
    requires TotalPreorder(leq) && Sorted(RankLeq(leq), s) && i < j < |SecondPass(s, Room(s, count), |s|)|
    ensures var members, g := Selection(s, count), |FirstPass(s, count, |s|)|;
      g + j < |members| && !Better(leq, members[g + j], members[g + i])
  {
    PassesInOrder(s, count, Room(s, count), |s|);
    var q := SecondPass(s, Room(s, count), |s|);
    SecondMember(s, count, i);
    SecondMember(s, count, j);
    EarlierIsNoWorse(leq, s, q[i], q[j]);
  }

  lemma SecondMember(s: seq<Member>, count: nat, i: nat)
    requires i < |SecondPass(s, Room(s, count), |s|)|
    ensures var g, q := |FirstPass(s, count, |s|)|, SecondPass(s, Room(s, count), |s|);
      g + i < |Selection(s, count)| && q[i] < |s| && Selection(s, count)[g + i] == s[q[i]]
  {
    PickedBelow(s, count, |s|);
    var g, q := |FirstPass(s, count, |s|)|, SecondPass(s, Room(s, count), |s|);
    assert Picked(s, count)[g + i] == q[i];
  }

  lemma RunSizes(s: seq<Member>, count: nat)
    ensures |FirstPass(s, count, |s|)| == |Gateways(Selection(s, count))|
    ensures |Selection(s, count)| == |FirstPass(s, count, |s|)| + |SecondPass(s, Room(s, count), |s|)|
  {
    PickedBelow(s, count, |s|);
    PassSizes(s, count, Room(s, count), |s|);
    SelectionGateways(s, count);
  }

  lemma SelectionTwoRuns(leq: (string, string) -> bool, s: seq<Member>, count: nat)
    requires TotalPreorder(leq) && Sorted(RankLeq(leq), s)
    ensures TwoRuns(leq, Selection(s, count))
  {
    RunSizes(s, count);
    AllFirstRun(leq, s, count);
    AllSecondRun(leq, s, count);
  }

  lemma AllFirstRun(leq: (string, string) -> bool, s: seq<Member>, count: nat)
    requires TotalPreorder(leq) && Sorted(RankLeq(leq), s)
    ensures var members := Selection(s, count); forall i, j :: 0 <= i < j < |FirstPass(s, count, |s|)| <= |members| ==>
      members[i].gatewayId != members[j].gatewayId && !Better(leq, members[j], members[i])
  {
    var members := Selection(s, count);
    forall i, j | 0 <= i < j < |FirstPass(s, count, |s|)| <= |members|
      ensures members[i].gatewayId != members[j].gatewayId && !Better(leq, members[j], members[i])
    {
      FirstRun(leq, s, count, i, j);
    }
  }

  lemma AllSecondRun(leq: (string, string) -> bool, s: seq<Member>, count: nat)
    requires TotalPreorder(leq) && Sorted(RankLeq(leq), s)
    ensures var members := Selection(s, count); forall i, j :: |FirstPass(s, count, |s|)| <= i < j < |members| ==>
      !Better(leq, members[j], members[i])
  {
    var members, g := Selection(s, count), |FirstPass(s, count, |s|)|;
    RunSizes(s, count);
    forall i, j | g <= i < j < |members| ensures !Better(leq, members[j], members[i]) {
      SecondRun(leq, s, count, i - g, j - g);
    }
  }

  lemma RenumberedTwoRuns(leq: (string, string) -> bool, chosen: seq<Member>)
    requires TwoRuns(leq, chosen) && Gateways(Renumbered(chosen)) == Gateways(chosen)
    ensures TwoRuns(leq, Renumbered(chosen))
  {
    var members := Renumbered(chosen);
    forall i, j | 0 <= i < j < |members| ensures Better(leq, members[j], members[i]) <==> Better(leq, chosen[j], chosen[i]) {}
  }

  lemma BetterIgnoresIds(leq: (string, string) -> bool, a: Member, b: Member, id: string)
    ensures Better(leq, a, b.(memberId := id)) <==> Better(leq, a, b)
  {}

  lemma BestIgnoresIds(leq: (string, string) -> bool, s: seq<Member>, candidates: seq<Member>, m: Member, id: string)
    requires forall c :: c in candidates <==> c in s
    ensures BestOfGateway(leq, s, m) ==> BestOfGateway(leq, candidates, m.(memberId := id))
  {
    forall c | c in candidates && c.gatewayId == m.gatewayId ensures Better(leq, c, m.(memberId := id)) <==> Better(leq, c, m) {
      BetterIgnoresIds(leq, c, m, id);
    }
  }

  lemma RenumberedHasBest(leq: (string, string) -> bool, s: seq<Member>, candidates: seq<Member>, chosen: seq<Member>, gatewayId: string)
    requires (forall c :: c in candidates <==> c in s) && HasBest(leq, s, chosen, gatewayId)
    ensures HasBest(leq, candidates, Renumbered(chosen), gatewayId)
  {
    var m :| m in chosen && m.gatewayId == gatewayId && BestOfGateway(leq, s, m);
    var i :| 0 <= i < |chosen| && chosen[i] == m;
    var r := Renumbered(chosen)[i];
    BestIgnoresIds(leq, s, candidates, m, r.memberId);
    assert r in Renumbered(chosen) && r == m.(memberId := r.memberId);
  }

  lemma RenumberedOrigin(chosen: seq<Member>, r: Member) returns (m: Member)
    requires r in Renumbered(chosen)
    ensures m in chosen && r == m.(memberId := r.memberId)
  {
    var i :| 0 <= i < |chosen| && Renumbered(chosen)[i] == r;
    m := chosen[i];
  }

  /** Renumbering, and the order in which the candidates were listed, change nothing about that. */
  lemma RenumberedWellChosen(leq: (string, string) -> bool, s: seq<Member>, candidates: seq<Member>, chosen: seq<Member>)
    requires (forall c :: c in candidates <==> c in s) && WellChosen(leq, s, chosen)
    requires Gateways(Renumbered(chosen)) == Gateways(chosen) && Keys(Renumbered(chosen)) == Keys(chosen)
    ensures WellChosen(leq, candidates, Renumbered(chosen))
  {
    var members := Renumbered(chosen);
    forall r | r in members ensures HasBest(leq, candidates, members, r.gatewayId) {
      var m := RenumberedOrigin(chosen, r);
      RenumberedHasBest(leq, s, candidates, chosen, m.gatewayId);
    }
    forall r, c | r in members && c in candidates && c.gatewayId !in Gateways(members) ensures !Better(leq, c, r) {
      var m := RenumberedOrigin(chosen, r);
      BetterIgnoresIds(leq, c, m, r.memberId);
    }
    forall r, c | r in members && c in candidates && Key(c) !in Keys(members)
      ensures BestOfGateway(leq, candidates, r) || !Better(leq, c, r)
    {
      var m := RenumberedOrigin(chosen, r);
      BetterIgnoresIds(leq, c, m, r.memberId);
      BestIgnoresIds(leq, s, candidates, m, r.memberId);
    }
  }

  lemma AnswerWellChosen(leq: (string, string) -> bool, candidates: seq<Member>, count: nat)
    requires TotalPreorder(leq)
    ensures WellChosen(leq, candidates, Renumbered(Selection(StableSort(RankLeq(leq), candidates), count)))
    ensures TwoRuns(leq, Renumbered(Selection(StableSort(RankLeq(leq), candidates), count)))
  {
    var s := StableSort(RankLeq(leq), candidates);
    RankPreorder(leq);
    SortSorted(RankLeq(leq), candidates);
    SortMembers(RankLeq(leq), candidates);
    SelectionWellChosen(leq, s, count);
    RenumberedSame(Selection(s, count));
    RenumberedWellChosen(leq, s, candidates, Selection(s, count));
    SelectionTwoRuns(leq, s, count);
    RenumberedTwoRuns(leq, Selection(s, count));
  }

  // --- The method ---

  /** One turn of the first loop, on the specification's side. */
  lemma FirstTurn(s: seq<Member>, count: nat, x: nat)
    requires x < |s| && Below(FirstPass(s, count, x), |s|) && |FirstPass(s, count, x)| < count
    ensures Below(FirstPass(s, count, x + 1), |s|)
    ensures s[x].gatewayId in Gateways(At(s, FirstPass(s, count, x))) <==> !GatewayFirst(s, x)
    ensures At(s, FirstPass(s, count, x + 1)) == At(s, FirstPass(s, count, x)) + if GatewayFirst(s, x) then [s[x]] else []
  {
    TakesIfFirst(s, count, x);
    FirstPassMembersStep(s, count, x);
    FirstPassBelow(s, count, x + 1);
    RoomKnowsGateways(s, count, x);
    GatewaySeen(s, x);
  }

  /** While there is room, the gateways taken are the gateways seen. */
  lemma RoomKnowsGateways(s: seq<Member>, count: nat, x: nat)
    requires x < |s| && |FirstPass(s, count, x)| < count
    ensures Gateways(FirstPassMembers(s, count, x)) == Gateways(s[..x])
  {
    PassSizes(s, count, 0, x);
    FirstPassGateways(s, count, x);
  }

  lemma TakesIfFirst(s: seq<Member>, count: nat, x: nat)
    requires x < |s| && |FirstPass(s, count, x)| < count
    ensures TakenFirst(s, count, x) <==> GatewayFirst(s, x)
  {
    PassSizes(s, count, 0, x);
  }

  /** The first loop's selection before position x. */
  ghost predicate FirstState(s: seq<Member>, count: nat, x: nat, selected: seq<Member>) {
    x <= |s| && Below(FirstPass(s, count, x), |s|) && selected == At(s, FirstPass(s, count, x))
  }

  lemma FirstTurnState(s: seq<Member>, count: nat, x: nat, selected: seq<Member>)
    requires x < |s| && FirstState(s, count, x, selected) && |selected| < count
    ensures if s[x].gatewayId in Gateways(selected) then FirstState(s, count, x + 1, selected)
            else FirstState(s, count, x + 1, selected + [s[x]])
  {
    FirstTurn(s, count, x);
    assert selected + [] == selected;
  }

  lemma FirstLoopStops(s: seq<Member>, count: nat, x: nat, selected: seq<Member>)
    requires FirstState(s, count, x, selected) && |selected| >= count
    ensures FirstState(s, count, |s|, selected)
  {
    PassSizes(s, count, 0, x);
    FirstPassStops(s, count, x, |s|);
  }

  method FirstLoop(s: seq<Member>, count: int) returns (selected: seq<Member>, selectedKeys: set<string>)
    ensures Below(FirstPass(s, AtLeastZero(count), |s|), |s|)
    ensures selected == At(s, FirstPass(s, AtLeastZero(count), |s|)) && selectedKeys == Keys(selected)
  {
    ghost var c := AtLeastZero(count);
    selected, selectedKeys := [], {};
    var selectedGateways: set<string> := {};
    var x := 0;
    while x < |s|
      invariant FirstState(s, c, x, selected) && selectedKeys == Keys(selected)
      invariant selectedGateways == Gateways(selected)
    {
      if |selected| >= count {
        FirstLoopStops(s, c, x, selected);
        return;
      }
      FirstTurnState(s, c, x, selected);
      var candidate := s[x];
      if candidate.gatewayId !in selectedGateways {
        Extend(selected, candidate);
        selected := selected + [candidate];
        selectedKeys := selectedKeys + {Key(candidate)};
        selectedGateways := selectedGateways + {candidate.gatewayId};
      }
      x := x + 1;
    }
  }

  /** One turn of the second loop. */
  lemma SecondTurn(s: seq<Member>, count: nat, x: nat)
    requires x < |s| && Below(FirstPass(s, count, |s|), |s|) && Below(SecondPass(s, Room(s, count), x), |s|)
    requires |FirstPass(s, count, |s|)| + |SecondPass(s, Room(s, count), x)| < count
    ensures Below(SecondPass(s, Room(s, count), x + 1), |s|)
    ensures var room := Room(s, count);
      && (Key(s[x]) in Keys(At(s, FirstPass(s, count, |s|))) + Keys(At(s, SecondPass(s, room, x))) <==> !TakenSecond(s, room, x))
      && At(s, SecondPass(s, room, x + 1)) == At(s, SecondPass(s, room, x)) + if TakenSecond(s, room, x) then [s[x]] else []
  {
    var room := Room(s, count);
    RoomLeft(s, count, x);
    SecondPassBelow(s, room, x + 1);
    SecondPassStep(s, room, x);
    if TakenSecond(s, room, x) {
      NewKeyIsFree(s, count, room, x);
    } else {
      SeenKeyIsTaken(s, count, room, x);
    }
  }

  lemma RoomLeft(s: seq<Member>, count: nat, x: nat)
    requires x < |s| && |FirstPass(s, count, |s|)| + |SecondPass(s, Room(s, count), x)| < count
    ensures Firsts(s, |s|) <= count && Others(s, x) < Room(s, count)
  {
    PassSizes(s, count, Room(s, count), |s|);
    PassSizes(s, count, Room(s, count), x);
  }

  lemma SecondPassStep(s: seq<Member>, room: nat, x: nat)
    requires x < |s| && Below(SecondPass(s, room, x), |s|) && Below(SecondPass(s, room, x + 1), |s|)
    ensures At(s, SecondPass(s, room, x + 1)) == At(s, SecondPass(s, room, x)) + if TakenSecond(s, room, x) then [s[x]] else []
  {}

  lemma SecondLoopStops(s: seq<Member>, count: nat, x: nat)
    requires x <= |s| && |FirstPass(s, count, |s|)| + |SecondPass(s, Room(s, count), x)| >= count
    ensures SecondPass(s, Room(s, count), |s|) == SecondPass(s, Room(s, count), x)
  {
    PassSizes(s, count, Room(s, count), x);
    PassSizes(s, count, Room(s, count), |s|);
    SecondPassStops(s, Room(s, count), x, |s|);
  }

  /** The second loop's variables before position x. */
  ghost predicate SecondState(s: seq<Member>, count: nat, x: nat, selected: seq<Member>, selectedKeys: set<string>) {
    && x <= |s| && Below(FirstPass(s, count, |s|), |s|) && Below(SecondPass(s, Room(s, count), x), |s|)
    && selected == At(s, FirstPass(s, count, |s|)) + At(s, SecondPass(s, Room(s, count), x))
    && selectedKeys == Keys(At(s, FirstPass(s, count, |s|))) + Keys(At(s, SecondPass(s, Room(s, count), x)))
  }

  lemma SecondTurnState(s: seq<Member>, count: nat, x: nat, selected: seq<Member>, selectedKeys: set<string>)
    requires x < |s| && SecondState(s, count, x, selected, selectedKeys) && |selected| < count
    ensures if Key(s[x]) in selectedKeys then SecondState(s, count, x + 1, selected, selectedKeys)
            else SecondState(s, count, x + 1, selected + [s[x]], selectedKeys + {Key(s[x])})
  {
    SecondTurn(s, count, x);
    var first, added := At(s, FirstPass(s, count, |s|)), At(s, SecondPass(s, Room(s, count), x));
    if TakenSecond(s, Room(s, count), x) {
      Extend(added, s[x]);
      assert first + (added + [s[x]]) == selected + [s[x]];
    } else {
      assert added + [] == added;
    }
  }

  method SecondLoop(s: seq<Member>, count: int, first: seq<Member>, keys: set<string>) returns (selected: seq<Member>)
    requires SecondState(s, AtLeastZero(count), 0, first, keys)
    ensures exists selectedKeys :: SecondState(s, AtLeastZero(count), |s|, selected, selectedKeys)
  {
    ghost var c := AtLeastZero(count);
    var selectedKeys := keys;
    selected := first;
    var x := 0;
    while x < |s|
      invariant SecondState(s, c, x, selected, selectedKeys)
    {
      if |selected| >= count {
        SecondLoopStops(s, c, x);
        assert SecondState(s, c, |s|, selected, selectedKeys);
        return;
      }
      SecondTurnState(s, c, x, selected, selectedKeys);
      var candidate := s[x];
      var key := Key(candidate);
      if key !in selectedKeys {
        selected := selected + [candidate];
        selectedKeys := selectedKeys + {key};
      }
      x := x + 1;
    }
  }

  /** What the allocator promises of its answer. */
  ghost predicate Allocated(candidates: seq<Member>, count: nat, members: seq<Member>) {
    && |members| == Min(count, |Keys(candidates)|)
    && |Gateways(members)| == Min(count, |Gateways(candidates)|)
    && (forall i, j :: 0 <= i < j < |members| ==> Key(members[i]) != Key(members[j]))
    && (forall i :: 0 <= i < |members| ==> members[i].memberId == "member-" + Decimal.ToText(i + 1))
    && (forall i :: 0 <= i < |members| ==> FromCandidates(candidates, members[i]))
  }

  ghost predicate FromCandidates(candidates: seq<Member>, m: Member) {
    exists c :: c in candidates && m == c.(memberId := m.memberId)
  }

  method SelectLaunchDemoMembers(leq: (string, string) -> bool, candidates: seq<Member>, processorCount: int)
    returns (r: Result<seq<Member>, Error>)
    requires TotalPreorder(leq)
    ensures r.Failure? <==> processorCount > 1 && |Gateways(candidates)| < 2
    ensures r.Success? ==>
      && Allocated(candidates, AtLeastZero(processorCount), r.value)
      && WellChosen(leq, candidates, r.value) && TwoRuns(leq, r.value)
      && r.value == Renumbered(Selection(StableSort(RankLeq(leq), candidates), AtLeastZero(processorCount)))
  {
    if processorCount > 1 && |Gateways(candidates)| < 2 {
      return Failure(OneEligibleGateway);
    }
    var sorted := StableSort(RankLeq(leq), candidates);
    var selected, selectedKeys := FirstLoop(sorted, processorCount);
    assert Keys(selected) + Keys([]) == Keys(selected) && selected + [] == selected;
    selected := SecondLoop(sorted, processorCount, selected, selectedKeys);
    SelectionSplits(sorted, AtLeastZero(processorCount));
    SelectionAllocated(leq, candidates, AtLeastZero(processorCount));
    AnswerWellChosen(leq, candidates, AtLeastZero(processorCount));
    r := Success(Renumbered(selected));
  }

  /** The greedy selection, renumbered, has the promised sizes and consists of candidates. */
  lemma SelectionAllocated(leq: (string, string) -> bool, candidates: seq<Member>, count: nat)
    ensures Allocated(candidates, count, Renumbered(Selection(StableSort(RankLeq(leq), candidates), count)))
  {
    var sorted := StableSort(RankLeq(leq), candidates);
    SelectionSizes(sorted, count);
    SortMembers(RankLeq(leq), candidates);
    SameMembersSameSets(sorted, candidates);
    SameMembersSameSets(candidates, sorted);
    assert Gateways(sorted) == Gateways(candidates) && Keys(sorted) == Keys(candidates);
    SelectionFromRanking(sorted, count);
    RenumberedAllocated(candidates, count, Selection(sorted, count));
  }

  lemma SelectionFromRanking(s: seq<Member>, count: nat)
    ensures forall i :: 0 <= i < |Selection(s, count)| ==> Selection(s, count)[i] in s
  {
    PickedBelow(s, count, |s|);
  }

  lemma RenumberedAllocated(candidates: seq<Member>, count: nat, chosen: seq<Member>)
    requires |chosen| == Min(count, |Keys(candidates)|) && |Gateways(chosen)| == Min(count, |Gateways(candidates)|)
    requires forall i, j :: 0 <= i < j < |chosen| ==> Key(chosen[i]) != Key(chosen[j])
    requires forall i :: 0 <= i < |chosen| ==> chosen[i] in candidates
    ensures Allocated(candidates, count, Renumbered(chosen))
  {
    RenumberedSame(chosen);
    RenumberedFrom(candidates, chosen);
    RenumberedDistinct(chosen);
  }

  lemma RenumberedFrom(candidates: seq<Member>, chosen: seq<Member>)
    requires forall i :: 0 <= i < |chosen| ==> chosen[i] in candidates
    ensures forall i :: 0 <= i < |Renumbered(chosen)| ==> FromCandidates(candidates, Renumbered(chosen)[i])
  {
    var members := Renumbered(chosen);
    forall i | 0 <= i < |members| ensures FromCandidates(candidates, members[i]) {
      assert chosen[i] in candidates;
    }
  }

  lemma RenumberedDistinct(chosen: seq<Member>)
    requires forall i, j :: 0 <= i < j < |chosen| ==> Key(chosen[i]) != Key(chosen[j])
    ensures forall i, j :: 0 <= i < j < |Renumbered(chosen)| ==> Key(Renumbered(chosen)[i]) != Key(Renumbered(chosen)[j])
  {
    var members := Renumbered(chosen);
    forall i, j | 0 <= i < j < |members| ensures Key(members[i]) != Key(members[j]) {
      assert Key(chosen[i]) != Key(chosen[j]);
    }
  }

  lemma {:induction false} SameGatewaysAndKeys(a: seq<Member>, b: seq<Member>)
    requires |a| == |b| && forall i :: 0 <= i < |a| ==> a[i].gatewayId == b[i].gatewayId && Key(a[i]) == Key(b[i])
    ensures Gateways(a) == Gateways(b) && Keys(a) == Keys(b)
  {
    if a != [] {
      var n := |a| - 1;
      SameGatewaysAndKeys(a[..n], b[..n]);
      assert a == a[..n] + [a[n]] && b == b[..n] + [b[n]];
      Extend(a[..n], a[n]);
      Extend(b[..n], b[n]);
    }
  }

  lemma RenumberedSame(members: seq<Member>)
    ensures var r := Renumbered(members);
      && |r| == |members| && Gateways(r) == Gateways(members) && Keys(r) == Keys(members)
      && forall i :: 0 <= i < |r| ==> Key(r[i]) == Key(members[i]) && r[i] == members[i].(memberId := r[i].memberId)
  {
    SameGatewaysAndKeys(Renumbered(members), members);
  }

  // --- Sizes ---

  lemma KeyFirstsDiffer(s: seq<Member>, i: nat, j: nat)
    requires i < j < |s| && KeyFirst(s, j)
    ensures Key(s[i]) != Key(s[j])
  {
    assert s[i] in s[..j];
  }

  lemma PickedKeyFirst(s: seq<Member>, count: nat, i: nat)
    requires i < |Picked(s, count)|
    ensures Picked(s, count)[i] < |s| && KeyFirst(s, Picked(s, count)[i])
  {
    var first, second := FirstPass(s, count, |s|), SecondPass(s, Room(s, count), |s|);
    if i < |first| {
      assert first[i] in first;
      InFirstPass(s, count, |s|, first[i]);
      GatewayFirstIsKeyFirst(s, first[i]);
    } else {
      assert second[i - |first|] in second;
      InSecondPass(s, Room(s, count), |s|, second[i - |first|]);
    }
  }

  lemma PickedDistinct(s: seq<Member>, count: nat, i: nat, j: nat)
    requires i < j < |Picked(s, count)|
    ensures Picked(s, count)[i] != Picked(s, count)[j]
  {
    var picked, taken := Picked(s, count), InRankOrder(s, count);
    TakenInOrder(s, count, Room(s, count), |s|);
    TakenIsBothPasses(s, count, Room(s, count), |s|);
    assert multiset(picked) == multiset(taken);
    CountTwo(picked, i, j);
    assert picked[i] in multiset(picked);
    CountOne(taken, picked[i]);
  }

  /** Exactly min(count, distinct keys) members, no key twice, over exactly min(count, distinct
      gateways) gateways. */
  lemma SelectionSizes(s: seq<Member>, count: nat)
    ensures var t := Selection(s, count);
      && |t| == Min(count, |Keys(s)|)
      && |Gateways(t)| == Min(count, |Gateways(s)|)
      && forall i, j :: 0 <= i < j < |t| ==> Key(t[i]) != Key(t[j])
  {
    assert s[..|s|] == s;
    PickedBelow(s, count, |s|);
    PassSizes(s, count, Room(s, count), |s|);
    CountKeys(s, |s|);
    var picked := Picked(s, count);
    forall i, j | 0 <= i < j < |picked| ensures Key(s[picked[i]]) != Key(s[picked[j]]) {
      PickedDistinct(s, count, i, j);
      PickedKeyFirst(s, count, i);
      PickedKeyFirst(s, count, j);
      if picked[i] < picked[j] {
        KeyFirstsDiffer(s, picked[i], picked[j]);
      } else {
        KeyFirstsDiffer(s, picked[j], picked[i]);
      }
    }
    FirstsCountGateways(s, |s|);
    SelectionGateways(s, count);
  }

  lemma {:induction false} GatewaysConcat(a: seq<Member>, b: seq<Member>)
    ensures Gateways(a + b) == Gateways(a) + Gateways(b)
  {
    if b == [] {
      assert a + b == a;
    } else {
      var n := |b| - 1;
      GatewaysConcat(a, b[..n]);
      Extend(a + b[..n], b[n]);
      assert a + b == a + b[..n] + [b[n]];
    }
  }

  lemma GatewaysOfSome(s: seq<Member>, positions: seq<nat>)
    requires Below(positions, |s|)
    ensures Gateways(At(s, positions)) <= Gateways(s)
  {
    forall m | m in At(s, positions) ensures m in s {
      var k :| 0 <= k < |positions| && At(s, positions)[k] == m;
      assert m == s[positions[k]];
    }
    SameMembersSameSets(At(s, positions), s);
  }

  lemma SelectionSplits(s: seq<Member>, count: nat)
    ensures Below(SecondPass(s, Room(s, count), |s|), |s|)
    ensures Selection(s, count) == FirstPassMembers(s, count, |s|) + At(s, SecondPass(s, Room(s, count), |s|))
  {
    PickedBelow(s, count, |s|);
    AtConcat(s, FirstPass(s, count, |s|), SecondPass(s, Room(s, count), |s|));
  }

  lemma SelectionGateways(s: seq<Member>, count: nat)
    ensures |Gateways(Selection(s, count))| == Min(count, Firsts(s, |s|))
  {
    var n, room := |s|, Room(s, count);
    assert s[..n] == s;
    SelectionSplits(s, count);
    var first, second := FirstPassMembers(s, count, n), At(s, SecondPass(s, room, n));
    PassSizes(s, count, room, n);
    FirstsCountGateways(s, n);
    FirstPassGateways(s, count, n);
    if room == 0 {
      assert first + second == first;
    } else {
      GatewaysConcat(first, second);
      GatewaysOfSome(s, SecondPass(s, room, n));
      assert Gateways(first) + Gateways(second) == Gateways(s);
    }
  }

  // --- Optimality ---

  /** Another choice: positions in the ranking, written in rank order, no key twice. */
  ghost predicate IsChoice(s: seq<Member>, b: seq<nat>) {
    && Increasing(b) && Below(b, |s|)
    && forall j, k :: 0 <= j < k < |b| ==> Key(s[b[j]]) != Key(s[b[k]])
  }

  lemma {:induction false} KeysOfChoice(s: seq<Member>, b: seq<nat>, x: nat)
    requires IsChoice(s, b) && x <= |s| && Below(b, x)
    ensures |b| <= |Keys(s[..x])|
  {
    assert |Keys(At(s, b))| == |b| by { KeysOfMembers(At(s, b)); }
    assert Keys(At(s, b)) <= Keys(s[..x]) by {
      forall m | m in At(s, b) ensures m in s[..x] {
        var k :| 0 <= k < |b| && At(s, b)[k] == m;
        assert s[..x][b[k]] == m;
      }
      SameMembersSameSets(At(s, b), s[..x]);
    }
    SubsetSize(Keys(At(s, b)), Keys(s[..x]));
  }

  lemma {:induction false} KeysOfMembers(members: seq<Member>)
    requires forall j, k :: 0 <= j < k < |members| ==> Key(members[j]) != Key(members[k])
    ensures |Keys(members)| == |members|
  {
    if members != [] {
      var n := |members| - 1;
      KeysOfMembers(members[..n]);
      assert members == members[..n] + [members[n]];
      InKeys(members[..n], Key(members[n]));
    }
  }

  lemma SubsetSize<T>(a: set<T>, b: set<T>)
    requires a <= b
    ensures |a| <= |b|
  {
    assert b == a + (b - a);
  }

  lemma {:induction false} GatewaysAtMost(members: seq<Member>)
    ensures |Gateways(members)| <= |members|
  {
    if members != [] {
      var n := |members| - 1;
      GatewaysAtMost(members[..n]);
    }
  }

  lemma SomeBelow(s: seq<Member>, positions: seq<nat>, x: nat)
    requires x <= |s| && Below(positions, x)
    ensures Below(positions, |s|) && Gateways(At(s, positions)) <= Gateways(s[..x])
  {
    forall m | m in At(s, positions) ensures m in s[..x] {
      var i :| 0 <= i < |positions| && At(s, positions)[i] == m;
      assert s[..x][positions[i]] == m;
    }
    SameMembersSameSets(At(s, positions), s[..x]);
  }

  lemma UnionSize<T>(a: set<T>, b: set<T>)
    ensures |a + b| <= |a| + |b|
  {}

  /** Of a choice, the members ranked below x cannot hold more than the keys seen there. */
  lemma ChoiceKeysBelow(s: seq<Member>, b: seq<nat>, k: nat, x: nat)
    requires IsChoice(s, b) && k <= |b| && x <= |s| && Below(b[..k], x)
    ensures k <= Firsts(s, x) + Others(s, x)
  {
    KeysOfChoice(s, b[..k], x);
    CountKeys(s, x);
  }

  /** Nor can they leave too few members for the gateways that only come later. */
  lemma ChoiceGatewaysBelow(s: seq<Member>, b: seq<nat>, k: nat, x: nat)
    requires Below(b, |s|) && k <= |b| && x <= |s| && Below(b[..k], x)
    ensures |Gateways(At(s, b))| <= Firsts(s, x) + |b| - k
  {
    assert b == b[..k] + b[k..];
    AtConcat(s, b[..k], b[k..]);
    GatewaysConcat(At(s, b[..k]), At(s, b[k..]));
    UnionSize(Gateways(At(s, b[..k])), Gateways(At(s, b[k..])));
    SomeBelow(s, b[..k], x);
    SubsetSize(Gateways(At(s, b[..k])), Gateways(s[..x]));
    FirstsCountGateways(s, x);
    GatewaysAtMost(At(s, b[k..]));
  }

  lemma {:induction false} TakenPrefix(s: seq<Member>, count: nat, room: nat, x: nat, y: nat)
    requires x <= y <= |s|
    ensures Taken(s, count, room, x) <= Taken(s, count, room, y)
    decreases y
  {
    if x < y {
      TakenPrefix(s, count, room, x, y - 1);
    }
  }

  lemma TakenSize(s: seq<Member>, count: nat, room: nat, x: nat)
    requires x <= |s|
    ensures |Taken(s, count, room, x)| == Min(count, Firsts(s, x)) + Min(room, Others(s, x))
  {
    TakenIsBothPasses(s, count, room, x);
    PassSizes(s, count, room, x);
    assert |multiset(Taken(s, count, room, x))| == |Taken(s, count, room, x)|;
  }

  /** The greedy choice is the best: written in rank order, its k-th member is ranked no worse than
      the k-th member of any other choice of as many members over as many gateways, for every k. */
  lemma GreedyIsOptimal(s: seq<Member>, count: nat, b: seq<nat>, k: nat)
    requires IsChoice(s, b) && |b| == |Selection(s, count)|
    requires |Gateways(At(s, b))| == |Gateways(Selection(s, count))|
    requires k < |b|
    ensures |InRankOrder(s, count)| == |b| && InRankOrder(s, count)[k] <= b[k]
    ensures multiset(InRankOrder(s, count)) == multiset(Picked(s, count))
  {
    InRankOrderSize(s, count);
    EnoughTaken(s, count, b, k);
    TakenBelow(s, count, b[k] + 1, k);
    PickedInRankOrder(s, count);
  }

  lemma InRankOrderSize(s: seq<Member>, count: nat)
    ensures |InRankOrder(s, count)| == |Selection(s, count)|
  {
    SelectionSize(s, count);
    TakenSize(s, count, Room(s, count), |s|);
  }

  /** If k + 1 members have been taken below x, the k-th one is below x. */
  lemma TakenBelow(s: seq<Member>, count: nat, x: nat, k: nat)
    requires x <= |s| && k < |Taken(s, count, Room(s, count), x)|
    ensures k < |InRankOrder(s, count)| && InRankOrder(s, count)[k] < x
  {
    TakenPrefix(s, count, Room(s, count), x, |s|);
    TakenInOrder(s, count, Room(s, count), x);
    assert InRankOrder(s, count)[k] == Taken(s, count, Room(s, count), x)[k];
  }

  lemma PickedInRankOrder(s: seq<Member>, count: nat)
    ensures multiset(InRankOrder(s, count)) == multiset(Picked(s, count))
  {
    TakenIsBothPasses(s, count, Room(s, count), |s|);
  }

  /** Down to the rank of the other choice's k-th member, the greedy choice has taken k members too. */
  lemma EnoughTaken(s: seq<Member>, count: nat, b: seq<nat>, k: nat)
    requires IsChoice(s, b) && |b| == |Selection(s, count)|
    requires |Gateways(At(s, b))| == |Gateways(Selection(s, count))|
    requires k < |b|
    ensures b[k] < |s| && |Taken(s, count, Room(s, count), b[k] + 1)| >= k + 1
  {
    var n, room, x := |s|, Room(s, count), b[k] + 1;
    SelectionSize(s, count);
    SelectionGateways(s, count);
    UpTo(b, k);
    ChoiceKeysBelow(s, b, k + 1, x);
    ChoiceGatewaysBelow(s, b, k + 1, x);
    TakenSize(s, count, room, x);
    FirstsGrow(s, x, n);
    CountsSuffice(count, Firsts(s, n), Others(s, n), Firsts(s, x), Others(s, x), |b|, k);
  }

  lemma UpTo(b: seq<nat>, k: nat)
    requires Increasing(b) && k < |b|
    ensures Below(b[..k + 1], b[k] + 1)
  {}

  lemma SelectionSize(s: seq<Member>, count: nat)
    ensures |Selection(s, count)| == Min(count, Firsts(s, |s|)) + Min(Room(s, count), Others(s, |s|))
  {
    PickedBelow(s, count, |s|);
    PassSizes(s, count, Room(s, count), |s|);
  }

  /** Of all `firsts` and `others`, `f` and `o` are in sight; another choice of the same size and
      gateway count has k + 1 members in sight. */
  lemma CountsSuffice(count: nat, firsts: nat, others: nat, f: nat, o: nat, size: nat, k: nat)
    requires f <= firsts && o <= others && size == Min(count, firsts) + Min(count - Min(count, firsts), others)
    requires k < size && k + 1 <= f + o && Min(count, firsts) <= f + size - (k + 1)
    ensures Min(count, f) + Min(count - Min(count, firsts), o) >= k + 1
  {}

  /** In the members' own fields: their k-th best member is never better than the k-th best taken. */
  lemma GreedyIsOptimalByRank(leq: (string, string) -> bool, candidates: seq<Member>, count: nat, b: seq<nat>, k: nat)
    requires TotalPreorder(leq)
    requires var s := StableSort(RankLeq(leq), candidates);
      && IsChoice(s, b) && |b| == |Selection(s, count)|
      && |Gateways(At(s, b))| == |Gateways(Selection(s, count))|
    requires k < |b|
    ensures var s := StableSort(RankLeq(leq), candidates);
      && |InRankOrder(s, count)| == |b| && Below(InRankOrder(s, count), |s|)
      && !Better(leq, s[b[k]], s[InRankOrder(s, count)[k]])
  {
    var s := StableSort(RankLeq(leq), candidates);
    GreedyIsOptimal(s, count, b, k);
    TakenInOrder(s, count, Room(s, count), |s|);
    RankPreorder(leq);
    SortSorted(RankLeq(leq), candidates);
    var i := InRankOrder(s, count)[k];
    EarlierIsNoWorse(leq, s, i, b[k]);
  }

  // --- The guards around it ---

  /** The tail of capacity selection. The guard for fewer than two selected gateways is there, but
      the allocator's own check and its gateway count leave it nothing to catch. */
  method SelectCapacity(leq: (string, string) -> bool, candidates: seq<Member>, processorCount: int, minReady: int)
    returns (r: Result<seq<Member>, Error>)
    requires TotalPreorder(leq)
    ensures r.Failure? ==> !r.error.OneSelectedGateway?
    ensures r.Success? <==>
      && |candidates| >= processorCount
      && (processorCount > 1 ==> |Gateways(candidates)| >= 2)
      && Min(AtLeastZero(processorCount), |Keys(candidates)|) >= minReady
    ensures r.Success? && processorCount > 1 ==> |Gateways(r.value)| >= 2
    ensures r.Success? ==> |r.value| >= minReady && |r.value| == Min(AtLeastZero(processorCount), |Keys(candidates)|)
  {
    if |candidates| < processorCount {
      return Failure(TooFewCandidates(|candidates|, processorCount));
    }
    var selection := SelectLaunchDemoMembers(leq, candidates, processorCount);
    if selection.Failure? {
      return Failure(OneEligibleGateway);
    }
    var selectedMembers := selection.value;
    var gateways := Gateways(selectedMembers);
    r := if processorCount > 1 && |gateways| < 2 then Failure(OneSelectedGateway(|gateways|))
         else if |selectedMembers| < minReady then Failure(TooFewReady(|selectedMembers|, minReady))
         else Success(selectedMembers);
  }
}
