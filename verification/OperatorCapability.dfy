/** Choosing a gateway and processor from signed capability reports. */
module OperatorCapability {
  import opened Wrappers
  import opened Ordering

  datatype ScopeKind = ExplicitScope | ManagerScope

  datatype Scope = Scope(kind: ScopeKind, managerId: Option<string>, processors: Option<seq<string>>,
                         includeProcessors: Option<seq<string>>, excludeProcessors: Option<seq<string>>)

  datatype Report = Report(reportId: string, reportedAt: int, expiresAt: int, operatorId: string, gatewayId: string,
                           routeStateUrl: Option<string>, routeStateHealthy: Option<bool>,
                           activeRouteCount: int, routeCapacity: int, scopes: seq<Scope>)

  datatype Stored = Stored(signer: string, report: Report)

  datatype Status = Active | Draining | Inactive

  datatype Profile = Profile(operatorId: string, status: Status, reportSigners: seq<string>, gatewayIds: seq<string>,
                             managerIds: seq<string>, processorIds: seq<string>, routeStateUrl: Option<string>,
                             routeIntentUrl: Option<string>, routeIntentTokenEnv: Option<string>)

  datatype Processor = Processor(processorId: string, address: Option<string>, managerId: Option<string>)

  datatype Input = Input(profiles: seq<Profile>, reports: seq<Stored>, now: int, operatorId: Option<string>,
                         processorId: Option<string>, requireRouteStateUrl: bool, requireRouteIntentSink: bool)

  datatype Candidate = Candidate(operatorId: string, gatewayId: string, processorId: string, processorAddress: Option<string>,
                                 managerId: Option<string>, reportId: string, reportExpiresAt: int, reportSigner: string,
                                 activeRouteCount: int, routeCapacity: int, routeStateUrl: Option<string>,
                                 routeIntentUrl: Option<string>, routeIntentTokenEnv: Option<string>,
                                 selectionReasons: seq<string>)

  /** Case folding and address decoding come from libraries. */
  datatype Env = Env(lower: string -> string, decodeAddress: string -> Option<string>)

  // --- Small predicates ---

  /** A present, non-empty text. */
  predicate Given(o: Option<string>) {
    o.Some? && o.value != ""
  }

  predicate IsHexDigit(c: char) {
    '0' <= c <= '9' || 'a' <= c <= 'f' || 'A' <= c <= 'F'
  }

  predicate IsHex(s: string) {
    |s| >= 3 && s[..2] == "0x" && forall i :: 2 <= i < |s| ==> IsHexDigit(s[i])
  }

  predicate IsHex32(s: string) {
    |s| == 66 && IsHex(s)
  }

  function ProcessorRefToId(env: Env, value: string): Option<string> {
    if IsHex32(value) then Some(env.lower(value)) else env.decodeAddress(value)
  }

  predicate SameSigner(env: Env, left: string, right: string) {
    if IsHex(left) && IsHex(right) then env.lower(left) == env.lower(right) else left == right
  }

  predicate SignerAllowed(env: Env, profile: Profile, signer: string) {
    exists k :: 0 <= k < |profile.reportSigners| && SameSigner(env, profile.reportSigners[k], signer)
  }

  function UrlForGateway(url: Option<string>, profile: Profile, gatewayId: string): Option<string> {
    if Given(url) && |profile.gatewayIds| == 1 && profile.gatewayIds[0] == gatewayId then url else None
  }

  function RouteStateUrl(profile: Profile, report: Report): Option<string> {
    if report.routeStateUrl.Some? then report.routeStateUrl
    else UrlForGateway(profile.routeStateUrl, profile, report.gatewayId)
  }

  function RouteIntentUrl(profile: Profile, report: Report): Option<string> {
    UrlForGateway(profile.routeIntentUrl, profile, report.gatewayId)
  }

  // --- Processors of a report ---

  function OrEmpty(o: Option<seq<string>>): seq<string> {
    if o.Some? then o.value else []
  }

  /** What a scope lists. A manager scope falls back to its inclusions when it has no processor list. */
  function RawProcessors(scope: Scope): seq<string> {
    if scope.kind == ExplicitScope || scope.processors.Some? then OrEmpty(scope.processors) else OrEmpty(scope.includeProcessors)
  }

  predicate Excludes(env: Env, scope: Scope, id: string) {
    exists k :: 0 <= k < |OrEmpty(scope.excludeProcessors)| && ProcessorRefToId(env, OrEmpty(scope.excludeProcessors)[k]) == Some(id)
  }

  function ProcessorOf(scope: Scope, raw: string, id: string): Processor {
    Processor(id, if IsHex32(raw) then None else Some(raw), scope.managerId)
  }

  /** What one entry of a scope offers: nothing when it does not decode or the scope excludes it. */
  function Offer(env: Env, scope: Scope, raw: string): seq<Processor> {
    var id := ProcessorRefToId(env, raw);
    if !Given(id) || Excludes(env, scope, id.value) then [] else [ProcessorOf(scope, raw, id.value)]
  }

  predicate HasId(found: seq<Processor>, id: string) {
    exists k :: 0 <= k < |found| && found[k].processorId == id
  }

  /** Keeps the first offer of every id. */
  function Keep(found: seq<Processor>, offers: seq<Processor>): seq<Processor>
    decreases |offers|
  {
    if offers == [] then found
    else
      Keep(if HasId(found, offers[0].processorId) then found else found + [offers[0]], offers[1..])
  }

  function OffersOf(env: Env, scope: Scope, raws: seq<string>): seq<Processor> {
    if raws == [] then [] else OffersOf(env, scope, raws[..|raws| - 1]) + Offer(env, scope, raws[|raws| - 1])
  }

  /** All offers of a report, scope by scope. */
  function Offers(env: Env, scopes: seq<Scope>): seq<Processor> {
    if scopes == [] then []
    else
      var last := scopes[|scopes| - 1];
      Offers(env, scopes[..|scopes| - 1]) + OffersOf(env, last, RawProcessors(last))
  }

  function Expanded(env: Env, scopes: seq<Scope>): seq<Processor> {
    Keep([], Offers(env, scopes))
  }

  lemma {:induction false} KeepConcat(found: seq<Processor>, a: seq<Processor>, b: seq<Processor>)
    ensures Keep(found, a + b) == Keep(Keep(found, a), b)
    decreases |a|
  {
    if a == [] {
      assert a + b == b;
    } else {
      assert (a + b)[1..] == a[1..] + b;
      KeepConcat(if HasId(found, a[0].processorId) then found else found + [a[0]], a[1..], b);
    }
  }

  ghost predicate SeenExactly(seen: set<string>, found: seq<Processor>) {
    forall id :: id in seen <==> HasId(found, id)
  }

  lemma SeenOneMore(seen: set<string>, found: seq<Processor>, p: Processor)
    requires SeenExactly(seen, found)
    ensures SeenExactly(seen + {p.processorId}, found + [p])
  {
    HasIdOneMore(found, p);
  }

  method ExpandedReportProcessors(env: Env, scopes: seq<Scope>) returns (result: seq<Processor>)
    ensures result == Expanded(env, scopes)
  {
    result := [];
    var seen: set<string> := {};
    for i := 0 to |scopes|
      invariant result == Keep([], Offers(env, scopes[..i])) && SeenExactly(seen, result)
    {
      OffersOneMore(env, scopes, i);
      result, seen := ExpandScope(env, scopes[i], result, seen);
    }
    assert scopes[..|scopes|] == scopes;
  }

  /** The loop over one scope's processors. */
  method ExpandScope(env: Env, scope: Scope, found: seq<Processor>, seenBefore: set<string>)
    returns (result: seq<Processor>, seen: set<string>)
    requires SeenExactly(seenBefore, found)
    ensures result == Keep(found, OffersOf(env, scope, RawProcessors(scope))) && SeenExactly(seen, result)
  {
    result, seen := found, seenBefore;
    var raws := RawProcessors(scope);
    for j := 0 to |raws|
      invariant result == Keep(found, OffersOf(env, scope, raws[..j])) && SeenExactly(seen, result)
    {
      OfferOneMore(env, scope, raws, found, j);
      var processorId := ProcessorRefToId(env, raws[j]);
      if !Given(processorId) || Excludes(env, scope, processorId.value) || processorId.value in seen {
        continue;
      }
      SeenOneMore(seen, result, ProcessorOf(scope, raws[j], processorId.value));
      seen := seen + {processorId.value};
      result := result + [ProcessorOf(scope, raws[j], processorId.value)];
    }
    assert raws[..|raws|] == raws;
  }

  lemma OffersOneMore(env: Env, scopes: seq<Scope>, i: nat)
    requires i < |scopes|
    ensures Keep([], Offers(env, scopes[..i + 1]))
         == Keep(Keep([], Offers(env, scopes[..i])), OffersOf(env, scopes[i], RawProcessors(scopes[i])))
  {
    assert scopes[..i + 1][..i] == scopes[..i];
    KeepConcat([], Offers(env, scopes[..i]), OffersOf(env, scopes[i], RawProcessors(scopes[i])));
  }

  lemma HasIdOneMore(found: seq<Processor>, p: Processor)
    ensures forall id :: HasId(found + [p], id) <==> HasId(found, id) || id == p.processorId
  {
    forall id ensures HasId(found + [p], id) <==> HasId(found, id) || id == p.processorId {
      assert (found + [p])[|found|] == p;
      if HasId(found, id) {
        var k :| 0 <= k < |found| && found[k].processorId == id;
        assert (found + [p])[k] == found[k];
      }
    }
  }

  lemma OfferOneMore(env: Env, scope: Scope, raws: seq<string>, before: seq<Processor>, j: nat)
    requires j < |raws|
    ensures var found, offer := Keep(before, OffersOf(env, scope, raws[..j])), Offer(env, scope, raws[j]);
      Keep(before, OffersOf(env, scope, raws[..j + 1]))
        == if offer == [] || HasId(found, offer[0].processorId) then found else found + offer
  {
    assert raws[..j + 1][..j] == raws[..j];
    KeepConcat(before, OffersOf(env, scope, raws[..j]), Offer(env, scope, raws[j]));
    KeepOne(Keep(before, OffersOf(env, scope, raws[..j])), Offer(env, scope, raws[j]));
  }

  lemma KeepOne(found: seq<Processor>, offer: seq<Processor>)
    requires |offer| <= 1
    ensures Keep(found, offer) == if offer == [] || HasId(found, offer[0].processorId) then found else found + offer
  {
    if offer != [] {
      assert offer[1..] == [] && offer == [offer[0]];
    }
  }

  /** Some scope lists the id and does not itself exclude it. */
  ghost predicate Listed(env: Env, scopes: seq<Scope>, id: string) {
    exists i, j :: 0 <= i < |scopes| && 0 <= j < |RawProcessors(scopes[i])| && ListsAt(env, scopes[i], RawProcessors(scopes[i])[j], id)
  }

  ghost predicate ListsAt(env: Env, scope: Scope, raw: string, id: string) {
    id != "" && ProcessorRefToId(env, raw) == Some(id) && !Excludes(env, scope, id)
  }

  ghost predicate DistinctIds(found: seq<Processor>) {
    forall a, b :: 0 <= a < b < |found| ==> found[a].processorId != found[b].processorId
  }

  lemma {:induction false} KeepIds(found: seq<Processor>, offers: seq<Processor>)
    requires DistinctIds(found)
    ensures DistinctIds(Keep(found, offers))
    ensures forall id :: HasId(Keep(found, offers), id) <==> HasId(found, id) || HasId(offers, id)
    decreases |offers|
  {
    if offers != [] {
      var next := if HasId(found, offers[0].processorId) then found else found + [offers[0]];
      HasIdOneMore(found, offers[0]);
      KeepIds(next, offers[1..]);
      forall id ensures HasId(offers, id) <==> offers[0].processorId == id || HasId(offers[1..], id) {
        HasIdConcat([offers[0]], offers[1..], id);
        assert offers == [offers[0]] + offers[1..];
      }
    }
  }

  lemma HasIdConcat(a: seq<Processor>, b: seq<Processor>, id: string)
    ensures HasId(a + b, id) <==> HasId(a, id) || HasId(b, id)
  {
    if HasId(a, id) {
      var k :| 0 <= k < |a| && a[k].processorId == id;
      assert (a + b)[k] == a[k];
    }
    if HasId(b, id) {
      var k :| 0 <= k < |b| && b[k].processorId == id;
      assert (a + b)[|a| + k] == b[k];
    }
  }

  lemma {:induction false} OffersOfIds(env: Env, scope: Scope, raws: seq<string>, id: string)
    ensures HasId(OffersOf(env, scope, raws), id) <==> exists j :: 0 <= j < |raws| && ListsAt(env, scope, raws[j], id)
  {
    if raws != [] {
      var n := |raws| - 1;
      OffersOfIds(env, scope, raws[..n], id);
      HasIdConcat(OffersOf(env, scope, raws[..n]), Offer(env, scope, raws[n]), id);
      assert HasId(Offer(env, scope, raws[n]), id) <==> ListsAt(env, scope, raws[n], id) by {
        assert Offer(env, scope, raws[n]) != [] ==> Offer(env, scope, raws[n])[0].processorId == ProcessorRefToId(env, raws[n]).value;
      }
      assert forall j :: 0 <= j < n ==> raws[..n][j] == raws[j];
    }
  }

  lemma {:induction false} OffersIds(env: Env, scopes: seq<Scope>, id: string)
    ensures HasId(Offers(env, scopes), id) <==> Listed(env, scopes, id)
  {
    if scopes != [] {
      var n := |scopes| - 1;
      var last := scopes[n];
      OffersIds(env, scopes[..n], id);
      OffersOfIds(env, last, RawProcessors(last), id);
      HasIdConcat(Offers(env, scopes[..n]), OffersOf(env, last, RawProcessors(last)), id);
      ListedOneMore(env, scopes, id);
    }
  }

  lemma ListedOneMore(env: Env, scopes: seq<Scope>, id: string)
    requires scopes != []
    ensures var last := scopes[|scopes| - 1];
      Listed(env, scopes, id) <==> Listed(env, scopes[..|scopes| - 1], id)
                                   || exists j :: 0 <= j < |RawProcessors(last)| && ListsAt(env, last, RawProcessors(last)[j], id)
  {
    assert forall i :: 0 <= i < |scopes| - 1 ==> scopes[..|scopes| - 1][i] == scopes[i];
  }

  /** A report's processors: every id at most once, and exactly the ids that some scope lists without
      excluding them itself. */
  lemma ExpandedExactly(env: Env, scopes: seq<Scope>)
    ensures DistinctIds(Expanded(env, scopes))
    ensures forall id :: HasId(Expanded(env, scopes), id) <==> Listed(env, scopes, id)
  {
    KeepIds([], Offers(env, scopes));
    forall id ensures HasId(Expanded(env, scopes), id) <==> Listed(env, scopes, id) {
      OffersIds(env, scopes, id);
    }
  }

  // --- Where a report's processors come from ---

  /** What a scope lists, by its fields. */
  lemma RawProcessorsExactly(scope: Scope)
    ensures scope.processors.Some? ==> RawProcessors(scope) == scope.processors.value
    ensures scope.processors.None? && scope.kind == ExplicitScope ==> RawProcessors(scope) == []
    ensures scope.processors.None? && scope.kind == ManagerScope ==>
      RawProcessors(scope) == if scope.includeProcessors.Some? then scope.includeProcessors.value else []
  {}

  /** Entry j of scope i lists the id, and the scope does not exclude it. */
  ghost predicate Listing(env: Env, scopes: seq<Scope>, i: nat, j: nat, id: string) {
    i < |scopes| && j < |RawProcessors(scopes[i])| && ListsAt(env, scopes[i], RawProcessors(scopes[i])[j], id)
  }

  ghost predicate IsBefore(a: nat, b: nat, i: nat, j: nat) {
    a < i || (a == i && b < j)
  }

  ghost predicate ListedBefore(env: Env, scopes: seq<Scope>, i: nat, j: nat, id: string) {
    exists a: nat, b: nat :: Listing(env, scopes, a, b, id) && IsBefore(a, b, i, j)
  }

  /** The processor stands for entry j of scope i, the first one to list its id: with the entry as its
      address, unless the entry is itself an id, and with the scope's manager. */
  ghost predicate ComesFrom(env: Env, scopes: seq<Scope>, i: nat, j: nat, p: Processor) {
    && Listing(env, scopes, i, j, p.processorId) && !ListedBefore(env, scopes, i, j, p.processorId)
    && p.managerId == scopes[i].managerId
    && p.address == if IsHex32(RawProcessors(scopes[i])[j]) then None else Some(RawProcessors(scopes[i])[j])
  }

  ghost predicate HasOrigin(env: Env, scopes: seq<Scope>, p: Processor) {
    exists i: nat, j: nat :: ComesFrom(env, scopes, i, j, p)
  }

  /** The processors found before entry j of scope i. */
  function FoundBefore(env: Env, scopes: seq<Scope>, i: nat, j: nat): seq<Processor>
    requires i < |scopes| && j <= |RawProcessors(scopes[i])|
  {
    Keep(Expanded(env, scopes[..i]), OffersOf(env, scopes[i], RawProcessors(scopes[i])[..j]))
  }

  ghost predicate Accounted(env: Env, scopes: seq<Scope>, i: nat, j: nat, found: seq<Processor>) {
    && (forall p :: p in found ==> HasOrigin(env, scopes, p))
    && (forall id :: HasId(found, id) <==> ListedBefore(env, scopes, i, j, id))
  }

  lemma NextScope(env: Env, scopes: seq<Scope>, i: nat, found: seq<Processor>)
    requires i < |scopes| && Accounted(env, scopes, i, |RawProcessors(scopes[i])|, found)
    ensures Accounted(env, scopes, i + 1, 0, found)
  {
    forall id ensures HasId(found, id) <==> ListedBefore(env, scopes, i + 1, 0, id) {
      if ListedBefore(env, scopes, i + 1, 0, id) {
        var a: nat, b: nat :| Listing(env, scopes, a, b, id) && IsBefore(a, b, i + 1, 0);
        assert IsBefore(a, b, i, |RawProcessors(scopes[i])|);
      }
      if ListedBefore(env, scopes, i, |RawProcessors(scopes[i])|, id) {
        var a: nat, b: nat :| Listing(env, scopes, a, b, id) && IsBefore(a, b, i, |RawProcessors(scopes[i])|);
        assert IsBefore(a, b, i + 1, 0);
      }
    }
  }

  lemma ListedOneEntryMore(env: Env, scopes: seq<Scope>, i: nat, j: nat, id: string)
    ensures ListedBefore(env, scopes, i, j + 1, id) <==> ListedBefore(env, scopes, i, j, id) || Listing(env, scopes, i, j, id)
  {
    if ListedBefore(env, scopes, i, j + 1, id) {
      var a: nat, b: nat :| Listing(env, scopes, a, b, id) && IsBefore(a, b, i, j + 1);
      assert IsBefore(a, b, i, j) || (a == i && b == j);
    }
    if ListedBefore(env, scopes, i, j, id) {
      var a: nat, b: nat :| Listing(env, scopes, a, b, id) && IsBefore(a, b, i, j);
      assert IsBefore(a, b, i, j + 1);
    }
    if Listing(env, scopes, i, j, id) {
      assert IsBefore(i, j, i, j + 1);
    }
  }

  lemma OfferIs(env: Env, scope: Scope, raw: string)
    ensures var offer := Offer(env, scope, raw);
      && |offer| <= 1
      && (forall id :: offer != [] && offer[0].processorId == id <==> ListsAt(env, scope, raw, id))
      && (offer != [] ==> offer[0] == Processor(offer[0].processorId, if IsHex32(raw) then None else Some(raw), scope.managerId))
  {}

  lemma NextEntry(env: Env, scopes: seq<Scope>, i: nat, j: nat, found: seq<Processor>)
    requires i < |scopes| && j < |RawProcessors(scopes[i])| && Accounted(env, scopes, i, j, found)
    ensures var offer := Offer(env, scopes[i], RawProcessors(scopes[i])[j]);
      Accounted(env, scopes, i, j + 1, if offer == [] || HasId(found, offer[0].processorId) then found else found + offer)
  {
    var raw := RawProcessors(scopes[i])[j];
    var offer := Offer(env, scopes[i], raw);
    OfferIs(env, scopes[i], raw);
    var next := if offer == [] || HasId(found, offer[0].processorId) then found else found + offer;
    if next != found {
      HasIdOneMore(found, offer[0]);
      assert offer == [offer[0]];
      assert ComesFrom(env, scopes, i, j, offer[0]);
    }
    forall id ensures HasId(next, id) <==> ListedBefore(env, scopes, i, j + 1, id) {
      ListedOneEntryMore(env, scopes, i, j, id);
      assert Listing(env, scopes, i, j, id) <==> ListsAt(env, scopes[i], raw, id);
    }
  }

  lemma {:induction false} AllAccounted(env: Env, scopes: seq<Scope>, i: nat, j: nat)
    requires i < |scopes| && j <= |RawProcessors(scopes[i])|
    ensures Accounted(env, scopes, i, j, FoundBefore(env, scopes, i, j))
    decreases i, j
  {
    if j > 0 {
      AllAccounted(env, scopes, i, j - 1);
      NextEntry(env, scopes, i, j - 1, FoundBefore(env, scopes, i, j - 1));
      OfferOneMore(env, scopes[i], RawProcessors(scopes[i]), Expanded(env, scopes[..i]), j - 1);
    } else if i > 0 {
      var all := |RawProcessors(scopes[i - 1])|;
      AllAccounted(env, scopes, i - 1, all);
      NextScope(env, scopes, i - 1, FoundBefore(env, scopes, i - 1, all));
      OffersOneMore(env, scopes, i - 1);
      assert RawProcessors(scopes[i - 1])[..all] == RawProcessors(scopes[i - 1]);
      assert OffersOf(env, scopes[i], RawProcessors(scopes[i])[..0]) == [];
    } else {
      assert Expanded(env, scopes[..0]) == [];
    }
  }

  /** Every processor of a report comes from the first entry of the first scope that lists its id without
      excluding it. */
  lemma ProcessorsComeFrom(env: Env, scopes: seq<Scope>, p: Processor)
    requires p in Expanded(env, scopes)
    ensures HasOrigin(env, scopes, p)
  {
    var n := |scopes| - 1;
    assert scopes != [];
    AllAccounted(env, scopes, n, |RawProcessors(scopes[n])|);
    OffersOneMore(env, scopes, n);
    assert RawProcessors(scopes[n])[..|RawProcessors(scopes[n])|] == RawProcessors(scopes[n]) && scopes[..n + 1] == scopes;
  }

  // --- Normalised reports ---

  function UniqueStrings(values: seq<string>): seq<string> {
    if values == [] then []
    else
      var kept := UniqueStrings(values[..|values| - 1]);
      var last := values[|values| - 1];
      if last != "" && last !in kept then kept + [last] else kept
  }

  lemma {:induction false} UniqueStringsMembers(values: seq<string>)
    ensures NoDuplicates(UniqueStrings(values))
    ensures forall x :: x in UniqueStrings(values) <==> x in values && x != ""
  {
    if values != [] {
      UniqueStringsMembers(values[..|values| - 1]);
      assert values == values[..|values| - 1] + [values[|values| - 1]];
    }
  }

  function NormalizeScope(scope: Scope): Scope {
    scope.(processors := Some(UniqueStrings(OrEmpty(scope.processors))),
           includeProcessors := Some(UniqueStrings(OrEmpty(scope.includeProcessors))),
           excludeProcessors := Some(UniqueStrings(OrEmpty(scope.excludeProcessors))))
  }

  function NormalizeScopes(scopes: seq<Scope>): seq<Scope> {
    seq(|scopes|, i requires 0 <= i < |scopes| => NormalizeScope(scopes[i]))
  }

  /** Normalising gives every scope a processor list, so no scope falls back to its inclusions. */
  predicate FallsBack(scope: Scope) {
    scope.kind == ManagerScope && scope.processors.None?
  }

  ghost predicate ListedBy(env: Env, scope: Scope, id: string) {
    exists raw :: raw in RawProcessors(scope) && ListsAt(env, scope, raw, id)
  }

  lemma ListedBySome(env: Env, scopes: seq<Scope>, id: string)
    ensures Listed(env, scopes, id) <==> exists i :: 0 <= i < |scopes| && ListedBy(env, scopes[i], id)
  {
    if exists i :: 0 <= i < |scopes| && ListedBy(env, scopes[i], id) {
      var i :| 0 <= i < |scopes| && ListedBy(env, scopes[i], id);
      var raw :| raw in RawProcessors(scopes[i]) && ListsAt(env, scopes[i], raw, id);
      var j :| 0 <= j < |RawProcessors(scopes[i])| && RawProcessors(scopes[i])[j] == raw;
      assert ListsAt(env, scopes[i], RawProcessors(scopes[i])[j], id);
    }
    if Listed(env, scopes, id) {
      var i, j :| 0 <= i < |scopes| && 0 <= j < |RawProcessors(scopes[i])| && ListsAt(env, scopes[i], RawProcessors(scopes[i])[j], id);
      assert RawProcessors(scopes[i])[j] in RawProcessors(scopes[i]);
      assert ListedBy(env, scopes[i], id);
    }
  }

  lemma NormalizedExcludes(env: Env, scope: Scope, id: string)
    requires ProcessorRefToId(env, "").None?
    ensures Excludes(env, NormalizeScope(scope), id) <==> Excludes(env, scope, id)
  {
    var a, b := OrEmpty(scope.excludeProcessors), UniqueStrings(OrEmpty(scope.excludeProcessors));
    UniqueStringsMembers(a);
    if Excludes(env, scope, id) {
      var k :| 0 <= k < |a| && ProcessorRefToId(env, a[k]) == Some(id);
      assert a[k] in a && a[k] in b;
      var m :| 0 <= m < |b| && b[m] == a[k];
      assert ProcessorRefToId(env, OrEmpty(NormalizeScope(scope).excludeProcessors)[m]) == Some(id);
    }
    if Excludes(env, NormalizeScope(scope), id) {
      var k :| 0 <= k < |b| && ProcessorRefToId(env, b[k]) == Some(id);
      assert b[k] in b && b[k] in a;
      var m :| 0 <= m < |a| && a[m] == b[k];
    }
  }

  lemma NormalizedLists(env: Env, scope: Scope, id: string)
    requires ProcessorRefToId(env, "").None?
    ensures ListedBy(env, NormalizeScope(scope), id) <==> ListedBy(env, scope, id) && !FallsBack(scope)
  {
    var t := NormalizeScope(scope);
    NormalizedExcludes(env, scope, id);
    UniqueStringsMembers(OrEmpty(scope.processors));
    assert RawProcessors(t) == UniqueStrings(OrEmpty(scope.processors));
    if ListedBy(env, t, id) {
      var raw :| raw in RawProcessors(t) && ListsAt(env, t, raw, id);
      assert raw in OrEmpty(scope.processors) && ListsAt(env, scope, raw, id);
    }
    if ListedBy(env, scope, id) && !FallsBack(scope) {
      var raw :| raw in RawProcessors(scope) && ListsAt(env, scope, raw, id);
      assert raw in RawProcessors(t) && ListsAt(env, t, raw, id);
    }
  }

  ghost predicate SomeLists(env: Env, scopes: seq<Scope>, id: string) {
    exists i :: 0 <= i < |scopes| && ListedBy(env, scopes[i], id)
  }

  /** Some scope lists the id without needing the fallback. */
  ghost predicate SomeListsOutright(env: Env, scopes: seq<Scope>, id: string) {
    exists i :: 0 <= i < |scopes| && !FallsBack(scopes[i]) && ListedBy(env, scopes[i], id)
  }

  lemma NormalizedListing(env: Env, scopes: seq<Scope>, id: string)
    requires ProcessorRefToId(env, "").None?
    ensures SomeLists(env, NormalizeScopes(scopes), id) <==> SomeListsOutright(env, scopes, id)
  {
    var normal := NormalizeScopes(scopes);
    forall i | 0 <= i < |scopes| ensures ListedBy(env, normal[i], id) <==> ListedBy(env, scopes[i], id) && !FallsBack(scopes[i]) {
      NormalizedLists(env, scopes[i], id);
    }
    if SomeListsOutright(env, scopes, id) {
      var i :| 0 <= i < |scopes| && !FallsBack(scopes[i]) && ListedBy(env, scopes[i], id);
      assert ListedBy(env, normal[i], id);
    }
  }

  lemma NormalizedProcessors(env: Env, scopes: seq<Scope>, id: string)
    requires ProcessorRefToId(env, "").None?
    ensures HasId(Expanded(env, scopes), id) <==> SomeLists(env, scopes, id)
    ensures HasId(Expanded(env, NormalizeScopes(scopes)), id) <==> SomeListsOutright(env, scopes, id)
  {
    ExpandedExactly(env, scopes);
    ListedBySome(env, scopes, id);
    ExpandedExactly(env, NormalizeScopes(scopes));
    ListedBySome(env, NormalizeScopes(scopes), id);
    NormalizedListing(env, scopes, id);
  }

  /** Normalising a report (as verification does before storing it) keeps its set of processors
      exactly when every id that a scope only lists through `includeProcessors`, having no
      `processors` of its own, is also listed by a scope that needs no such fallback. */
  lemma NormalizingKeepsProcessorsExactly(env: Env, scopes: seq<Scope>)
    requires ProcessorRefToId(env, "").None?
    ensures (forall id :: HasId(Expanded(env, NormalizeScopes(scopes)), id) <==> HasId(Expanded(env, scopes), id))
       <==> (forall i, id :: 0 <= i < |scopes| && FallsBack(scopes[i]) && ListedBy(env, scopes[i], id)
                      ==> SomeListsOutright(env, scopes, id))
  {
    forall id
      ensures HasId(Expanded(env, scopes), id) <==> SomeLists(env, scopes, id)
      ensures HasId(Expanded(env, NormalizeScopes(scopes)), id) <==> SomeListsOutright(env, scopes, id)
    {
      NormalizedProcessors(env, scopes, id);
    }
    if forall id :: HasId(Expanded(env, NormalizeScopes(scopes)), id) <==> HasId(Expanded(env, scopes), id) {
      forall i, id | 0 <= i < |scopes| && FallsBack(scopes[i]) && ListedBy(env, scopes[i], id)
        ensures SomeListsOutright(env, scopes, id)
      {
        assert SomeLists(env, scopes, id);
        assert HasId(Expanded(env, scopes), id);
      }
    }
  }

  /** A manager scope that names one processor, given by its id, only in `includeProcessors`. */
  function FallbackScope(id: string): Scope {
    Scope(ManagerScope, Some("manager-1"), None, Some([id]), None)
  }

  /** So normalising can lose a processor: before, the report offers the id; after, it offers nothing. */
  lemma NormalizingLosesFallback(env: Env, id: string)
    requires IsHex32(id) && env.lower(id) == id
    ensures Expanded(env, [FallbackScope(id)]) == [Processor(id, None, Some("manager-1"))]
    ensures Expanded(env, NormalizeScopes([FallbackScope(id)])) == []
  {
    var scope := FallbackScope(id);
    assert [scope][..0] == [] && [id][..0] == [];
    assert OffersOf(env, scope, [id]) == Offer(env, scope, id);
    assert Offers(env, [scope]) == [Processor(id, None, Some("manager-1"))];
    assert Keep([], Offers(env, [scope])) == [Processor(id, None, Some("manager-1"))] by {
      assert [Processor(id, None, Some("manager-1"))][1..] == [];
    }
    var normal := NormalizeScope(scope);
    assert NormalizeScopes([scope]) == [normal] && [normal][..0] == [];
    assert RawProcessors(normal) == [];
  }

  /** A 32-byte id. */
  const ZERO_ID: string := "0x" + seq(64, _ => '0')

  /** At a concrete input: any library that leaves lower-case text alone loses the zero id. */
  lemma NormalizingLosesZeroId(env: Env)
    requires env.lower(ZERO_ID) == ZERO_ID
    ensures HasId(Expanded(env, [FallbackScope(ZERO_ID)]), ZERO_ID)
    ensures !HasId(Expanded(env, NormalizeScopes([FallbackScope(ZERO_ID)])), ZERO_ID)
  {
    assert ZERO_ID[..2] == "0x" && |ZERO_ID| == 66;
    NormalizingLosesFallback(env, ZERO_ID);
    assert Expanded(env, [FallbackScope(ZERO_ID)])[0].processorId == ZERO_ID;
  }

  // --- Selection ---

  function Profiles(env: Env, profiles: seq<Profile>): map<string, Profile> {
    if profiles == [] then map[]
    else
      var last := profiles[|profiles| - 1];
      Profiles(env, profiles[..|profiles| - 1])[env.lower(last.operatorId) := last]
  }

  predicate ReportPasses(env: Env, input: Input, stored: Stored) {
    var report := stored.report;
    var operatorId := env.lower(report.operatorId);
    operatorId in Profiles(env, input.profiles) &&
    var profile := Profiles(env, input.profiles)[operatorId];
    && profile.status == Active
    && (Given(LowerOf(env, input.operatorId)) ==> LowerOf(env, input.operatorId) == Some(operatorId))
    && report.expiresAt > input.now
    && SignerAllowed(env, profile, stored.signer)
    && (|profile.gatewayIds| > 0 ==> report.gatewayId in profile.gatewayIds)
    && report.routeCapacity > 0 && report.activeRouteCount < report.routeCapacity
    && (input.requireRouteStateUrl ==> Given(RouteStateUrl(profile, report)) && report.routeStateHealthy != Some(false))
    && (input.requireRouteIntentSink ==> Given(RouteIntentUrl(profile, report)))
  }

  function LowerOf(env: Env, o: Option<string>): Option<string> {
    if o.Some? then Some(env.lower(o.value)) else None
  }

  predicate ProcessorPasses(env: Env, input: Input, profile: Profile, p: Processor) {
    && (Given(LowerOf(env, input.processorId)) ==> Some(p.processorId) == LowerOf(env, input.processorId))
    && (|profile.processorIds| > 0 ==> p.processorId in profile.processorIds)
    && (|profile.managerIds| > 0 && Given(p.managerId) ==> p.managerId.value in profile.managerIds)
  }

  function CandidateOf(env: Env, input: Input, profile: Profile, stored: Stored, p: Processor): Candidate {
    var report := stored.report;
    Candidate(env.lower(report.operatorId), report.gatewayId, p.processorId, p.address, p.managerId, report.reportId,
              report.expiresAt, stored.signer, report.activeRouteCount, report.routeCapacity, RouteStateUrl(profile, report),
              RouteIntentUrl(profile, report), profile.routeIntentTokenEnv,
              ["operator-profile-active", "capability-report-fresh", "gateway-capacity-available"]
              + (if input.requireRouteStateUrl then ["route-state-polling"] else [])
              + (if input.requireRouteIntentSink then ["route-intent-sink"] else [])
              + [if Given(p.managerId) then "manager-scoped-processor" else "explicit-processor"])
  }

  /** The pair of report k and its processor j passes every filter. */
  ghost predicate Passes(env: Env, input: Input, reports: seq<Stored>, k: nat, j: nat) {
    && k < |reports| && ReportPasses(env, input, reports[k])
    && j < |Expanded(env, reports[k].report.scopes)|
    && ProcessorPasses(env, input, Profiles(env, input.profiles)[env.lower(reports[k].report.operatorId)],
                       Expanded(env, reports[k].report.scopes)[j])
  }

  function NewestFirst(): (Stored, Stored) -> bool {
    (a: Stored, b: Stored) => b.report.reportedAt <= a.report.reportedAt
  }

  /** The loop over one report's processors. */
  method FirstPassing(env: Env, input: Input, profile: Profile, processors: seq<Processor>) returns (found: Option<nat>)
    ensures found.None? ==> forall j :: 0 <= j < |processors| ==> !ProcessorPasses(env, input, profile, processors[j])
    ensures found.Some? ==> (found.value < |processors| && ProcessorPasses(env, input, profile, processors[found.value])
      && forall j :: 0 <= j < found.value ==> !ProcessorPasses(env, input, profile, processors[j]))
  {
    var requestedProcessorId := LowerOf(env, input.processorId);
    for j := 0 to |processors|
      invariant forall i :: 0 <= i < j ==> !ProcessorPasses(env, input, profile, processors[i])
    {
      var processor := processors[j];
      if Given(requestedProcessorId) && processor.processorId != requestedProcessorId.value { continue; }
      if |profile.processorIds| > 0 && processor.processorId !in profile.processorIds { continue; }
      if |profile.managerIds| > 0 && Given(processor.managerId) && processor.managerId.value !in profile.managerIds { continue; }
      return Some(j);
    }
    found := None;
  }

  ghost predicate NonePasses(env: Env, input: Input, reports: seq<Stored>) {
    forall k: nat, j: nat :: !Passes(env, input, reports, k, j)
  }

  /** The first passing pair in the order in which the loops meet them. */
  ghost predicate FirstPasses(env: Env, input: Input, reports: seq<Stored>, k: nat, j: nat) {
    && Passes(env, input, reports, k, j)
    && (forall i: nat :: i < j ==> !Passes(env, input, reports, k, i))
    && NoneBefore(env, input, reports, k)
  }

  ghost predicate NoneBefore(env: Env, input: Input, reports: seq<Stored>, k: nat) {
    forall h: nat, i: nat :: h < k ==> !Passes(env, input, reports, h, i)
  }

  ghost predicate IsCandidateOf(env: Env, input: Input, reports: seq<Stored>, k: nat, j: nat, candidate: Candidate) {
    && Passes(env, input, reports, k, j)
    && candidate == CandidateOf(env, input, Profiles(env, input.profiles)[env.lower(reports[k].report.operatorId)],
                                reports[k], Expanded(env, reports[k].report.scopes)[j])
  }

  lemma ReportFails(env: Env, input: Input, reports: seq<Stored>, k: nat)
    requires k < |reports| && NoneBefore(env, input, reports, k) && !ReportPasses(env, input, reports[k])
    ensures NoneBefore(env, input, reports, k + 1)
  {}

  /** The profile and the processors of a report that passes. */
  function ProfileOf(env: Env, input: Input, stored: Stored): Profile
    requires ReportPasses(env, input, stored)
  {
    Profiles(env, input.profiles)[env.lower(stored.report.operatorId)]
  }

  lemma ProcessorsFail(env: Env, input: Input, reports: seq<Stored>, k: nat)
    requires k < |reports| && NoneBefore(env, input, reports, k) && ReportPasses(env, input, reports[k])
    requires var processors := Expanded(env, reports[k].report.scopes);
      forall j :: 0 <= j < |processors| ==> !ProcessorPasses(env, input, ProfileOf(env, input, reports[k]), processors[j])
    ensures NoneBefore(env, input, reports, k + 1)
  {}

  lemma FirstIsFound(env: Env, input: Input, reports: seq<Stored>, k: nat, j: nat)
    requires k < |reports| && NoneBefore(env, input, reports, k) && ReportPasses(env, input, reports[k])
    requires var processors := Expanded(env, reports[k].report.scopes);
      && j < |processors| && ProcessorPasses(env, input, ProfileOf(env, input, reports[k]), processors[j])
      && forall i :: 0 <= i < j ==> !ProcessorPasses(env, input, ProfileOf(env, input, reports[k]), processors[i])
    ensures FirstPasses(env, input, reports, k, j) && !NonePasses(env, input, reports)
    ensures IsCandidateOf(env, input, reports, k, j,
                          CandidateOf(env, input, ProfileOf(env, input, reports[k]), reports[k], Expanded(env, reports[k].report.scopes)[j]))
  {}

  lemma NoneAtAll(env: Env, input: Input, reports: seq<Stored>)
    requires NoneBefore(env, input, reports, |reports|)
    ensures NonePasses(env, input, reports)
  {}

  /** Sound and complete: nothing is returned exactly when no pair of a report and one of its
      processors passes every filter; otherwise the candidate is the first passing processor of the
      newest report that has one (the earlier listed among equally new ones). */
  method SelectOperatorCapabilityCandidate(env: Env, input: Input) returns (selected: Option<Candidate>)
    ensures selected.None? <==> NonePasses(env, input, StableSort(NewestFirst(), input.reports))
    ensures selected.Some? ==> exists k: nat, j: nat ::
      && FirstPasses(env, input, StableSort(NewestFirst(), input.reports), k, j)
      && IsCandidateOf(env, input, StableSort(NewestFirst(), input.reports), k, j, selected.value)
  {
    var requestedOperatorId := LowerOf(env, input.operatorId);
    var profiles := Profiles(env, input.profiles);
    var reports := StableSort(NewestFirst(), input.reports);
    for k := 0 to |reports|
      invariant NoneBefore(env, input, reports, k)
    {
      var stored := reports[k];
      if !ReportPasses(env, input, stored) {
        ReportFails(env, input, reports, k);
      }
      var report := stored.report;
      var operatorId := env.lower(report.operatorId);
      if operatorId !in profiles || profiles[operatorId].status != Active { continue; }
      var profile := profiles[operatorId];
      if Given(requestedOperatorId) && operatorId != requestedOperatorId.value { continue; }
      if report.expiresAt <= input.now { continue; }
      if !SignerAllowed(env, profile, stored.signer) { continue; }
      if |profile.gatewayIds| > 0 && report.gatewayId !in profile.gatewayIds { continue; }
      if report.routeCapacity <= 0 || report.activeRouteCount >= report.routeCapacity { continue; }
      if input.requireRouteStateUrl && !Given(RouteStateUrl(profile, report)) { continue; }
      if input.requireRouteStateUrl && report.routeStateHealthy == Some(false) { continue; }
      if input.requireRouteIntentSink && !Given(RouteIntentUrl(profile, report)) { continue; }
      assert ReportPasses(env, input, stored);
      var processors := ExpandedReportProcessors(env, report.scopes);
      var found := FirstPassing(env, input, profile, processors);
      if found.Some? {
        FirstIsFound(env, input, reports, k, found.value);
        return Some(CandidateOf(env, input, profile, stored, processors[found.value]));
      }
      ProcessorsFail(env, input, reports, k);
    }
    NoneAtAll(env, input, reports);
    selected := None;
  }

  /** The profile that counts for an operator is the last one given for it. */
  ghost predicate LastProfile(env: Env, profiles: seq<Profile>, i: nat, operatorId: string) {
    && i < |profiles| && env.lower(profiles[i].operatorId) == operatorId
    && forall h :: i < h < |profiles| ==> env.lower(profiles[h].operatorId) != operatorId
  }

  lemma {:induction false} ProfilesAreLast(env: Env, profiles: seq<Profile>, operatorId: string) returns (i: nat)
    requires operatorId in Profiles(env, profiles)
    ensures LastProfile(env, profiles, i, operatorId) && Profiles(env, profiles)[operatorId] == profiles[i]
  {
    var n := |profiles| - 1;
    if env.lower(profiles[n].operatorId) == operatorId {
      i := n;
    } else {
      i := ProfilesAreLast(env, profiles[..n], operatorId);
    }
  }

  lemma {:induction false} ProfilesExactly(env: Env, profiles: seq<Profile>, operatorId: string)
    ensures operatorId in Profiles(env, profiles) <==> exists i :: LastProfile(env, profiles, i, operatorId)
  {
    if operatorId in Profiles(env, profiles) {
      var i := ProfilesAreLast(env, profiles, operatorId);
    }
    if i: nat :| LastProfile(env, profiles, i, operatorId) {
      var n := |profiles| - 1;
      if i < n {
        assert LastProfile(env, profiles[..n], i, operatorId);
        ProfilesExactly(env, profiles[..n], operatorId);
      }
    }
  }

  lemma LastProfileIsCurrent(env: Env, profiles: seq<Profile>, i: nat, operatorId: string)
    requires LastProfile(env, profiles, i, operatorId)
    ensures operatorId in Profiles(env, profiles) && Profiles(env, profiles)[operatorId] == profiles[i]
  {
    ProfilesExactly(env, profiles, operatorId);
    var j := ProfilesAreLast(env, profiles, operatorId);
    assert i == j;
  }

  /** Both texts are "0x" and hex digits. */
  ghost predicate BothHex(a: string, b: string) {
    HexText(a) && HexText(b)
  }

  ghost predicate HexText(s: string) {
    |s| >= 3 && s[0] == '0' && s[1] == 'x'
    && forall i :: 2 <= i < |s| ==> '0' <= s[i] <= '9' || 'a' <= s[i] <= 'f' || 'A' <= s[i] <= 'F'
  }

  /** The profile lists the signer: the very text, or, for hex texts, the same but for case. */
  ghost predicate ListsSigner(env: Env, profile: Profile, signer: string) {
    exists k :: 0 <= k < |profile.reportSigners| &&
      if BothHex(profile.reportSigners[k], signer) then env.lower(profile.reportSigners[k]) == env.lower(signer)
      else profile.reportSigners[k] == signer
  }

  /** A profile's URL counts for its only gateway. */
  ghost predicate OnlyGateway(profile: Profile, gatewayId: string) {
    profile.gatewayIds == [gatewayId]
  }

  /** A stored report is eligible: by the report's, the profile's and the request's own fields. */
  ghost predicate Eligible(env: Env, input: Input, stored: Stored, profile: Profile) {
    var r := stored.report;
    && profile.status == Active
    && (input.operatorId.None? || env.lower(input.operatorId.value) == "" || env.lower(input.operatorId.value) == env.lower(r.operatorId))
    && input.now < r.expiresAt
    && ListsSigner(env, profile, stored.signer)
    && (profile.gatewayIds == [] || r.gatewayId in profile.gatewayIds)
    && 0 < r.routeCapacity && r.activeRouteCount < r.routeCapacity
    && (input.requireRouteStateUrl ==>
          && r.routeStateHealthy != Some(false)
          && (match r.routeStateUrl
              case Some(url) => url != ""
              case None => profile.routeStateUrl.Some? && profile.routeStateUrl.value != "" && OnlyGateway(profile, r.gatewayId)))
    && (input.requireRouteIntentSink ==>
          profile.routeIntentUrl.Some? && profile.routeIntentUrl.value != "" && OnlyGateway(profile, r.gatewayId))
  }

  ghost predicate EligibleNow(env: Env, input: Input, stored: Stored) {
    exists i: nat :: LastProfile(env, input.profiles, i, env.lower(stored.report.operatorId))
                     && Eligible(env, input, stored, input.profiles[i])
  }

  lemma HexExactly(s: string)
    ensures IsHex(s) <==> HexText(s)
    ensures IsHex32(s) <==> HexText(s) && |s| == 66
  {
    if |s| >= 3 {
      assert s[..2] == [s[0], s[1]];
    }
  }

  lemma SignersExactly(env: Env, profile: Profile, signer: string)
    ensures SignerAllowed(env, profile, signer) <==> ListsSigner(env, profile, signer)
  {
    HexExactly(signer);
    forall k | 0 <= k < |profile.reportSigners|
      ensures SameSigner(env, profile.reportSigners[k], signer) <==>
              if BothHex(profile.reportSigners[k], signer) then env.lower(profile.reportSigners[k]) == env.lower(signer)
              else profile.reportSigners[k] == signer
    {
      HexExactly(profile.reportSigners[k]);
    }
  }

  lemma UrlsExactly(profile: Profile, report: Report)
    ensures Given(RouteIntentUrl(profile, report)) <==>
            profile.routeIntentUrl.Some? && profile.routeIntentUrl.value != "" && OnlyGateway(profile, report.gatewayId)
    ensures Given(RouteStateUrl(profile, report)) <==>
            match report.routeStateUrl
            case Some(url) => url != ""
            case None => profile.routeStateUrl.Some? && profile.routeStateUrl.value != "" && OnlyGateway(profile, report.gatewayId)
  {}

  /** The report filters let a report through exactly when the operator's current profile makes it
      eligible: none is too strict, and none too lax. */
  lemma ReportPassesExactly(env: Env, input: Input, stored: Stored)
    ensures ReportPasses(env, input, stored) <==> EligibleNow(env, input, stored)
  {
    var id := env.lower(stored.report.operatorId);
    ProfilesExactly(env, input.profiles, id);
    if id in Profiles(env, input.profiles) {
      var i := ProfilesAreLast(env, input.profiles, id);
      PassesForProfile(env, input, stored, i);
      if j: nat :| LastProfile(env, input.profiles, j, id) && Eligible(env, input, stored, input.profiles[j]) {
        LastProfileIsCurrent(env, input.profiles, j, id);
      }
    } else {
      assert forall j: nat :: !LastProfile(env, input.profiles, j, id);
    }
  }

  lemma PassesForProfile(env: Env, input: Input, stored: Stored, i: nat)
    requires LastProfile(env, input.profiles, i, env.lower(stored.report.operatorId))
    ensures ReportPasses(env, input, stored) <==> Eligible(env, input, stored, input.profiles[i])
  {
    LastProfileIsCurrent(env, input.profiles, i, env.lower(stored.report.operatorId));
    SignersExactly(env, input.profiles[i], stored.signer);
    UrlsExactly(input.profiles[i], stored.report);
  }

  /** So do the processor filters, by their fields. */
  lemma ProcessorPassesExactly(env: Env, input: Input, profile: Profile, p: Processor)
    ensures ProcessorPasses(env, input, profile, p) <==>
      && (input.processorId.None? || env.lower(input.processorId.value) == "" || env.lower(input.processorId.value) == p.processorId)
      && (profile.processorIds == [] || p.processorId in profile.processorIds)
      && (profile.managerIds == [] || p.managerId.None? || p.managerId.value == "" || p.managerId.value in profile.managerIds)
  {}

  /** What the candidate says of its report and processor. */
  lemma CandidateSays(env: Env, input: Input, profile: Profile, stored: Stored, p: Processor)
    ensures var c, r := CandidateOf(env, input, profile, stored, p), stored.report;
      && c.operatorId == env.lower(r.operatorId) && c.gatewayId == r.gatewayId && c.processorId == p.processorId
      && c.processorAddress == p.address && c.managerId == p.managerId && c.reportId == r.reportId
      && c.reportExpiresAt == r.expiresAt && c.reportSigner == stored.signer
      && c.activeRouteCount == r.activeRouteCount && c.routeCapacity == r.routeCapacity
      && c.routeIntentTokenEnv == profile.routeIntentTokenEnv
      && c.routeStateUrl == (if r.routeStateUrl.Some? then r.routeStateUrl
                             else if OwnUrl(profile.routeStateUrl, profile, r.gatewayId) then profile.routeStateUrl else None)
      && c.routeIntentUrl == (if OwnUrl(profile.routeIntentUrl, profile, r.gatewayId) then profile.routeIntentUrl else None)
  {}

  /** A profile's non-empty URL that counts for the gateway. */
  ghost predicate OwnUrl(url: Option<string>, profile: Profile, gatewayId: string) {
    url.Some? && url.value != "" && OnlyGateway(profile, gatewayId)
  }

  /** An id is taken as it is, in lower case, and anything else is decoded as an address. */
  lemma RefExactly(env: Env, value: string)
    ensures ProcessorRefToId(env, value) == if HexText(value) && |value| == 66 then Some(env.lower(value)) else env.decodeAddress(value)
  {
    HexExactly(value);
  }

  /** When an entry of a scope lists an id, by the scope's own exclusions. */
  lemma ListsAtExactly(env: Env, scope: Scope, raw: string, id: string)
    ensures ListsAt(env, scope, raw, id) <==>
      && id != "" && ProcessorRefToId(env, raw) == Some(id)
      && (scope.excludeProcessors.Some? ==>
            forall k :: 0 <= k < |scope.excludeProcessors.value| ==> ProcessorRefToId(env, scope.excludeProcessors.value[k]) != Some(id))
  {
    if scope.excludeProcessors.Some? {
      var excluded := scope.excludeProcessors.value;
      assert OrEmpty(scope.excludeProcessors) == excluded;
      assert Excludes(env, scope, id) <==> exists k :: 0 <= k < |excluded| && ProcessorRefToId(env, excluded[k]) == Some(id);
    }
  }

  ghost predicate MeetsRequest(env: Env, input: Input, c: Candidate) {
    && c.reportExpiresAt > input.now && c.activeRouteCount < c.routeCapacity
    && (Given(LowerOf(env, input.operatorId)) ==> LowerOf(env, input.operatorId) == Some(c.operatorId))
    && (Given(LowerOf(env, input.processorId)) ==> LowerOf(env, input.processorId) == Some(c.processorId))
    && (input.requireRouteStateUrl ==> Given(c.routeStateUrl))
    && (input.requireRouteIntentSink ==> Given(c.routeIntentUrl))
    && ("route-state-polling" in c.selectionReasons <==> input.requireRouteStateUrl)
    && ("route-intent-sink" in c.selectionReasons <==> input.requireRouteIntentSink)
    && ("manager-scoped-processor" in c.selectionReasons <==> Given(c.managerId))
  }

  ghost predicate VouchedFor(env: Env, profile: Profile, c: Candidate) {
    && profile.status == Active && SignerAllowed(env, profile, c.reportSigner)
    && (profile.gatewayIds == [] || c.gatewayId in profile.gatewayIds)
    && (profile.processorIds == [] || c.processorId in profile.processorIds)
    && (profile.managerIds == [] || !Given(c.managerId) || c.managerId.value in profile.managerIds)
    && (c.routeIntentUrl.Some? ==> c.routeIntentUrl == profile.routeIntentUrl && profile.gatewayIds == [c.gatewayId])
  }

  lemma ReasonsTell(env: Env, input: Input, profile: Profile, stored: Stored, p: Processor)
    ensures var reasons := CandidateOf(env, input, profile, stored, p).selectionReasons;
      && ("route-state-polling" in reasons <==> input.requireRouteStateUrl)
      && ("route-intent-sink" in reasons <==> input.requireRouteIntentSink)
      && ("manager-scoped-processor" in reasons <==> Given(p.managerId))
  {}

  /** The reasons given, in order. */
  lemma ReasonsExactly(env: Env, input: Input, profile: Profile, stored: Stored, p: Processor)
    ensures var reasons := CandidateOf(env, input, profile, stored, p).selectionReasons; var n := |reasons|;
      && n >= 4
      && reasons[0] == "operator-profile-active" && reasons[1] == "capability-report-fresh" && reasons[2] == "gateway-capacity-available"
      && reasons[n - 1] == if Given(p.managerId) then "manager-scoped-processor" else "explicit-processor"
  {}

  /** What the chosen candidate promises its caller: it is fresh, has a free route, is what was asked
      for, and the operator's current profile is active and vouches for its signer, gateway,
      processor and manager. */
  lemma CandidateMeetsRequest(env: Env, input: Input, reports: seq<Stored>, k: nat, j: nat, c: Candidate)
    requires IsCandidateOf(env, input, reports, k, j, c)
    ensures MeetsRequest(env, input, c)
    ensures exists i: nat :: LastProfile(env, input.profiles, i, c.operatorId) && VouchedFor(env, input.profiles[i], c)
  {
    var profile := Profiles(env, input.profiles)[c.operatorId];
    ReasonsTell(env, input, profile, reports[k], Expanded(env, reports[k].report.scopes)[j]);
    var i := ProfilesAreLast(env, input.profiles, c.operatorId);
    assert VouchedFor(env, input.profiles[i], c);
  }

  /** A chosen processor really is one the report lists without excluding, and the reports were tried
      newest first. */
  lemma CandidateIsListed(env: Env, input: Input, k: nat, j: nat)
    requires Passes(env, input, StableSort(NewestFirst(), input.reports), k, j)
    ensures var reports := StableSort(NewestFirst(), input.reports);
      && reports[k] in input.reports
      && Listed(env, reports[k].report.scopes, Expanded(env, reports[k].report.scopes)[j].processorId)
      && (forall h :: k < h < |reports| ==> reports[h].report.reportedAt <= reports[k].report.reportedAt)
  {
    var reports := StableSort(NewestFirst(), input.reports);
    SortMembers(NewestFirst(), input.reports);
    assert TotalPreorder(NewestFirst());
    SortSorted(NewestFirst(), input.reports);
    var found := Expanded(env, reports[k].report.scopes);
    ExpandedExactly(env, reports[k].report.scopes);
    assert HasId(found, found[j].processorId);
    assert forall h :: k < h < |reports| ==> NewestFirst()(reports[k], reports[h]);
  }
}
