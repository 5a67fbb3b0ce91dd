/** How far the reply of `list` depends on the history of the store and not only on its documents. */
module DocStoreLists {
  import opened Wrappers
  import opened Ordering
  import opened DocStore
  import opened DocStoreLog
  import Decimal

  /** An object enumerates its properties in the order of their first insertion (unless they look
      like array indices). Documents are never taken out, so that is the order of first writes. */
  function FirstWritten<T>(changes: seq<Change<T>>): seq<string> {
    if changes == [] then []
    else
      var before, id := FirstWritten(changes[..|changes| - 1]), changes[|changes| - 1].id;
      if id in before then before else before + [id]
  }

  function LiveIn<T>(s: Snapshot<T>): string -> bool {
    id => id in s.documents && !s.documents[id].deleted
  }

  function LiveInOrder<T>(s: Snapshot<T>): seq<string> {
    Filter(LiveIn(s), FirstWritten(s.changes))
  }

  lemma {:induction false} FirstWrittenOnce<T>(changes: seq<Change<T>>)
    ensures NoDuplicates(FirstWritten(changes))
    ensures forall id :: id in FirstWritten(changes) <==> id in Replay(changes)
  {
    if changes != [] {
      FirstWrittenOnce(changes[..|changes| - 1]);
    }
  }

  /** In a reachable store the order of first writes enumerates the live documents, so sorting them
      from there is one of the possible listings. */
  lemma FirstWritesEnumerate<T(!new)>(s: Snapshot<T>)
    requires Consistent(s)
    ensures EnumeratesLive(s.documents, LiveInOrder(s))
  {
    FirstWrittenOnce(s.changes);
    FilterMembers(LiveIn(s), FirstWritten(s.changes));
    FilterNoDuplicates(LiveIn(s), FirstWritten(s.changes));
  }

  /** The reply of `list` for objects that enumerate by insertion. */
  ghost function ListReply<T(!new)>(leq: (string, string) -> bool, s: Snapshot<T>): (out: seq<Document<T>>)
    requires Consistent(s)
    ensures IsListing(leq, s.documents, out)
  {
    FirstWritesEnumerate(s);
    ListedAs(leq, s.documents, LiveInOrder(s))
  }

  // --- Two histories, one set of documents, two lists ---

  function FirstRev<T>(env: Env<T>, sequence: nat, value: T): string {
    NextRevision(env, None, sequence, value)
  }

  function SecondRev<T>(env: Env<T>, sequence: nat, value: T): string {
    Decimal.ToText(2) + "-" + env.digest(sequence, value)
  }

  lemma RevAfterFirst<T>(env: Env<T>, first: nat, sequence: nat, value: T)
    ensures NextRevision(env, Some(FirstRev(env, first, value)), sequence, value) == SecondRev(env, sequence, value)
  {
    NextGeneration(env, None, first, value);
    assert FirstRev(env, first, value) != "";
  }

  function Opening<T>(x: string, y: string, v: T, at: int): seq<Op<T>> {
    [Op<T>.Put(x, v, None, at), Op<T>.Put(y, v, None, at)]
  }

  function Closing<T>(env: Env<T>, x: string, a: string, b: string, v: T, at: int): seq<Op<T>> {
    [Op<T>.Put(a, v, Some(FirstRev(env, if a == x then 1 else 2, v)), at),
     Op<T>.Put(b, v, Some(FirstRev(env, if b == x then 1 else 2, v)), at)]
  }

  /** Writes `x`, `y`, and then `a` and `b` (the same two ids) a second time. */
  function History<T>(env: Env<T>, x: string, y: string, a: string, b: string, v: T, at: int): seq<Op<T>> {
    Opening(x, y, v, at) + Closing(env, x, a, b, v, at)
  }

  function Doc<T>(id: string, rev: string, sequence: nat, at: int, v: T): Document<T> {
    Document(id, rev, sequence, at, v, false)
  }

  /** The store after a history. */
  function Outcome<T>(env: Env<T>, x: string, y: string, a: string, b: string, v: T, at: int): Snapshot<T> {
    Snapshot(4, map[a := Doc(a, SecondRev(env, 3, v), 3, at, v), b := Doc(b, SecondRev(env, 4, v), 4, at, v)],
             [ChangeFromDocument(Doc(x, FirstRev(env, 1, v), 1, at, v)), ChangeFromDocument(Doc(y, FirstRev(env, 2, v), 2, at, v)),
              ChangeFromDocument(Doc(a, SecondRev(env, 3, v), 3, at, v)), ChangeFromDocument(Doc(b, SecondRev(env, 4, v), 4, at, v))],
             map[])
  }

  function Halfway<T>(env: Env<T>, x: string, y: string, v: T, at: int): Snapshot<T> {
    var d, e := Doc(x, FirstRev(env, 1, v), 1, at, v), Doc(y, FirstRev(env, 2, v), 2, at, v);
    Snapshot(2, map[x := d, y := e], [ChangeFromDocument(d), ChangeFromDocument(e)], map[])
  }

  lemma HalfHistory<T(!new)>(env: Env<T>, x: string, y: string, v: T, at: int)
    requires x != y
    ensures Run(env, Empty(), Opening(x, y, v, at)) == Halfway(env, x, y, v, at)
  {
    RunTwo(env, Empty(), Op<T>.Put(x, v, None, at), Op<T>.Put(y, v, None, at));
  }

  /** The second write of an id. */
  lemma SecondWrite<T(!new)>(env: Env<T>, s: Snapshot<T>, id: string, first: nat, v: T, at: int)
    requires id in s.documents && s.documents[id].rev == FirstRev(env, first, v)
    ensures Step(env, s, Op.Put(id, v, Some(FirstRev(env, first, v)), at)).0
         == Commit(s, Doc(id, SecondRev(env, s.sequence + 1, v), s.sequence + 1, at, v))
  {
    RevAfterFirst(env, first, s.sequence + 1, v);
  }

  lemma RunTwo<T(!new)>(env: Env<T>, s: Snapshot<T>, p: Op<T>, q: Op<T>)
    ensures Run(env, s, [p, q]) == Step(env, Step(env, s, p).0, q).0
  {
    assert [p, q][1..] == [q] && [q][1..] == [];
    assert Run(env, Step(env, s, p).0, [q]) == Step(env, Step(env, s, p).0, q).0;
  }

  lemma HistoryOutcome<T(!new)>(env: Env<T>, x: string, y: string, a: string, b: string, v: T, at: int)
    requires x != y && ((a == x && b == y) || (a == y && b == x))
    ensures Run(env, Empty(), History(env, x, y, a, b, v, at)) == Outcome(env, x, y, a, b, v, at)
  {
    HalfHistory(env, x, y, v, at);
    RunConcat(env, Empty(), Opening(x, y, v, at), Closing(env, x, a, b, v, at));
    SecondHalf(env, x, y, a, b, v, at);
  }

  lemma SecondHalf<T(!new)>(env: Env<T>, x: string, y: string, a: string, b: string, v: T, at: int)
    requires x != y && ((a == x && b == y) || (a == y && b == x))
    ensures Run(env, Halfway(env, x, y, v, at), Closing(env, x, a, b, v, at)) == Outcome(env, x, y, a, b, v, at)
  {
    var s := Halfway(env, x, y, v, at);
    var i, j := if a == x then 1 else 2, if b == x then 1 else 2;
    RunTwo(env, s, Op.Put(a, v, Some(FirstRev(env, i, v)), at), Op.Put(b, v, Some(FirstRev(env, j, v)), at));
    SecondWrite(env, s, a, i, v, at);
    var t := Commit(s, Doc(a, SecondRev(env, 3, v), 3, at, v));
    SecondWrite(env, t, b, j, v, at);
  }

  lemma OutcomeOrder<T>(env: Env<T>, x: string, y: string, a: string, b: string, v: T, at: int)
    requires x != y && ((a == x && b == y) || (a == y && b == x))
    ensures LiveInOrder(Outcome(env, x, y, a, b, v, at)) == [x, y]
  {
    var s := Outcome(env, x, y, a, b, v, at);
    var c := s.changes;
    assert c[..4] == c && c[..4][..3] == c[..3] && c[..3][..2] == c[..2] && c[..2][..1] == c[..1] && c[..1][..0] == [];
    assert FirstWritten(c[..1]) == [x];
    assert FirstWritten(c[..2]) == [x, y];
    assert FirstWritten(c[..3]) == [x, y];
    assert FirstWritten(c) == [x, y];
    assert [x, y][1..] == [y] && [y][1..] == [];
    FilterEverything(LiveIn(s), [x, y]);
  }

  lemma TwoLists<T(!new)>(leq: (string, string) -> bool, documents: map<string, Document<T>>, a: string, b: string)
    requires TotalPreorder(leq) && a != b && leq(a, b) && leq(b, a)
    requires EnumeratesLive(documents, [a, b]) && EnumeratesLive(documents, [b, a])
    requires a in documents && b in documents && documents[a].id == a && documents[b].id == b
    ensures ListedAs(leq, documents, [a, b]) != ListedAs(leq, documents, [b, a])
  {
    assert [a, b] + [] == [a, b] && [b, a] + [] == [b, a];
    SwappedListingsDiffer(leq, documents, a, b, []);
  }

  lemma OutcomeListing<T(!new)>(env: Env<T>, x: string, y: string, a: string, b: string, v: T, at: int)
    requires x != y && ((a == x && b == y) || (a == y && b == x))
    requires Consistent(Outcome(env, x, y, a, b, v, at))
    ensures EnumeratesLive(Outcome(env, x, y, a, b, v, at).documents, [x, y])
    ensures ListReply(env.leq, Outcome(env, x, y, a, b, v, at)) == ListedAs(env.leq, Outcome(env, x, y, a, b, v, at).documents, [x, y])
  {
    FirstWritesEnumerate(Outcome(env, x, y, a, b, v, at));
    OutcomeOrder(env, x, y, a, b, v, at);
  }

  lemma OutcomesListDifferently<T(!new)>(env: Env<T>, a: string, b: string, v: T, at: int)
    requires TotalPreorder(env.leq) && a != b && env.leq(a, b) && env.leq(b, a)
    requires Consistent(Outcome(env, a, b, a, b, v, at)) && Consistent(Outcome(env, b, a, a, b, v, at))
    ensures ListReply(env.leq, Outcome(env, a, b, a, b, v, at)) != ListReply(env.leq, Outcome(env, b, a, a, b, v, at))
  {
    OutcomeListing(env, a, b, a, b, v, at);
    OutcomeListing(env, b, a, a, b, v, at);
    TwoLists(env.leq, Outcome(env, a, b, a, b, v, at).documents, a, b);
  }

  /** So `list` is not a function of the documents when the collation ties two ids: two histories
      leave the very same documents and are listed differently. */
  lemma TiedListsTellHistory<T(!new)>(env: Env<T>, a: string, b: string, v: T, at: int)
    requires TotalPreorder(env.leq) && a != b && env.leq(a, b) && env.leq(b, a)
    ensures var s, t := Run(env, Empty(), History(env, a, b, a, b, v, at)), Run(env, Empty(), History(env, b, a, a, b, v, at));
      && s.documents == t.documents && Consistent(s) && Consistent(t)
      && ListReply(env.leq, s) != ListReply(env.leq, t)
  {
    HistoryOutcome(env, a, b, a, b, v, at);
    HistoryOutcome(env, b, a, a, b, v, at);
    EmptyConsistent(env, History(env, a, b, a, b, v, at));
    EmptyConsistent(env, History(env, b, a, a, b, v, at));
    OutcomesListDifferently(env, a, b, v, at);
  }
}
