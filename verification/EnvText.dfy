/** Text helpers shared by the env file and its updates. */
module EnvText {
  import opened Ordering

  /** A dictionary that enumerates its keys in the order of their first insertion. */
  datatype Dict = Dict(keys: seq<string>, values: map<string, string>)

  function FirstIndex(s: string, c: char): (n: nat)
    ensures n <= |s| && c !in s[..n] && (n < |s| <==> c in s) && (n < |s| ==> s[n] == c)
  {
    if s == "" || s[0] == c then 0
    else
      var m := FirstIndex(s[1..], c);
      assert s[..m + 1] == [s[0]] + s[1..][..m];
      m + 1
  }

  lemma {:induction false} FirstIndexIs(before: string, c: char, after: string)
    requires c !in before
    ensures FirstIndex(before + [c] + after, c) == |before|
  {
    if before != "" {
      FirstIndexIs(before[1..], c, after);
      assert (before + [c] + after)[1..] == before[1..] + [c] + after;
    }
  }

  /** What a line of input accepts as a key. */
  predicate GoodKey(key: string) {
    key != "" && '=' !in key
  }

  /** A dictionary the script may hold for a group. */
  ghost predicate IsDict(d: Dict) {
    NoDuplicates(d.keys) && (forall k :: k in d.values <==> k in d.keys) && forall k :: k in d.keys ==> GoodKey(k)
  }
}
