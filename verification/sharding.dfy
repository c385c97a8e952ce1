/** The patient list of `DSBScanLungMaskDataGenerator`: the scan paths are
    split into `allParts` consecutive shards of `|paths| / allParts` paths,
    the last shard taking the remainder; excluded patients are then removed
    (the first path containing each excluded id), and an explicit list of
    patients to include replaces the result altogether. */
module Sharding {

  import opened Wrappers
  import opened Seqs

  /** Python's `sub in s` on strings: `sub` occurs in `s`. */
  predicate Contains(s: string, sub: string)
  {
    (|sub| <= |s| && s[..|sub|] == sub) || (|s| > 0 && Contains(s[1..], sub))
  }

  /** Length of every shard but the last. */
  function PartLength(n: nat, allParts: nat): nat
    requires allParts >= 1
  {
    n / allParts
  }

  lemma PartsFit(n: nat, allParts: nat, k: nat)
    requires allParts >= 1 && k <= allParts
    ensures PartLength(n, allParts) * k <= n
  {
    var l := PartLength(n, allParts);
    assert l * k <= l * allParts;
  }

  /** Shard `thisPart` (counted from 1) of `allParts`. */
  function Shard(paths: seq<string>, thisPart: nat, allParts: nat): (r: seq<string>)
    requires 1 <= thisPart <= allParts
    ensures thisPart < allParts ==> |r| == PartLength(|paths|, allParts)
    ensures thisPart == allParts ==> |r| == PartLength(|paths|, allParts) + |paths| % allParts
  {
    var l := PartLength(|paths|, allParts);
    PartsFit(|paths|, allParts, thisPart - 1);
    if thisPart == allParts then paths[l * (thisPart - 1)..]
    else
      PartsFit(|paths|, allParts, thisPart);
      MulSucc(thisPart - 1, l);
      paths[l * (thisPart - 1) .. l * thisPart]
  }

  /** The first `n` shards. */
  function Shards(paths: seq<string>, allParts: nat, n: nat): (r: seq<seq<string>>)
    requires 1 <= allParts && n <= allParts
    ensures |r| == n
  {
    seq(n, k requires 0 <= k < n => Shard(paths, k + 1, allParts))
  }

  /** The shards are consecutive: the first `n` of them, concatenated, are
      a prefix of the path list, and all `allParts` of them give the whole
      list back, each path in exactly one shard and in its original order. */
  lemma {:induction false} ShardsCover(paths: seq<string>, allParts: nat, n: nat)
    requires 1 <= allParts && n <= allParts
    ensures n < allParts ==> (PartLength(|paths|, allParts) * n <= |paths| &&
                              Flatten(Shards(paths, allParts, n)) == paths[..PartLength(|paths|, allParts) * n])
    ensures n == allParts ==> Flatten(Shards(paths, allParts, n)) == paths
    decreases n
  {
    var l := PartLength(|paths|, allParts);
    PartsFit(|paths|, allParts, n);
    if n > 0 {
      ShardsCover(paths, allParts, n - 1);
      ShardsSnoc(paths, allParts, n);
      MulSucc(n - 1, l);
      if n == allParts {
        PrefixJoin(paths, l * (n - 1), |paths|);
      } else {
        PrefixJoin(paths, l * (n - 1), l * n);
      }
    }
  }

  /** One more shard appends its paths. */
  lemma ShardsSnoc(paths: seq<string>, allParts: nat, n: nat)
    requires 1 <= allParts && 0 < n <= allParts
    ensures Flatten(Shards(paths, allParts, n)) == Flatten(Shards(paths, allParts, n - 1)) + Shard(paths, n, allParts)
  {
    assert Shards(paths, allParts, n) == Shards(paths, allParts, n - 1) + [Shard(paths, n, allParts)];
    FlattenAppend(Shards(paths, allParts, n - 1), Shard(paths, n, allParts));
  }

  lemma PrefixJoin(s: seq<string>, a: nat, b: nat)
    requires a <= b <= |s|
    ensures s[..a] + s[a..b] == s[..b]
    ensures b == |s| ==> s[..a] + s[a..] == s
  {
    assert s[..b] == s[..a] + s[a..b];
  }

  /** The first path containing `ep`, if any. */
  function FirstContaining(paths: seq<string>, ep: string): (r: Option<nat>)
    ensures r.Some? ==> r.value < |paths| && Contains(paths[r.value], ep) &&
                        (forall j :: 0 <= j < r.value ==> !Contains(paths[j], ep))
    ensures r.None? ==> forall j :: 0 <= j < |paths| ==> !Contains(paths[j], ep)
  {
    if |paths| == 0 then None
    else if Contains(paths[0], ep) then Some(0)
    else match FirstContaining(paths[1..], ep)
      case None => None
      case Some(i) => Some(i + 1)
  }

  /** One excluded id: the first path containing it is popped. */
  function RemoveFirst(paths: seq<string>, ep: string): (r: seq<string>)
    ensures IsSubsequence(r, paths)
    ensures |paths| - 1 <= |r| <= |paths|
    ensures |r| == |paths| <==> forall j :: 0 <= j < |paths| ==> !Contains(paths[j], ep)
    // exactly the first path containing `ep` is gone, the others keep their order
    ensures |r| < |paths| ==> exists i :: 0 <= i < |paths| && Contains(paths[i], ep) &&
                                         (forall j :: 0 <= j < i ==> !Contains(paths[j], ep)) &&
                                         r == paths[..i] + paths[i + 1..]
  {
    match FirstContaining(paths, ep)
      case None =>
        SubsequenceRefl(paths);
        paths
      case Some(i) =>
        RemoveAtIsSubsequence(paths, i);
        paths[..i] + paths[i + 1..]
  }

  /** The exclusion loop over `exclude_pids`. */
  function Exclude(paths: seq<string>, eps: seq<string>): (r: seq<string>)
    ensures IsSubsequence(r, paths)
    ensures |paths| - |eps| <= |r| <= |paths|
  {
    if |eps| == 0 then
      SubsequenceRefl(paths);
      paths
    else
      var once := RemoveFirst(paths, eps[0]);
      var r := Exclude(once, eps[1..]);
      SubsequenceTrans(r, once, paths);
      r
  }

  /** The constructor's patient list. */
  function PatientPaths(paths: seq<string>, thisPart: nat, allParts: nat,
                        excludePids: Option<seq<string>>, includePids: Option<seq<string>>, dataPath: string): (r: seq<string>)
    requires 1 <= thisPart <= allParts
    ensures includePids.Some? ==> (|r| == |includePids.value| &&
                                   forall k :: 0 <= k < |r| ==> r[k] == dataPath + "/" + includePids.value[k])
    ensures includePids.None? && excludePids.None? ==> r == Shard(paths, thisPart, allParts)
    ensures includePids.None? && excludePids.Some? ==>
              (IsSubsequence(r, Shard(paths, thisPart, allParts)) &&
               |Shard(paths, thisPart, allParts)| - |excludePids.value| <= |r|)
  {
    if includePids.Some? then
      seq(|includePids.value|, k requires 0 <= k < |includePids.value| => dataPath + "/" + includePids.value[k])
    else
      var shard := Shard(paths, thisPart, allParts);
      if excludePids.Some? then Exclude(shard, excludePids.value) else shard
  }
}
