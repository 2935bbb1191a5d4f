/** StoryGenerator.js: grouping of graph nodes by date range, face count and location,
    the assembly of candidate stories from those groups, and the update of the user's
    preferences after a story was rated.

    The haversine distance of groupByLocation is replaced by a parameter `near`, the
    clock by a parameter `clock`, and the day and location keys that the source formats
    from dates and coordinates by parameters `dayKey` and `locationKey`. */
module StoryGenerator {
  import opened Wrappers
  import opened Seqs
  import opened Strings
  import opened Photos

  // ---------------------------------------------------------------- groupByDateRange

  /** A node is kept when it has a date within [start, end]. */
  predicate InDateRange(node: Node, start: Instant, end: Instant) {
    node.dateTime.Some? && start <= node.dateTime.value <= end
  }

  /** `groupByDateRange`: a missing start reads as the epoch and a missing end as now. */
  function GroupByDateRange(nodes: seq<Node>, startDate: Option<Instant>, endDate: Option<Instant>, now: Instant): seq<Node> {
    var start, end := startDate.GetOr(0), endDate.GetOr(now);
    Filter(nodes, (n: Node) => InDateRange(n, start, end))
  }

  /** The result keeps input order, holds only dated nodes within the range, and misses none. */
  lemma GroupByDateRangeSpec(nodes: seq<Node>, startDate: Option<Instant>, endDate: Option<Instant>, now: Instant)
    ensures var r, start, end := GroupByDateRange(nodes, startDate, endDate, now), startDate.GetOr(0), endDate.GetOr(now);
      && IsSubseq(r, nodes)
      && (forall i :: 0 <= i < |r| ==> r[i].dateTime.Some? && start <= r[i].dateTime.value <= end)
      && (forall i :: 0 <= i < |nodes| && InDateRange(nodes[i], start, end) ==> nodes[i] in r)
  {
    var start, end := startDate.GetOr(0), endDate.GetOr(now);
    var p := (n: Node) => InDateRange(n, start, end);
    FilterIsSubseq(nodes, p);
    forall i | 0 <= i < |nodes| && InDateRange(nodes[i], start, end)
      ensures nodes[i] in GroupByDateRange(nodes, startDate, endDate, now)
    {
      FilterMember(nodes, p, nodes[i]);
    }
  }

  // ---------------------------------------------------------------- buckets by an integer key

  function FaceCount(n: Node): int { n.faceCount }

  function ClusterKey(n: Node): int { n.cluster }

  /** The nodes whose key is k. */
  function KeyIs(key: Node -> int, k: int): Node -> bool {
    n => key(n) == k
  }

  /** `dict[k]` after the bucketing loop: the nodes with key k, in input order. */
  function Bucket(nodes: seq<Node>, key: Node -> int, k: int): seq<Node> {
    Filter(nodes, KeyIs(key, k))
  }

  /** The keys that occur in nodes and that the bucketing loop keeps. */
  function KeysOf(nodes: seq<Node>, key: Node -> int, keep: int -> bool): (r: set<int>)
    ensures forall k :: k in r ==> keep(k)
    decreases |nodes|
  {
    if nodes == [] then {}
    else
      var last := nodes[|nodes| - 1];
      KeysOf(nodes[..|nodes| - 1], key, keep) + (if keep(key(last)) then {key(last)} else {})
  }

  /** KeysOf holds exactly the kept keys of the nodes. */
  lemma {:induction false} KeysOfMember(nodes: seq<Node>, key: Node -> int, keep: int -> bool, k: int)
    ensures k in KeysOf(nodes, key, keep) <==> exists i :: 0 <= i < |nodes| && keep(key(nodes[i])) && key(nodes[i]) == k
    decreases |nodes|
  {
    if nodes != [] {
      var prefix := nodes[..|nodes| - 1];
      KeysOfMember(prefix, key, keep, k);
      assert forall i :: 0 <= i < |prefix| ==> prefix[i] == nodes[i];
    }
  }

  /** The kept key of any node is in KeysOf. */
  lemma KeysOfHas(nodes: seq<Node>, key: Node -> int, keep: int -> bool, i: nat)
    requires i < |nodes| && keep(key(nodes[i]))
    ensures key(nodes[i]) in KeysOf(nodes, key, keep)
  {
    KeysOfMember(nodes, key, keep, key(nodes[i]));
  }

  /** The least key among the nodes' keys that lie in `among`, if any. */
  function LeastKey(nodes: seq<Node>, key: Node -> int, among: set<int>): (r: Option<int>)
    ensures r.None? <==> forall i :: 0 <= i < |nodes| ==> key(nodes[i]) !in among
    ensures r.Some? ==> r.value in among
    ensures r.Some? ==> forall i :: 0 <= i < |nodes| && key(nodes[i]) in among ==> r.value <= key(nodes[i])
    decreases |nodes|
  {
    if nodes == [] then None
    else
      var prefix, k := nodes[..|nodes| - 1], key(nodes[|nodes| - 1]);
      var r := LeastKey(prefix, key, among);
      assert forall i :: 0 <= i < |prefix| ==> nodes[i] == prefix[i];
      if k !in among then r
      else if r.None? || k < r.value then Some(k)
      else r
  }

  /** groups[g] is the bucket of key ks[g]: the buckets in ascending key order (the order
      `Object.values` lists integer keys), only those of at least minSize nodes, and every
      such bucket of a kept key. */
  ghost predicate IsGrouping(nodes: seq<Node>, key: Node -> int, keep: int -> bool, minSize: nat,
                             groups: seq<seq<Node>>, ks: seq<int>) {
    && |ks| == |groups|
    && (forall g :: 0 <= g < |groups| ==>
          && keep(ks[g]) && 1 <= |groups[g]| && minSize <= |groups[g]|
          && groups[g] == Bucket(nodes, key, ks[g]))
    && (forall a, b :: 0 <= a < b < |ks| ==> ks[a] < ks[b])
    && (forall i :: 0 <= i < |nodes| && keep(key(nodes[i])) && minSize <= |Bucket(nodes, key, key(nodes[i]))| ==>
          key(nodes[i]) in ks)
  }

  lemma KeysOfSnoc(nodes: seq<Node>, n: Node, key: Node -> int, keep: int -> bool)
    ensures KeysOf(nodes + [n], key, keep) == KeysOf(nodes, key, keep) + (if keep(key(n)) then {key(n)} else {})
  {
    assert (nodes + [n])[..|nodes|] == nodes;
  }

  /** A kept key that occurs on a node has a non-empty bucket whose first node carries it. */
  lemma BucketOfKey(nodes: seq<Node>, key: Node -> int, keep: int -> bool, k: int)
    requires k in KeysOf(nodes, key, keep)
    ensures 1 <= |Bucket(nodes, key, k)| && key(Bucket(nodes, key, k)[0]) == k
  {
    KeysOfMember(nodes, key, keep, k);
    var i :| 0 <= i < |nodes| && keep(key(nodes[i])) && key(nodes[i]) == k;
    FilterMember(nodes, KeyIs(key, k), nodes[i]);
  }

  /** A kept key that occurs on no node has an empty bucket. */
  lemma BucketOfMissingKey(nodes: seq<Node>, key: Node -> int, keep: int -> bool, k: int)
    requires keep(k) && k !in KeysOf(nodes, key, keep)
    ensures Bucket(nodes, key, k) == []
  {
    forall i | 0 <= i < |nodes| ensures !KeyIs(key, k)(nodes[i]) {
      if keep(key(nodes[i])) {
        KeysOfHas(nodes, key, keep, i);
      }
    }
    FilterNone(nodes, KeyIs(key, k));
  }

  /** The first pass of the bucketing loop: a dictionary from each kept key to the nodes
      carrying it, in input order. */
  method FillBuckets(nodes: seq<Node>, key: Node -> int, keep: int -> bool) returns (buckets: map<int, seq<Node>>)
    ensures buckets.Keys == KeysOf(nodes, key, keep)
    ensures forall k :: k in buckets ==> buckets[k] == Bucket(nodes, key, k)
  {
    buckets := map[];
    var i := 0;
    while i < |nodes|
      invariant 0 <= i <= |nodes|
      invariant buckets.Keys == KeysOf(nodes[..i], key, keep)
      invariant forall k :: k in buckets ==> buckets[k] == Bucket(nodes[..i], key, k)
    {
      var n := nodes[i];
      assert nodes[..i + 1] == nodes[..i] + [n];
      KeysOfSnoc(nodes[..i], n, key, keep);
      forall k ensures Bucket(nodes[..i + 1], key, k) == Bucket(nodes[..i], key, k) + (if key(n) == k then [n] else []) {
        FilterSnoc(nodes[..i], n, KeyIs(key, k));
      }
      if keep(key(n)) {
        if key(n) !in buckets {
          BucketOfMissingKey(nodes[..i], key, keep, key(n));
          buckets := buckets[key(n) := []];
        }
        buckets := buckets[key(n) := buckets[key(n)] + [n]];
      }
      i := i + 1;
    }
    assert nodes[..i] == nodes;
  }

  /** What the read-out loop keeps: the groups emitted so far are the big-enough buckets of
      the keys done, in ascending key order, and every key still to do is above them. */
  ghost predicate ReadOutInv(nodes: seq<Node>, key: Node -> int, keep: int -> bool, minSize: nat,
                             done: set<int>, groups: seq<seq<Node>>, ks: seq<int>) {
    && done <= KeysOf(nodes, key, keep)
    && |ks| == |groups|
    && (forall g :: 0 <= g < |groups| ==>
          && ks[g] in done && keep(ks[g]) && 1 <= |groups[g]| && minSize <= |groups[g]|
          && groups[g] == Bucket(nodes, key, ks[g]))
    && (forall a, b :: 0 <= a < b < |ks| ==> ks[a] < ks[b])
    && (forall g, k :: 0 <= g < |ks| && k in KeysOf(nodes, key, keep) - done ==> ks[g] < k)
    && (forall k :: k in done && minSize <= |Bucket(nodes, key, k)| ==> k in ks)
  }

  /** The least remaining key lies below every other remaining key. */
  lemma LeastRemaining(nodes: seq<Node>, key: Node -> int, keep: int -> bool, done: set<int>, k: int)
    requires LeastKey(nodes, key, KeysOf(nodes, key, keep) - done) == Some(k)
    ensures k in KeysOf(nodes, key, keep) - done
    ensures forall k' :: k' in KeysOf(nodes, key, keep) - (done + {k}) ==> k < k'
  {
    forall k' | k' in KeysOf(nodes, key, keep) - (done + {k}) ensures k < k' {
      KeysOfMember(nodes, key, keep, k');
    }
  }

  /** Skipping the least remaining key, whose bucket is too small, preserves ReadOutInv. */
  lemma ReadOutSkip(nodes: seq<Node>, key: Node -> int, keep: int -> bool, minSize: nat,
                    done: set<int>, groups: seq<seq<Node>>, ks: seq<int>, k: int)
    requires ReadOutInv(nodes, key, keep, minSize, done, groups, ks)
    requires LeastKey(nodes, key, KeysOf(nodes, key, keep) - done) == Some(k)
    requires |Bucket(nodes, key, k)| < minSize
    ensures ReadOutInv(nodes, key, keep, minSize, done + {k}, groups, ks)
  {
    LeastRemaining(nodes, key, keep, done, k);
  }

  /** Emitting the bucket of the least remaining key preserves ReadOutInv. */
  lemma ReadOutEmit(nodes: seq<Node>, key: Node -> int, keep: int -> bool, minSize: nat,
                    done: set<int>, groups: seq<seq<Node>>, ks: seq<int>, k: int, bucket: seq<Node>)
    requires ReadOutInv(nodes, key, keep, minSize, done, groups, ks)
    requires LeastKey(nodes, key, KeysOf(nodes, key, keep) - done) == Some(k)
    requires bucket == Bucket(nodes, key, k) && minSize <= |bucket|
    ensures ReadOutInv(nodes, key, keep, minSize, done + {k}, groups + [bucket], ks + [k])
  {
    LeastRemaining(nodes, key, keep, done, k);
    BucketOfKey(nodes, key, keep, k);
    var done', groups', ks' := done + {k}, groups + [bucket], ks + [k];
    forall g | 0 <= g < |groups'|
      ensures ks'[g] in done' && keep(ks'[g]) && 1 <= |groups'[g]| && minSize <= |groups'[g]|
      ensures groups'[g] == Bucket(nodes, key, ks'[g])
    {
      if g < |groups| {
        assert groups'[g] == groups[g] && ks'[g] == ks[g];
      }
    }
    forall a, b | 0 <= a < b < |ks'| ensures ks'[a] < ks'[b] {
      assert ks'[a] == ks[a];
    }
    forall g, k' | 0 <= g < |ks'| && k' in KeysOf(nodes, key, keep) - done' ensures ks'[g] < k' {
      if g < |ks| {
        assert ks'[g] == ks[g];
      }
    }
    assert ks'[|ks|] == k;
  }

  /** Once no key remains, the groups emitted are the grouping. */
  lemma ReadOutDone(nodes: seq<Node>, key: Node -> int, keep: int -> bool, minSize: nat,
                    done: set<int>, groups: seq<seq<Node>>, ks: seq<int>)
    requires ReadOutInv(nodes, key, keep, minSize, done, groups, ks)
    requires LeastKey(nodes, key, KeysOf(nodes, key, keep) - done).None?
    ensures IsGrouping(nodes, key, keep, minSize, groups, ks)
  {
    forall i | 0 <= i < |nodes| && keep(key(nodes[i])) ensures key(nodes[i]) in done {
      KeysOfHas(nodes, key, keep, i);
    }
  }

  /** Marking one more key done leaves fewer keys to do. */
  lemma RemoveShrinks(all: set<int>, done: set<int>, k: int)
    requires k in all - done
    ensures |all - (done + {k})| < |all - done|
  {
    assert all - (done + {k}) == (all - done) - {k};
  }

  /** Before the read-out loop nothing is done and nothing emitted. */
  lemma ReadOutStart(nodes: seq<Node>, key: Node -> int, keep: int -> bool, minSize: nat)
    ensures ReadOutInv(nodes, key, keep, minSize, {}, [], [])
  {
  }

  /** One round of the read-out loop: the least key not yet done, its bucket appended
      when big enough, and the next least key looked up. */
  method ReadOutNext(nodes: seq<Node>, key: Node -> int, keep: int -> bool, minSize: nat, buckets: map<int, seq<Node>>,
                     done: set<int>, groups: seq<seq<Node>>, ghost ks: seq<int>, k: int)
    returns (done': set<int>, groups': seq<seq<Node>>, ghost ks': seq<int>, next: Option<int>)
    requires buckets.Keys == KeysOf(nodes, key, keep)
    requires forall k :: k in buckets ==> buckets[k] == Bucket(nodes, key, k)
    requires ReadOutInv(nodes, key, keep, minSize, done, groups, ks)
    requires LeastKey(nodes, key, buckets.Keys - done) == Some(k)
    ensures ReadOutInv(nodes, key, keep, minSize, done', groups', ks')
    ensures done' == done + {k} <= buckets.Keys
    ensures |buckets.Keys - done'| < |buckets.Keys - done|
    ensures next == LeastKey(nodes, key, buckets.Keys - done')
  {
    LeastRemaining(nodes, key, keep, done, k);
    done' := done + {k};
    if minSize <= |buckets[k]| {
      ReadOutEmit(nodes, key, keep, minSize, done, groups, ks, k, buckets[k]);
      groups', ks' := groups + [buckets[k]], ks + [k];
    } else {
      ReadOutSkip(nodes, key, keep, minSize, done, groups, ks, k);
      groups', ks' := groups, ks;
    }
    RemoveShrinks(buckets.Keys, done, k);
    next := LeastKey(nodes, key, buckets.Keys - done');
  }

  /** `Object.values(dict)`: the buckets in ascending key order, keeping those of at least
      minSize nodes; ks are their keys. */
  method ReadOutBuckets(nodes: seq<Node>, key: Node -> int, keep: int -> bool, minSize: nat, buckets: map<int, seq<Node>>)
    returns (groups: seq<seq<Node>>, ghost ks: seq<int>)
    requires buckets.Keys == KeysOf(nodes, key, keep)
    requires forall k :: k in buckets ==> buckets[k] == Bucket(nodes, key, k)
    ensures IsGrouping(nodes, key, keep, minSize, groups, ks)
    ensures forall g :: 0 <= g < |groups| ==> 1 <= |groups[g]| && minSize <= |groups[g]|
  {
    groups, ks := [], [];
    var done: set<int> := {};
    ReadOutStart(nodes, key, keep, minSize);
    var next := LeastKey(nodes, key, buckets.Keys - done);
    while next.Some?
      invariant ReadOutInv(nodes, key, keep, minSize, done, groups, ks)
      invariant done <= buckets.Keys
      invariant next == LeastKey(nodes, key, buckets.Keys - done)
      decreases |buckets.Keys - done|
    {
      done, groups, ks, next := ReadOutNext(nodes, key, keep, minSize, buckets, done, groups, ks, next.value);
    }
    ReadOutDone(nodes, key, keep, minSize, done, groups, ks);
  }

  /** The bucketing shared by groupByFaces and the cluster stories of generateStories. */
  method GroupBy(nodes: seq<Node>, key: Node -> int, keep: int -> bool, minSize: nat)
    returns (groups: seq<seq<Node>>, ghost ks: seq<int>)
    ensures IsGrouping(nodes, key, keep, minSize, groups, ks)
    ensures forall g :: 0 <= g < |groups| ==> 1 <= |groups[g]| && minSize <= |groups[g]|
  {
    var buckets := FillBuckets(nodes, key, keep);
    groups, ks := ReadOutBuckets(nodes, key, keep, minSize, buckets);
  }

  // ---------------------------------------------------------------- groupByFaces

  function Positive(k: int): bool { k > 0 }

  /** `groupByFaces`: nodes with at least one face bucketed by face count, then
      `.filter(group => group.length > 1)`, which GroupBy applies as its minimum size. */
  method GroupByFaces(nodes: seq<Node>) returns (groups: seq<seq<Node>>, ghost ks: seq<int>)
    ensures IsGrouping(nodes, FaceCount, Positive, 2, groups, ks)
    ensures forall g :: 0 <= g < |groups| ==> 2 <= |groups[g]|
  {
    groups, ks := GroupBy(nodes, FaceCount, Positive, 2);
  }

  /** Every face group has at least two nodes, all with the same positive face count, in
      input order. */
  lemma FaceGroupShape(nodes: seq<Node>, groups: seq<seq<Node>>, ks: seq<int>, g: nat)
    requires IsGrouping(nodes, FaceCount, Positive, 2, groups, ks)
    requires g < |groups|
    ensures |groups[g]| >= 2 && ks[g] > 0
    ensures forall k :: 0 <= k < |groups[g]| ==> groups[g][k].faceCount == ks[g]
    ensures IsSubseq(groups[g], nodes)
  {
    forall k | 0 <= k < |groups[g]| ensures groups[g][k].faceCount == ks[g] {
      FilterMember(nodes, KeyIs(FaceCount, ks[g]), groups[g][k]);
    }
    FilterIsSubseq(nodes, KeyIs(FaceCount, ks[g]));
  }

  /** No node value lies in two different face groups. */
  lemma FaceGroupsDisjoint(nodes: seq<Node>, groups: seq<seq<Node>>, ks: seq<int>, a: nat, b: nat, x: Node)
    requires IsGrouping(nodes, FaceCount, Positive, 2, groups, ks)
    requires a < b < |groups|
    ensures !(x in groups[a] && x in groups[b])
  {
    if x in groups[a] && x in groups[b] {
      FilterMember(nodes, KeyIs(FaceCount, ks[a]), x);
      FilterMember(nodes, KeyIs(FaceCount, ks[b]), x);
      assert false;
    }
  }

  /** A node with faces is in some face group exactly when another node has its face count. */
  lemma FaceGroupMembership(nodes: seq<Node>, groups: seq<seq<Node>>, ks: seq<int>, i: nat)
    requires IsGrouping(nodes, FaceCount, Positive, 2, groups, ks)
    requires i < |nodes| && nodes[i].faceCount > 0
    ensures (exists g :: 0 <= g < |groups| && nodes[i] in groups[g]) <==>
            (exists j :: 0 <= j < |nodes| && j != i && nodes[j].faceCount == nodes[i].faceCount)
  {
    var f := nodes[i].faceCount;
    var p := KeyIs(FaceCount, f);
    if g :| 0 <= g < |groups| && nodes[i] in groups[g] {
      FilterMember(nodes, KeyIs(FaceCount, ks[g]), nodes[i]);
      FilterPartner(nodes, p, i);
    }
    if j :| 0 <= j < |nodes| && j != i && nodes[j].faceCount == f {
      FilterTwo(nodes, p, i, j);
      var g :| 0 <= g < |ks| && ks[g] == f;
      FilterMember(nodes, p, nodes[i]);
    }
  }

  // ---------------------------------------------------------------- groupByLocation

  /** The ids of the nodes of a group. */
  function IdSet(group: seq<Node>): set<string> {
    set n | n in group :: n.id
  }

  /** No id occurs twice in the group. */
  predicate DistinctIds(group: seq<Node>) {
    forall a, b :: 0 <= a < b < |group| ==> group[a].id != group[b].id
  }

  /** Appending a node adds its id. */
  lemma IdSetSnoc(group: seq<Node>, x: Node)
    ensures IdSet(group + [x]) == IdSet(group) + {x.id}
  {
    assert forall n :: n in group + [x] <==> n in group || n == x;
  }

  /** Appending a node with a new id keeps the ids distinct. */
  lemma DistinctIdsSnoc(group: seq<Node>, x: Node)
    requires DistinctIds(group) && x.id !in IdSet(group)
    ensures DistinctIds(group + [x])
  {
    forall a, b | 0 <= a < b < |group| + 1 ensures (group + [x])[a].id != (group + [x])[b].id {
      assert (group + [x])[a] == group[a];
      if b == |group| {
        assert group[a] in group;
      } else {
        assert (group + [x])[b] == group[b];
      }
    }
  }

  /** The result of groupByLocation with `at[g][k]` the input position of `groups[g][k]`:
      groups of at least two nodes, each a seed followed by later nodes near the seed, no
      id twice in a group and no id in two groups. */
  ghost predicate IsLocationGrouping(nodes: seq<Node>, near: (Node, Node) -> bool, groups: seq<seq<Node>>, at: seq<seq<nat>>) {
    && |at| == |groups|
    && (forall g :: 0 <= g < |groups| ==> 2 <= |groups[g]| && |at[g]| == |groups[g]| && DistinctIds(groups[g]))
    && (forall g, k :: 0 <= g < |groups| && 0 <= k < |at[g]| ==> at[g][k] < |nodes| && groups[g][k] == nodes[at[g][k]])
    && (forall g, k :: 0 <= g < |groups| && 0 < k < |at[g]| ==> at[g][k - 1] < at[g][k] && near(groups[g][0], groups[g][k]))
    && (forall a, b :: 0 <= a < b < |groups| ==> IdSet(groups[a]) !! IdSet(groups[b]))
  }

  /** The inner loop of groupByLocation for seed i after looking at nodes[..j]: the group,
      which starts as the seed alone, and the ids taken. Node j - 1 joins when it is not
      the seed, its id is not taken yet and it is near the seed. */
  function Grow(nodes: seq<Node>, i: nat, near: (Node, Node) -> bool, taken: set<string>, j: nat): (seq<Node>, set<string>)
    requires i < |nodes| && j <= |nodes|
    decreases j
  {
    if j == 0 then ([nodes[i]], taken + {nodes[i].id})
    else
      var (group, after) := Grow(nodes, i, near, taken, j - 1);
      var other := nodes[j - 1];
      if i != j - 1 && other.id !in after && near(nodes[i], other) then (group + [other], after + {other.id})
      else (group, after)
  }

  /** The outer loop of groupByLocation after looking at nodes[..i]: the groups of more than
      one node and the ids assigned. A node whose id is already assigned seeds nothing. */
  function GroupsUpTo(nodes: seq<Node>, near: (Node, Node) -> bool, i: nat): (seq<seq<Node>>, set<string>)
    requires i <= |nodes|
    decreases i
  {
    if i == 0 then ([], {})
    else
      var (groups, ids) := GroupsUpTo(nodes, near, i - 1);
      if nodes[i - 1].id in ids then (groups, ids)
      else
        var (group, after) := Grow(nodes, i - 1, near, ids, |nodes|);
        (if |group| > 1 then groups + [group] else groups, after)
  }

  /** The value of `groupByLocation(nodes)`. */
  function LocationGroups(nodes: seq<Node>, near: (Node, Node) -> bool): seq<seq<Node>> {
    GroupsUpTo(nodes, near, |nodes|).0
  }

  /** What the inner loop of groupByLocation keeps after looking at the nodes before j: the
      seed first, then nodes before j near the seed and not taken before, in input order;
      every node before j that is near the seed and was not taken before has its id taken. */
  ghost predicate GrowInv(nodes: seq<Node>, i: nat, near: (Node, Node) -> bool, taken: set<string>,
                          j: int, group: seq<Node>, idx: seq<nat>, takenAfter: set<string>)
    requires i < |nodes|
  {
    && 0 <= j <= |nodes|
    && (group, takenAfter) == Grow(nodes, i, near, taken, j)
    && |idx| == |group| >= 1 && idx[0] == i && group[0] == nodes[i]
    && (forall k :: 0 <= k < |group| ==> idx[k] < |nodes| && group[k] == nodes[idx[k]])
    && (forall k :: 0 < k < |group| ==> idx[k - 1] < idx[k] && near(nodes[i], group[k]))
    && (|group| > 1 ==> idx[|group| - 1] < j)
    && DistinctIds(group)
    && IdSet(group) !! taken && takenAfter == taken + IdSet(group)
    && (forall k :: 0 <= k < j && k != i && nodes[k].id !in taken && near(nodes[i], nodes[k]) ==>
          nodes[k].id in takenAfter)
  }

  /** One round of the inner loop: node j joins when it is not the seed, not taken and near
      the seed. */
  method GrowStep(nodes: seq<Node>, i: nat, near: (Node, Node) -> bool, taken: set<string>,
                  j: nat, group: seq<Node>, ghost idx: seq<nat>, takenAfter: set<string>)
    returns (group': seq<Node>, ghost idx': seq<nat>, takenAfter': set<string>)
    requires i < |nodes| && j < |nodes|
    requires forall k :: 0 <= k < i ==> nodes[k].id in taken
    requires GrowInv(nodes, i, near, taken, j, group, idx, takenAfter)
    ensures GrowInv(nodes, i, near, taken, j + 1, group', idx', takenAfter')
  {
    var other := nodes[j];
    group', idx', takenAfter' := group, idx, takenAfter;
    if i != j && other.id !in takenAfter && near(nodes[i], other) {
      GrowAppend(nodes, i, near, taken, j, group, idx, takenAfter);
      group' := group + [other];
      idx' := idx + [j];
      takenAfter' := takenAfter + {other.id};
    }
  }

  /** A node after the seed, not taken and near the seed, extends the group. */
  lemma GrowAppend(nodes: seq<Node>, i: nat, near: (Node, Node) -> bool, taken: set<string>,
                   j: nat, group: seq<Node>, idx: seq<nat>, takenAfter: set<string>)
    requires i < |nodes| && j < |nodes| && i != j
    requires forall k :: 0 <= k < i ==> nodes[k].id in taken
    requires GrowInv(nodes, i, near, taken, j, group, idx, takenAfter)
    requires nodes[j].id !in takenAfter && near(nodes[i], nodes[j])
    ensures GrowInv(nodes, i, near, taken, j + 1, group + [nodes[j]], idx + [j], takenAfter + {nodes[j].id})
  {
    var other := nodes[j];
    assert other.id !in taken;
    assert i < j;
    IdSetSnoc(group, other);
    DistinctIdsSnoc(group, other);
    var g', x' := group + [other], idx + [j];
    forall k | 0 <= k < |g'| ensures x'[k] < |nodes| && g'[k] == nodes[x'[k]] {
      if k < |group| {
        assert g'[k] == group[k] && x'[k] == idx[k];
      }
    }
    forall k | 0 < k < |g'| ensures x'[k - 1] < x'[k] && near(nodes[i], g'[k]) {
      if k < |group| {
        assert g'[k] == group[k] && x'[k] == idx[k] && x'[k - 1] == idx[k - 1];
      } else {
        assert x'[k - 1] == idx[|group| - 1];
      }
    }
  }

  /** The inner loop of groupByLocation for seed i: it computes Grow over all the nodes, so
      the group is the seed followed by nodes near it in input order, with ids neither taken
      before nor repeated, and every node near the seed whose id was not taken before ends
      up with its id taken. */
  method GrowGroup(nodes: seq<Node>, i: nat, near: (Node, Node) -> bool, taken: set<string>)
    returns (group: seq<Node>, ghost idx: seq<nat>, takenAfter: set<string>)
    requires i < |nodes| && nodes[i].id !in taken
    requires forall j :: 0 <= j < i ==> nodes[j].id in taken
    ensures (group, takenAfter) == Grow(nodes, i, near, taken, |nodes|)
    ensures |idx| == |group| >= 1 && group[0] == nodes[i] && idx[0] == i
    ensures forall k :: 0 <= k < |group| ==> idx[k] < |nodes| && group[k] == nodes[idx[k]]
    ensures forall k :: 0 < k < |group| ==> idx[k - 1] < idx[k] && near(nodes[i], group[k])
    ensures DistinctIds(group)
    ensures IdSet(group) !! taken && takenAfter == taken + IdSet(group)
    ensures forall k :: 0 <= k < |nodes| && k != i && nodes[k].id !in taken && near(nodes[i], nodes[k]) ==>
      nodes[k].id in takenAfter
  {
    group := [nodes[i]];
    idx := [i];
    takenAfter := taken + {nodes[i].id};
    assert IdSet(group) == {nodes[i].id};
    var j := 0;
    while j < |nodes|
      invariant GrowInv(nodes, i, near, taken, j, group, idx, takenAfter)
    {
      group, idx, takenAfter := GrowStep(nodes, i, near, taken, j, group, idx, takenAfter);
      j := j + 1;
    }
  }

  /** Appending a group whose ids are all fresh keeps a location grouping. */
  lemma LocationGroupingSnoc(nodes: seq<Node>, near: (Node, Node) -> bool, groups: seq<seq<Node>>, at: seq<seq<nat>>,
                             group: seq<Node>, idx: seq<nat>, taken: set<string>)
    requires IsLocationGrouping(nodes, near, groups, at)
    requires forall g :: 0 <= g < |groups| ==> IdSet(groups[g]) <= taken
    requires 2 <= |group| && |idx| == |group| && DistinctIds(group) && IdSet(group) !! taken
    requires forall k :: 0 <= k < |group| ==> idx[k] < |nodes| && group[k] == nodes[idx[k]]
    requires forall k :: 0 < k < |group| ==> idx[k - 1] < idx[k] && near(group[0], group[k])
    ensures IsLocationGrouping(nodes, near, groups + [group], at + [idx])
  {
    var groups', at' := groups + [group], at + [idx];
    forall g | 0 <= g < |groups'| ensures groups'[g] == (if g < |groups| then groups[g] else group) {
    }
    forall g | 0 <= g < |at'| ensures at'[g] == (if g < |at| then at[g] else idx) {
    }
    forall a, b | 0 <= a < b < |groups'| ensures IdSet(groups'[a]) !! IdSet(groups'[b]) {
      if b == |groups| {
        assert IdSet(groups[a]) <= taken;
      }
    }
  }

  /** `groupByLocation`: each node whose id is not yet taken seeds a group (GrowGroup);
      groups of one node are dropped, but their seed's id stays taken. The result is
      LocationGroups, and it is a location grouping.
      `near(a, b)` stands for `getDistanceKm(a.lat, a.lon, b.lat, b.lon) <= maxDistanceKm`. */
  method GroupByLocation(nodes: seq<Node>, near: (Node, Node) -> bool) returns (groups: seq<seq<Node>>, ghost at: seq<seq<nat>>)
    ensures groups == LocationGroups(nodes, near)
    ensures IsLocationGrouping(nodes, near, groups, at)
    ensures forall g :: 0 <= g < |groups| ==> 2 <= |groups[g]| && DistinctIds(groups[g])
  {
    groups, at := [], [];
    var assignedIds: set<string> := {};
    var i := 0;
    while i < |nodes|
      invariant 0 <= i <= |nodes|
      invariant (groups, assignedIds) == GroupsUpTo(nodes, near, i)
      invariant IsLocationGrouping(nodes, near, groups, at)
      invariant forall j :: 0 <= j < i ==> nodes[j].id in assignedIds
      invariant forall g :: 0 <= g < |groups| ==> IdSet(groups[g]) <= assignedIds
    {
      if nodes[i].id !in assignedIds {
        var group, idx, after := GrowGroup(nodes, i, near, assignedIds);
        if |group| > 1 {
          LocationGroupingSnoc(nodes, near, groups, at, group, idx, assignedIds);
          groups := groups + [group];
          at := at + [idx];
        }
        assignedIds := after;
      }
      i := i + 1;
    }
  }

  // ---------------------------------------------------------------- generateStories

  /** The `type` of a story. */
  datatype StoryKind = Face | Location | Date | Cluster | Random

  /** A story: its id, its type and its photos. The title is not modelled. */
  datatype Story = Story(id: string, kind: StoryKind, nodes: seq<Node>)

  /** The phase of generateStories that produces a kind of story. */
  function Rank(kind: StoryKind): nat {
    match kind
    case Face => 0
    case Location => 1
    case Date => 2
    case Cluster => 3
    case Random => 4
  }

  function KindTag(kind: StoryKind): string {
    match kind
    case Face => "faces-"
    case Location => "location-"
    case Date => "date-"
    case Cluster => "cluster-"
    case Random => "random-"
  }

  /** `story-faces-${now}` and `story-<kind>-${i}-${now}` for the other kinds, `now` being
      the value of `Date.now()` when the story is built. */
  function StoryId(kind: StoryKind, i: nat, now: nat): string {
    if kind == Face then "story-" + KindTag(kind) + NatToString(now)
    else "story-" + KindTag(kind) + NatToString(i) + "-" + NatToString(now)
  }

  /** The ids of two indexed stories of one kind differ when their indices do, whatever the
      clock read for each. */
  lemma StoryIdIndex(kind: StoryKind, i1: nat, now1: nat, i2: nat, now2: nat)
    requires kind != Face && i1 != i2
    ensures StoryId(kind, i1, now1) != StoryId(kind, i2, now2)
  {
    var p, a, b := "story-" + KindTag(kind), NatToString(i1), NatToString(i2);
    var x, y := NatToString(now1), NatToString(now2);
    if p + a + "-" + x == p + b + "-" + y {
      PrefixedDigitsBeforeDash(p, a, x, b, y);
      NatToStringInjective(i1, i2);
    }
  }

  /** Stories of different kinds, or of the same indexed kind with different indices, get
      different ids, whatever the clock read for each. */
  lemma StoryIdInjective(k1: StoryKind, i1: nat, now1: nat, k2: StoryKind, i2: nat, now2: nat)
    requires k1 != k2 || (k1 != Face && i1 != i2)
    ensures StoryId(k1, i1, now1) != StoryId(k2, i2, now2)
  {
    if k1 != k2 {
      var s1, s2 := StoryId(k1, i1, now1), StoryId(k2, i2, now2);
      assert s1[6] == KindTag(k1)[0] && s2[6] == KindTag(k2)[0];
    } else {
      StoryIdIndex(k1, i1, now1, i2, now2);
    }
  }

  /** `Object.keys(likedPersons).map(parseInt).filter(c => !isNaN(c))`, as a set (the
      source only asks `includes` of it). */
  function LikedFaceCounts(likedPersons: set<string>): set<int> {
    set k | k in likedPersons && ParseInt(k).Some? :: ParseInt(k).value
  }

  function HasFaceCountIn(counts: set<int>): Node -> bool {
    (n: Node) => n.faceCount in counts
  }

  /** `likedFaceNodes`: the nodes whose face count is a liked one, in input order. */
  function LikedFaceNodes(nodes: seq<Node>, counts: set<int>): seq<Node> {
    Filter(nodes, HasFaceCountIn(counts))
  }

  function IsOnDay(dayKey: Instant -> string, day: string): Node -> bool {
    (n: Node) => n.dateTime.Some? && dayKey(n.dateTime.value) == day
  }

  /** `dateNodes`: the dated nodes whose day key is `day`, in input order. */
  function DayNodes(nodes: seq<Node>, dayKey: Instant -> string, day: string): seq<Node> {
    Filter(nodes, IsOnDay(dayKey, day))
  }

  /** `dates`: the day key of every dated node, in input order. */
  function DayKeys(nodes: seq<Node>, dayKey: Instant -> string): seq<string>
    decreases |nodes|
  {
    if nodes == [] then []
    else
      var last := nodes[|nodes| - 1];
      DayKeys(nodes[..|nodes| - 1], dayKey) + (if last.dateTime.Some? then [dayKey(last.dateTime.value)] else [])
  }

  /** The candidate groups of the date phase: for each of `uniqueDates` in order, its nodes. */
  function DayGroups(nodes: seq<Node>, dayKey: Instant -> string): seq<seq<Node>> {
    var days := Distinct(DayKeys(nodes, dayKey));
    seq(|days|, g requires 0 <= g < |days| => DayNodes(nodes, dayKey, days[g]))
  }

  /** Everything generateStories depends on besides the stories built so far; `clock(s)` is
      what `Date.now()` returns when the story at position s is built. */
  datatype Setting = Setting(nodes: seq<Node>, likedCounts: set<int>, near: (Node, Node) -> bool,
                             dayKey: Instant -> string, clock: nat -> nat)

  /** What a story of each kind with index `tag` holds: the first five liked-face nodes; the
      first five nodes of location group `tag`, a seed and nodes near it with distinct ids;
      the first five nodes of the `tag`-th distinct day; the first five nodes of one cluster;
      or min(5, #nodes) of the nodes given, each at most as often as given, which is the
      first five of some permutation of them. */
  ghost predicate Fits(env: Setting, st: Story, tag: nat) {
    match st.kind
    case Face => st.nodes == Slice(LikedFaceNodes(env.nodes, env.likedCounts), 5)
    case Location =>
      && tag < |LocationGroups(env.nodes, env.near)|
      && st.nodes == Slice(LocationGroups(env.nodes, env.near)[tag], 5)
      && DistinctIds(st.nodes) && forall k :: 0 < k < |st.nodes| ==> env.near(st.nodes[0], st.nodes[k])
    case Date =>
      && tag < |DayGroups(env.nodes, env.dayKey)|
      && st.nodes == Slice(DayGroups(env.nodes, env.dayKey)[tag], 5)
    case Cluster =>
      && st.nodes != [] && st.nodes[0].cluster >= 0
      && st.nodes == Slice(Bucket(env.nodes, ClusterKey, st.nodes[0].cluster), 5)
    case Random => |st.nodes| == Min(5, |env.nodes|) && multiset(st.nodes) <= multiset(env.nodes)
  }

  /** A story of three to five input nodes, built at position pos, with the id of its kind
      and index. */
  ghost predicate StoryOk(env: Setting, st: Story, tag: nat, pos: nat) {
    && 3 <= |st.nodes| <= 5
    && (forall k :: 0 <= k < |st.nodes| ==> st.nodes[k] in env.nodes)
    && st.id == StoryId(st.kind, tag, env.clock(pos))
    && Fits(env, st, tag)
  }

  /** Every story so far comes from an earlier phase, or from the phase of `kind` with an
      index below `tag`. */
  ghost predicate Precedes(stories: seq<Story>, tags: seq<nat>, kind: StoryKind, tag: nat)
    requires |tags| == |stories|
  {
    forall s :: 0 <= s < |stories| ==>
      Rank(stories[s].kind) < Rank(kind) || (stories[s].kind == kind && kind != Face && tags[s] < tag)
  }

  /** The stories are well formed, in phase order, and the indices within a phase increase. */
  ghost predicate WellFormed(env: Setting, stories: seq<Story>, tags: seq<nat>) {
    && |tags| == |stories|
    && (forall s :: 0 <= s < |stories| ==> StoryOk(env, stories[s], tags[s], s))
    && (forall a, b :: 0 <= a < b < |stories| ==>
          Rank(stories[a].kind) < Rank(stories[b].kind)
          || (stories[a].kind == stories[b].kind && stories[a].kind != Face && tags[a] < tags[b]))
  }

  /** Appending a well-formed story of a later phase, or of the same phase with a higher
      index, keeps the stories well formed. */
  lemma AppendStory(env: Setting, stories: seq<Story>, tags: seq<nat>, st: Story, tag: nat)
    requires WellFormed(env, stories, tags)
    requires StoryOk(env, st, tag, |stories|) && Precedes(stories, tags, st.kind, tag)
    ensures WellFormed(env, stories + [st], tags + [tag])
  {
    var stories2, tags2 := stories + [st], tags + [tag];
    forall s | 0 <= s < |stories2| ensures StoryOk(env, stories2[s], tags2[s], s) {
      if s < |stories| {
        assert stories2[s] == stories[s] && tags2[s] == tags[s];
      }
    }
    forall a, b | 0 <= a < b < |stories2|
      ensures Rank(stories2[a].kind) < Rank(stories2[b].kind)
          || (stories2[a].kind == stories2[b].kind && stories2[a].kind != Face && tags2[a] < tags2[b])
    {
      assert stories2[a] == stories[a] && tags2[a] == tags[a];
      if b < |stories| {
        assert stories2[b] == stories[b] && tags2[b] == tags[b];
      }
    }
  }

  /** Well-formed stories have pairwise distinct ids. */
  lemma WellFormedIds(env: Setting, stories: seq<Story>, tags: seq<nat>)
    requires WellFormed(env, stories, tags)
    ensures forall a, b :: 0 <= a < b < |stories| ==> stories[a].id != stories[b].id
  {
    forall a, b | 0 <= a < b < |stories| ensures stories[a].id != stories[b].id {
      StoryIdInjective(stories[a].kind, tags[a], env.clock(a), stories[b].kind, tags[b], env.clock(b));
    }
  }

  /** A story of the first five nodes of a group of at least three input nodes. */
  lemma SliceStory(env: Setting, group: seq<Node>, st: Story, tag: nat, pos: nat)
    requires 3 <= |group| && forall k :: 0 <= k < |group| ==> group[k] in env.nodes
    requires st.nodes == Slice(group, 5) && st.id == StoryId(st.kind, tag, env.clock(pos)) && Fits(env, st, tag)
    ensures StoryOk(env, st, tag, pos)
  {
    assert forall k :: 0 <= k < |st.nodes| ==> st.nodes[k] == group[k];
  }

  /** The choice a phase makes among its candidate groups 0 .. upTo - 1, `added` being the
      indices it made stories of and `total` the number of stories afterwards: every added
      index names a group of at least three nodes, and a group of at least three nodes
      without a story comes after every added one and was passed over because count
      stories already existed. */
  ghost predicate Greedy(groups: seq<seq<Node>>, upTo: nat, added: seq<nat>, total: int, count: int)
    requires upTo <= |groups|
  {
    && (forall t :: t in added ==> t < upTo && 3 <= |groups[t]|)
    && (forall g :: 0 <= g < upTo && 3 <= |groups[g]| && g !in added ==>
          count <= total && forall t :: t in added ==> t < g)
  }

  /** One round of a phase: group i gets a story exactly when fewer than count stories exist
      and it has at least three nodes. */
  lemma GreedyStep(groups: seq<seq<Node>>, i: nat, added: seq<nat>, total: int, count: int)
    requires i < |groups| && Greedy(groups, i, added, total, count)
    ensures total < count && 3 <= |groups[i]| ==> Greedy(groups, i + 1, added + [i], total + 1, count)
    ensures !(total < count && 3 <= |groups[i]|) ==> Greedy(groups, i + 1, added, total, count)
  {
  }

  /** What a phase of `kind` over candidate groups keeps after looking at groups 0 .. i - 1,
      having started from `stories`: the stories stay well formed and keep the earlier ones
      in front; each added story is of `kind`, indexed by its group, holds the first five
      nodes of that group, and the groups chosen are the Greedy ones; at most count
      stories exist unless there were more to begin with. */
  ghost predicate PhaseInv(env: Setting, kind: StoryKind, groups: seq<seq<Node>>, count: int, stories: seq<Story>,
                           i: nat, result: seq<Story>, resultTags: seq<nat>)
    requires i <= |groups|
  {
    && WellFormed(env, result, resultTags) && Precedes(result, resultTags, kind, i)
    && |stories| <= |result| <= Max(|stories|, count) && result[..|stories|] == stories
    && (forall s :: |stories| <= s < |result| ==>
          && result[s].kind == kind && resultTags[s] < i
          && result[s].nodes == Slice(groups[resultTags[s]], 5))
    && Greedy(groups, i, resultTags[|stories|..], |result|, count)
  }

  /** Before a phase looks at any group, it has added nothing. */
  lemma PhaseStart(env: Setting, kind: StoryKind, groups: seq<seq<Node>>, count: int, stories: seq<Story>, tags: seq<nat>)
    requires WellFormed(env, stories, tags) && Precedes(stories, tags, kind, 0)
    ensures PhaseInv(env, kind, groups, count, stories, 0, stories, tags)
  {
    assert tags[|stories|..] == [];
  }

  /** Group i gets its story: fewer than count stories exist and it has at least three nodes. */
  lemma PhaseAdd(env: Setting, kind: StoryKind, groups: seq<seq<Node>>, count: int, stories: seq<Story>,
                 i: nat, result: seq<Story>, resultTags: seq<nat>, st: Story)
    requires kind != Face && i < |groups| && PhaseInv(env, kind, groups, count, stories, i, result, resultTags)
    requires |result| < count && 3 <= |groups[i]|
    requires StoryOk(env, st, i, |result|) && st.kind == kind && st.nodes == Slice(groups[i], 5)
    ensures PhaseInv(env, kind, groups, count, stories, i + 1, result + [st], resultTags + [i])
  {
    AppendStory(env, result, resultTags, st, i);
    GreedyStep(groups, i, resultTags[|stories|..], |result|, count);
    assert (resultTags + [i])[|stories|..] == resultTags[|stories|..] + [i];
    var result', tags' := result + [st], resultTags + [i];
    assert result'[..|stories|] == result[..|stories|];
    forall s | |stories| <= s < |result'|
      ensures result'[s].kind == kind && tags'[s] < i + 1 && result'[s].nodes == Slice(groups[tags'[s]], 5)
    {
      if s < |result| {
        assert result'[s] == result[s] && tags'[s] == resultTags[s];
      }
    }
  }

  /** Group i gets no story: count stories exist already or it has fewer than three nodes. */
  lemma PhaseSkip(env: Setting, kind: StoryKind, groups: seq<seq<Node>>, count: int, stories: seq<Story>,
                  i: nat, result: seq<Story>, resultTags: seq<nat>)
    requires i < |groups| && PhaseInv(env, kind, groups, count, stories, i, result, resultTags)
    requires !(|result| < count && 3 <= |groups[i]|)
    ensures PhaseInv(env, kind, groups, count, stories, i + 1, result, resultTags)
  {
    GreedyStep(groups, i, resultTags[|stories|..], |result|, count);
  }

  /** After a phase, every story comes from it or from an earlier phase, so all come before
      any later phase. */
  lemma PhaseDone(env: Setting, kind: StoryKind, groups: seq<seq<Node>>, count: int, stories: seq<Story>,
                  tags: seq<nat>, result: seq<Story>, resultTags: seq<nat>, next: StoryKind)
    requires |tags| == |stories| && Precedes(stories, tags, kind, 0)
    requires PhaseInv(env, kind, groups, count, stories, |groups|, result, resultTags)
    requires Rank(kind) < Rank(next)
    ensures Precedes(result, resultTags, next, 0)
  {
    forall s | 0 <= s < |stories| ensures result[s] == stories[s] {
      assert result[..|stories|][s] == result[s];
    }
  }

  /** Step 1 of generateStories: the story of liked faces, when at least three nodes have a
      liked face count. */
  method FacePhase(env: Setting, likedPersons: set<string>) returns (stories: seq<Story>, ghost tags: seq<nat>)
    requires env.likedCounts == LikedFaceCounts(likedPersons)
    ensures WellFormed(env, stories, tags) && Precedes(stories, tags, Location, 0)
    ensures |stories| <= 1
    ensures stories != [] <==> 3 <= |LikedFaceNodes(env.nodes, env.likedCounts)|
    ensures stories != [] ==> stories[0].kind == Face
  {
    stories, tags := [], [];
    var faceNodes := LikedFaceNodes(env.nodes, env.likedCounts);
    if |likedPersons| > 0 {
      var likedFaceCounts := LikedFaceCounts(likedPersons);
      if |likedFaceCounts| > 0 {
        if |faceNodes| >= 3 {
          var st := Story(StoryId(Face, 0, env.clock(0)), Face, Slice(faceNodes, 5));
          FilterFrom(env.nodes, HasFaceCountIn(env.likedCounts));
          SliceStory(env, faceNodes, st, 0, 0);
          stories, tags := [st], [0];
        }
        return;
      }
    }
    FilterNone(env.nodes, HasFaceCountIn(env.likedCounts));
  }

  /** Step 2: one story per location group of at least three nodes while fewer than count
      stories exist, indexed by the group's position. */
  method LocationPhase(env: Setting, count: int, stories: seq<Story>, ghost tags: seq<nat>)
    returns (result: seq<Story>, ghost resultTags: seq<nat>)
    requires WellFormed(env, stories, tags) && Precedes(stories, tags, Location, 0)
    ensures var groups := LocationGroups(env.nodes, env.near);
      PhaseInv(env, Location, groups, count, stories, |groups|, result, resultTags)
    ensures Precedes(result, resultTags, Date, 0)
  {
    var groups, at := GroupByLocation(env.nodes, env.near);
    result, resultTags := stories, tags;
    PhaseStart(env, Location, groups, count, stories, tags);
    var i := 0;
    while i < |groups|
      invariant 0 <= i <= |groups|
      invariant PhaseInv(env, Location, groups, count, stories, i, result, resultTags)
    {
      var group := groups[i];
      if |result| < count && |group| >= 3 {
        var st := Story(StoryId(Location, i, env.clock(|result|)), Location, Slice(group, 5));
        assert forall k :: 0 <= k < |st.nodes| ==> st.nodes[k] == group[k];
        assert forall k :: 0 <= k < |group| ==> group[k] == env.nodes[at[i][k]];
        SliceStory(env, group, st, i, |result|);
        PhaseAdd(env, Location, groups, count, stories, i, result, resultTags, st);
        result, resultTags := result + [st], resultTags + [i];
      } else {
        PhaseSkip(env, Location, groups, count, stories, i, result, resultTags);
      }
      i := i + 1;
    }
    PhaseDone(env, Location, groups, count, stories, tags, result, resultTags, Date);
  }

  /** Step 3: one story per distinct day (in order of first appearance) with at least three
      nodes while fewer than count stories exist, indexed by the day's position. */
  method DatePhase(env: Setting, count: int, stories: seq<Story>, ghost tags: seq<nat>)
    returns (result: seq<Story>, ghost resultTags: seq<nat>)
    requires WellFormed(env, stories, tags) && Precedes(stories, tags, Date, 0)
    ensures var groups := DayGroups(env.nodes, env.dayKey);
      PhaseInv(env, Date, groups, count, stories, |groups|, result, resultTags)
    ensures Precedes(result, resultTags, Cluster, 0)
  {
    var uniqueDates := Distinct(DayKeys(env.nodes, env.dayKey));
    ghost var groups := DayGroups(env.nodes, env.dayKey);
    result, resultTags := stories, tags;
    PhaseStart(env, Date, groups, count, stories, tags);
    var i := 0;
    while i < |uniqueDates|
      invariant 0 <= i <= |uniqueDates| == |groups|
      invariant PhaseInv(env, Date, groups, count, stories, i, result, resultTags)
    {
      if |result| < count {
        var date := uniqueDates[i];
        var dateNodes := DayNodes(env.nodes, env.dayKey, date);
        assert dateNodes == groups[i];
        if |dateNodes| >= 3 {
          var st := Story(StoryId(Date, i, env.clock(|result|)), Date, Slice(dateNodes, 5));
          FilterFrom(env.nodes, IsOnDay(env.dayKey, date));
          SliceStory(env, dateNodes, st, i, |result|);
          PhaseAdd(env, Date, groups, count, stories, i, result, resultTags, st);
          result, resultTags := result + [st], resultTags + [i];
        } else {
          PhaseSkip(env, Date, groups, count, stories, i, result, resultTags);
        }
      } else {
        PhaseSkip(env, Date, groups, count, stories, i, result, resultTags);
      }
      i := i + 1;
    }
    PhaseDone(env, Date, groups, count, stories, tags, result, resultTags, Cluster);
  }

  function NonNegative(k: int): bool { k >= 0 }

  /** Step 4: the nodes with a cluster label bucketed by label (ascending, as `Object.values`
      lists them), one story per bucket of at least three nodes while fewer than count
      stories exist, indexed by the bucket's position. `groups` and `ks` are the buckets and
      their labels. */
  method ClusterPhase(env: Setting, count: int, stories: seq<Story>, ghost tags: seq<nat>)
    returns (result: seq<Story>, ghost resultTags: seq<nat>, ghost groups: seq<seq<Node>>, ghost ks: seq<int>)
    requires WellFormed(env, stories, tags) && Precedes(stories, tags, Cluster, 0)
    ensures IsGrouping(env.nodes, ClusterKey, NonNegative, 1, groups, ks)
    ensures PhaseInv(env, Cluster, groups, count, stories, |groups|, result, resultTags)
    ensures Precedes(result, resultTags, Random, 0)
  {
    var buckets;
    buckets, ks := GroupBy(env.nodes, ClusterKey, NonNegative, 1);
    groups := buckets;
    result, resultTags := stories, tags;
    PhaseStart(env, Cluster, groups, count, stories, tags);
    var i := 0;
    while i < |buckets|
      invariant 0 <= i <= |buckets| == |groups|
      invariant PhaseInv(env, Cluster, groups, count, stories, i, result, resultTags)
    {
      var group := buckets[i];
      if |result| < count && |group| >= 3 {
        var st := Story(StoryId(Cluster, i, env.clock(|result|)), Cluster, Slice(group, 5));
        assert st.nodes[0] == group[0] && group == Bucket(env.nodes, ClusterKey, ks[i]);
        FilterFrom(env.nodes, KeyIs(ClusterKey, ks[i]));
        SliceStory(env, group, st, i, |result|);
        PhaseAdd(env, Cluster, groups, count, stories, i, result, resultTags, st);
        result, resultTags := result + [st], resultTags + [i];
      } else {
        PhaseSkip(env, Cluster, groups, count, stories, i, result, resultTags);
      }
      i := i + 1;
    }
    PhaseDone(env, Cluster, groups, count, stories, tags, result, resultTags, Random);
  }

  /** `[...nodes].sort(() => 0.5 - Math.random())`: some permutation of the nodes, chosen
      by the nondeterministic swaps of a shuffle. */
  method Shuffle(nodes: seq<Node>) returns (r: seq<Node>)
    ensures |r| == |nodes| && multiset(r) == multiset(nodes)
  {
    r := nodes;
    var i := 0;
    while i < |r|
      invariant 0 <= i <= |r| == |nodes| && multiset(r) == multiset(nodes)
    {
      var j :| i <= j < |r|;
      r := r[i := r[j]][j := r[i]];
      i := i + 1;
    }
  }

  /** The first five nodes of a permutation of the input make a random story. */
  lemma RandomStory(env: Setting, shuffled: seq<Node>, st: Story, tag: nat, pos: nat)
    requires 3 <= |env.nodes| && multiset(shuffled) == multiset(env.nodes) && |shuffled| == |env.nodes|
    requires st == Story(StoryId(Random, tag, env.clock(pos)), Random, Slice(shuffled, 5))
    ensures StoryOk(env, st, tag, pos)
  {
    var m := |st.nodes|;
    assert shuffled == st.nodes + shuffled[m..];
    assert multiset(st.nodes) <= multiset(env.nodes);
    forall k | 0 <= k < m ensures st.nodes[k] in env.nodes {
      assert st.nodes[k] in multiset(st.nodes);
    }
  }

  /** The final fill: random collections of five shuffled nodes until count stories exist,
      provided there are at least three nodes; each is indexed by the number of stories
      before it. */
  method RandomPhase(env: Setting, count: int, stories: seq<Story>, ghost tags: seq<nat>)
    returns (result: seq<Story>, ghost resultTags: seq<nat>)
    requires WellFormed(env, stories, tags) && Precedes(stories, tags, Random, 0)
    ensures WellFormed(env, result, resultTags)
    ensures |stories| <= |result| <= Max(|stories|, count) && result[..|stories|] == stories
    ensures |env.nodes| >= 3 ==> count <= |result|
    ensures |env.nodes| < 3 ==> result == stories
    ensures forall s :: |stories| <= s < |result| ==> result[s].kind == Random && resultTags[s] == s
  {
    result, resultTags := stories, tags;
    while |result| < count && |env.nodes| >= 3
      invariant WellFormed(env, result, resultTags) && Precedes(result, resultTags, Random, |result|)
      invariant |stories| <= |result| <= Max(|stories|, count) && result[..|stories|] == stories
      invariant |env.nodes| < 3 ==> result == stories
      invariant forall s :: |stories| <= s < |result| ==> result[s].kind == Random && resultTags[s] == s
      decreases count - |result|
    {
      var randomNodes := Shuffle(env.nodes);
      var st := Story(StoryId(Random, |result|, env.clock(|result|)), Random, Slice(randomNodes, 5));
      RandomStory(env, randomNodes, st, |result|, |result|);
      AppendStory(env, result, resultTags, st, |result|);
      result, resultTags := result + [st], resultTags + [|result|];
    }
  }

  /** `generateStories(nodes, userPreferences, count)`, with the readings of `Date.now()` as
      `clock`, the distance test of groupByLocation as `near` and the `YYYY-MM-DD` key of a
      date as `dayKey`; `likedPersons` are the keys of `userPreferences.likedPersons`. */
  method GenerateStories(nodes: seq<Node>, likedPersons: set<string>, count: int, clock: nat -> nat,
                         near: (Node, Node) -> bool, dayKey: Instant -> string)
    returns (stories: seq<Story>, ghost tags: seq<nat>)
    ensures nodes == [] ==> stories == []
    ensures WellFormed(Setting(nodes, LikedFaceCounts(likedPersons), near, dayKey, clock), stories, tags)
    ensures forall a, b :: 0 <= a < b < |stories| ==> stories[a].id != stories[b].id
    ensures |stories| <= Max(count, 1)
    ensures |nodes| >= 3 ==> count <= |stories|
    ensures (stories != [] && stories[0].kind == Face) <==> 3 <= |LikedFaceNodes(nodes, LikedFaceCounts(likedPersons))|
  {
    var env := Setting(nodes, LikedFaceCounts(likedPersons), near, dayKey, clock);
    if nodes == [] {
      return [], [];
    }
    var faces;
    faces, tags := FacePhase(env, likedPersons);
    stories, tags := LocationPhase(env, count, faces, tags);
    stories, tags := DatePhase(env, count, stories, tags);
    ghost var groups, ks;
    stories, tags, groups, ks := ClusterPhase(env, count, stories, tags);
    stories, tags := RandomPhase(env, count, stories, tags);
    WellFormedIds(env, stories, tags);
    if faces != [] {
      assert stories[0] == faces[0];
    }
  }

  // ---------------------------------------------------------------- updatePreferences

  /** `(tally[k] || 0)`: the count recorded for k, 0 when there is none. */
  function Count(tally: map<string, int>, k: string): int {
    if k in tally then tally[k] else 0
  }

  /** `tally[k] = (tally[k] || 0) + 1`. */
  function Bumped(tally: map<string, int>, k: string): (r: map<string, int>)
    ensures r.Keys == tally.Keys + {k}
    ensures Count(r, k) == Count(tally, k) + 1
    ensures forall k' :: k' != k ==> Count(r, k') == Count(tally, k')
  {
    tally[k := Count(tally, k) + 1]
  }

  /** The face tally after counting the face count (as a string) of each node in turn. */
  function FaceTally(tally: map<string, int>, nodes: seq<Node>): map<string, int>
    decreases |nodes|
  {
    if nodes == [] then tally
    else Bumped(FaceTally(tally, nodes[..|nodes| - 1]), IntToString(nodes[|nodes| - 1].faceCount))
  }

  /** Counting one node adds one to the key of face count f exactly when the node has f faces. */
  lemma FaceTallyStep(tally: map<string, int>, n: Node, f: int)
    ensures Count(Bumped(tally, IntToString(n.faceCount)), IntToString(f)) ==
            Count(tally, IntToString(f)) + (if n.faceCount == f then 1 else 0)
  {
    if n.faceCount != f && IntToString(n.faceCount) == IntToString(f) {
      IntToStringInjective(n.faceCount, f);
      assert false;
    }
  }

  /** One more node adds one to the bucket of its own face count and nothing to the others. */
  lemma BucketSnocSize(nodes: seq<Node>, n: Node, f: int)
    ensures |Bucket(nodes + [n], FaceCount, f)| == |Bucket(nodes, FaceCount, f)| + (if n.faceCount == f then 1 else 0)
  {
    FilterSnoc(nodes, n, KeyIs(FaceCount, f));
  }

  /** Counting faces adds to the key of face count f the number of nodes with f faces. */
  lemma {:induction false} FaceTallyCount(tally: map<string, int>, nodes: seq<Node>, f: int)
    ensures Count(FaceTally(tally, nodes), IntToString(f)) == Count(tally, IntToString(f)) + |Bucket(nodes, FaceCount, f)|
    decreases |nodes|
  {
    if nodes != [] {
      var prefix, last := nodes[..|nodes| - 1], nodes[|nodes| - 1];
      FaceTallyCount(tally, prefix, f);
      FaceTallyStep(FaceTally(tally, prefix), last, f);
      assert FaceTally(tally, nodes) == Bumped(FaceTally(tally, prefix), IntToString(last.faceCount));
      BucketSnocSize(prefix, last, f);
    }
  }

  /** Counting faces leaves every key that is not the face count of a node alone. */
  lemma {:induction false} FaceTallyOthers(tally: map<string, int>, nodes: seq<Node>, k: string)
    requires forall i :: 0 <= i < |nodes| ==> IntToString(nodes[i].faceCount) != k
    ensures Count(FaceTally(tally, nodes), k) == Count(tally, k)
    decreases |nodes|
  {
    if nodes != [] {
      FaceTallyOthers(tally, nodes[..|nodes| - 1], k);
    }
  }

  /** A list of story ids that `push` extends in place. */
  class IdList {
    var items: seq<string>

    constructor ()
      ensures items == []
    {
      items := [];
    }

    /** `list.push(id)`. */
    method Push(id: string)
      modifies this
      ensures items == old(items) + [id]
    {
      items := items + [id];
    }
  }

  /** An object from keys to counts that updatePreferences increments in place. */
  class Tally {
    var counts: map<string, int>

    constructor ()
      ensures counts == map[]
    {
      counts := map[];
    }

    /** `tally[k] = (tally[k] || 0) + 1`. */
    method Bump(k: string)
      modifies this
      ensures counts == Bumped(old(counts), k)
    {
      counts := counts[k := Count(counts, k) + 1];
    }

    /** `nodes.forEach(node => bump(node.faceCount.toString()))`. */
    method AddFaces(nodes: seq<Node>)
      modifies this
      ensures counts == FaceTally(old(counts), nodes)
    {
      var i := 0;
      while i < |nodes|
        invariant 0 <= i <= |nodes|
        invariant counts == FaceTally(old(counts), nodes[..i])
      {
        assert nodes[..i + 1][..i] == nodes[..i];
        Bump(IntToString(nodes[i].faceCount));
        i := i + 1;
      }
      assert nodes[..i] == nodes;
    }
  }

  /** The user's preferences: the ids of liked and disliked stories and tallies of liked
      face counts, locations and days. */
  class Preferences {
    var likedStories: IdList
    var dislikedStories: IdList
    var likedPersons: Tally
    var likedLocations: Tally
    var likedDates: Tally

    /** `{ ...prefs }`: a new object whose fields are the same nested objects as prefs'. */
    constructor Copy(prefs: Preferences)
      ensures likedStories == prefs.likedStories && dislikedStories == prefs.dislikedStories
      ensures likedPersons == prefs.likedPersons && likedLocations == prefs.likedLocations
      ensures likedDates == prefs.likedDates
    {
      likedStories := prefs.likedStories;
      dislikedStories := prefs.dislikedStories;
      likedPersons := prefs.likedPersons;
      likedLocations := prefs.likedLocations;
      likedDates := prefs.likedDates;
    }

    /** The tally a rating of the story increments, if any. */
    function TallyFor(story: Story, liked: bool): Option<Tally>
      reads this
    {
      if !liked then None
      else match story.kind
        case Face => Some(likedPersons)
        case Location => if story.nodes != [] then Some(likedLocations) else None
        case Date => if story.nodes != [] && story.nodes[0].dateTime.Some? then Some(likedDates) else None
        case _ => None
    }
  }

  /** `updatePreferences(story, liked, userPreferences)`: a shallow copy of the preferences
      whose nested lists and tallies are the caller's own, so the id is pushed onto the
      caller's list and the counts change in the caller's tally as well. `locationKey` and
      `dayKey` stand for the `lat,lon` key with two decimals and the `YYYY-MM-DD` key. */
  method UpdatePreferences(story: Story, liked: bool, prefs: Preferences,
                           locationKey: Node -> string, dayKey: Instant -> string) returns (np: Preferences)
    requires liked && (story.kind == Location || story.kind == Date) ==> story.nodes != []
    modifies prefs.likedStories, prefs.dislikedStories, prefs.likedPersons, prefs.likedLocations, prefs.likedDates
    ensures fresh(np)
    ensures np.likedStories == prefs.likedStories && np.dislikedStories == prefs.dislikedStories
    ensures np.likedPersons == prefs.likedPersons && np.likedLocations == prefs.likedLocations
    ensures np.likedDates == prefs.likedDates
    ensures var list := if liked then prefs.likedStories else prefs.dislikedStories;
      && list.items == old(list.items) + [story.id]
      && (prefs.likedStories != prefs.dislikedStories ==>
            unchanged(if liked then prefs.dislikedStories else prefs.likedStories))
    ensures liked && story.kind == Face ==>
      prefs.likedPersons.counts == FaceTally(old(prefs.likedPersons.counts), story.nodes)
    ensures liked && story.kind == Location ==>
      prefs.likedLocations.counts == Bumped(old(prefs.likedLocations.counts), locationKey(story.nodes[0]))
    ensures liked && story.kind == Date && story.nodes[0].dateTime.Some? ==>
      prefs.likedDates.counts == Bumped(old(prefs.likedDates.counts), dayKey(story.nodes[0].dateTime.value))
    ensures forall t :: (t in {prefs.likedPersons, prefs.likedLocations, prefs.likedDates}
      && prefs.TallyFor(story, liked) != Some(t)) ==> unchanged(t)
  {
    np := new Preferences.Copy(prefs);
    if liked {
      np.likedStories.Push(story.id);
      if story.kind == Face {
        np.likedPersons.AddFaces(story.nodes);
      }
      if story.kind == Location {
        np.likedLocations.Bump(locationKey(story.nodes[0]));
      }
      if story.kind == Date && story.nodes[0].dateTime.Some? {
        np.likedDates.Bump(dayKey(story.nodes[0].dateTime.value));
      }
    } else {
      np.dislikedStories.Push(story.id);
    }
  }
}
