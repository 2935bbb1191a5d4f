/** server.py, `process_images`: one graph node per uploaded photo, the photos partitioned by
    their DBSCAN label, and every non-noise cluster chained into links between consecutive
    members.

    EXIF parsing and face detection are done before this model starts: each upload arrives
    with its parsed date (if any) and face count. DBSCAN is a parameter that returns one
    label per feature row; the day count of a date and its ISO text are parameters too. */
module Server {
  import opened Wrappers
  import opened Seqs
  import opened Strings

  type Instant = int

  /** One entry of `data_list`: the file name, the EXIF date if one was parsed, and the
      number of faces found. */
  datatype Upload = Upload(filename: string, dateTime: Option<Instant>, faceCount: nat)

  /** One row of the feature array: days since the epoch, latitude, longitude, face count. */
  datatype Feature = Feature(days: real, lat: real, lon: real, faceCount: nat)

  datatype GraphNode = GraphNode(id: string, filename: string, cluster: int, faceCount: nat,
                                 lat: real, lon: real, dateTime: Option<string>)

  datatype Link = Link(source: string, target: string)

  /** The JSON body and status `process_images` answers with. */
  datatype Response = Error(status: int, message: string) | Graph(nodes: seq<GraphNode>, links: seq<Link>)

  /** The label DBSCAN gives to noise. */
  const Noise := -1

  // ---------------------------------------------------------------- features and nodes

  /** `date_to_days(dt) if dt else 0`: 0 for a photo without a date. */
  function DayFeature(dt: Option<Instant>, toDays: Instant -> real): real {
    match dt
    case None => 0.0
    case Some(t) => toDays(t)
  }

  /** The feature row of one upload; latitude and longitude are always 0 in this version. */
  function FeatureOf(u: Upload, toDays: Instant -> real): Feature {
    Feature(DayFeature(u.dateTime, toDays), 0.0, 0.0, u.faceCount)
  }

  /** The node for the i-th upload with DBSCAN label `lbl`. */
  function NodeFor(i: nat, u: Upload, lbl: int, iso: Instant -> string): GraphNode {
    GraphNode(NatToString(i), u.filename, lbl, u.faceCount, 0.0, 0.0,
              match u.dateTime case None => None case Some(t) => Some(iso(t)))
  }

  /** The feature-array loop. */
  method BuildFeatures(uploads: seq<Upload>, toDays: Instant -> real) returns (features: seq<Feature>)
    ensures |features| == |uploads|
    ensures forall i :: 0 <= i < |uploads| ==> features[i] == FeatureOf(uploads[i], toDays)
  {
    features := [];
    for i := 0 to |uploads|
      invariant |features| == i
      invariant forall k :: 0 <= k < i ==> features[k] == FeatureOf(uploads[k], toDays)
    {
      features := features + [FeatureOf(uploads[i], toDays)];
    }
  }

  /** The node-building loop: one node per upload, in upload order. */
  method BuildNodes(uploads: seq<Upload>, labels: seq<int>, iso: Instant -> string) returns (nodes: seq<GraphNode>)
    requires |labels| == |uploads|
    ensures |nodes| == |uploads|
    ensures forall i :: 0 <= i < |uploads| ==> nodes[i] == NodeFor(i, uploads[i], labels[i], iso)
  {
    nodes := [];
    for i := 0 to |uploads|
      invariant |nodes| == i
      invariant forall k :: 0 <= k < i ==> nodes[k] == NodeFor(k, uploads[k], labels[k], iso)
    {
      nodes := nodes + [NodeFor(i, uploads[i], labels[i], iso)];
    }
  }

  /** Node i is the only node whose id is `str(i)`. */
  lemma NodeIdsDistinct(uploads: seq<Upload>, labels: seq<int>, iso: Instant -> string, nodes: seq<GraphNode>, i: nat, j: nat)
    requires |labels| == |uploads| == |nodes|
    requires forall k :: 0 <= k < |uploads| ==> nodes[k] == NodeFor(k, uploads[k], labels[k], iso)
    requires i < j < |nodes|
    ensures nodes[i].id != nodes[j].id
  {
    if nodes[i].id == nodes[j].id {
      NatToStringInjective(i, j);
      assert false;
    }
  }

  /** A node has no date exactly when its upload has none, and then its day feature is 0. */
  lemma UndatedNode(u: Upload, i: nat, lbl: int, iso: Instant -> string, toDays: Instant -> real)
    ensures NodeFor(i, u, lbl, iso).dateTime.None? <==> u.dateTime.None?
    ensures u.dateTime.None? ==> FeatureOf(u, toDays).days == 0.0
  {
  }

  // ---------------------------------------------------------------- clusters

  /** `clusters[lbl]`: the indices carrying the lbl, in increasing order. */
  function IndicesOf(labels: seq<int>, lbl: int): (r: seq<nat>)
    ensures |r| <= |labels|
    ensures forall k :: 0 <= k < |r| ==> r[k] < |labels| && labels[r[k]] == lbl
    decreases |labels|
  {
    if labels == [] then []
    else
      var prefix := labels[..|labels| - 1];
      var r := IndicesOf(prefix, lbl);
      assert forall k :: 0 <= k < |r| ==> labels[r[k]] == prefix[r[k]];
      r + (if labels[|labels| - 1] == lbl then [|labels| - 1] else [])
  }

  /** An index is in the list of a lbl exactly when it carries that lbl. */
  lemma {:induction false} IndicesOfMember(labels: seq<int>, lbl: int, i: int)
    ensures i in IndicesOf(labels, lbl) <==> 0 <= i < |labels| && labels[i] == lbl
    decreases |labels|
  {
    if labels != [] {
      var prefix := labels[..|labels| - 1];
      IndicesOfMember(prefix, lbl, i);
      if 0 <= i < |prefix| {
        assert prefix[i] == labels[i];
      }
    }
  }

  /** Each list of indices is strictly increasing, so sorting it changes nothing and no
      index occurs twice in it. */
  lemma {:induction false} IndicesOfIncreasing(labels: seq<int>, lbl: int)
    ensures forall a, b :: 0 <= a < b < |IndicesOf(labels, lbl)| ==> IndicesOf(labels, lbl)[a] < IndicesOf(labels, lbl)[b]
    decreases |labels|
  {
    if labels != [] {
      var prefix := labels[..|labels| - 1];
      IndicesOfIncreasing(prefix, lbl);
      var r := IndicesOf(prefix, lbl);
      var r' := IndicesOf(labels, lbl);
      assert r' == r + (if labels[|labels| - 1] == lbl then [|prefix|] else []);
      forall a, b | 0 <= a < b < |r'| ensures r'[a] < r'[b] {
        if b < |r| {
          assert r'[a] == r[a] && r'[b] == r[b];
        } else {
          assert r'[a] == r[a] < |prefix| == r'[b];
        }
      }
    }
  }

  /** A label that does not occur has no indices. */
  lemma IndicesOfAbsent(labels: seq<int>, lbl: int)
    requires lbl !in labels
    ensures IndicesOf(labels, lbl) == []
  {
    var r := IndicesOf(labels, lbl);
    if r != [] {
      IndicesOfMember(labels, lbl, r[0]);
    }
  }

  /** The lists of indices after one more label. */
  lemma IndicesOfSnoc(labels: seq<int>, x: int, lbl: int)
    ensures IndicesOf(labels + [x], lbl) == IndicesOf(labels, lbl) + (if x == lbl then [|labels|] else [])
  {
    assert (labels + [x])[..|labels|] == labels;
  }

  /** The cluster-building loop. `order` is the key order of the Python dict, which is the
      order in which labels first appear. */
  method BuildClusters(labels: seq<int>) returns (order: seq<int>, clusters: map<int, seq<nat>>)
    ensures order == Distinct(labels)
    ensures forall l :: l in clusters <==> l in labels
    ensures forall l :: l in clusters ==> clusters[l] == IndicesOf(labels, l)
  {
    order, clusters := [], map[];
    for i := 0 to |labels|
      invariant order == Distinct(labels[..i])
      invariant forall l :: l in clusters <==> l in labels[..i]
      invariant forall l :: l in clusters ==> clusters[l] == IndicesOf(labels[..i], l)
    {
      var lbl := labels[i];
      assert labels[..i + 1][..i] == labels[..i];
      assert labels[..i + 1] == labels[..i] + [lbl];
      DistinctMember(labels[..i], lbl);
      forall l ensures IndicesOf(labels[..i + 1], l) == IndicesOf(labels[..i], l) + (if lbl == l then [i] else []) {
        IndicesOfSnoc(labels[..i], lbl, l);
      }
      if lbl !in clusters {
        IndicesOfAbsent(labels[..i], lbl);
        clusters := clusters[lbl := []];
        order := order + [lbl];
      }
      clusters := clusters[lbl := clusters[lbl] + [i]];
    }
    assert labels[..|labels|] == labels;
  }

  /** Every index lies in the list of its own lbl and in no other. */
  lemma ClusterPartition(labels: seq<int>, i: nat, l: int)
    requires i < |labels|
    ensures i in IndicesOf(labels, labels[i])
    ensures l != labels[i] ==> i !in IndicesOf(labels, l)
  {
    IndicesOfMember(labels, labels[i], i);
    IndicesOfMember(labels, l, i);
  }

  // ---------------------------------------------------------------- links

  /** The pairs of consecutive entries of a list of indices. */
  function Chain(idx: seq<nat>): (r: seq<(nat, nat)>)
    ensures |r| == if |idx| < 2 then 0 else |idx| - 1
    ensures forall k :: 0 <= k < |r| ==> r[k] == (idx[k], idx[k + 1])
    decreases |idx|
  {
    if |idx| < 2 then []
    else
      var r := Chain(idx[..|idx| - 1]);
      r + [(idx[|idx| - 2], idx[|idx| - 1])]
  }

  /** The index pairs linked for the labels of `order`, in that order, noise skipped. */
  function LinkPairsOver(labels: seq<int>, order: seq<int>): seq<(nat, nat)>
    decreases |order|
  {
    if order == [] then []
    else
      var last := order[|order| - 1];
      LinkPairsOver(labels, order[..|order| - 1]) + (if last == Noise then [] else Chain(IndicesOf(labels, last)))
  }

  /** The index pairs of all links, cluster by cluster in dict order. */
  function LinkPairs(labels: seq<int>): seq<(nat, nat)> {
    LinkPairsOver(labels, Distinct(labels))
  }

  function ToLink(p: (nat, nat)): Link {
    Link(NatToString(p.0), NatToString(p.1))
  }

  /** links[k] is the link of the k-th pair. */
  ghost predicate LinksOf(links: seq<Link>, pairs: seq<(nat, nat)>) {
    |links| == |pairs| && forall k :: 0 <= k < |pairs| ==> links[k] == ToLink(pairs[k])
  }

  /** The links of one cluster's index list, appended to the links so far. */
  method ChainCluster(links: seq<Link>, ghost pairs: seq<(nat, nat)>, indices: seq<nat>) returns (links': seq<Link>)
    requires LinksOf(links, pairs)
    ensures LinksOf(links', pairs + Chain(indices))
  {
    links' := links;
    if |indices| >= 1 {
      var j := 0;
      while j < |indices| - 1
        invariant 0 <= j <= |indices| - 1
        invariant LinksOf(links', pairs + Chain(indices[..j + 1]))
      {
        assert indices[..j + 2][..j + 1] == indices[..j + 1];
        links' := links' + [Link(NatToString(indices[j]), NatToString(indices[j + 1]))];
        j := j + 1;
      }
      assert indices[..j + 1] == indices;
    }
  }

  /** The link loop over the clusters in dict order. */
  method BuildLinks(labels: seq<int>, order: seq<int>, clusters: map<int, seq<nat>>) returns (links: seq<Link>)
    requires forall l :: l in order ==> l in clusters && clusters[l] == IndicesOf(labels, l)
    ensures LinksOf(links, LinkPairsOver(labels, order))
  {
    links := [];
    for o := 0 to |order|
      invariant LinksOf(links, LinkPairsOver(labels, order[..o]))
    {
      var lbl := order[o];
      assert order[..o + 1][..o] == order[..o];
      if lbl == Noise {
        continue;
      }
      var indices := clusters[lbl];
      links := ChainCluster(links, LinkPairsOver(labels, order[..o]), indices);
    }
    assert order[..|order|] == order;
  }

  /** `process_images`: 400 when no photo was sent, otherwise the nodes and links. */
  method ProcessImages(uploads: seq<Upload>, dbscan: seq<Feature> -> seq<int>,
                       toDays: Instant -> real, iso: Instant -> string) returns (resp: Response)
    requires forall f :: |dbscan(f)| == |f|
    ensures uploads == [] <==> resp == Error(400, "No files received")
    ensures uploads != [] ==> resp.Graph? && |resp.nodes| == |uploads|
    ensures resp.Graph? ==> var labels := dbscan(seq(|uploads|, i requires 0 <= i < |uploads| => FeatureOf(uploads[i], toDays)));
      && (forall i :: 0 <= i < |uploads| ==> resp.nodes[i] == NodeFor(i, uploads[i], labels[i], iso))
      && LinksOf(resp.links, LinkPairs(labels))
  {
    if uploads == [] {
      return Error(400, "No files received");
    }
    var features := BuildFeatures(uploads, toDays);
    assert features == seq(|uploads|, i requires 0 <= i < |uploads| => FeatureOf(uploads[i], toDays));
    var labels := dbscan(features);
    var nodes := BuildNodes(uploads, labels, iso);
    var order, clusters := BuildClusters(labels);
    forall l | l in order ensures l in clusters {
      DistinctMember(labels, l);
    }
    var links := BuildLinks(labels, order, clusters);
    resp := Graph(nodes, links);
  }

  // ---------------------------------------------------------------- properties of the links

  /** Every linked pair lies in the chain of some non-noise lbl of `order`. */
  lemma {:induction false} LinkPairsOverFrom(labels: seq<int>, order: seq<int>, p: (nat, nat))
    requires p in LinkPairsOver(labels, order)
    ensures exists l :: l in order && l != Noise && p in Chain(IndicesOf(labels, l))
    decreases |order|
  {
    var prefix, last := order[..|order| - 1], order[|order| - 1];
    if p in LinkPairsOver(labels, prefix) {
      LinkPairsOverFrom(labels, prefix, p);
      var l :| l in prefix && l != Noise && p in Chain(IndicesOf(labels, l));
      assert l in order;
    } else {
      assert last in order;
    }
  }

  /** Every pair of a non-noise lbl of `order` is linked. */
  lemma {:induction false} LinkPairsOverHas(labels: seq<int>, order: seq<int>, l: int, p: (nat, nat))
    requires l in order && l != Noise && p in Chain(IndicesOf(labels, l))
    ensures p in LinkPairsOver(labels, order)
    decreases |order|
  {
    var prefix, last := order[..|order| - 1], order[|order| - 1];
    if l != last {
      assert l in prefix;
      LinkPairsOverHas(labels, prefix, l, p);
    }
  }

  /** Each link joins two consecutive members of one non-noise cluster: the same lbl, not
      noise, source before target, and no member of the cluster between them. */
  lemma LinkJoinsNeighbours(labels: seq<int>, p: (nat, nat))
    requires p in LinkPairs(labels)
    ensures p.0 < p.1 < |labels|
    ensures labels[p.0] == labels[p.1] != Noise
    ensures forall m :: p.0 < m < p.1 ==> labels[m] != labels[p.0]
  {
    LinkPairsOverFrom(labels, Distinct(labels), p);
    var l :| l in Distinct(labels) && l != Noise && p in Chain(IndicesOf(labels, l));
    var c := Chain(IndicesOf(labels, l));
    var k :| 0 <= k < |c| && c[k] == p;
    ChainNeighbours(labels, l, k);
  }

  /** Consecutive entries of a label's list of indices have no index of that label between them. */
  lemma ChainNeighbours(labels: seq<int>, l: int, k: nat)
    requires k + 1 < |IndicesOf(labels, l)|
    ensures var idx := IndicesOf(labels, l);
      && idx[k] < idx[k + 1] < |labels| && labels[idx[k]] == labels[idx[k + 1]] == l
      && forall m :: idx[k] < m < idx[k + 1] ==> labels[m] != l
  {
    var idx := IndicesOf(labels, l);
    IndicesOfIncreasing(labels, l);
    forall m | idx[k] < m < idx[k + 1] ensures labels[m] != l {
      if labels[m] == l {
        IndicesOfMember(labels, l, m);
      }
    }
  }

  /** No link touches a node DBSCAN marked as noise. */
  lemma NoNoiseLink(uploads: seq<Upload>, labels: seq<int>, iso: Instant -> string, links: seq<Link>, k: nat, i: nat)
    requires |labels| == |uploads| && LinksOf(links, LinkPairs(labels))
    requires k < |links| && i < |uploads| && labels[i] == Noise
    ensures links[k].source != NodeFor(i, uploads[i], labels[i], iso).id
    ensures links[k].target != NodeFor(i, uploads[i], labels[i], iso).id
  {
    var p := LinkPairs(labels)[k];
    LinkJoinsNeighbours(labels, p);
    if links[k].source == NatToString(i) {
      NatToStringInjective(p.0, i);
      assert false;
    }
    if links[k].target == NatToString(i) {
      NatToStringInjective(p.1, i);
      assert false;
    }
  }

  /** `sum(len(indices) - 1)` over the non-noise labels of `order`. */
  function LinkTotal(labels: seq<int>, order: seq<int>): int
    decreases |order|
  {
    if order == [] then 0
    else
      var last := order[|order| - 1];
      LinkTotal(labels, order[..|order| - 1]) + (if last == Noise then 0 else |IndicesOf(labels, last)| - 1)
  }

  /** There are as many links as members of non-noise clusters minus one per such cluster. */
  lemma {:induction false} LinkCountOver(labels: seq<int>, order: seq<int>)
    requires forall l :: l in order ==> l in labels
    ensures |LinkPairsOver(labels, order)| == LinkTotal(labels, order)
    decreases |order|
  {
    if order != [] {
      var last := order[|order| - 1];
      assert last in order;
      LinkCountOver(labels, order[..|order| - 1]);
      var i :| 0 <= i < |labels| && labels[i] == last;
      IndicesOfMember(labels, last, i);
    }
  }

  /** The number of links is the sum over non-noise clusters of their size minus one. */
  lemma LinkCount(labels: seq<int>)
    ensures |LinkPairs(labels)| == LinkTotal(labels, Distinct(labels))
  {
    DistinctMembers(labels);
    LinkCountOver(labels, Distinct(labels));
  }

  /** Every member of a non-noise cluster with at least two members is linked. */
  lemma LinkCovers(labels: seq<int>, i: nat)
    requires i < |labels| && labels[i] != Noise && |IndicesOf(labels, labels[i])| >= 2
    ensures exists p :: p in LinkPairs(labels) && (p.0 == i || p.1 == i)
  {
    var l := labels[i];
    var idx := IndicesOf(labels, l);
    IndicesOfMember(labels, l, i);
    DistinctMember(labels, l);
    var q :| 0 <= q < |idx| && idx[q] == i;
    var c := Chain(idx);
    if q < |idx| - 1 {
      assert c[q] == (i, idx[q + 1]);
      LinkPairsOverHas(labels, Distinct(labels), l, c[q]);
    } else {
      assert c[q - 1] == (idx[q - 1], i);
      LinkPairsOverHas(labels, Distinct(labels), l, c[q - 1]);
    }
  }
}
