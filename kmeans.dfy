/** The k-means clustering of reference/kmeans.py: points that know their
    cluster, clusters that keep the list of their points and a current and
    a previous mean, and the driver that seeds cluster i with point i and
    alternates assignment and mean passes. `np.linalg.norm(a - b)` is the
    parameter `norm`; a mean over no points is NaN in numpy and `None`
    here, and every distance to it is NaN, which no `<` or `>=` holds of. */
module KMeans {
  import opened Wrappers
  import opened Lists

  /** Sum of coordinate `j` over the first `n` rows. */
  function ColumnSum(rows: seq<seq<real>>, j: nat, n: nat): real
    requires n <= |rows| && forall i :: 0 <= i < n ==> j < |rows[i]|
  {
    if n == 0 then 0.0 else ColumnSum(rows, j, n - 1) + rows[n - 1][j]
  }

  /** `np.mean(rows, axis=0)` of rows with `d` coordinates: the
      coordinate-wise average, NaN for no rows. */
  function Average(rows: seq<seq<real>>, d: nat): (m: Option<seq<real>>)
    requires forall i :: 0 <= i < |rows| ==> |rows[i]| == d
    ensures m.None? <==> |rows| == 0
    ensures m.Some? ==> |m.value| == d
  {
    if |rows| == 0 then None
    else Some(seq(d, j requires 0 <= j < d => ColumnSum(rows, j, |rows|) / |rows| as real))
  }

  lemma {:induction false} ColumnSumOfCopies(rows: seq<seq<real>>, x: seq<real>, j: nat, n: nat)
    requires n <= |rows| && j < |x| && forall i :: 0 <= i < |rows| ==> rows[i] == x
    ensures ColumnSum(rows, j, n) == n as real * x[j]
  {
    if n > 0 {
      ColumnSumOfCopies(rows, x, j, n - 1);
      assert ColumnSum(rows, j, n) == (n - 1) as real * x[j] + x[j];
    }
  }

  /** The mean of copies of one point is that point; in particular a
      cluster holding only its seed has the seed as its mean. */
  lemma AverageOfCopies(rows: seq<seq<real>>, x: seq<real>)
    requires |rows| > 0 && forall i :: 0 <= i < |rows| ==> rows[i] == x
    ensures Average(rows, |x|) == Some(x)
  {
    var m := Average(rows, |x|).value;
    forall j | 0 <= j < |x|
      ensures m[j] == x[j]
    {
      ColumnSumOfCopies(rows, x, j, |rows|);
      assert (|rows| as real * x[j]) / |rows| as real == x[j];
    }
    assert m == x;
  }

  /** The distance from `x` to a mean, NaN when the mean is. */
  function Distance(x: seq<real>, mean: Option<seq<real>>, norm: (seq<real>, seq<real>) -> real): Option<real>
  {
    if mean.None? then None else Some(norm(x, mean.value))
  }

  /** `a < b` between two distances; false when either is NaN. */
  predicate Below(a: Option<real>, b: Option<real>)
  {
    a.Some? && b.Some? && a.value < b.value
  }

  /** The cluster find_best_cluster_for_point settles on after comparing
      the first `n` distances: it starts from cluster 0 and moves only to a
      strictly smaller distance. */
  function Nearest(ds: seq<Option<real>>, n: nat): (b: nat)
    requires 1 <= |ds| && n <= |ds|
    ensures b < |ds| && (b == 0 || b < n)
  {
    if n == 0 then 0
    else
      var b := Nearest(ds, n - 1);
      if Below(ds[n - 1], ds[b]) then n - 1 else b
  }

  /** When the distance to cluster 0 is a number, the chosen cluster is at
      minimal distance, and every earlier cluster is strictly farther: ties
      go to the first cluster in the list. */
  lemma {:induction false} NearestIsFirstMinimum(ds: seq<Option<real>>, n: nat)
    requires 1 <= |ds| && n <= |ds| && ds[0].Some?
    ensures ds[Nearest(ds, n)].Some?
    ensures forall j :: 0 <= j < n && ds[j].Some? ==> ds[Nearest(ds, n)].value <= ds[j].value
    ensures forall j :: 0 <= j < Nearest(ds, n) && ds[j].Some? ==> ds[Nearest(ds, n)].value < ds[j].value
  {
    if n > 0 {
      NearestIsFirstMinimum(ds, n - 1);
    }
  }

  /** When the distance to cluster 0 is NaN, no comparison succeeds and
      cluster 0 is chosen. */
  lemma {:induction false} NearestOfUndefinedFirst(ds: seq<Option<real>>, n: nat)
    requires 1 <= |ds| && n <= |ds| && ds[0].None?
    ensures Nearest(ds, n) == 0
  {
    if n > 0 {
      NearestOfUndefinedFirst(ds, n - 1);
    }
  }

  /** The mean moved by at least `epsilon` since the previous pass; a NaN
      distance does not count as a move. */
  predicate Moved(mean: Option<seq<real>>, prev: Option<seq<real>>, norm: (seq<real>, seq<real>) -> real, epsilon: real)
  {
    mean.Some? && prev.Some? && norm(mean.value, prev.value) >= epsilon
  }

  /** The coordinates of a list of points. */
  function CoordinatesOf(ps: seq<Point>): (rows: seq<seq<real>>)
    ensures |rows| == |ps| && forall i :: 0 <= i < |ps| ==> rows[i] == ps[i].coordinates
  {
    seq(|ps|, i requires 0 <= i < |ps| => ps[i].coordinates)
  }

  /** The membership bookkeeping on values: point `ps[i]` belongs to
      cluster `owners[i]`, or to none when that is -1, and `lists[c]` lists
      the points of cluster c. It holds when no point occurs twice, an
      assigned point is in its own cluster's list, a list holds only points
      assigned to that cluster, and no list repeats a point. Together these
      say that an assigned point appears exactly once, in its own
      cluster's list. */
  predicate Consistent(ps: seq<Point>, owners: seq<int>, lists: seq<seq<Point>>)
  {
    |owners| == |ps| && Distinct(ps) &&
    (forall i :: 0 <= i < |ps| ==> -1 <= owners[i] < |lists|) &&
    (forall i :: 0 <= i < |ps| && owners[i] >= 0 ==> ps[i] in lists[owners[i]]) &&
    (forall c, j :: 0 <= c < |lists| && 0 <= j < |lists[c]| ==> lists[c][j] in ps) &&
    (forall c, j, i :: 0 <= c < |lists| && 0 <= j < |lists[c]| && 0 <= i < |ps| && lists[c][j] == ps[i] ==> owners[i] == c) &&
    (forall c :: 0 <= c < |lists| ==> Distinct(lists[c]))
  }

  /** update_cluster on the member lists: `p` leaves the list of its old
      cluster `o`, if any, and is appended to the list of `b`; nothing
      changes when `o` is `b`. */
  function Relisted(lists: seq<seq<Point>>, o: int, b: nat, p: Point): (r: seq<seq<Point>>)
    requires -1 <= o < |lists| && b < |lists| && (o >= 0 ==> p in lists[o])
    ensures |r| == |lists|
  {
    if o == b then lists
    else
      var lists1 := if o >= 0 then lists[o := RemoveFirst(lists[o], p)] else lists;
      lists1[b := lists1[b] + [p]]
  }

  /** update_cluster on the bookkeeping: point i moves to cluster b. */
  function Reassigned(ps: seq<Point>, owners: seq<int>, lists: seq<seq<Point>>, i: nat, b: nat): (r: (seq<int>, seq<seq<Point>>))
    requires Consistent(ps, owners, lists) && i < |ps| && b < |lists|
    ensures |r.0| == |owners| && |r.1| == |lists|
  {
    (owners[i := b], Relisted(lists, owners[i], b, ps[i]))
  }

  /** Moving a point keeps the bookkeeping consistent, and the point ends
      up in the list of its new cluster. */
  lemma ReassignedConsistent(ps: seq<Point>, owners: seq<int>, lists: seq<seq<Point>>, i: nat, b: nat)
    requires Consistent(ps, owners, lists) && i < |ps| && b < |lists|
    ensures Consistent(ps, Reassigned(ps, owners, lists, i, b).0, Reassigned(ps, owners, lists, i, b).1)
    ensures Reassigned(ps, owners, lists, i, b).0[i] == b
  {
    var o := owners[i];
    if o != b {
      var p := ps[i];
      var (owners', lists') := Reassigned(ps, owners, lists, i, b);
      if o >= 0 {
        RemoveFirstDistinct(lists[o], p);
      }
      assert p !in lists[b] by {
        forall j | 0 <= j < |lists[b]|
          ensures lists[b][j] != p
        {
        }
      }
      forall c | 0 <= c < |lists|
        ensures forall y :: y != p ==> (y in lists'[c] <==> y in lists[c])
        ensures p in lists'[c] <==> c == b
        ensures Distinct(lists'[c])
      {
        forall j | 0 <= j < |lists[c]| && lists[c][j] == p
          ensures c == o
        {
        }
      }
      forall q | 0 <= q < |ps| && owners'[q] >= 0
        ensures ps[q] in lists'[owners'[q]]
      {
        if q != i {
          assert ps[q] != p;
        }
      }
      forall c, j | 0 <= c < |lists'| && 0 <= j < |lists'[c]|
        ensures lists'[c][j] in ps
        ensures forall t :: 0 <= t < |ps| && lists'[c][j] == ps[t] ==> owners'[t] == c
      {
        var y := lists'[c][j];
        assert y in lists'[c];
        if y != p {
          assert y in lists[c];
          var j0 :| 0 <= j0 < |lists[c]| && lists[c][j0] == y;
          forall t | 0 <= t < |ps| && y == ps[t]
            ensures owners'[t] == c
          {
            assert t != i;
          }
        } else {
          forall t | 0 <= t < |ps| && y == ps[t]
            ensures owners'[t] == c
          {
            assert t == i;
          }
        }
      }
    }
  }

  /** Under consistent bookkeeping a point is in the list of cluster c
      exactly when it is assigned to c. */
  lemma ConsistentMembership(ps: seq<Point>, owners: seq<int>, lists: seq<seq<Point>>, i: nat, c: nat)
    requires Consistent(ps, owners, lists) && i < |ps| && c < |lists|
    ensures ps[i] in lists[c] <==> owners[i] == c
  {
    if ps[i] in lists[c] {
      var j :| 0 <= j < |lists[c]| && lists[c][j] == ps[i];
    }
  }

  /** A data point and the cluster it is assigned to, if any. */
  class Point {
    const coordinates: seq<real>
    var assignedCluster: Cluster?

    constructor (data: seq<real>)
      ensures coordinates == data && assignedCluster == null
    {
      coordinates := data;
      assignedCluster := null;
    }

    /** update_cluster: nothing happens when the point is already in
        `newCluster`; otherwise it leaves the list of its old cluster, if
        it had one, and is appended to the list of the new one. */
    method UpdateCluster(newCluster: Cluster)
      requires assignedCluster != null ==> this in assignedCluster.members
      modifies this, assignedCluster, newCluster
      ensures assignedCluster == newCluster
      ensures old(assignedCluster) == newCluster ==> newCluster.members == old(newCluster.members)
      ensures old(assignedCluster) != newCluster ==> newCluster.members == old(newCluster.members) + [this]
      ensures old(assignedCluster) != newCluster && old(assignedCluster) != null ==>
        old(assignedCluster).members == RemoveFirst(old(assignedCluster.members), this)
      ensures old(assignedCluster) != null ==> old(assignedCluster).mean == old(assignedCluster.mean) && old(assignedCluster).prevMean == old(assignedCluster.prevMean)
      ensures newCluster.mean == old(newCluster.mean) && newCluster.prevMean == old(newCluster.prevMean)
    {
      if assignedCluster == newCluster {
        return;
      }
      if assignedCluster != null {
        assignedCluster.RemovePoint(this);
      }
      assignedCluster := newCluster;
      assignedCluster.AddPoint(this);
    }

    /** find_best_cluster_for_point: a scan of `clusters` from the first
        that moves to a cluster only when its mean is strictly closer. */
    method FindBestClusterForPoint(clusters: seq<Cluster>, norm: (seq<real>, seq<real>) -> real) returns (best: Cluster)
      requires |clusters| >= 1
      ensures best == clusters[Nearest(DistancesTo(coordinates, MeansOf(clusters), norm), |clusters|)]
    {
      ghost var ds := DistancesTo(coordinates, MeansOf(clusters), norm);
      var min := Distance(coordinates, clusters[0].mean, norm);
      best := clusters[0];
      ghost var b := 0;
      for i := 0 to |clusters|
        invariant b == Nearest(ds, i) && best == clusters[b] && min == ds[b]
      {
        var temp := Distance(coordinates, clusters[i].mean, norm);
        if Below(temp, min) {
          best, min, b := clusters[i], temp, i;
        }
      }
    }
  }

  /** The current means of `clusters`, in order. */
  function MeansOf(clusters: seq<Cluster>): (ms: seq<Option<seq<real>>>)
    reads set c | c in clusters
    ensures |ms| == |clusters|
    ensures forall i {:trigger ms[i]} :: 0 <= i < |clusters| ==> ms[i] == clusters[i].mean
  {
    seq(|clusters|, i requires 0 <= i < |clusters| reads set c | c in clusters => clusters[i].mean)
  }

  /** The previous means of `clusters`, in order. */
  function PrevMeansOf(clusters: seq<Cluster>): (ms: seq<Option<seq<real>>>)
    reads set c | c in clusters
    ensures |ms| == |clusters|
    ensures forall i {:trigger ms[i]} :: 0 <= i < |clusters| ==> ms[i] == clusters[i].prevMean
  {
    seq(|clusters|, i requires 0 <= i < |clusters| reads set c | c in clusters => clusters[i].prevMean)
  }

  /** The distances from `x` to each of `means`, in order. */
  function DistancesTo(x: seq<real>, means: seq<Option<seq<real>>>, norm: (seq<real>, seq<real>) -> real): (ds: seq<Option<real>>)
    ensures |ds| == |means|
    ensures forall i :: 0 <= i < |means| ==> ds[i] == Distance(x, means[i], norm)
  {
    seq(|means|, i requires 0 <= i < |means| => Distance(x, means[i], norm))
  }

  /** A cluster: its points, in the order they joined, its current and
      previous means, and its index. */
  class Cluster {
    var members: seq<Point>
    var prevMean: Option<seq<real>>
    var mean: Option<seq<real>>
    const id: nat

    constructor (initPoint: Point, id: nat)
      ensures members == [initPoint] && prevMean == Some(initPoint.coordinates) && mean == Some(initPoint.coordinates)
      ensures this.id == id
    {
      members := [initPoint];
      prevMean := Some(initPoint.coordinates);
      mean := Some(initPoint.coordinates);
      this.id := id;
    }

    /** remove_point: the first occurrence of `p` leaves the list. */
    method RemovePoint(p: Point)
      requires p in members
      modifies this
      ensures members == RemoveFirst(old(members), p)
      ensures mean == old(mean) && prevMean == old(prevMean)
    {
      members := RemoveFirst(members, p);
    }

    /** add_point: `p` is appended to the list. */
    method AddPoint(p: Point)
      modifies this
      ensures members == old(members) + [p]
      ensures mean == old(mean) && prevMean == old(prevMean)
    {
      members := members + [p];
    }

    /** update_mean: the current mean becomes the previous one, and the
        new mean is the coordinate-wise average of the members. */
    method UpdateMean(d: nat)
      requires forall i :: 0 <= i < |members| ==> |members[i].coordinates| == d
      modifies this
      ensures prevMean == old(mean) && members == old(members)
      ensures mean == Average(CoordinatesOf(members), d)
    {
      prevMean := mean;
      var coordinates: seq<seq<real>> := [];
      for i := 0 to |members|
        invariant coordinates == CoordinatesOf(members[..i])
      {
        assert members[..i + 1] == members[..i] + [members[i]];
        coordinates := coordinates + [members[i].coordinates];
      }
      assert members[..|members|] == members;
      mean := Average(coordinates, d);
    }
  }

  /** The k-means driver over `data`, whose points have `dim` coordinates
      each. */
  class Kmeans {
    const data: seq<seq<real>>
    const dim: nat
    const k: nat
    const maxIter: int
    const epsilon: real
    var clusters: seq<Cluster>
    var points: seq<Point>

    constructor (data: seq<seq<real>>, k: nat, maxIter: int, epsilon: real)
      ensures this.data == data && this.k == k && this.maxIter == maxIter && this.epsilon == epsilon
      ensures dim == (if |data| == 0 then 0 else |data[0]|)
      ensures clusters == [] && points == []
    {
      this.data := data;
      dim := if |data| == 0 then 0 else |data[0]|;
      this.k := k;
      this.maxIter := maxIter;
      this.epsilon := epsilon;
      clusters := [];
      points := [];
    }

    /** Every point of the data has `dim` coordinates. */
    predicate Rectangular()
    {
      forall i :: 0 <= i < |data| ==> |data[i]| == dim
    }

    /** The cluster index of each point, -1 for an unassigned one. */
    ghost function Owners(): (o: seq<int>)
      reads this, set p | p in points
      ensures |o| == |points|
      ensures forall i {:trigger o[i]} :: 0 <= i < |points| ==> o[i] == if points[i].assignedCluster == null then -1 else points[i].assignedCluster.id
    {
      seq(|points|, i requires 0 <= i < |points| reads this, set p | p in points =>
        if points[i].assignedCluster == null then -1 else points[i].assignedCluster.id)
    }

    /** The member list of each cluster. */
    ghost function Lists(): (l: seq<seq<Point>>)
      reads this, set c | c in clusters
      ensures |l| == |clusters|
      ensures forall c {:trigger l[c]} :: 0 <= c < |clusters| ==> l[c] == clusters[c].members
    {
      seq(|clusters|, c requires 0 <= c < |clusters| reads this, set c | c in clusters => clusters[c].members)
    }

    /** The shape the passes keep: point i holds data point i, cluster c
        has id c, and a point is unassigned or assigned to the cluster at
        the index its cluster's id names. */
    ghost predicate Core()
      reads this, set p | p in points, set c | c in clusters
    {
      |points| == |data| && |clusters| == k &&
      (forall i :: 0 <= i < |points| ==> points[i].coordinates == data[i]) &&
      (forall c :: 0 <= c < |clusters| ==> clusters[c].id == c) &&
      (forall i :: 0 <= i < |points| ==>
        (points[i].assignedCluster == null ||
         (points[i].assignedCluster.id < |clusters| && clusters[points[i].assignedCluster.id] == points[i].assignedCluster)))
    }

    /** The bookkeeping the passes keep: the shape, and membership lists
        consistent with the assignments. */
    ghost predicate Valid()
      reads this, set p | p in points, set c | c in clusters
    {
      Core() && Consistent(points, Owners(), Lists())
    }

    /** The bookkeeping holds when the assignments and lists are
        consistent values. */
    lemma BookkeepingValid(owners: seq<int>, lists: seq<seq<Point>>)
      requires Core() && Owners() == owners && Lists() == lists && Consistent(points, owners, lists)
      ensures Valid()
    {
    }

    /** Every point has a cluster. */
    ghost predicate Assigned()
      reads this, set p | p in points
    {
      forall i :: 0 <= i < |points| ==> points[i].assignedCluster != null
    }

    /** The state right after __kmeans_algo_init: cluster c holds point c
        alone, with its coordinates as both means, and the other points are
        unassigned. */
    ghost predicate Seeded()
      reads this, set p | p in points, set c | c in clusters
    {
      |points| == |data| && |clusters| == k && k <= |data| &&
      (forall c :: 0 <= c < k ==>
        points[c].assignedCluster == clusters[c] && clusters[c].members == [points[c]] &&
        clusters[c].mean == Some(data[c]) && clusters[c].prevMean == Some(data[c])) &&
      (forall i :: k <= i < |data| ==> points[i].assignedCluster == null)
    }

    /** The state after a pass of the main loop: every point is assigned to
        the cluster find_best_cluster_for_point chose for it under the means
        the pass began with, which are now the previous means, and every
        mean is the average of its cluster's members. */
    ghost predicate AfterPass(norm: (seq<real>, seq<real>) -> real)
      reads this, set p | p in points, set c | c in clusters
    {
      Valid() &&
      (forall i :: 0 <= i < |points| ==>
        |clusters| >= 1 && points[i].assignedCluster == clusters[Nearest(DistancesTo(data[i], PrevMeansOf(clusters), norm), |clusters|)]) &&
      (forall c :: 0 <= c < |clusters| ==>
        (forall j :: 0 <= j < |clusters[c].members| ==> |clusters[c].members[j].coordinates| == dim) &&
        clusters[c].mean == Average(CoordinatesOf(clusters[c].members), dim))
    }

    /** Every mean moved by less than `epsilon` since the previous pass. */
    ghost predicate Converged(norm: (seq<real>, seq<real>) -> real)
      reads this, set c | c in clusters
    {
      forall c :: 0 <= c < |clusters| ==> !Moved(clusters[c].mean, clusters[c].prevMean, norm, epsilon)
    }

    /** The bookkeeping holds right after seeding. */
    lemma SeededValid()
      requires Seeded() && Distinct(points)
      requires forall i :: 0 <= i < |points| ==> points[i].coordinates == data[i]
      requires forall c :: 0 <= c < k ==> clusters[c].id == c
      ensures Valid()
    {
      var owners := Owners();
      var lists := Lists();
      assert forall i :: 0 <= i < |points| ==> owners[i] == if i < k then i else -1;
    }

    /** __kmeans_algo_init: one point per data row, then cluster i seeded
        with point i. */
    method KmeansAlgoInit()
      requires points == [] && clusters == [] && k <= |data|
      modifies this
      ensures Valid() && Seeded() && fresh(points) && fresh(clusters)
    {
      for i := 0 to |data|
        invariant |points| == i && fresh(points) && Distinct(points) && clusters == []
        invariant forall i' :: 0 <= i' < i ==> points[i'].coordinates == data[i'] && points[i'].assignedCluster == null
      {
        var p := new Point(data[i]);
        points := points + [p];
      }
      for index := 0 to k
        invariant |points| == |data| && fresh(points) && Distinct(points)
        invariant |clusters| == index && fresh(clusters) && Distinct(clusters)
        invariant forall c :: 0 <= c < index ==>
          clusters[c].id == c && points[c].assignedCluster == clusters[c] && clusters[c].members == [points[c]] &&
          clusters[c].mean == Some(data[c]) && clusters[c].prevMean == Some(data[c])
        invariant forall i :: index <= i < |data| ==> points[i].assignedCluster == null
        invariant forall i :: 0 <= i < |data| ==> points[i].coordinates == data[i]
      {
        var cluster := new Cluster(points[index], index);
        clusters := clusters + [cluster];
        points[index].assignedCluster := cluster;
      }
      SeededValid();
    }

    /** Under the bookkeeping, point i is in the list of cluster c exactly
        when it is assigned to c. */
    lemma Membership(i: nat, c: nat)
      requires Valid() && i < |points| && c < |clusters|
      ensures points[i] in clusters[c].members <==> points[i].assignedCluster == clusters[c]
    {
      ConsistentMembership(points, Owners(), Lists(), i, c);
    }

    /** The bookkeeping after point i moved to cluster b: it holds when
        the assignments and lists are those Reassigned computes from
        consistent ones. */
    lemma MovedValid(owners: seq<int>, lists: seq<seq<Point>>, i: nat, b: nat)
      requires Core() && Consistent(points, owners, lists) && i < |points| && b < |lists| && |lists| == |clusters|
      requires Owners() == owners[i := b] && Lists() == Relisted(lists, owners[i], b, points[i])
      ensures Valid()
    {
      ReassignedConsistent(points, owners, lists, i, b);
      BookkeepingValid(Owners(), Lists());
    }

    /** update_cluster of point i onto cluster b, seen from the
        bookkeeping: the assignment of point i becomes b, the lists change
        as Relisted says, and nothing else changes. */
    method Move(i: nat, best: Cluster, ghost b: nat)
      requires Valid() && i < |points| && b < |clusters| && best == clusters[b]
      modifies points[i], points[i].assignedCluster, clusters[b]
      ensures Valid() && Owners() == old(Owners())[i := b] && points[i].assignedCluster == best
      ensures Lists() == Relisted(old(Lists()), old(Owners())[i], b, points[i])
      ensures forall c :: 0 <= c < |clusters| ==> clusters[c].mean == old(clusters[c].mean) && clusters[c].prevMean == old(clusters[c].prevMean)
    {
      ghost var owners := Owners();
      ghost var lists := Lists();
      var p := points[i];
      p.UpdateCluster(best);
      forall j | 0 <= j < |points|
        ensures Owners()[j] == owners[i := b][j]
      {
        if j != i {
          assert points[j] != p;
        }
      }
      assert Owners() == owners[i := b];
      assert Lists() == Relisted(lists, owners[i], b, p);
      MovedValid(owners, lists, i, b);
    }

    /** One step of the assignment loop: point i moves, by update_cluster,
        to the cluster find_best_cluster_for_point picks. */
    method AssignPoint(i: nat, norm: (seq<real>, seq<real>) -> real)
      requires Valid() && i < |points| && |clusters| >= 1
      modifies set p | p in points, set c | c in clusters
      ensures Valid()
      ensures points[i].assignedCluster == clusters[Nearest(DistancesTo(data[i], old(MeansOf(clusters)), norm), |clusters|)]
      ensures forall j :: 0 <= j < |points| && j != i ==> points[j].assignedCluster == old(points[j].assignedCluster)
      ensures forall c :: 0 <= c < |clusters| ==> clusters[c].mean == old(clusters[c].mean) && clusters[c].prevMean == old(clusters[c].prevMean)
    {
      ghost var owners := Owners();
      ghost var lists := Lists();
      ghost var b := Nearest(DistancesTo(data[i], MeansOf(clusters), norm), |clusters|);
      var best := points[i].FindBestClusterForPoint(clusters, norm);
      Move(i, best, b);
    }

    /** The assignment loop of __run_kmeans: every point, in order, moves to
        the cluster nearest to it; the means are not touched, so every
        point's choice is made under the means the pass began with. */
    method AssignmentPass(norm: (seq<real>, seq<real>) -> real)
      requires Valid() && (|points| > 0 ==> |clusters| >= 1)
      modifies set p | p in points, set c | c in clusters
      ensures Valid()
      ensures forall i :: 0 <= i < |points| ==>
        points[i].assignedCluster == clusters[Nearest(DistancesTo(data[i], old(MeansOf(clusters)), norm), |clusters|)]
      ensures forall c :: 0 <= c < |clusters| ==> clusters[c].mean == old(clusters[c].mean) && clusters[c].prevMean == old(clusters[c].prevMean)
    {
      ghost var means := MeansOf(clusters);
      for i := 0 to |points|
        invariant Valid()
        invariant forall c :: 0 <= c < |clusters| ==> clusters[c].mean == old(clusters[c].mean) && clusters[c].prevMean == old(clusters[c].prevMean)
        invariant forall j :: 0 <= j < i ==> points[j].assignedCluster == clusters[Nearest(DistancesTo(data[j], means, norm), |clusters|)]
      {
        assert MeansOf(clusters) == means;
        AssignPoint(i, norm);
      }
    }

    /** update_mean on cluster c, whose members are points: the
        assignments and lists stay as they are. */
    method RefreshMean(c: nat)
      requires Core() && Rectangular() && c < |clusters|
      requires forall j :: 0 <= j < |clusters[c].members| ==> clusters[c].members[j] in points
      modifies clusters[c]
      ensures Core() && Lists() == old(Lists()) && Owners() == old(Owners())
      ensures clusters[c].prevMean == old(clusters[c].mean)
      ensures forall j :: 0 <= j < |clusters[c].members| ==> |clusters[c].members[j].coordinates| == dim
      ensures clusters[c].mean == Average(CoordinatesOf(clusters[c].members), dim)
    {
      forall j | 0 <= j < |clusters[c].members|
        ensures |clusters[c].members[j].coordinates| == dim
      {
        var t := IndexOf(points, clusters[c].members[j]);
      }
      clusters[c].UpdateMean(dim);
      assert Lists() == old(Lists());
    }

    /** The mean loop of __run_kmeans: for every cluster, update_mean. The
        memberships are not touched. */
    method MeansPass()
      requires Valid() && Rectangular()
      modifies set c | c in clusters
      ensures Valid()
      ensures forall c :: 0 <= c < |clusters| ==> clusters[c].members == old(clusters[c].members)
      ensures forall c :: 0 <= c < |clusters| ==>
        clusters[c].prevMean == old(clusters[c].mean) &&
        (forall j :: 0 <= j < |clusters[c].members| ==> |clusters[c].members[j].coordinates| == dim) &&
        clusters[c].mean == Average(CoordinatesOf(clusters[c].members), dim)
    {
      ghost var owners, lists := Owners(), Lists();
      ghost var ps := points;
      assert Consistent(ps, owners, lists);
      for c := 0 to |clusters|
        invariant Core() && Owners() == owners && Lists() == lists
        invariant forall c' :: 0 <= c' < |clusters| ==> clusters[c'].members == old(clusters[c'].members)
        invariant forall c' :: c <= c' < |clusters| ==> clusters[c'].mean == old(clusters[c'].mean)
        invariant forall c' :: 0 <= c' < c ==>
          clusters[c'].prevMean == old(clusters[c'].mean) &&
          (forall j :: 0 <= j < |clusters[c'].members| ==> |clusters[c'].members[j].coordinates| == dim) &&
          clusters[c'].mean == Average(CoordinatesOf(clusters[c'].members), dim)
      {
        assert clusters[c].members == lists[c];
        RefreshMean(c);
      }
      BookkeepingValid(owners, lists);
    }

    /** One pass of the main loop: the assignment loop, then the mean
        loop. */
    method Pass(norm: (seq<real>, seq<real>) -> real)
      requires Valid() && Rectangular() && (|points| > 0 ==> |clusters| >= 1)
      modifies set p | p in points, set c | c in clusters
      ensures AfterPass(norm)
    {
      ghost var means := MeansOf(clusters);
      AssignmentPass(norm);
      assert MeansOf(clusters) == means;
      MeansPass();
      assert PrevMeansOf(clusters) == means;
    }

    /** __all__clusters_converged: false at the first cluster whose mean
        moved by `epsilon` or more. */
    method AllClustersConverged(norm: (seq<real>, seq<real>) -> real) returns (r: bool)
      ensures r <==> Converged(norm)
    {
      for c := 0 to |clusters|
        invariant forall c' :: 0 <= c' < c ==> !Moved(clusters[c'].mean, clusters[c'].prevMean, norm, epsilon)
      {
        var cluster := clusters[c];
        if cluster.mean.Some? && cluster.prevMean.Some? && norm(cluster.mean.value, cluster.prevMean.value) >= epsilon {
          return false;
        }
      }
      return true;
    }

    /** The body of the main loop: a pass, then the convergence test. */
    method Round(norm: (seq<real>, seq<real>) -> real) returns (done: bool)
      requires Valid() && Rectangular() && (|points| > 0 ==> |clusters| >= 1)
      modifies set p | p in points, set c | c in clusters
      ensures AfterPass(norm) && (done <==> Converged(norm))
    {
      Pass(norm);
      done := AllClustersConverged(norm);
    }

    /** The main loop of __run_kmeans, from the seeded clusters: up to
        `maxIter` passes, stopping after the first pass that leaves every
        mean within `epsilon` of the previous one. `passes` counts the
        passes made; fewer than `maxIter` means the last one converged. */
    method MainLoop(norm: (seq<real>, seq<real>) -> real) returns (ghost passes: nat)
      requires Valid() && Seeded() && Rectangular() && (|points| > 0 ==> |clusters| >= 1)
      modifies set p | p in points, set c | c in clusters
      ensures Valid()
      ensures passes as int <= (if maxIter < 0 then 0 else maxIter)
      ensures maxIter >= 1 ==> passes >= 1
      ensures passes == 0 ==> Seeded()
      ensures passes >= 1 ==> AfterPass(norm)
      ensures passes < maxIter ==> passes >= 1 && Converged(norm)
    {
      var iter := 1;
      passes := 0;
      while iter <= maxIter
        invariant 1 <= iter && passes as int == iter - 1 && iter <= (if maxIter < 1 then 1 else maxIter + 1)
        invariant Valid()
        invariant passes == 0 ==> Seeded()
        invariant passes >= 1 ==> AfterPass(norm) && !Converged(norm)
        decreases maxIter - iter
      {
        var done := Round(norm);
        iter := iter + 1;
        passes := passes + 1;
        if done {
          break;
        }
      }
    }

    /** __run_kmeans: the seeding, then the main loop. */
    method RunKmeans(norm: (seq<real>, seq<real>) -> real) returns (ghost passes: nat)
      requires points == [] && clusters == [] && k <= |data| && (k == 0 ==> |data| == 0) && Rectangular()
      modifies this
      ensures Valid() && fresh(points) && fresh(clusters)
      ensures passes as int <= (if maxIter < 0 then 0 else maxIter)
      ensures maxIter >= 1 ==> passes >= 1
      ensures passes == 0 ==> Seeded()
      ensures passes >= 1 ==> AfterPass(norm)
      ensures passes < maxIter ==> passes >= 1 && Converged(norm)
    {
      KmeansAlgoInit();
      passes := MainLoop(norm);
    }

    /** The result loop of get_kmeans_result: the id of every point's
        cluster, in point order. */
    method Labels() returns (result: seq<int>)
      requires Valid() && Assigned()
      ensures |result| == |points|
      ensures forall i :: 0 <= i < |points| ==> 0 <= result[i] < k && clusters[result[i]] == points[i].assignedCluster
    {
      result := [];
      for i := 0 to |points|
        invariant |result| == i
        invariant forall i' :: 0 <= i' < i ==> 0 <= result[i'] < k && clusters[result[i']] == points[i'].assignedCluster
      {
        var cluster := points[i].assignedCluster;
        result := result + [cluster.id];
      }
    }

    /** A label names the cluster whose list holds the point. */
    lemma LabelsAreMemberships(result: seq<int>)
      requires Valid() && |result| == |points|
      requires forall i :: 0 <= i < |points| ==> 0 <= result[i] < k && clusters[result[i]] == points[i].assignedCluster
      ensures forall i, c :: 0 <= i < |points| && 0 <= c < k ==> (result[i] == c <==> points[i] in clusters[c].members)
    {
      forall i, c | 0 <= i < |points| && 0 <= c < k
        ensures result[i] == c <==> points[i] in clusters[c].members
      {
        Membership(i, c);
      }
    }

    /** After a pass, a label is the cluster nearest to the point under the
        previous means. */
    lemma LabelsAreNearest(result: seq<int>, norm: (seq<real>, seq<real>) -> real)
      requires AfterPass(norm) && |result| == |points|
      requires forall i :: 0 <= i < |points| ==> 0 <= result[i] < k && clusters[result[i]] == points[i].assignedCluster
      ensures forall i :: 0 <= i < |data| ==> result[i] == Nearest(DistancesTo(data[i], PrevMeansOf(clusters), norm), k)
    {
      forall i | 0 <= i < |data|
        ensures result[i] == Nearest(DistancesTo(data[i], PrevMeansOf(clusters), norm), k)
      {
        assert clusters[result[i]].id == result[i];
      }
    }

    /** get_kmeans_result: the cluster index of every point after the run.
        Every point has a cluster when there was at least one pass or every
        point seeded one; the source fails otherwise. After at least one
        pass, each label is the cluster nearest to the point under the
        means before the last update. */
    method GetKmeansResult(norm: (seq<real>, seq<real>) -> real) returns (result: seq<int>)
      requires points == [] && clusters == [] && k <= |data| && (k == 0 ==> |data| == 0) && Rectangular()
      requires maxIter >= 1 || k == |data|
      modifies this
      ensures Valid() && |result| == |data|
      ensures forall i :: 0 <= i < |data| ==> 0 <= result[i] < k
      ensures forall i, c :: 0 <= i < |data| && 0 <= c < k ==> (result[i] == c <==> points[i] in clusters[c].members)
      ensures maxIter >= 1 ==> forall i :: 0 <= i < |data| ==>
        result[i] == Nearest(DistancesTo(data[i], PrevMeansOf(clusters), norm), k)
    {
      ghost var passes := RunKmeans(norm);
      assert Valid() && Assigned();
      result := Labels();
      LabelsAreMemberships(result);
      if maxIter >= 1 {
        LabelsAreNearest(result, norm);
      }
    }
  }
}
