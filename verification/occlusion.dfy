/**
 The per-sphere occlusion-query bookkeeping of render() in main.js.

 Every sphere owns one GPU query object and two flags, queryInProgress and
 occluded, plus its visible flag. On every frame but the first, the spheres
 are depth-sorted and then visited in order; for each one:
   1. if its query is in flight and the GPU says the result is available,
      the result is consumed: occluded := no sample passed, the counter of
      newly occluded spheres is bumped when occluded, and the query is no
      longer in flight;
   2. if no query is in flight, a new one is begun (the bounding-box proxy
      is drawn inside it);
   3. the sphere is visible exactly when it is not occluded.

 The GPU is an oracle: for each sphere (by its creation index) it tells
 whether the result of the outstanding query is available and whether any
 sample passed. The depth sort is an oracle too: it supplies the permutation
 that spheres.sort(depthSort) applies to the sphere array.
 */
module Occlusion {
  import Grid

  /** What the GPU answers about one sphere's query object this frame. */
  datatype QueryReading = QueryReading(available: bool, anySamplesPassed: bool)

  /**
   One sphere mesh as far as the occlusion pass sees it: its creation index
   (which owns the query object and fixes its grid position), its position,
   the userData flags and the mesh's visible flag.
   */
  datatype SphereState = SphereState(
    id: nat,
    position: Grid.Placement,
    queryInProgress: bool,
    occluded: bool,
    visible: bool)

  /** The state init() gives the i-th sphere: no query, not occluded, visible (the mesh default). */
  function InitialSphere(i: nat): (d: SphereState)
    ensures d.id == i && d.position == Grid.PlacementOf(i)
    ensures Pristine([d]) && d.visible == !d.occluded
  {
    SphereState(i, Grid.PlacementOf(i), false, false, true)
  }

  // ---------------------------------------------------------------------------
  // One sphere, one frame

  /** Step 1: consume the result of the query in flight, if the GPU has it. */
  function ReadResult(d: SphereState, r: QueryReading): (t: SphereState)
    ensures t.id == d.id && t.position == d.position && t.visible == d.visible
    ensures d.queryInProgress && r.available ==> !t.queryInProgress && t.occluded == !r.anySamplesPassed
    ensures !(d.queryInProgress && r.available) ==> t == d
  {
    if d.queryInProgress && r.available then
      d.(occluded := !r.anySamplesPassed, queryInProgress := false)
    else
      d
  }

  /** Step 2: begin a query when none is in flight. */
  function IssueQuery(d: SphereState): (t: SphereState)
    ensures t.queryInProgress
    ensures t == d <==> d.queryInProgress
    ensures t.(queryInProgress := d.queryInProgress) == d
  {
    if !d.queryInProgress then d.(queryInProgress := true) else d
  }

  /** Step 3: visible is set, then cleared when occluded. */
  function UpdateVisibility(d: SphereState): (t: SphereState)
    ensures t.visible == !t.occluded
    ensures t.(visible := d.visible) == d
  {
    d.(visible := !d.occluded)
  }

  /** The result of this frame's query is read for sphere d and says that no sample passed. */
  predicate ReadsNoSamples(d: SphereState, r: QueryReading) {
    d.queryInProgress && r.available && !r.anySamplesPassed
  }

  /** A new query is begun for d this frame. */
  predicate Issues(d: SphereState, r: QueryReading)
  {
    !ReadResult(d, r).queryInProgress
  }

  /**
   A query is begun exactly when none was in flight or the one in flight
   has just been read: an outstanding query is never re-issued.
   */
  lemma IssuesOnlyWhenIdle(d: SphereState, r: QueryReading)
    ensures Issues(d, r) <==> !d.queryInProgress || r.available
    ensures Issues(d, r) && d.queryInProgress ==> ReadResult(d, r).occluded == !r.anySamplesPassed
  {
  }

  /** The whole per-sphere update of one non-first frame. */
  function Step(d: SphereState, r: QueryReading): (t: SphereState)
    ensures t.id == d.id && t.position == d.position
    ensures t.queryInProgress
    ensures t.visible == !t.occluded
    ensures d.queryInProgress && r.available ==> t.occluded == !r.anySamplesPassed
    ensures !(d.queryInProgress && r.available) ==> t.occluded == d.occluded
  {
    UpdateVisibility(IssueQuery(ReadResult(d, r)))
  }

  // ---------------------------------------------------------------------------
  // The spheres of a frame

  /** Every sphere's query object has a GPU reading. */
  predicate IdsBelow(s: seq<SphereState>, n: nat) {
    forall i :: 0 <= i < |s| ==> s[i].id < n
  }

  function Ids(s: seq<SphereState>): (r: seq<nat>)
    ensures |r| == |s|
  {
    seq(|s|, i requires 0 <= i < |s| => s[i].id)
  }

  /** p lists 0 .. n-1, each once. */
  predicate IsPermutation(p: seq<nat>, n: nat) {
    && |p| == n
    && (forall i :: 0 <= i < n ==> p[i] < n)
    && (forall i, j :: 0 <= i < j < n ==> p[i] != p[j])
    && (forall k :: 0 <= k < n ==> k in p)
  }

  /** The array after a sort that moves the element at order[i] to position i. */
  function Reorder(s: seq<SphereState>, order: seq<nat>): (r: seq<SphereState>)
    requires forall i :: 0 <= i < |order| ==> order[i] < |s|
    ensures |r| == |order|
    ensures forall i :: 0 <= i < |r| ==> r[i] in s
  {
    seq(|order|, i requires 0 <= i < |order| => s[order[i]])
  }

  /** The occlusion pass over the (sorted) spheres: Step on each. */
  function Pass(s: seq<SphereState>, gpu: seq<QueryReading>): (r: seq<SphereState>)
    requires IdsBelow(s, |gpu|)
    ensures |r| == |s|
    ensures AllInFlight(r)
  {
    seq(|s|, i requires 0 <= i < |s| => Step(s[i], gpu[s[i].id]))
  }

  /** No sphere has a query in flight (before the first occlusion pass). */
  predicate NoneInFlight(s: seq<SphereState>) {
    forall i :: 0 <= i < |s| ==> !s[i].queryInProgress
  }

  /** Every sphere has exactly its one query outstanding. */
  predicate AllInFlight(s: seq<SphereState>) {
    forall i :: 0 <= i < |s| ==> s[i].queryInProgress
  }

  /** The state left by init(): no query, nothing occluded, everything visible. */
  predicate Pristine(s: seq<SphereState>) {
    forall i :: 0 <= i < |s| ==> !s[i].queryInProgress && !s[i].occluded && s[i].visible
  }

  /** How many spheres have their result read this frame with no sample passed: the occludedSpheres counter. */
  function CountNewlyOccluded(s: seq<SphereState>, gpu: seq<QueryReading>): (c: nat)
    requires IdsBelow(s, |gpu|)
    ensures c <= |s|
  {
    if s == [] then 0
    else
      var last := s[|s| - 1];
      CountNewlyOccluded(s[..|s| - 1], gpu) + (if ReadsNoSamples(last, gpu[last.id]) then 1 else 0)
  }

  /** How many spheres are hidden only by a flag from an earlier frame (no result read now). */
  function CountStale(s: seq<SphereState>, gpu: seq<QueryReading>): (c: nat)
    requires IdsBelow(s, |gpu|)
    ensures c <= |s|
  {
    if s == [] then 0
    else
      var last := s[|s| - 1];
      var stale := last.occluded && !(last.queryInProgress && gpu[last.id].available);
      CountStale(s[..|s| - 1], gpu) + (if stale then 1 else 0)
  }

  /** How many spheres are flagged occluded. */
  function CountOccluded(s: seq<SphereState>): (c: nat)
    ensures c <= |s|
  {
    if s == [] then 0
    else CountOccluded(s[..|s| - 1]) + (if s[|s| - 1].occluded then 1 else 0)
  }

  /** The sphere ids whose query is begun this frame, in visiting order. */
  function Begins(s: seq<SphereState>, gpu: seq<QueryReading>): (r: seq<nat>)
    requires IdsBelow(s, |gpu|)
    ensures |r| <= |s|
    ensures forall k :: k in r ==> k in Ids(s)
  {
    if s == [] then []
    else
      var last := s[|s| - 1];
      var prefix := s[..|s| - 1];
      assert forall k :: k in Ids(prefix) ==> k in Ids(s) by {
        forall k | k in Ids(prefix) ensures k in Ids(s) {
          var i :| 0 <= i < |prefix| && Ids(prefix)[i] == k;
          assert Ids(s)[i] == k;
        }
      }
      assert Ids(s)[|s| - 1] == last.id;
      Begins(prefix, gpu) + (if Issues(last, gpu[last.id]) then [last.id] else [])
  }

  // ---------------------------------------------------------------------------
  // Properties of one pass

  /**
   After a pass every sphere has one query outstanding and is visible exactly
   when not occluded; a sphere's occluded flag changed only if its result was
   read, and a sphere whose result was not available keeps its stale flag.
   */
  lemma PassEffect(s: seq<SphereState>, gpu: seq<QueryReading>)
    requires IdsBelow(s, |gpu|)
    ensures AllInFlight(Pass(s, gpu))
    ensures Ids(Pass(s, gpu)) == Ids(s)
    ensures forall i :: 0 <= i < |s| ==> Pass(s, gpu)[i].visible == !Pass(s, gpu)[i].occluded
    ensures forall i :: 0 <= i < |s| && Pass(s, gpu)[i].occluded != s[i].occluded ==>
      s[i].queryInProgress && gpu[s[i].id].available
    ensures forall i :: 0 <= i < |s| && !gpu[s[i].id].available ==>
      Pass(s, gpu)[i].occluded == s[i].occluded && Pass(s, gpu)[i].visible == !s[i].occluded
  {
  }

  /** The positions of the spheres whose result is read this frame and says no sample passed. */
  ghost function ReadIndices(s: seq<SphereState>, gpu: seq<QueryReading>): set<nat>
    requires IdsBelow(s, |gpu|)
  {
    set i: nat | i < |s| && ReadsNoSamples(s[i], gpu[s[i].id])
  }

  /** The counter equals the size of the set of spheres read this frame with no sample passed. */
  lemma {:induction false} NewlyOccludedIsSetSize(s: seq<SphereState>, gpu: seq<QueryReading>)
    requires IdsBelow(s, |gpu|)
    ensures CountNewlyOccluded(s, gpu) == |ReadIndices(s, gpu)|
  {
    if s != [] {
      var n := |s| - 1;
      var prefix := s[..n];
      NewlyOccludedIsSetSize(prefix, gpu);
      var before := ReadIndices(prefix, gpu);
      var after := ReadIndices(s, gpu);
      assert forall i :: 0 <= i < n ==> prefix[i] == s[i];
      if ReadsNoSamples(s[n], gpu[s[n].id]) {
        assert after == before + {n};
      } else {
        assert after == before;
      }
    }
  }

  /**
   Every sphere flagged occluded after the pass is either counted (its result
   was read this frame, no sample passed) or hidden by a stale flag; so the
   counter never exceeds the number of hidden spheres, and misses exactly the
   stale ones.
   */
  lemma {:induction false} CounterExcludesStale(s: seq<SphereState>, gpu: seq<QueryReading>)
    requires IdsBelow(s, |gpu|)
    ensures CountOccluded(Pass(s, gpu)) == CountNewlyOccluded(s, gpu) + CountStale(s, gpu)
  {
    if s != [] {
      var n := |s| - 1;
      CounterExcludesStale(s[..n], gpu);
      assert Pass(s, gpu)[..n] == Pass(s[..n], gpu);
    }
  }

  /**
   A pass begins at most one query per sphere visited: the log of begun
   queries is a sub-multiset of the visited ids, so no sphere is begun twice.
   */
  lemma {:induction false} BeginsOncePerSphere(s: seq<SphereState>, gpu: seq<QueryReading>)
    requires IdsBelow(s, |gpu|)
    ensures multiset(Begins(s, gpu)) <= multiset(Ids(s))
  {
    if s != [] {
      var n := |s| - 1;
      BeginsOncePerSphere(s[..n], gpu);
      assert Ids(s) == Ids(s[..n]) + [s[n].id];
    }
  }

  /** In the first occlusion pass (no query in flight yet) every sphere begins a query. */
  lemma {:induction false} FirstPassBeginsAll(s: seq<SphereState>, gpu: seq<QueryReading>)
    requires IdsBelow(s, |gpu|)
    requires NoneInFlight(s)
    ensures Begins(s, gpu) == Ids(s)
  {
    if s != [] {
      var n := |s| - 1;
      FirstPassBeginsAll(s[..n], gpu);
      assert Ids(s) == Ids(s[..n]) + [s[n].id];
    }
  }

  /**
   Once every sphere has a query outstanding, sphere k begins a new query
   this frame exactly when the result of its outstanding one is available.
   */
  lemma {:induction false} SteadyStateBegins(s: seq<SphereState>, gpu: seq<QueryReading>, k: nat)
    requires IdsBelow(s, |gpu|)
    requires AllInFlight(s)
    requires k < |gpu|
    ensures k in Begins(s, gpu) <==> k in Ids(s) && gpu[k].available
  {
    if s != [] {
      var n := |s| - 1;
      SteadyStateBegins(s[..n], gpu, k);
      assert Ids(s) == Ids(s[..n]) + [s[n].id];
    }
  }

  /** The query objects whose result is available this frame and says no sample passed. */
  function ResultsWithNoSamples(gpu: seq<QueryReading>): (ks: set<nat>)
    ensures forall k: nat :: k in ks <==> k < |gpu| && gpu[k].available && !gpu[k].anySamplesPassed
  {
    set k: nat | k < |gpu| && gpu[k].available && !gpu[k].anySamplesPassed
  }

  /** In the first occlusion pass no result is read, so the counter stays 0. */
  lemma {:induction false} FirstPassCountsNone(s: seq<SphereState>, gpu: seq<QueryReading>)
    requires IdsBelow(s, |gpu|)
    requires NoneInFlight(s)
    ensures CountNewlyOccluded(s, gpu) == 0
  {
    if s != [] {
      FirstPassCountsNone(s[..|s| - 1], gpu);
    }
  }

  /** Distinct positions of a sphere array whose ids are a permutation hold distinct ids. */
  lemma IdsInjective(s: seq<SphereState>)
    requires IsPermutation(Ids(s), |s|)
    ensures forall i, j :: 0 <= i < |s| && 0 <= j < |s| && i != j ==> s[i].id != s[j].id
  {
    forall i, j | 0 <= i < |s| && 0 <= j < |s| && i != j ensures s[i].id != s[j].id {
      if i < j { assert Ids(s)[i] != Ids(s)[j]; } else { assert Ids(s)[j] != Ids(s)[i]; }
    }
  }

  /** A set of positions holding distinct ids has as many ids as positions. */
  lemma {:induction false} IdImageSize(I: set<nat>, s: seq<SphereState>)
    requires forall i :: i in I ==> i < |s|
    requires forall i, j :: i in I && j in I && i != j ==> s[i].id != s[j].id
    ensures |set i | i in I :: s[i].id| == |I|
  {
    if I != {} {
      var x :| x in I;
      var J := I - {x};
      IdImageSize(J, s);
      assert (set i | i in I :: s[i].id) == (set i | i in J :: s[i].id) + {s[x].id};
      assert s[x].id !in (set i | i in J :: s[i].id);
    }
  }

  /**
   Once every sphere has a query outstanding, the spheres read with no sample
   passed are, by id, exactly the query objects reporting no sample passed.
   */
  lemma ReadIndicesImage(s: seq<SphereState>, gpu: seq<QueryReading>)
    requires IsPermutation(Ids(s), |s|)
    requires |gpu| == |s|
    requires IdsBelow(s, |gpu|)
    requires AllInFlight(s)
    ensures (set i | i in ReadIndices(s, gpu) :: s[i].id) == ResultsWithNoSamples(gpu)
  {
    var image := set i | i in ReadIndices(s, gpu) :: s[i].id;
    forall k | k in ResultsWithNoSamples(gpu) ensures k in image {
      assert k in Ids(s);
      var i :| 0 <= i < |s| && Ids(s)[i] == k;
      assert i in ReadIndices(s, gpu);
    }
  }

  /**
   Once every sphere has a query outstanding, the counter is the number of
   query objects whose result is available and says no sample passed,
   whatever order the spheres are visited in.
   */
  lemma SteadyStateCount(s: seq<SphereState>, gpu: seq<QueryReading>)
    requires IsPermutation(Ids(s), |s|)
    requires |gpu| == |s|
    requires IdsBelow(s, |gpu|)
    requires AllInFlight(s)
    ensures CountNewlyOccluded(s, gpu) == |ResultsWithNoSamples(gpu)|
  {
    NewlyOccludedIsSetSize(s, gpu);
    IdsInjective(s);
    IdImageSize(ReadIndices(s, gpu), s);
    ReadIndicesImage(s, gpu);
  }

  /** Sorting by a permutation keeps the same spheres, each exactly once. */
  lemma ReorderKeepsSpheres(s: seq<SphereState>, order: seq<nat>)
    requires IsPermutation(Ids(s), |s|)
    requires IsPermutation(order, |s|)
    ensures IsPermutation(Ids(Reorder(s, order)), |s|)
  {
    var r := Reorder(s, order);
    var n := |s|;
    assert forall i :: 0 <= i < n ==> Ids(r)[i] == Ids(s)[order[i]];
    forall i, j | 0 <= i < j < n ensures Ids(r)[i] != Ids(r)[j] {
      if order[i] < order[j] {
        assert Ids(s)[order[i]] != Ids(s)[order[j]];
      } else {
        assert Ids(s)[order[j]] != Ids(s)[order[i]];
      }
    }
    forall k | 0 <= k < n ensures k in Ids(r) {
      assert k in Ids(s);
      var j :| 0 <= j < n && Ids(s)[j] == k;
      assert j in order;
      var i :| 0 <= i < n && order[i] == j;
      assert Ids(r)[i] == k;
    }
  }

  /**
   What stays true of the sphere array from frame to frame: each sphere once,
   at its grid position, visible exactly when not occluded, and either no
   query issued yet or exactly one query outstanding per sphere.
   */
  ghost predicate ValidSpheres(s: seq<SphereState>) {
    && IsPermutation(Ids(s), |s|)
    && IdsBelow(s, |s|)
    && (forall i :: 0 <= i < |s| ==> s[i].position == Grid.PlacementOf(s[i].id))
    && (forall i :: 0 <= i < |s| ==> s[i].visible == !s[i].occluded)
    && (Pristine(s) || AllInFlight(s))
  }

  /** The depth sort keeps the invariant. */
  lemma ReorderKeepsValid(s: seq<SphereState>, order: seq<nat>)
    requires ValidSpheres(s)
    requires IsPermutation(order, |s|)
    ensures ValidSpheres(Reorder(s, order))
    ensures NoneInFlight(s) ==> NoneInFlight(Reorder(s, order))
    ensures AllInFlight(s) ==> AllInFlight(Reorder(s, order))
  {
    ReorderKeepsSpheres(s, order);
    var r := Reorder(s, order);
    forall i | 0 <= i < |r| ensures r[i].id < |r| {
      assert Ids(r)[i] == r[i].id;
    }
  }

  /** The occlusion pass keeps the invariant, leaving every query in flight. */
  lemma PassKeepsValid(s: seq<SphereState>, gpu: seq<QueryReading>)
    requires ValidSpheres(s)
    requires |gpu| == |s|
    ensures ValidSpheres(Pass(s, gpu)) && AllInFlight(Pass(s, gpu))
    ensures CountNewlyOccluded(s, gpu) <= CountOccluded(Pass(s, gpu))
  {
    PassEffect(s, gpu);
    CounterExcludesStale(s, gpu);
  }

  /**
   The queries begun by a whole frame (depth sort, then pass): every sphere
   in the first pass, and afterwards exactly those whose result is available.
   */
  lemma BeginsOfFrame(s: seq<SphereState>, order: seq<nat>, gpu: seq<QueryReading>)
    requires ValidSpheres(s)
    requires IsPermutation(order, |s|)
    requires |gpu| == |s|
    ensures NoneInFlight(s) ==> forall k :: 0 <= k < |s| ==> k in Begins(Reorder(s, order), gpu)
    ensures AllInFlight(s) ==>
      forall k :: 0 <= k < |s| ==> (k in Begins(Reorder(s, order), gpu) <==> gpu[k].available)
  {
    ReorderKeepsValid(s, order);
    var sorted := Reorder(s, order);
    if NoneInFlight(s) {
      FirstPassBeginsAll(sorted, gpu);
    }
    if AllInFlight(s) {
      forall k | 0 <= k < |s| ensures k in Begins(sorted, gpu) <==> gpu[k].available {
        SteadyStateBegins(sorted, gpu, k);
      }
    }
  }

  // ---------------------------------------------------------------------------
  // The scene

  /**
   The module-level state of main.js that the occlusion pass touches: the
   sphere array, the firstRender flag and the occludedSpheres counter.
   */
  class Demo {
    const spheres: array<SphereState>
    var firstRender: bool
    var occludedSpheres: int
    /** How many occlusion passes have run: before the first, no query exists; after it, one per sphere. */
    ghost var passes: nat

    ghost predicate Valid()
      reads this, spheres
    {
      && spheres.Length == Grid.NumSpheres
      && ValidSpheres(spheres[..])
      && (firstRender ==> passes == 0)
      && (passes == 0 ==> Pristine(spheres[..]))
      && (passes > 0 ==> AllInFlight(spheres[..]))
      && 0 <= occludedSpheres <= CountOccluded(spheres[..])
    }

    /** init(): sphere i is created in grid cell i, with no query and not occluded. */
    constructor ()
      ensures Valid() && fresh(spheres)
      ensures firstRender && occludedSpheres == 0 && passes == 0
      ensures forall i :: 0 <= i < spheres.Length ==> spheres[i] == InitialSphere(i)
    {
      var a := new SphereState[Grid.NumSpheres];
      for i := 0 to Grid.NumSpheres
        invariant forall j :: 0 <= j < i ==> a[j] == InitialSphere(j)
      {
        a[i] := InitialSphere(i);
      }
      InitialSpheresValid(a[..]);
      spheres := a;
      firstRender := true;
      occludedSpheres := 0;
      passes := 0;
    }

    /** spheres.sort(depthSort): the sort's outcome is the permutation `order`. */
    method DepthSort(order: seq<nat>)
      requires IsPermutation(order, spheres.Length)
      modifies spheres
      ensures spheres[..] == Reorder(old(spheres[..]), order)
    {
      var before := spheres[..];
      forall i | 0 <= i < spheres.Length {
        spheres[i] := before[order[i]];
      }
    }

    /**
     The loop of render() over the sorted spheres: per sphere, read an
     available result, begin a query when none is in flight, set visibility.
     Returns the ids of the spheres whose query was begun, in order.
     */
    method OcclusionPass(gpu: seq<QueryReading>) returns (begun: seq<nat>)
      requires IdsBelow(spheres[..], |gpu|)
      modifies this`occludedSpheres, spheres
      ensures spheres[..] == Pass(old(spheres[..]), gpu)
      ensures occludedSpheres == old(occludedSpheres) + CountNewlyOccluded(old(spheres[..]), gpu)
      ensures begun == Begins(old(spheres[..]), gpu)
    {
      ghost var sorted := spheres[..];
      begun := [];
      var i := 0;
      while i < spheres.Length
        invariant 0 <= i <= spheres.Length
        invariant forall j :: 0 <= j < i ==> spheres[j] == Step(sorted[j], gpu[sorted[j].id])
        invariant forall j :: i <= j < spheres.Length ==> spheres[j] == sorted[j]
        invariant occludedSpheres == old(occludedSpheres) + CountNewlyOccluded(sorted[..i], gpu)
        invariant begun == Begins(sorted[..i], gpu)
      {
        assert sorted[..i + 1][..i] == sorted[..i];
        var sphereData := spheres[i].(visible := true);
        if sphereData.queryInProgress && gpu[sphereData.id].available {
          sphereData := sphereData.(occluded := !gpu[sphereData.id].anySamplesPassed);
          if sphereData.occluded {
            occludedSpheres := occludedSpheres + 1;
          }
          sphereData := sphereData.(queryInProgress := false);
        }
        if !sphereData.queryInProgress {
          // beginQuery, draw the bounding-box proxy, endQuery
          begun := begun + [sphereData.id];
          sphereData := sphereData.(queryInProgress := true);
        }
        if sphereData.occluded {
          sphereData := sphereData.(visible := false);
        }
        spheres[i] := sphereData;
        i := i + 1;
      }
      assert sorted[..spheres.Length] == sorted;
    }

    /**
     render(): resets the counter; on every frame but the first, sorts the
     spheres and runs the occlusion pass; then clears firstRender. Returns
     the ids of the spheres whose query was begun, in order.
     */
    method Frame(order: seq<nat>, gpu: seq<QueryReading>) returns (begun: seq<nat>)
      requires Valid()
      requires IsPermutation(order, spheres.Length)
      requires |gpu| == spheres.Length
      modifies this, spheres
      ensures Valid()
      ensures !firstRender
      ensures 0 <= occludedSpheres <= spheres.Length
      ensures passes == if old(firstRender) then old(passes) else old(passes) + 1
      ensures !old(firstRender) && old(passes) == 0 ==>
        forall k :: 0 <= k < spheres.Length ==> k in begun
      ensures !old(firstRender) && old(passes) > 0 ==>
        forall k :: 0 <= k < spheres.Length ==> (k in begun <==> gpu[k].available)
      ensures old(firstRender) ==>
        spheres[..] == old(spheres[..]) && occludedSpheres == 0 && begun == []
      ensures !old(firstRender) ==>
        var sorted := Reorder(old(spheres[..]), order);
        && IdsBelow(sorted, |gpu|)
        && spheres[..] == Pass(sorted, gpu)
        && occludedSpheres == CountNewlyOccluded(sorted, gpu)
        && begun == Begins(sorted, gpu)
    {
      occludedSpheres := 0;
      begun := [];
      if !firstRender {
        BeginsOfFrame(spheres[..], order, gpu);
        ReorderKeepsValid(spheres[..], order);
        DepthSort(order);
        ghost var sorted := spheres[..];
        begun := OcclusionPass(gpu);
        PassKeepsValid(sorted, gpu);
        passes := passes + 1;
      }
      firstRender := false;
    }
  }

  /**
   The counter after a whole frame (depth sort, then pass): 0 in the first
   pass, and afterwards the number of results available with no sample passed.
   */
  lemma CountOfFrame(s: seq<SphereState>, order: seq<nat>, gpu: seq<QueryReading>)
    requires ValidSpheres(s)
    requires IsPermutation(order, |s|)
    requires |gpu| == |s|
    ensures NoneInFlight(s) ==> CountNewlyOccluded(Reorder(s, order), gpu) == 0
    ensures AllInFlight(s) ==> CountNewlyOccluded(Reorder(s, order), gpu) == |ResultsWithNoSamples(gpu)|
  {
    ReorderKeepsValid(s, order);
    var sorted := Reorder(s, order);
    if NoneInFlight(s) {
      FirstPassCountsNone(sorted, gpu);
    }
    if AllInFlight(s) {
      SteadyStateCount(sorted, gpu);
    }
  }

  /** The spheres init() creates satisfy the invariant, with nothing occluded. */
  lemma InitialSpheresValid(s: seq<SphereState>)
    requires |s| == Grid.NumSpheres
    requires forall i :: 0 <= i < |s| ==> s[i] == InitialSphere(i)
    ensures ValidSpheres(s) && Pristine(s) && CountOccluded(s) == 0
  {
    forall k | 0 <= k < |s| ensures k in Ids(s) {
      assert Ids(s)[k] == k;
    }
    PristineHasNoneOccluded(s);
  }

  /** A state with no sphere flagged occluded counts zero occluded spheres. */
  lemma {:induction false} PristineHasNoneOccluded(s: seq<SphereState>)
    requires Pristine(s)
    ensures CountOccluded(s) == 0
  {
    if s != [] {
      PristineHasNoneOccluded(s[..|s| - 1]);
    }
  }

  /** The inputs of one render() call: the depth sort's outcome and the GPU's answers. */
  datatype FrameInput = FrameInput(order: seq<nat>, gpu: seq<QueryReading>)

  /** A frame's log of begun queries names every sphere. */
  predicate BeginsEverySphere(log: seq<nat>) {
    forall k :: 0 <= k < Grid.NumSpheres ==> k in log
  }

  /** A frame's log names exactly the spheres whose outstanding result was available. */
  predicate ReissuesExactlyAvailable(log: seq<nat>, gpu: seq<QueryReading>)
    requires |gpu| == Grid.NumSpheres
  {
    forall k :: 0 <= k < Grid.NumSpheres ==> (k in log <==> gpu[k].available)
  }

  /**
   One animate() tick: render() with the given inputs. Returns the log of
   begun queries and occludedSpheres as render() leaves it.
   */
  method Tick(demo: Demo, input: FrameInput) returns (b: seq<nat>, counter: int)
    requires demo.Valid()
    requires IsPermutation(input.order, Grid.NumSpheres)
    requires |input.gpu| == Grid.NumSpheres
    modifies demo, demo.spheres
    ensures demo.Valid() && !demo.firstRender
    ensures demo.passes == if old(demo.firstRender) then old(demo.passes) else old(demo.passes) + 1
    ensures 0 <= counter <= Grid.NumSpheres
    ensures old(demo.firstRender) ==> demo.spheres[..] == old(demo.spheres[..]) && b == [] && counter == 0
    ensures !old(demo.firstRender) && old(demo.passes) == 0 ==> BeginsEverySphere(b) && counter == 0
    ensures !old(demo.firstRender) && old(demo.passes) > 0 ==>
      ReissuesExactlyAvailable(b, input.gpu) && counter == |ResultsWithNoSamples(input.gpu)|
  {
    CountOfFrame(demo.spheres[..], input.order, input.gpu);
    b := demo.Frame(input.order, input.gpu);
    counter := demo.occludedSpheres;
  }

  /**
   init() followed by one render() per input, as animate() drives it.
   Returns, per frame, the ids whose query was begun and the counter.
   The first frame begins nothing; the second begins one query per sphere;
   from then on a sphere's query is re-issued exactly when its previous
   result was available.
   */
  method Animate(inputs: seq<FrameInput>) returns (begun: seq<seq<nat>>, counters: seq<int>)
    requires forall f :: 0 <= f < |inputs| ==> IsPermutation(inputs[f].order, Grid.NumSpheres)
    requires forall f :: 0 <= f < |inputs| ==> |inputs[f].gpu| == Grid.NumSpheres
    ensures |begun| == |inputs| && |counters| == |inputs|
    ensures forall f :: 0 <= f < |inputs| ==> 0 <= counters[f] <= Grid.NumSpheres
    ensures |inputs| > 0 ==> begun[0] == [] && counters[0] == 0
    ensures |inputs| > 1 ==> BeginsEverySphere(begun[1]) && counters[1] == 0
    ensures forall f :: 2 <= f < |inputs| ==> ReissuesExactlyAvailable(begun[f], inputs[f].gpu)
    ensures forall f :: 2 <= f < |inputs| ==> counters[f] == |ResultsWithNoSamples(inputs[f].gpu)|
  {
    var demo := new Demo();
    begun, counters := [], [];
    for f := 0 to |inputs|
      invariant fresh(demo.spheres)
      invariant demo.Valid()
      invariant demo.firstRender <==> f == 0
      invariant demo.passes == if f == 0 then 0 else f - 1
      invariant |begun| == f && |counters| == f
      invariant forall g :: 0 <= g < f ==> 0 <= counters[g] <= Grid.NumSpheres
      invariant f > 0 ==> begun[0] == [] && counters[0] == 0
      invariant f > 1 ==> BeginsEverySphere(begun[1]) && counters[1] == 0
      invariant forall g :: 2 <= g < f ==> ReissuesExactlyAvailable(begun[g], inputs[g].gpu)
      invariant forall g :: 2 <= g < f ==> counters[g] == |ResultsWithNoSamples(inputs[g].gpu)|
    {
      var b, counter := Tick(demo, inputs[f]);
      begun := begun + [b];
      counters := counters + [counter];
    }
  }
}
