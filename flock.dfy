/** The driver's flock (Main.cpp): spawning the boids with their ids, the
    brute-force neighbor filter, and the per-frame loop that updates each
    boid in turn. */
module Flock {
  import opened Geometry

  /** Population-wide tunables (Boid.cpp). Only the sense distance takes
      part in the modelled logic; the others feed Movement, which is a
      parameter here. */
  const MaxSpeed: real := 16.0
  const AlignmentWeight: real := 3.0
  const CohesionWeight: real := 1.0
  const SeparationWeight: real := 2.0
  const AvoidEdgesWeight: real := 2.0
  const SeparationDistance: real := 12.0
  const SenseDistance: real := 32.0

  datatype Boid = Boid(id: int, position: Vector3, velocity: Vector3)

  /** The part of a boid that Movement and FixToBounds rewrite. */
  datatype Motion = Motion(position: Vector3, velocity: Vector3)

  /** Per-boid velocity and position update from the neighbor list. */
  type MovementRule = (Boid, seq<Boid>, Bounds) -> Motion

  /** Per-boid correction of a position that left the box. */
  type BoundsRule = (Boid, Bounds) -> Motion

  function Moved(b: Boid, m: Motion): Boid {
    b.(position := m.position, velocity := m.velocity)
  }

  function DistanceSquared(a: Vector3, b: Vector3): real {
    var d := a.Minus(b);
    d.x * d.x + d.y * d.y + d.z * d.z
  }

  /** `Vector3Distance(a, b) <= SenseDistance`, compared on squares, which
      is exact since the sense distance is not negative. */
  function WithinSense(a: Vector3, b: Vector3): (r: bool)
    ensures r <==> DistanceSquared(b, a) <= SenseDistance * SenseDistance
    ensures a == b ==> r
  {
    DistanceSquared(a, b) <= SenseDistance * SenseDistance
  }

  /** The filter's test: another id, and close enough. */
  function IsNeighbor(self: Boid, other: Boid): (r: bool)
    ensures other.id == self.id ==> !r
    ensures other.id != self.id ==> (r <==> WithinSense(self.position, other.position))
  {
    other.id != self.id && WithinSense(other.position, self.position)
  }

  predicate DistinctIds(s: seq<Boid>) {
    forall j, k :: 0 <= j < k < |s| ==> s[j].id != s[k].id
  }

  /** What spawning establishes: every boid's id is its array index. */
  predicate IdsAreIndices(s: seq<Boid>) {
    forall k :: 0 <= k < |s| ==> s[k].id == k
  }

  /** Ids equal to indices are distinct. */
  lemma IndexIdsAreDistinct(s: seq<Boid>)
    requires IdsAreIndices(s)
    ensures DistinctIds(s)
  {
  }

  // ---------------------------------------------------------------------
  // Spawning

  /** Fills the boid array; the random positions and velocities are
      supplied by the caller, one per boid. */
  method Spawn(positions: seq<Vector3>, velocities: seq<Vector3>) returns (boids: array<Boid>)
    requires |positions| == |velocities|
    ensures fresh(boids)
    ensures boids.Length == |positions|
    ensures forall k :: 0 <= k < boids.Length ==>
      boids[k] == Boid(k, positions[k], velocities[k])
    ensures IdsAreIndices(boids[..])
  {
    boids := new Boid[|positions|];
    for i := 0 to |positions|
      invariant forall k :: 0 <= k < i ==> boids[k] == Boid(k, positions[k], velocities[k])
    {
      boids[i] := Boid(i, positions[i], velocities[i]);
    }
  }

  // ---------------------------------------------------------------------
  // Neighbor gathering

  /** The neighbor list the filter builds over `s` for `self`: the boids of
      `s` that pass IsNeighbor, appended in array order. */
  function Gathered(s: seq<Boid>, self: Boid): (r: seq<Boid>)
    ensures |r| <= |s|
    ensures forall k :: 0 <= k < |r| ==> IsNeighbor(self, r[k])
    decreases |s|
  {
    if |s| == 0 then []
    else
      var last := s[|s| - 1];
      Gathered(s[..|s| - 1], self) + (if IsNeighbor(self, last) then [last] else [])
  }

  /** The array indices of the gathered boids, in the order appended. */
  function GatheredIndices(s: seq<Boid>, self: Boid): (r: seq<int>)
    ensures forall k :: 0 <= k < |r| ==> 0 <= r[k] < |s|
    ensures forall k, l :: 0 <= k < l < |r| ==> r[k] < r[l]
    decreases |s|
  {
    if |s| == 0 then []
    else
      GatheredIndices(s[..|s| - 1], self) + (if IsNeighbor(self, s[|s| - 1]) then [|s| - 1] else [])
  }

  /** Order preservation: the gathered list is the subsequence of `s` at
      the strictly increasing indices GatheredIndices, so no boid is taken
      twice and the array order is kept. */
  lemma {:induction false} GatheredIsSubsequence(s: seq<Boid>, self: Boid)
    ensures |Gathered(s, self)| == |GatheredIndices(s, self)|
    ensures forall k :: 0 <= k < |Gathered(s, self)| ==>
      Gathered(s, self)[k] == s[GatheredIndices(s, self)[k]]
    decreases |s|
  {
    if |s| > 0 {
      var init := s[..|s| - 1];
      GatheredIsSubsequence(init, self);
      forall k | 0 <= k < |GatheredIndices(init, self)|
        ensures s[GatheredIndices(init, self)[k]] == init[GatheredIndices(init, self)[k]]
      {
      }
    }
  }

  /** Soundness and completeness at the index level: index `j` is taken
      exactly when boid `j` passes the filter's test. */
  lemma {:induction false} GatheredIndicesExactly(s: seq<Boid>, self: Boid, j: int)
    requires 0 <= j < |s|
    ensures j in GatheredIndices(s, self) <==> IsNeighbor(self, s[j])
    decreases |s|
  {
    var init := s[..|s| - 1];
    if j < |s| - 1 {
      GatheredIndicesExactly(init, self, j);
      assert init[j] == s[j];
      assert |s| - 1 !in GatheredIndices(init, self);
    } else {
      assert j !in GatheredIndices(init, self);
    }
  }

  /** Soundness and completeness on values: a boid is gathered exactly
      when it is in the array, has another id, and is within sense range
      (so a boid at exactly the sense distance is gathered). */
  lemma {:induction false} GatheredMembership(s: seq<Boid>, self: Boid, x: Boid)
    ensures x in Gathered(s, self) <==> x in s && IsNeighbor(self, x)
    decreases |s|
  {
    if |s| > 0 {
      var init := s[..|s| - 1];
      GatheredMembership(init, self, x);
      assert s == init + [s[|s| - 1]];
    }
  }

  /** Self-exclusion: nothing gathered carries the id of the boid whose
      neighbors are gathered. */
  lemma GatheredExcludesOwnId(s: seq<Boid>, self: Boid)
    ensures forall x :: x in Gathered(s, self) ==> x.id != self.id
  {
    forall x | x in Gathered(s, self) ensures x.id != self.id {
      GatheredMembership(s, self, x);
    }
  }

  /** With distinct ids, the id test drops exactly the boid itself: for
      boid `i`, every other boid is gathered exactly when it is in range. */
  lemma OnlyTheBoidItselfIsSkipped(s: seq<Boid>, i: int, j: int)
    requires DistinctIds(s)
    requires 0 <= i < |s| && 0 <= j < |s|
    ensures j in GatheredIndices(s, s[i]) <==> j != i && WithinSense(s[j].position, s[i].position)
  {
    GatheredIndicesExactly(s, s[i], j);
    if j != i {
      assert s[j].id != s[i].id;
    }
  }

  /** The list is no longer than the array, and shorter by at least one
      when some boid of the array carries `self`'s id. */
  lemma {:induction false} GatheredLength(s: seq<Boid>, self: Boid)
    ensures |Gathered(s, self)| <= |s|
    ensures (exists k :: 0 <= k < |s| && s[k].id == self.id) ==> |Gathered(s, self)| <= |s| - 1
    decreases |s|
  {
    if |s| > 0 {
      var init := s[..|s| - 1];
      GatheredLength(init, self);
      if exists k :: 0 <= k < |s| && s[k].id == self.id {
        var k :| 0 <= k < |s| && s[k].id == self.id;
        if k < |s| - 1 {
          assert init[k].id == self.id;
        }
      }
    }
  }

  /** A boid has at most `|s| - 1` neighbors. */
  lemma NeighborCountBound(s: seq<Boid>, i: int)
    requires 0 <= i < |s|
    ensures |Gathered(s, s[i])| <= |s| - 1
  {
    GatheredLength(s, s[i]);
  }

  /** Over a flock with distinct ids the gathered boids have distinct ids:
      each neighbor appears at most once. */
  lemma {:induction false} GatheredDistinct(s: seq<Boid>, self: Boid)
    requires DistinctIds(s)
    ensures DistinctIds(Gathered(s, self))
    decreases |s|
  {
    if |s| > 0 {
      var init := s[..|s| - 1];
      var last := s[|s| - 1];
      assert DistinctIds(init) by {
        forall j, k | 0 <= j < k < |init| ensures init[j].id != init[k].id {
          assert init[j] == s[j] && init[k] == s[k];
        }
      }
      GatheredDistinct(init, self);
      if IsNeighbor(self, last) {
        var g := Gathered(init, self);
        forall x | x in g ensures x.id != last.id {
          GatheredMembership(init, self, x);
          var m :| 0 <= m < |init| && init[m] == x;
          assert s[m] == x;
        }
        assert Gathered(s, self) == g + [last];
        forall j, k | 0 <= j < k < |g| + 1 ensures (g + [last])[j].id != (g + [last])[k].id {
          if k == |g| {
            assert (g + [last])[j] == g[j] && g[j] in g;
          } else {
            assert (g + [last])[j] == g[j] && (g + [last])[k] == g[k];
          }
        }
      }
    }
  }

  /** Two boids exactly the sense distance apart see each other, and the
      boid itself is not in its own list. */
  lemma BoidAtSenseDistanceIsGathered(v: Vector3)
    ensures
      var a := Boid(0, Vector3(0.0, 0.0, 0.0), v);
      var b := Boid(1, Vector3(SenseDistance, 0.0, 0.0), v);
      Gathered([a, b], a) == [b] && Gathered([a, b], b) == [a]
  {
    var a := Boid(0, Vector3(0.0, 0.0, 0.0), v);
    var b := Boid(1, Vector3(SenseDistance, 0.0, 0.0), v);
    assert IsNeighbor(a, b) && IsNeighbor(b, a) && !IsNeighbor(a, a) && !IsNeighbor(b, b);
    assert [a, b][..1] == [a];
    assert [a][..0] == [];
    assert Gathered([a], a) == [] && Gathered([a], b) == [a];
  }

  /** Main.cpp's inner `j` loop: starts from an empty list and appends
      every boid that passes the test, in array order. */
  method GatherNeighbors(boids: array<Boid>, boid: Boid) returns (neighbors: seq<Boid>)
    ensures neighbors == Gathered(boids[..], boid)
    ensures forall x :: x in neighbors <==> x in boids[..] && IsNeighbor(boid, x)
  {
    neighbors := [];
    for j := 0 to boids.Length
      invariant neighbors == Gathered(boids[..j], boid)
    {
      assert boids[..j + 1][..j] == boids[..j];
      if boids[j].id == boid.id {
        continue;
      }
      if WithinSense(boids[j].position, boid.position) {
        neighbors := neighbors + [boids[j]];
      }
    }
    assert boids[..boids.Length] == boids[..];
    forall x ensures x in neighbors <==> x in boids[..] && IsNeighbor(boid, x) {
      GatheredMembership(boids[..], boid, x);
    }
  }

  // ---------------------------------------------------------------------
  // One frame of updates

  /** Iteration `i` of the update loop: gather boid `i`'s neighbors from
      the current array, run Movement and then FixToBounds on that boid,
      and store it back at index `i`. Only boid `i` is reassigned, and it
      keeps its id. */
  function Step(s: seq<Boid>, i: int, bounds: Bounds, movement: MovementRule, fix: BoundsRule): (r: seq<Boid>)
    requires 0 <= i < |s|
    ensures |r| == |s|
    ensures r[i].id == s[i].id
    ensures forall k :: 0 <= k < |s| && k != i ==> r[k] == s[k]
  {
    var boid := s[i];
    var moved := Moved(boid, movement(boid, Gathered(s, boid), bounds));
    s[i := Moved(moved, fix(moved, bounds))]
  }

  /** The flock after the first `n` iterations of the update loop. Every
      boid keeps its place and its id. */
  function Frame(s: seq<Boid>, n: int, bounds: Bounds, movement: MovementRule, fix: BoundsRule): (r: seq<Boid>)
    requires 0 <= n <= |s|
    ensures |r| == |s|
    ensures forall k :: 0 <= k < |s| ==> r[k].id == s[k].id
    decreases n
  {
    if n == 0 then s
    else Step(Frame(s, n - 1, bounds, movement, fix), n - 1, bounds, movement, fix)
  }

  /** Boids the loop has not reached yet still hold their values from
      before the frame. */
  lemma {:induction false} FrameLeavesLaterBoids(s: seq<Boid>, n: int, bounds: Bounds, movement: MovementRule, fix: BoundsRule)
    requires 0 <= n <= |s|
    ensures forall k :: n <= k < |s| ==> Frame(s, n, bounds, movement, fix)[k] == s[k]
    decreases n
  {
    if n > 0 {
      FrameLeavesLaterBoids(s, n - 1, bounds, movement, fix);
    }
  }

  /** Once iteration `k` has run, later iterations never touch boid `k`
      again: its value at the end of the frame is the one iteration `k`
      stored. */
  lemma {:induction false} FrameKeepsFinishedBoids(s: seq<Boid>, n: int, m: int, bounds: Bounds, movement: MovementRule, fix: BoundsRule)
    requires 0 <= n <= m <= |s|
    ensures forall k :: 0 <= k < n ==>
      Frame(s, m, bounds, movement, fix)[k] == Frame(s, n, bounds, movement, fix)[k]
    decreases m
  {
    if m > n {
      FrameKeepsFinishedBoids(s, n, m - 1, bounds, movement, fix);
    }
  }

  /** A spawned flock stays one: ids equal indices throughout the frame,
      so in every iteration the id test skips exactly the boid being
      updated. */
  lemma FrameKeepsIdsAtIndices(s: seq<Boid>, n: int, i: int, j: int, bounds: Bounds, movement: MovementRule, fix: BoundsRule)
    requires IdsAreIndices(s)
    requires 0 <= n <= |s|
    requires 0 <= i < |s| && 0 <= j < |s|
    ensures IdsAreIndices(Frame(s, n, bounds, movement, fix))
    ensures var t := Frame(s, n, bounds, movement, fix);
      j in GatheredIndices(t, t[i]) <==> j != i && WithinSense(t[j].position, t[i].position)
  {
    var t := Frame(s, n, bounds, movement, fix);
    assert IdsAreIndices(t);
    IndexIdsAreDistinct(t);
    OnlyTheBoidItselfIsSkipped(t, i, j);
  }

  /** Main.cpp's outer update loop for one frame. */
  method UpdateBoids(boids: array<Boid>, bounds: Bounds, movement: MovementRule, fix: BoundsRule)
    modifies boids
    ensures boids[..] == Frame(old(boids[..]), boids.Length, bounds, movement, fix)
  {
    ghost var start := boids[..];
    for i := 0 to boids.Length
      invariant boids[..] == Frame(start, i, bounds, movement, fix)
    {
      var boid := boids[i];
      var neighbors := GatherNeighbors(boids, boid);
      boids[i] := Moved(boids[i], movement(boids[i], neighbors, bounds));
      boids[i] := Moved(boids[i], fix(boids[i], bounds));
    }
  }
}
