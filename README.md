# Boids core in Dafny

This is a model of the sequential logic in a raylib boid-flocking simulation.
It has three modules, one for each part of the source:

- `Geometry` (geometry.dfy) models `Bounds`, the immutable axis-aligned
  simulation volume, and raylib's `Vector3` as a triple of reals. The box
  stores a center and a size. Extents, the two corners and inclusive or
  exclusive point containment are derived from those. The default argument
  of `Contains` is kept as a Dafny default parameter.
- `Grid` (grid.dfy) models `GridBins`, the uniform grid of bins. It is a
  class with the source's fields: `bins`, marked mutable, and `bounds`,
  `binSize` and `binDensity`, marked constant. Its constructor, like the
  source's, builds density³ empty bins by appending one bin at a time inside
  a triple nested loop.
- `Flock` (flock.dfy) models the driver loop:
  - Spawning gives boid `i` the id `i`.
  - The brute-force neighbor filter skips the boid's own id and keeps every
    boid within the sense distance, in array order.
  - The per-frame update loop gathers boid `i`'s neighbors from the current
    array, then rewrites boid `i` alone.

  The filter loop and the update loop are methods over an `array<Boid>`.
  Each is proved against a specification function: `Gathered` for the
  filter and `Frame` for the update. The lemmas next to them prove
  soundness, completeness, self-exclusion, order preservation, the bound on
  the neighbor count, and the update loop's frame properties.

Notes on the source text:

- The driver builds `Boid{ i, pos, vel }` and reads `boid.id` and
  `boid.senseDistance`, but Boid.h declares only `position`, `velocity` and
  four static weights. The model follows how the driver uses a boid: a
  record `{id, position, velocity}`. The constants come from Boid.cpp.
- The driver and the test harness instantiate `GridBins<Boid *>` and
  `GridBins<bool>`, while GridBins.h declares a non-template class over
  `Boid`. The model is generic over the item type, which covers all three.
- The grid's position-to-index conversion and its neighbor-cell queries
  are not defined in GridBins.h, so they are not part of this model.

## Model

| member | source | states |
|---|---|---|
| Geometry.AccessorsReturnConstructorArguments | Bounds.h:10-21 | `Center()` and `Size()` return exactly the values the box was built from |
| Geometry.Bounds.Center | Bounds.h:13-16 | returns the stored center, which is the midpoint of the two corners: 2·Center == Min + Max |
| Geometry.Bounds.Size | Bounds.h:18-21 | returns the stored size, which is the span between the corners: Size == Max − Min |
| Geometry.Bounds.Extents | Bounds.h:23-26 | the extents are half the size: extents + extents == size |
| Geometry.Bounds.Min | Bounds.h:28-33 | Min plus the extents is the center, so twice the distance from Min to the center is the size on each axis |
| Geometry.Bounds.Max | Bounds.h:35-40 | Max minus the extents is the center, so twice the distance from the center to Max is the size on each axis |
| Geometry.Bounds.Contains | Bounds.h:42-58 | a contained point lies in the closed box on every axis; with the exclusive test, a contained point lies on no face; a box of non-negative size contains its own center under the inclusive default |
| Geometry.MaxMinusMinIsSize | Bounds.h:28-40 | Max − Min == Size |
| Geometry.MinPlusMaxIsTwiceCenter | Bounds.h:28-40 | Min + Max == 2·Center |
| Geometry.MinAtMostMaxIffSizeNonNegative | Bounds.h:28-40 | Min ≤ Max on an axis if and only if that axis' size is ≥ 0 |
| Geometry.WellFormedBoxContainsCenterAndCorners | Bounds.h:28-51 | a box of non-negative size inclusively contains its center, Min and Max; each of these holds only when the size is non-negative; a box with a negative size contains no point |
| Geometry.DefaultIsInclusive | Bounds.h:42 | `Contains(p)` is `Contains(p, true)` |
| Geometry.ContainsIsPerAxis | Bounds.h:42-58 | containment is the conjunction of the three per-axis closed or open interval tests |
| Geometry.OutOfRangeOnOneAxisIsRejected | Bounds.h:49-57 | a point outside the range on any one axis is rejected, whatever the other axes say |
| Geometry.ExclusiveImpliesInclusive | Bounds.h:47-58 | exclusive containment implies inclusive containment |
| Geometry.FacePointsAreNotStrictlyInside | Bounds.h:55-57 | a point whose coordinate equals Min or Max on some axis fails the exclusive test |
| Geometry.InclusiveOffTheFacesIsExclusive | Bounds.h:47-58 | an inclusively contained point on no face is exclusively contained, so the two tests differ only on the faces |
| Geometry.SimulationVolume | Main.cpp:18 | the driver's box (center 0, side 200) spans −100 to 100 on each axis |
| Grid.BinCount | GridBins.h:22-33 | the number of bins the triple loop appends, one per innermost iteration: zero only for density 0; otherwise the last iteration (d−1, d−1, d−1) appends bin number (d−1)·d² + (d−1)·d + (d−1), which is the last |
| Grid.EmptyBins | GridBins.h:22-33 | the constructor's bin collection has exactly n entries, each of them empty |
| Grid.CellSize | GridBins.h:19 | `binSize` scaled by `density` is `bounds.Size()` on each axis |
| Grid.GridBins.constructor | GridBins.h:17-34 | stores `bounds` unchanged and `binDensity == density` (overriding the default 100) and sets `binSize = size/density`; leaves exactly density³ bins, all empty. The loop invariants track the bin count after each iteration: i·density², then + j·density, then + k |
| Grid.DriverGrid | Main.cpp:30 | the driver's grid (side 200, density 16) has 4096 bins of side 12.5 |
| Flock.IndexIdsAreDistinct | Main.cpp:57 | ids equal to array indices are pairwise distinct |
| Flock.WithinSense | Main.cpp:99-100 | the distance test `<= senseDistance`, on squared distance: the same when measured from either boid, and every position is in range of itself |
| Flock.IsNeighbor | Main.cpp:97-100 | the filter's test: a boid with the current boid's id is never kept; any other boid is kept if and only if it is within the sense distance |
| Flock.Spawn | Main.cpp:32-57 | boid `k` is `{k, positions[k], velocities[k]}`, so ids equal indices |
| Flock.Gathered | Main.cpp:93-102 | the list the filter builds, appending in array order: no longer than the array, and every entry passes the filter's test |
| Flock.GatheredIndices | Main.cpp:95-102 | the indices the filter takes are in range and strictly increasing |
| Flock.GatheredIsSubsequence | Main.cpp:95-102 | the neighbor list is the array's subsequence at those increasing indices: array order is kept and no index is taken twice |
| Flock.GatheredIndicesExactly | Main.cpp:95-101 | index `j` is taken if and only if boid `j` has another id and is within the sense distance (soundness and completeness) |
| Flock.GatheredMembership | Main.cpp:95-101 | a boid is in the neighbor list if and only if it is in the array, has another id, and is within the sense distance (a boid at exactly that distance included) |
| Flock.GatheredExcludesOwnId | Main.cpp:97 | no gathered boid has the current boid's id |
| Flock.OnlyTheBoidItselfIsSkipped | Main.cpp:95-101 | with distinct ids, boid `j` is gathered for boid `i` if and only if `j != i` and `j` is in range |
| Flock.GatheredLength | Main.cpp:95-101 | the list is no longer than the array, and is at least one shorter when some boid carries the current boid's id |
| Flock.NeighborCountBound | Main.cpp:95-101 | boid `i` has at most `boids.size() - 1` neighbors |
| Flock.GatheredDistinct | Main.cpp:95-101 | over distinct ids, the gathered boids have distinct ids: each neighbor at most once |
| Flock.BoidAtSenseDistanceIsGathered | Main.cpp:99-101 | two boids exactly the sense distance apart gather each other, and neither gathers itself |
| Flock.GatherNeighbors | Main.cpp:93-102 | starting from an empty list, the loop returns exactly the filter's list over the array; a boid is in it if and only if it is in the array, has another id and is in range |
| Flock.Frame | Main.cpp:85-124 | after any number of update iterations the array keeps its length and every boid keeps its id |
| Flock.Step | Main.cpp:87-124 | one iteration gathers boid `i`'s neighbors from the current array, then applies Movement and FixToBounds to boid `i`; only `boids[i]` is reassigned, and it keeps its id |
| Flock.FrameLeavesLaterBoids | Main.cpp:85-124 | boids the loop has not reached yet still hold their values from the start of the frame |
| Flock.FrameKeepsFinishedBoids | Main.cpp:85-124 | later iterations never change a boid that was already updated |
| Flock.FrameKeepsIdsAtIndices | Main.cpp:85-124 | a spawned flock keeps ids equal to indices throughout the frame, so each iteration's id test skips exactly the boid being updated |
| Flock.UpdateBoids | Main.cpp:85-124 | after the loop the array equals `Frame` over its start value: each boid in turn gathers neighbors from the current array and runs Movement and then FixToBounds |

## Left out

- Window, camera, input, frame rate, drawing and colour mapping in Main.cpp, and all of HelloWorld_CPP.cpp: these are I/O and UI.
- The outer `while (!WindowShouldClose())` loop: the model is one frame of updates, `UpdateBoids`.
- Random spawn values: `Spawn` takes the positions and velocities as parameters. `GetRandomValue`, `Vector3Normalize` and `Vector3Scale` are raylib calls on floats and are not modelled.
- Flock.Spawn: it takes any number of boids, where the driver's array holds exactly 1000.
- `Boid::Movement` and `Boid::FixToBounds`: their definitions are not available. They are function parameters (`MovementRule`, `BoundsRule`) that yield a new position and velocity for the one boid they are applied to.
- Float rounding and the square root inside `Vector3Distance`: the model works over reals and compares squared distance with the squared sense distance, which is exact for a non-negative sense distance.
- The grid's position-to-index conversion, bin minimum and maximum, neighbor-bin enumeration and the `Bins()` / `BinSize()` accessors: the driver and Tests.h call them, but GridBins.h does not define them. Tests.h, a printing harness over those calls, is left out for the same reason.
- The commented-out grid paths and the unreachable debug drawing after `continue` in Main.cpp: dead code.
- Grid.GridBins.constructor: density ≤ 0 is excluded by a precondition, although the source does not reject it.
  - For density 0, the source builds a grid with no bins. `binSize` is +infinity on each axis, or NaN on an axis of size 0, because the float division has no guard.
  - For a negative density, the `int` product passed to `reserve` is negative. It converts to a huge `size_t`, and `reserve` throws `std::length_error`.
  - Beyond that, `reserve` is not modelled, because it changes capacity only.
- Grid.GridBins.constructor: it also requires density³ to fit in a 32-bit `int`, because the source computes the `reserve` argument in `int`.
- Boid.cpp's weights other than the sense distance are model constants only, because they feed Movement. Boid.h does not declare `avoidEdgesWeight`, `separationDistance` or `senseDistance`.
