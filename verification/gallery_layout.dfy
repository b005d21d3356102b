/**
 * Placement of the project frames on the circle (`createGallery` and the image
 * path of `createProjectFrame` in circular-gallery.js).
 *
 * A project at position `index` of the loaded list sits at the fraction
 * `index / total` of a full turn, where `total` is the length of the whole
 * list. The model keeps that fraction exactly; the cosine and sine that turn it
 * into coordinates are not modelled.
 */
module GalleryLayout {
  import opened Projects

  const PathPrefix: string := "soobeen-portfolio/"

  /** The image path: a leading `soobeen-portfolio/` is dropped, once. */
  function StripPrefix(path: string): (r: string)
    ensures PathPrefix <= path ==> PathPrefix + r == path
    ensures !(PathPrefix <= path) ==> r == path
  {
    if PathPrefix <= path then path[|PathPrefix|..] else path
  }

  /** Stripping undoes prepending the prefix. */
  lemma StripPrefixInverse(rest: string)
    ensures StripPrefix(PathPrefix + rest) == rest
  {
    assert PathPrefix <= PathPrefix + rest;
    assert (PathPrefix + rest)[|PathPrefix|..] == rest;
  }

  /** Only one copy of the prefix is removed. */
  lemma StripPrefixOnce(rest: string)
    ensures StripPrefix(PathPrefix + (PathPrefix + rest)) == PathPrefix + rest
  {
    StripPrefixInverse(PathPrefix + rest);
  }

  /** A frame: the project, its position in the loaded list, and the list's length. */
  datatype Frame = Frame(index: nat, total: nat, project: Project, imagePath: string)

  /** Two frames at the same angle: equal fractions `index / total`. */
  predicate SameSlot(a: Frame, b: Frame) {
    a.index * b.total == b.index * a.total
  }

  /** The frame built for the project at `index`. */
  function FrameFor(projects: seq<Project>, index: nat): (f: Frame)
    requires index < |projects| && HasImages(projects[index])
    ensures f.index == index && f.total == |projects| && f.project == projects[index]
    ensures PathPrefix <= projects[index].images.value[0] ==> PathPrefix + f.imagePath == projects[index].images.value[0]
  {
    Frame(index, |projects|, projects[index], StripPrefix(projects[index].images.value[0]))
  }

  /** Number of projects that get a frame. */
  function CountPlaced(projects: seq<Project>): (n: nat)
    ensures n <= |projects|
  {
    if |projects| == 0 then 0
    else CountPlaced(projects[..|projects| - 1]) + (if HasImages(projects[|projects| - 1]) then 1 else 0)
  }

  /** What `createGallery` has built after visiting the first `i` projects. */
  ghost predicate PlacedUpTo(projects: seq<Project>, i: nat, frames: seq<Frame>) {
    && i <= |projects|
    // one frame per visited project with images
    && |frames| == CountPlaced(projects[..i])
    // each frame is built for a visited project with images, at that project's position
    && (forall k :: 0 <= k < |frames| ==>
          frames[k].index < i && HasImages(projects[frames[k].index])
          && frames[k] == FrameFor(projects, frames[k].index))
    // in list order
    && (forall j, k :: 0 <= j < k < |frames| ==> frames[j].index < frames[k].index)
    // and no visited project with images is missed
    && (forall i' :: 0 <= i' < i && HasImages(projects[i']) ==>
          exists k :: 0 <= k < |frames| && frames[k].index == i')
  }

  /** What `createGallery` builds from the loaded projects. */
  ghost predicate IsLayout(projects: seq<Project>, frames: seq<Frame>) {
    PlacedUpTo(projects, |projects|, frames)
  }

  /** The `forEach` body: a frame for the project at `i` when it has images. */
  function Visit(projects: seq<Project>, i: nat, frames: seq<Frame>): seq<Frame>
    requires i < |projects|
  {
    if HasImages(projects[i]) then frames + [FrameFor(projects, i)] else frames
  }

  lemma VisitExtends(projects: seq<Project>, i: nat, frames: seq<Frame>)
    requires i < |projects| && PlacedUpTo(projects, i, frames)
    ensures PlacedUpTo(projects, i + 1, Visit(projects, i, frames))
  {
    assert projects[..i + 1][..i] == projects[..i];
    var frames' := Visit(projects, i, frames);
    if HasImages(projects[i]) {
      assert frames'[|frames|].index == i;
      forall i' | 0 <= i' < i + 1 && HasImages(projects[i'])
        ensures exists k :: 0 <= k < |frames'| && frames'[k].index == i'
      {
        if i' < i {
          var k :| 0 <= k < |frames| && frames[k].index == i';
          assert frames'[k] == frames[k];
        }
      }
    }
  }

  method CreateGallery(projects: seq<Project>) returns (frames: seq<Frame>)
    ensures IsLayout(projects, frames)
  {
    frames := [];
    var i := 0;
    while i < |projects|
      invariant PlacedUpTo(projects, i, frames)
    {
      VisitExtends(projects, i, frames);
      frames := Visit(projects, i, frames);
      i := i + 1;
    }
  }

  /** Every frame's slot is a fraction in [0, 1) of a full turn. */
  lemma SlotsWithinTurn(projects: seq<Project>, frames: seq<Frame>)
    requires IsLayout(projects, frames)
    ensures forall k :: 0 <= k < |frames| ==> 0 <= frames[k].index < frames[k].total
  {
  }

  /** Distinct frames never share an angle. */
  lemma SlotsDistinct(projects: seq<Project>, frames: seq<Frame>)
    requires IsLayout(projects, frames)
    ensures forall j, k :: 0 <= j < |frames| && 0 <= k < |frames| && j != k ==> !SameSlot(frames[j], frames[k])
  {
    forall j, k | 0 <= j < |frames| && 0 <= k < |frames| && j != k
      ensures !SameSlot(frames[j], frames[k])
    {
      var n := |projects|;
      assert frames[j].total == n && frames[k].total == n;
      assert frames[j].index != frames[k].index by {
        if j < k {
          assert frames[j].index < frames[k].index;
        } else {
          assert frames[k].index < frames[j].index;
        }
      }
      DistinctNumerators(frames[j].index, frames[k].index, n);
    }
  }

  lemma DistinctNumerators(a: nat, b: nat, n: nat)
    requires a != b && n > 0
    ensures a * n != b * n
  {
    if a < b {
      assert a * n < b * n;
    } else {
      assert b * n < a * n;
    }
  }

  lemma {:induction false} CountAllPlaced(projects: seq<Project>)
    requires forall i :: 0 <= i < |projects| ==> HasImages(projects[i])
    ensures CountPlaced(projects) == |projects|
  {
    if |projects| > 0 {
      CountAllPlaced(projects[..|projects| - 1]);
    }
  }

  /** A strictly increasing list of `n` positions below `n` is 0, 1, ..., n - 1. */
  lemma {:induction false} IncreasingFillsRange(xs: seq<nat>, n: nat)
    requires |xs| == n
    requires forall k :: 0 <= k < n ==> xs[k] < n
    requires forall j, k :: 0 <= j < k < n ==> xs[j] < xs[k]
    ensures forall k :: 0 <= k < n ==> xs[k] == k
  {
    forall k | 0 <= k < n
      ensures xs[k] == k
    {
      AtLeastPosition(xs, k);
      AtMostPosition(xs, n, k);
    }
  }

  lemma {:induction false} AtLeastPosition(xs: seq<nat>, k: nat)
    requires k < |xs|
    requires forall i, j :: 0 <= i < j < |xs| ==> xs[i] < xs[j]
    ensures xs[k] >= k
  {
    if k > 0 {
      AtLeastPosition(xs, k - 1);
    }
  }

  lemma {:induction false} AtMostPosition(xs: seq<nat>, n: nat, k: nat)
    requires k < |xs| == n
    requires forall i :: 0 <= i < n ==> xs[i] < n
    requires forall i, j :: 0 <= i < j < |xs| ==> xs[i] < xs[j]
    ensures xs[k] <= k
    decreases n - k
  {
    if k < n - 1 {
      AtMostPosition(xs, n, k + 1);
    }
  }

  /**
   * When every project has images, frame `k` is project `k` at `k / N` of a
   * turn: `N` frames evenly spaced (five projects give 72-degree steps).
   */
  lemma FullGalleryEvenlySpaced(projects: seq<Project>, frames: seq<Frame>)
    requires IsLayout(projects, frames)
    requires forall i :: 0 <= i < |projects| ==> HasImages(projects[i])
    ensures |frames| == |projects|
    ensures forall k :: 0 <= k < |frames| ==> frames[k].index == k && frames[k].total == |projects|
  {
    CountAllPlaced(projects);
    assert projects[..|projects|] == projects;
    var xs := seq(|frames|, k requires 0 <= k < |frames| => frames[k].index);
    assert forall k :: 0 <= k < |xs| ==> xs[k] == frames[k].index;
    IncreasingFillsRange(xs, |projects|);
  }

  /**
   * Skipped projects still count toward the total: with the middle one of
   * three projects lacking images, the other two sit at 0/3 and 2/3 of a turn.
   */
  lemma SkippedProjectsLeaveGaps(projects: seq<Project>, frames: seq<Frame>)
    requires IsLayout(projects, frames)
    requires |projects| == 3
    requires HasImages(projects[0]) && !HasImages(projects[1]) && HasImages(projects[2])
    ensures |frames| == 2
    ensures frames[0].index == 0 && frames[1].index == 2
    ensures frames[0].total == 3 && frames[1].total == 3
  {
    assert projects[..3] == projects;
    assert projects[..3][..2] == projects[..2];
    assert projects[..2][..1] == projects[..1];
    assert projects[..1][..0] == projects[..0];
    assert CountPlaced(projects[..1]) == 1;
    assert CountPlaced(projects[..2]) == 1;
    assert |frames| == 2;
    assert frames[0].index < frames[1].index;
    assert forall k :: 0 <= k < 2 ==> frames[k].index != 1;
  }
}
