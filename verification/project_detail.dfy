/**
 * The project detail view of circular-gallery.js: which project is open, which
 * of its images is shown, and whether the previous/next buttons are disabled.
 */
module ProjectDetail {
  import opened Wrappers
  import opened Projects
  import opened TextSearch
  import GalleryLayout

  /**
   * `currentProject`, `currentImageIndex` and the `disabled` flags of the two
   * navigation buttons.
   */
  datatype DetailView = DetailView(
    current: Option<Project>,
    imageIndex: int,
    prevDisabled: bool,
    nextDisabled: bool
  )

  /**
   * The state the gallery is constructed with: no project and index 0. The
   * constructor does not touch the buttons: their initial `disabled` state
   * comes from page markup outside this model, and is taken here as enabled.
   * No property below depends on that choice.
   */
  const Start: DetailView := DetailView(None, 0, false, false)

  // ---------------------------------------------------------------------------
  // The wrap rule

  /**
   * Moving `index` by `direction` among `total` images: below 0 jumps to the
   * last image, at or past the end jumps to the first. It is not a modulo.
   */
  function StepIndex(total: int, index: int, direction: int): (r: int)
    ensures total >= 1 ==> 0 <= r < total
    ensures 0 <= index + direction < total ==> r == index + direction
  {
    var moved := index + direction;
    if moved < 0 then total - 1
    else if moved >= total then 0
    else moved
  }

  /** Next then previous, or previous then next, come back to the same image. */
  lemma StepIndexInverse(total: int, index: int)
    requires 0 <= index < total
    ensures StepIndex(total, StepIndex(total, index, 1), -1) == index
    ensures StepIndex(total, StepIndex(total, index, -1), 1) == index
  {
  }

  /** For single steps from a valid index the rule agrees with arithmetic modulo `total`. */
  lemma StepIndexUnitIsModulo(total: int, index: int)
    requires 0 <= index < total
    ensures StepIndex(total, index, 1) == (index + 1) % total
    ensures StepIndex(total, index, -1) == (index - 1) % total
  {
    if index + 1 == total {
      assert (index + 1) % total == 0;
    }
    if index == 0 {
      assert (index - 1) % total == total - 1 by {
        assert -1 == (-1) * total + (total - 1);
      }
    }
  }

  /** Larger steps do not wrap modulo `total`: four forward from 0 among 3 gives 0, not 1. */
  lemma StepIndexIsNotModulo()
    ensures StepIndex(3, 0, 4) == 0
    ensures (0 + 4) % 3 == 1
  {
  }

  /** `k` presses of "next". */
  function Advance(total: int, index: int, k: nat): int {
    if k == 0 then index else StepIndex(total, Advance(total, index, k - 1), 1)
  }

  lemma {:induction false} AdvanceWithin(total: int, index: int, k: nat)
    requires 0 <= index && index + k < total
    ensures Advance(total, index, k) == index + k
  {
    if k > 0 {
      AdvanceWithin(total, index, k - 1);
    }
  }

  lemma {:induction false} AdvanceCompose(total: int, index: int, a: nat, b: nat)
    ensures Advance(total, index, a + b) == Advance(total, Advance(total, index, a), b)
  {
    if b > 0 {
      AdvanceCompose(total, index, a, b - 1);
    }
  }

  /** Pressing "next" as many times as there are images returns to the starting image. */
  lemma FullCycle(total: int, index: int)
    requires 0 <= index < total
    ensures Advance(total, index, total) == index
  {
    AdvanceWithin(total, index, total - index - 1);
    assert Advance(total, index, total - index) == 0;
    AdvanceCompose(total, index, total - index, index);
    AdvanceWithin(total, 0, index);
  }

  // ---------------------------------------------------------------------------
  // Transitions

  /** There is an open project and its `images` field is present. */
  predicate Navigable(v: DetailView) {
    v.current.Some? && v.current.value.images.Some?
  }

  function ImageCount(v: DetailView): nat
    requires Navigable(v)
  {
    |v.current.value.images.value|
  }

  /** `updateNavigationButtons` */
  function UpdateNavigationButtons(v: DetailView): (r: DetailView)
    ensures !Navigable(v) ==> r == v
    ensures Navigable(v) ==> r.current == v.current && r.imageIndex == v.imageIndex
    ensures Navigable(v) ==> (r.prevDisabled <==> ImageCount(v) <= 1) && (r.nextDisabled <==> ImageCount(v) <= 1)
  {
    if !Navigable(v) then v
    else
      var single := |v.current.value.images.value| <= 1;
      v.(prevDisabled := single, nextDisabled := single)
  }

  /** `showProjectDetail`: open `p` at its first image. */
  function ShowProjectDetail(v: DetailView, p: Project): (r: DetailView)
    ensures r.current == Some(p) && r.imageIndex == 0
  {
    UpdateNavigationButtons(v.(current := Some(p), imageIndex := 0))
  }

  /**
   * `navigateGallery`: with an open project that has an image list, move the
   * index by the wrap rule and refresh the buttons; otherwise do nothing.
   */
  function NavigateGallery(v: DetailView, direction: int): (r: DetailView)
    ensures !Navigable(v) ==> r == v
    ensures r.current == v.current
    ensures Navigable(v) ==> r.imageIndex == StepIndex(ImageCount(v), v.imageIndex, direction)
    ensures Navigable(v) ==> (r.prevDisabled <==> ImageCount(v) <= 1) && (r.nextDisabled <==> ImageCount(v) <= 1)
  {
    if !Navigable(v) then v
    else
      var total := |v.current.value.images.value|;
      UpdateNavigationButtons(v.(imageIndex := StepIndex(total, v.imageIndex, direction)))
  }

  /** The `src` of the detail image: the open project's image at the current index, if defined. */
  function ShownImage(v: DetailView): Option<string> {
    if v.current.Some? then ProjectImage(v.current.value, v.imageIndex) else None
  }

  /**
   * A click on the canvas. `hits` are the frames' projects the ray meets,
   * nearest first; the nearest one is opened, and a miss changes nothing.
   */
  function OnCanvasClick(v: DetailView, hits: seq<Project>): (r: DetailView)
    ensures |hits| == 0 ==> r == v
    ensures |hits| > 0 ==> r.current == Some(hits[0]) && r.imageIndex == 0
  {
    if |hits| > 0 then ShowProjectDetail(v, hits[0]) else v
  }

  // ---------------------------------------------------------------------------
  // The invariant of the detail view

  /**
   * With an open project that has images: the index is one of them, and both
   * buttons are disabled exactly when there is at most one image.
   */
  ghost predicate Consistent(v: DetailView) {
    Navigable(v) ==>
      && (ImageCount(v) >= 1 ==> 0 <= v.imageIndex < ImageCount(v))
      && (v.prevDisabled <==> ImageCount(v) <= 1)
      && (v.nextDisabled <==> ImageCount(v) <= 1)
  }

  lemma StartConsistent()
    ensures Consistent(Start)
    ensures ShownImage(Start) == None
  {
  }

  /** Opening a project gives a consistent view showing its first image. */
  lemma ShowIsConsistent(v: DetailView, p: Project)
    ensures Consistent(ShowProjectDetail(v, p))
    ensures HasImages(p) ==> ShownImage(ShowProjectDetail(v, p)) == Some(p.images.value[0])
  {
  }

  /** Navigation keeps the view consistent, whatever the direction. */
  lemma NavigateIsConsistent(v: DetailView, direction: int)
    requires Consistent(v)
    ensures Consistent(NavigateGallery(v, direction))
    ensures Navigable(v) && ImageCount(v) >= 1 ==>
      ShownImage(NavigateGallery(v, direction)).Some?
  {
  }

  /** "Next" then "previous" restore the whole view. */
  lemma NavigateInverse(v: DetailView)
    requires Consistent(v) && Navigable(v) && ImageCount(v) >= 1
    ensures NavigateGallery(NavigateGallery(v, 1), -1) == v
    ensures NavigateGallery(NavigateGallery(v, -1), 1) == v
  {
    StepIndexInverse(ImageCount(v), v.imageIndex);
  }

  /**
   * Pressing "next" on the last image shows the first, pressing "previous" on
   * the first shows the last, and a press that stays inside the list moves by
   * exactly one image.
   */
  lemma NavigateWraps(v: DetailView)
    requires Consistent(v) && Navigable(v) && ImageCount(v) >= 1
    ensures var images := v.current.value.images.value;
      && (v.imageIndex == |images| - 1 ==> ShownImage(NavigateGallery(v, 1)) == Some(images[0]))
      && (v.imageIndex == 0 ==> ShownImage(NavigateGallery(v, -1)) == Some(images[|images| - 1]))
      && (v.imageIndex + 1 < |images| ==> ShownImage(NavigateGallery(v, 1)) == Some(images[v.imageIndex + 1]))
      && (0 < v.imageIndex ==> ShownImage(NavigateGallery(v, -1)) == Some(images[v.imageIndex - 1]))
  {
  }

  function NavigateAll(v: DetailView, directions: seq<int>): DetailView
    decreases |directions|
  {
    if |directions| == 0 then v
    else NavigateAll(NavigateGallery(v, directions[0]), directions[1..])
  }

  /**
   * After opening a project with images, any series of button presses keeps
   * the same project open and shows one of its images.
   */
  lemma {:induction false} SessionStaysInRange(v: DetailView, directions: seq<int>)
    requires Consistent(v)
    ensures Consistent(NavigateAll(v, directions))
    ensures NavigateAll(v, directions).current == v.current
    ensures Navigable(v) && ImageCount(v) >= 1 ==> ShownImage(NavigateAll(v, directions)).Some?
    decreases |directions|
  {
    if |directions| > 0 {
      NavigateIsConsistent(v, directions[0]);
      SessionStaysInRange(NavigateGallery(v, directions[0]), directions[1..]);
    }
  }

  /** With no open project, or one without an `images` field, navigation does nothing. */
  lemma NavigateWithoutImages(v: DetailView, direction: int)
    requires v.current.None? || v.current.value.images.None?
    ensures NavigateGallery(v, direction) == v
    ensures UpdateNavigationButtons(v) == v
  {
  }

  /** With an empty (but present) image list the index leaves the range: it becomes -1. */
  lemma EmptyImagesLeaveRange(v: DetailView, p: Project)
    requires p.images == Some([])
    ensures NavigateGallery(ShowProjectDetail(v, p), -1).imageIndex == -1
    ensures ShownImage(NavigateGallery(ShowProjectDetail(v, p), -1)) == None
  {
  }

  /** Clicking a placed frame opens its project at its first image; a miss changes nothing. */
  lemma ClickOpensFrame(v: DetailView, projects: seq<Project>, frames: seq<GalleryLayout.Frame>, k: int)
    requires GalleryLayout.IsLayout(projects, frames)
    requires 0 <= k < |frames|
    ensures var r := OnCanvasClick(v, [frames[k].project]);
      Consistent(r) && r.current == Some(projects[frames[k].index])
      && ShownImage(r) == Some(projects[frames[k].index].images.value[0])
    ensures OnCanvasClick(v, []) == v
  {
    ShowIsConsistent(v, frames[k].project);
  }

  // ---------------------------------------------------------------------------
  // Group or individual project

  datatype Participation = Group | Individual

  const TeamWord: string := "team"

  /** A group project when the dimensions text is present and, lower-cased, contains "team". */
  function Kind(p: Project): (k: Participation)
    ensures p.dimensions.None? ==> k == Individual
  {
    if p.dimensions.Some? && Includes(Lower(p.dimensions.value), TeamWord) then Group else Individual
  }

  /** The line shown in the project's basic information. */
  function KindLabel(k: Participation): (text: string)
    ensures text == "Group Project" <==> k == Group
    ensures text == "Individual Project" <==> k == Individual
  {
    match k
    case Group => "Group Project"
    case Individual => "Individual Project"
  }

  /** Four consecutive characters of `d` at `i` spell "team" in any letter case. */
  predicate TeamAt(d: string, i: int) {
    && 0 <= i && i + 4 <= |d|
    && LowerChar(d[i]) == 't' && LowerChar(d[i + 1]) == 'e'
    && LowerChar(d[i + 2]) == 'a' && LowerChar(d[i + 3]) == 'm'
  }

  lemma TeamAtIsOccurrence(d: string, i: int)
    ensures TeamAt(d, i) <==> OccursAt(Lower(d), TeamWord, i)
  {
    if 0 <= i && i + 4 <= |d| {
      var w := Lower(d)[i..i + 4];
      assert w[0] == LowerChar(d[i]) && w[1] == LowerChar(d[i + 1]);
      assert w[2] == LowerChar(d[i + 2]) && w[3] == LowerChar(d[i + 3]);
    }
  }

  /** Group exactly when the dimensions text has "team", in any letter case, somewhere. */
  lemma KindIsTeamTest(p: Project)
    ensures Kind(p) == Group <==>
      p.dimensions.Some? && exists i :: 0 <= i < |p.dimensions.value| && TeamAt(p.dimensions.value, i)
  {
    if p.dimensions.Some? {
      var d := p.dimensions.value;
      if Kind(p) == Group {
        var i :| 0 <= i <= |Lower(d)| - |TeamWord| && OccursAt(Lower(d), TeamWord, i);
        TeamAtIsOccurrence(d, i);
      }
      if exists i :: 0 <= i < |d| && TeamAt(d, i) {
        var i :| 0 <= i < |d| && TeamAt(d, i);
        TeamAtIsOccurrence(d, i);
      }
    }
  }

  /** The label does not depend on letter case. */
  lemma KindIgnoresCase(p: Project, q: Project)
    requires p.dimensions.Some? && q.dimensions.Some?
    requires SameIgnoringCase(p.dimensions.value, q.dimensions.value)
    ensures Kind(p) == Kind(q)
  {
    LowerIgnoresCase(p.dimensions.value, q.dimensions.value);
  }

  /** A missing dimensions field gives an individual project. */
  lemma NoDimensionsIsIndividual(p: Project)
    requires p.dimensions.None?
    ensures KindLabel(Kind(p)) == "Individual Project"
  {
  }

  /** Upper-case dimensions are lower-cased before the search: "TEAM PROJECT" is a group project. */
  lemma UpperCaseTeamIsGroup(p: Project)
    requires p.dimensions == Some("TEAM PROJECT")
    ensures Kind(p) == Group
    ensures KindLabel(Kind(p)) == "Group Project"
  {
    assert OccursAt(Lower("TEAM PROJECT"), TeamWord, 0);
  }

  /** "TEAM" anywhere counts, also inside a longer word such as "Steam". */
  lemma KindMatchesInsideWords(p: Project, q: Project)
    requires p.dimensions == Some("Team of three")
    requires q.dimensions == Some("Steam")
    ensures Kind(p) == Group && Kind(q) == Group
  {
    assert OccursAt(Lower("Team of three"), TeamWord, 0);
    assert OccursAt(Lower("Steam"), TeamWord, 1);
  }
}
