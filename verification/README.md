# Portfolio site core: gallery navigation, frame placement and digit markup

This project models the logic at the centre of a personal portfolio site. It
has three parts, each drawn from one of the site's scripts.

- **The circular gallery's detail view** (`circular-gallery.js`):
  - Clicking a frame opens its project at its first image.
  - The previous/next buttons step through the project's images, wrapping at
    both ends. The wrap jumps to the opposite end; it is not a modulo.
  - Both buttons are disabled exactly when the project has at most one image.
  - The description reads "Group Project" when the `dimensions` text contains
    "team" in any letter case, and "Individual Project" otherwise.
- **Frame placement** (`createGallery`):
  - Only projects with a non-empty `images` list get a frame.
  - A placed project keeps its position `index` in the loaded list, and its
    angle is the fraction `index / total` of a full turn.
  - `total` counts every loaded project, including the skipped ones, so
    skipped projects leave gaps on the circle.
  - The frame's image path drops one leading `soobeen-portfolio/`.
- **Text and ceramics helpers** (`main.js`):
  - `wrapNumbers` wraps every maximal run of ASCII digits in
    `<span class="number-span">…</span>`.
  - A statement title gets the `number-fix` class exactly when it contains a
    digit.
  - A statement's detail view wraps the digits of its title and of each
    paragraph.
  - Each ceramic shows its `images` list, or its single `image` when the list is
    missing, with buttons only when that list has more than one entry.
  - `changeCeramicImage` steps through the list with its own wrap rule, which is
    written as two `if`s in sequence. The model proves that rule equal to the
    detail view's.

Modules:
- `Wrappers` (`wrappers.dfy`): `Option`.
- `NumberMarkup` (`number_markup.dfy`): `WrapNumbers`, a reference segmentation
  into digit runs, the inverse `Unwrap`, and title headings.
- `Statements` (`statements.dfy`): the statement list and the detail view.
- `TextSearch` (`text_search.dfy`): ASCII lower-casing and substring search.
- `Projects` (`projects.dfy`): the project record.
- `GalleryLayout` (`gallery_layout.dfy`): `CreateGallery` and the path prefix.
- `ProjectDetail` (`project_detail.dfy`): the detail-view state machine and the
  group/individual label.
- `Ceramics` (`ceramics.dfy`): the ceramics grid.

## Model

| member | source | states |
|---|---|---|
| Projects.HasImages | circular-gallery.js:113 | A project gets a frame exactly when its first image is defined: the list is present and not empty. |
| GalleryLayout.CreateGallery | circular-gallery.js:108-124 | The frames are, in list order, exactly the projects with a non-empty `images` list. Each frame keeps its project's position and the full project count as the denominator of its angle, and its image path is the first image without the `soobeen-portfolio/` prefix. |
| GalleryLayout.SlotsWithinTurn | circular-gallery.js:110-115 | Every frame's angle fraction `index / total` lies in [0, 1). |
| GalleryLayout.SlotsDistinct | circular-gallery.js:112-117 | No two frames share an angle. |
| GalleryLayout.FullGalleryEvenlySpaced | circular-gallery.js:110-117 | When every project has images, frame k is project k at k/N of a turn: N evenly spaced frames. |
| GalleryLayout.SkippedProjectsLeaveGaps | circular-gallery.js:110-113 | With the middle one of three projects lacking images, the other two sit at 0/3 and 2/3. Skipped projects still count toward the total. |
| GalleryLayout.StripPrefix | circular-gallery.js:131-134 | A path starting with `soobeen-portfolio/` loses exactly that prefix; any other path is kept as is. |
| GalleryLayout.StripPrefixInverse | circular-gallery.js:132-133 | Stripping undoes prepending the prefix. |
| GalleryLayout.StripPrefixOnce | circular-gallery.js:132-133 | Only the first copy of a doubled prefix is removed. |
| TextSearch.Lower | circular-gallery.js:336 | Lower-casing keeps the length and maps each letter A-Z to its own lower-case letter (the code point moved by the distance from 'A' to 'a'), leaving every other character as it is. |
| TextSearch.Includes | circular-gallery.js:336 | A text can only contain a needle that is no longer than itself, and the empty needle occurs in every text. |
| TextSearch.LowerIgnoresCase | circular-gallery.js:336 | Texts differing only in letter case lower-case to the same text. |
| TextSearch.ScanIsIncludes | circular-gallery.js:336 | A left-to-right comparison at each position finds the needle exactly when some position holds an occurrence (`includes`). |
| ProjectDetail.StartConsistent | circular-gallery.js:13-14 | The initial view (no project, index 0) satisfies the view invariant and shows no image. |
| ProjectDetail.StepIndex | circular-gallery.js:412-420 | With at least one image the new index is in range, and a move that stays in range is taken exactly. |
| ProjectDetail.StepIndexInverse | circular-gallery.js:413-420 | Next then previous, and previous then next, return to the same index. |
| ProjectDetail.StepIndexUnitIsModulo | circular-gallery.js:416-420 | For steps of ±1 from a valid index the wrap agrees with arithmetic modulo the image count. |
| ProjectDetail.StepIndexIsNotModulo | circular-gallery.js:416-420 | For larger steps it does not: four forward from 0 among 3 images gives 0, while (0 + 4) mod 3 is 1. |
| ProjectDetail.FullCycle | circular-gallery.js:413-420 | Pressing next as many times as there are images returns to the starting image. |
| ProjectDetail.UpdateNavigationButtons | circular-gallery.js:432-447 | Both buttons are disabled exactly when the open project has at most one image. Without an open project or `images` field nothing changes. |
| ProjectDetail.ShowProjectDetail | circular-gallery.js:307-308 | Opening a project makes it current and resets the index to 0. |
| ProjectDetail.ShowIsConsistent | circular-gallery.js:303-390 | Opening a project gives a view satisfying the invariant. For a project with images it shows the first image. |
| ProjectDetail.NavigateGallery | circular-gallery.js:409-430 | With an open project that has an `images` field, the index moves by the wrap rule and both buttons are disabled exactly when there is at most one image. Navigation never changes the open project, and without a project or an `images` field it does nothing. |
| ProjectDetail.NavigateWraps | circular-gallery.js:412-425 | On the last image "next" shows the first; on the first image "previous" shows the last; any other press shows the neighbouring image. |
| ProjectDetail.NavigateIsConsistent | circular-gallery.js:409-429 | Navigation in either direction preserves the invariant: the index is one of the images and the buttons' disabled state matches the image count. |
| ProjectDetail.NavigateInverse | circular-gallery.js:409-429 | Next then previous, or previous then next, restore the whole view. |
| ProjectDetail.SessionStaysInRange | circular-gallery.js:409-429 | Any series of presses keeps the same project open and always shows one of its images. |
| ProjectDetail.NavigateWithoutImages | circular-gallery.js:409-410 | With no open project, or one without `images`, navigation and the button update leave the view unchanged. |
| ProjectDetail.EmptyImagesLeaveRange | circular-gallery.js:412-420 | With a present but empty `images` list, "previous" sets the index to -1 and the image `src` becomes undefined. |
| ProjectDetail.OnCanvasClick | circular-gallery.js:223-236 | A click opens the nearest hit project at index 0; a miss changes nothing. |
| ProjectDetail.ClickOpensFrame | circular-gallery.js:226-233 | Clicking a placed frame opens that frame's project with a consistent view showing its first image. |
| ProjectDetail.Kind | circular-gallery.js:336-340 | A project without `dimensions` is individual; `KindIsTeamTest` gives the full condition. |
| ProjectDetail.KindLabel | circular-gallery.js:336-340 | "Group Project" is shown exactly for a group project and "Individual Project" exactly for an individual one. |
| ProjectDetail.KindIsTeamTest | circular-gallery.js:336-340 | A project is a group project exactly when `dimensions` is present and contains "team" in some letter case at some position. |
| ProjectDetail.UpperCaseTeamIsGroup | circular-gallery.js:336-337 | Dimensions "TEAM PROJECT" are lower-cased to "team project", so the project is labelled "Group Project". |
| ProjectDetail.KindIgnoresCase | circular-gallery.js:336 | The label does not depend on the letter case of `dimensions`. |
| ProjectDetail.NoDimensionsIsIndividual | circular-gallery.js:336-339 | A project without `dimensions` is labelled "Individual Project". |
| ProjectDetail.KindMatchesInsideWords | circular-gallery.js:336 | "Team of three" and also "Steam" both count as group projects. |
| NumberMarkup.HasNumber | main.js:205 | The test, tried at each position from the left, succeeds exactly when some character is an ASCII digit. |
| NumberMarkup.WrapNumbers | main.js:241-243 | The output is at least as long as the input. What it computes is pinned by `WrapNumbersRendersRuns` (each maximal digit run wrapped in one span) and by its inverse `UnwrapWrapNumbers`. |
| NumberMarkup.DigitRun | main.js:242 | The greedy `\d+` match: the prefix it covers is all digits, and the next character, if any, is not one. |
| NumberMarkup.WrapNumbersRendersRuns | main.js:241-243 | For a text split into maximal digit runs and other characters, `wrapNumbers` wraps each run in one span and copies everything else. |
| NumberMarkup.Segment | main.js:242 | Every text splits into maximal digit runs and single other characters that concatenate back to it. |
| NumberMarkup.SegmentationUnique | main.js:242 | That split is unique. |
| NumberMarkup.WrapNumbersIdentity | main.js:241-243 | `wrapNumbers` leaves a text unchanged exactly when it contains no digit. |
| NumberMarkup.WrapNumbersGrows | main.js:241-243 | A text with a digit gets strictly longer. |
| NumberMarkup.UnwrapWrapNumbers | main.js:241-243 | Deleting the span markers from the output gives back any input that holds no markers itself. |
| NumberMarkup.UnwrapNeedsMarkerFree | main.js:242 | The marker-free requirement is needed: a literal `</span>` passes through unchanged and is then deleted. |
| NumberMarkup.TitleHeading | main.js:205-213 | The heading class is `number-fix` exactly when the title has a digit, and empty otherwise. The inner markup is the title with digits wrapped, which is the title itself when there is no digit. |
| Statements.RenderStatementList | main.js:203-218 | One item per statement, in order, carrying the statement's id and its title heading. |
| Statements.RenderStatementDetail | main.js:245-252 | The heading is the title's markup as in the list, and paragraph i is paragraph i of the file with its digits wrapped, one per paragraph in order. |
| Statements.DetailRecoversText | main.js:248-251 | Deleting the markers from the rendered detail gives back the title and every paragraph, in order. |
| Statements.DetailPlainParagraphs | main.js:249-251 | A paragraph is shown exactly as written if and only if it has no digit. |
| Statements.ListAndDetailAgree | main.js:212 | A title gets the same markup in the list and in the detail view. |
| Ceramics.ImageList | main.js:147 | A present `images` list is used, even when empty; otherwise the single `image`. |
| Ceramics.RenderCard | main.js:147-157 | A card shows the first image, carries no stored index, and has buttons exactly when there is more than one image. |
| Ceramics.RenderCeramicGrid | main.js:145-164 | One card per ceramic, in order. |
| Ceramics.RenderedGridShowsIndices | main.js:145-157 | A fresh grid satisfies the card invariant and every card is at index 0. |
| Ceramics.SingleImageHasNoButtons | main.js:147-157 | A ceramic with only `image` shows it and has no buttons. |
| Ceramics.StepIndexMatchesGallery | main.js:176-178 | The two sequential tests wrap exactly like the detail view's `if`/`else if` for every input. |
| Ceramics.CurrentIndex | main.js:174 | A card with no stored index counts as index 0. |
| Ceramics.StepIndex | main.js:176-178 | With at least one image the new index is in range, and a move that stays in range is taken exactly. |
| Ceramics.ChangeImage | main.js:169-182 | A press stores the index the wrap rule gives from the card's current index and shows the image at that index. The card's position and buttons are unchanged. |
| Ceramics.ChangeCeramicImage | main.js:169-182 | The pressed card takes the press and every other card is unchanged. |
| Ceramics.CardWraps | main.js:174-180 | On the last image "next" shows the first; on the first image "previous" shows the last; any other press shows the neighbouring image. |
| Ceramics.ChangeKeepsGrid | main.js:169-182 | A press preserves the invariant that every card shows the image at its stored in-range index. |
| Ceramics.FirstPressFromFreshCard | main.js:174-180 | From a fresh card "next" shows the second image and "previous" the last. |
| Ceramics.PressesKeepGrid | main.js:155-156 | Any series of presses on any cards keeps every card showing one of its images. |

## Left out

- `three-viewer.js` (the wave-particle visualization): per-frame floating-point animation with no exact model. Its state (the essence-mode toggle, the wave speed doubled and restored by a timer, the smoothed temperature, the particle opacities blended from their previous values) exists only to drive that animation.
- Scene construction, textures, cosine/sine coordinates, the 4.5 radius and frame aspect ratios: floating point and rendering. A frame's angle is kept as the exact fraction `index / total`.
- Asynchronous texture loading: `GalleryLayout.CreateGallery` describes the frames requested, in list order. In the page a frame's mesh joins the scene only once its texture has loaded (circular-gallery.js:138-168), so meshes join in the order their loads complete, and a frame whose image fails to load never appears.
- Ray casting: the list of projects the ray hits, nearest first, is a parameter of `ProjectDetail.OnCanvasClick`.
- The animation loop, `rotateGallery`, window resizing and camera setup: rendering only, with no effect on the modelled state.
- `fetch` of the JSON files, the cache-busting timestamp and the error logging: I/O. The loaded data are parameters.
- Bio templating, the menu panel switching, the contact form's mail draft, and `hideProjectDetail`: DOM display toggling and string templating with no logic of their own.
- The HTML surrounding the modelled values (the `div`, `h2`, `h3` and `p` wrappers, the project description fields other than the group/individual label): plain string concatenation.
- Several gallery instances: the page builds a new gallery every time the project menu is opened (main.js:319-321, 355-358). Each instance registers its own listeners on the shared previous/next buttons (circular-gallery.js:248-260), so one press runs the navigation of every instance that has a project open, and they all write the same image element and buttons. The model describes one instance.
- Missing DOM elements: every `if (element)` guard is taken as succeeding; the detail section, image element and buttons are assumed present.
- TextSearch.Lower: lower-cases only the ASCII letters, while JavaScript's `toLowerCase` also maps other scripts' letters.
- ProjectDetail.ShowProjectDetail: when the project has no `images` field at all, the script throws a TypeError when it reads the first image, after setting the state and before updating the buttons. The model returns that state without the exception.
- Ceramics.Ceramic: a ceramic with neither `images` nor `image` (whose list would hold one undefined entry) is not modelled; `image` is always a string.
- Ceramics.CurrentIndex: the stored `data-image-index` is kept as an integer. Its round trip through a DOM string and `parseInt` is not modelled.
- NumberMarkup.UnwrapWrapNumbers: the round trip holds only for texts that do not already contain the span markers, as `UnwrapNeedsMarkerFree` shows.
- Statements.DetailRecoversText: for the same reason, recovering the title and paragraphs is promised only when none of them already contains a span marker; the page itself accepts any text.
