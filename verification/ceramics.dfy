/**
 * The ceramics grid of main.js (`renderCeramicGrid` and `changeCeramicImage`):
 * one card per ceramic, each showing one of its images, with previous/next
 * buttons when it has more than one.
 */
module Ceramics {
  import opened Wrappers
  import opened Projects
  import ProjectDetail

  /** An entry of the ceramics index: a single `image`, or an `images` list. */
  datatype Ceramic = Ceramic(title: string, image: string, images: Option<seq<string>>)

  /** The ceramic's `images` list when present (even when empty), else its single `image`. */
  function ImageList(c: Ceramic): (r: seq<string>)
    ensures c.images.Some? ==> r == c.images.value
    ensures c.images.None? ==> r == [c.image]
  {
    c.images.GetOr([c.image])
  }

  /**
   * A rendered card: its `data-ceramic-index`, the image's `src`, whether the
   * buttons were rendered, and the image's `data-image-index` (absent at first).
   */
  datatype Card = Card(index: nat, src: Option<string>, hasButtons: bool, storedIndex: Option<int>)

  /** One card of `renderCeramicGrid`. */
  function RenderCard(c: Ceramic, index: nat): (card: Card)
    ensures card.index == index && card.storedIndex == None
    ensures card.src == ImageAt(ImageList(c), 0)
    ensures card.hasButtons <==> |ImageList(c)| > 1
  {
    var images := ImageList(c);
    Card(index, ImageAt(images, 0), |images| > 1, None)
  }

  function RenderCeramicGrid(cs: seq<Ceramic>): (cards: seq<Card>)
    ensures |cards| == |cs|
    ensures forall i :: 0 <= i < |cs| ==> cards[i] == RenderCard(cs[i], i)
  {
    seq(|cs|, i requires 0 <= i < |cs| => RenderCard(cs[i], i))
  }

  /** The wrap rule of `changeCeramicImage`: two tests in sequence. */
  function StepIndex(total: int, index: int, direction: int): (r: int)
    ensures total >= 1 ==> 0 <= r < total
    ensures 0 <= index + direction < total ==> r == index + direction
  {
    var moved := index + direction;
    var low := if moved < 0 then total - 1 else moved;
    if low >= total then 0 else low
  }

  /** The ceramics carousel wraps exactly like the project detail view. */
  lemma StepIndexMatchesGallery(total: int, index: int, direction: int)
    ensures StepIndex(total, index, direction) == ProjectDetail.StepIndex(total, index, direction)
  {
  }

  /** The image's stored index, read as a number; a card without one counts as index 0. */
  function CurrentIndex(card: Card): (i: int)
    ensures card.storedIndex.None? ==> i == 0
    ensures card.storedIndex.Some? ==> i == card.storedIndex.value
  {
    card.storedIndex.GetOr(0)
  }

  /** A press on one card: step from its current index, show that image and store the index. */
  function ChangeImage(c: Ceramic, card: Card, direction: int): (r: Card)
    ensures r.index == card.index && r.hasButtons == card.hasButtons
    ensures r.storedIndex == Some(StepIndex(|ImageList(c)|, CurrentIndex(card), direction))
    ensures r.src == ImageAt(ImageList(c), r.storedIndex.value)
  {
    var images := ImageList(c);
    var i := StepIndex(|images|, CurrentIndex(card), direction);
    card.(src := ImageAt(images, i), storedIndex := Some(i))
  }

  /** `changeCeramicImage` over the whole grid: card `k` takes the press, the others are untouched. */
  function ChangeCeramicImage(cs: seq<Ceramic>, cards: seq<Card>, k: int, direction: int): (r: seq<Card>)
    requires 0 <= k < |cs| && |cards| == |cs|
    ensures |r| == |cards|
    ensures r[k] == ChangeImage(cs[k], cards[k], direction)
    ensures forall j :: 0 <= j < |cards| && j != k ==> r[j] == cards[j]
  {
    cards[k := ChangeImage(cs[k], cards[k], direction)]
  }

  /**
   * A card shows the image at its current index, that index is one of the
   * ceramic's images (when it has any), and buttons are there exactly when it
   * has several.
   */
  ghost predicate CardShowsIndex(c: Ceramic, card: Card) {
    var images := ImageList(c);
    && card.src == ImageAt(images, CurrentIndex(card))
    && (|images| >= 1 ==> 0 <= CurrentIndex(card) < |images|)
    && (card.hasButtons <==> |images| > 1)
  }

  ghost predicate GridShowsIndices(cs: seq<Ceramic>, cards: seq<Card>) {
    |cards| == |cs| && forall i :: 0 <= i < |cs| ==> cards[i].index == i && CardShowsIndex(cs[i], cards[i])
  }

  /** A freshly rendered grid shows each ceramic's first image. */
  lemma RenderedGridShowsIndices(cs: seq<Ceramic>)
    ensures GridShowsIndices(cs, RenderCeramicGrid(cs))
    ensures forall i :: 0 <= i < |cs| ==> CurrentIndex(RenderCeramicGrid(cs)[i]) == 0
  {
  }

  /** A ceramic given as a single `image` has one image and no buttons. */
  lemma SingleImageHasNoButtons(c: Ceramic, index: nat)
    requires c.images.None?
    ensures ImageList(c) == [c.image]
    ensures !RenderCard(c, index).hasButtons
    ensures RenderCard(c, index).src == Some(c.image)
  {
  }

  /** Changing the image keeps the grid's cards showing in-range images; other cards are untouched. */
  lemma ChangeKeepsGrid(cs: seq<Ceramic>, cards: seq<Card>, k: int, direction: int)
    requires 0 <= k < |cs| && GridShowsIndices(cs, cards)
    ensures GridShowsIndices(cs, ChangeCeramicImage(cs, cards, k, direction))
  {
    var r := ChangeCeramicImage(cs, cards, k, direction);
    assert r[k] == ChangeImage(cs[k], cards[k], direction);
  }

  /** From a fresh card, "next" shows the second image and "previous" the last one. */
  lemma FirstPressFromFreshCard(c: Ceramic, index: nat)
    requires |ImageList(c)| > 1
    ensures ChangeImage(c, RenderCard(c, index), 1).src == Some(ImageList(c)[1])
    ensures ChangeImage(c, RenderCard(c, index), -1).src == Some(ImageList(c)[|ImageList(c)| - 1])
  {
  }

  /**
   * On a card showing one of several images, "next" on the last image shows the
   * first, "previous" on the first shows the last, and a press inside the list
   * moves by exactly one image.
   */
  lemma CardWraps(c: Ceramic, card: Card)
    requires CardShowsIndex(c, card) && |ImageList(c)| >= 1
    ensures var images := ImageList(c); var i := CurrentIndex(card);
      && (i == |images| - 1 ==> ChangeImage(c, card, 1).src == Some(images[0]))
      && (i == 0 ==> ChangeImage(c, card, -1).src == Some(images[|images| - 1]))
      && (i + 1 < |images| ==> ChangeImage(c, card, 1).src == Some(images[i + 1]))
      && (0 < i ==> ChangeImage(c, card, -1).src == Some(images[i - 1]))
  {
  }

  function ChangeAll(cs: seq<Ceramic>, cards: seq<Card>, presses: seq<(int, int)>): seq<Card>
    requires |cards| == |cs|
    decreases |presses|
  {
    if |presses| == 0 then cards
    else
      var (k, direction) := presses[0];
      if 0 <= k < |cs| then ChangeAll(cs, ChangeCeramicImage(cs, cards, k, direction), presses[1..])
      else ChangeAll(cs, cards, presses[1..])
  }

  /** Any series of presses on a rendered grid keeps every card showing one of its images. */
  lemma {:induction false} PressesKeepGrid(cs: seq<Ceramic>, cards: seq<Card>, presses: seq<(int, int)>)
    requires GridShowsIndices(cs, cards)
    ensures GridShowsIndices(cs, ChangeAll(cs, cards, presses))
    decreases |presses|
  {
    if |presses| > 0 {
      var (k, direction) := presses[0];
      if 0 <= k < |cs| {
        ChangeKeepsGrid(cs, cards, k, direction);
        PressesKeepGrid(cs, ChangeCeramicImage(cs, cards, k, direction), presses[1..]);
      } else {
        PressesKeepGrid(cs, cards, presses[1..]);
      }
    }
  }
}
