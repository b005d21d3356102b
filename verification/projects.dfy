/** A portfolio project as loaded from its JSON file (circular-gallery.js). */
module Projects {
  import opened Wrappers

  /**
   * The fields the gallery reads. `images` and `dimensions` may be missing
   * from the JSON; a present but empty `images` array is still "present"
   * (an empty array is truthy in JavaScript).
   */
  datatype Project = Project(
    title: string,
    images: Option<seq<string>>,
    dimensions: Option<string>
  )

  /** Reading position `i` of an image list: the entry, or `undefined` outside the list. */
  function ImageAt(images: seq<string>, i: int): (r: Option<string>)
    ensures r.Some? <==> 0 <= i < |images|
    ensures r.Some? ==> r.value == images[i]
  {
    if 0 <= i < |images| then Some(images[i]) else None
  }

  /**
   * Position `i` of a project's images; a missing list reads as `undefined`
   * at every position.
   */
  function ProjectImage(p: Project, i: int): (r: Option<string>)
    ensures r.Some? <==> p.images.Some? && 0 <= i < |p.images.value|
    ensures r.Some? ==> r.value == p.images.value[i]
  {
    if p.images.Some? then ImageAt(p.images.value, i) else None
  }

  /**
   * The project gets a frame: its image list is present and not empty, which
   * is the same as its first image being defined.
   */
  predicate HasImages(p: Project)
    ensures HasImages(p) <==> ProjectImage(p, 0).Some?
  {
    p.images.Some? && |p.images.value| > 0
  }
}
