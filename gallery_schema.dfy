/**
 * The gallery document of the content store: which of the image and the video
 * field the studio hides, the bounds it validates, its initial values and its
 * list preview.
 */
module GallerySchema {
  import opened Wrappers
  import opened Text

  /** An uploaded image, by its asset reference. */
  type ImageRef = string

  datatype GalleryDoc = GalleryDoc(
    mediaType: Option<string>,
    image: Option<ImageRef>,
    video: Option<string>,
    description: Option<string>,
    category: Option<string>,
    order: Option<real>,
    isActive: Option<bool>)

  datatype Preview = Preview(title: string, subtitle: string, media: Option<ImageRef>)

  const Camera: string := "\U{1F4F7}"
  const VideoCamera: string := "\U{1F3A5}"
  const MaxDescription: nat := 60

  /** `hidden: ({ parent }) => parent?.mediaType === 'video'` on the image field. */
  predicate ImageHidden(parent: Option<GalleryDoc>) {
    parent.Some? && parent.value.mediaType == Some("video")
  }

  /** `hidden: ({ parent }) => parent?.mediaType === 'image'` on the video field. */
  predicate VideoHidden(parent: Option<GalleryDoc>) {
    parent.Some? && parent.value.mediaType == Some("image")
  }

  const MediaTypes: seq<string> := ["image", "video"]
  const Categories: seq<string> := ["Hair", "Nails", "Spa", "Makeup", "Treatments", "Styling"]
  const Schemes: seq<string> := ["http", "https"]

  /** The slashes between a URL's scheme and its host. */
  function DropSlashes(s: string): (r: string)
    ensures |r| <= |s| && r == s[|s| - |r|..]
    ensures r != [] ==> r[0] != '/' && r[0] != '\\'
  {
    if s != [] && (s[0] == '/' || s[0] == '\\') then DropSlashes(s[1..]) else s
  }

  /** What follows the scheme and its slashes starts with a host. */
  predicate HasHost(rest: string) {
    var h := DropSlashes(rest);
    h != [] && h[0] != '?' && h[0] != '#'
  }

  /**
   * `Rule.uri({ scheme: ['http', 'https'] })`: the text up to the first colon,
   * lower-cased as the URL parser does, is one of the two schemes, and a host
   * follows.
   */
  predicate HttpScheme(url: string) {
    var c := IndexOf(url, ':');
    c > 0 && ToLower(url[..c]) in Schemes && HasHost(url[c + 1..])
  }

  /** The scheme is compared without regard to case, and it must be followed by a host. */
  lemma SchemeIgnoresCase(scheme: string, rest: string)
    requires scheme != [] && ':' !in scheme
    ensures HttpScheme(scheme + ":" + rest) <==> ToLower(scheme) in Schemes && HasHost(rest)
  {
    var url := scheme + [':'] + rest;
    assert scheme + ":" + rest == url;
    IndexOfAfterPrefix(scheme, rest, ':');
    assert url[..|scheme|] == scheme;
    assert url[|scheme| + 1..] == rest;
  }

  /** A scheme with nothing after it, or only slashes, names no host. */
  lemma {:induction false} SchemeAloneHasNoHost(slashes: string)
    requires forall i :: 0 <= i < |slashes| ==> slashes[i] == '/'
    ensures !HasHost(slashes)
  {
    if slashes != [] {
      SchemeAloneHasNoHost(slashes[1..]);
    }
  }

  predicate IsInteger(x: real) {
    x.Floor as real == x
  }

  /**
   * The document passes the studio's validation: a media type is set and is
   * one of the two listed, a category, when set, is one of the six listed, the
   * description has at most 60 characters, the order is a non-negative integer
   * and a video URL uses http or https.
   */
  predicate Valid(d: GalleryDoc) {
    && Truthy(d.mediaType) && d.mediaType.value in MediaTypes
    && (d.category.Some? ==> d.category.value in Categories)
    && (d.description.Some? ==> |d.description.value| <= MaxDescription)
    && (d.order.Some? ==> d.order.value >= 0.0 && IsInteger(d.order.value))
    && (d.video.Some? ==> HttpScheme(d.video.value))
  }

  /** The document the studio creates: an active image. */
  function NewGalleryDoc(): (d: GalleryDoc)
    ensures d.mediaType == Some("image") && d.isActive == Some(true)
    ensures d.image.None? && d.video.None? && d.description.None? && d.category.None? && d.order.None?
  {
    GalleryDoc(Some("image"), None, None, None, None, None, Some(true))
  }

  /**
   * The list preview: the description (or "Untitled"), a video-camera or a
   * camera sign followed by the category (or "No category"), and the image as
   * thumbnail only for an image entry.
   */
  function Prepare(title: Option<string>, mediaType: Option<string>, image: Option<ImageRef>,
                   category: Option<string>): (p: Preview)
    ensures Truthy(title) ==> p.title == title.value
    ensures !Truthy(title) ==> p.title == "Untitled"
    ensures StartsWith(p.subtitle, if mediaType == Some("video") then VideoCamera else Camera)
    ensures |p.subtitle| >= 2 && p.subtitle[2..] == OrElse(category, "No category")
    ensures Joined(p.subtitle, if mediaType == Some("video") then VideoCamera else Camera, " ",
                   OrElse(category, "No category"))
    ensures p.media.Some? <==> mediaType == Some("image") && image.Some?
    ensures p.media.Some? ==> p.media == image
  {
    JoinedConcat(if mediaType == Some("video") then VideoCamera else Camera, " ", OrElse(category, "No category"));
    Preview(
      OrElse(title, "Untitled"),
      (if mediaType == Some("video") then VideoCamera else Camera) + " " + OrElse(category, "No category"),
      if mediaType == Some("image") then image else None)
  }

  /** The studio never hides both media fields, and hides neither while no type is chosen. */
  lemma AtMostOneMediaFieldHidden(p: Option<GalleryDoc>)
    ensures !(ImageHidden(p) && VideoHidden(p))
    ensures p.Some? && p.value.mediaType.None? ==> !ImageHidden(p) && !VideoHidden(p)
  {
  }

  /** A valid entry has one of the two media types, so the studio hides exactly one media field. */
  lemma ValidEntryHidesOneField(d: GalleryDoc)
    requires Valid(d)
    ensures ImageHidden(Some(d)) != VideoHidden(Some(d))
    ensures ImageHidden(Some(d)) <==> d.mediaType == Some("video")
  {
    assert "image" != "video" by {
      assert "image"[0] != "video"[0];
    }
  }

  /** The field an entry's preview thumbnail comes from is never hidden. */
  lemma PreviewMediaIsVisibleField(d: GalleryDoc)
    ensures Prepare(d.description, d.mediaType, d.image, d.category).media.Some? ==> !ImageHidden(Some(d))
  {
  }

  /** A new entry is valid, previews as an untitled, uncategorised image, and shows its image field. */
  lemma NewDocPreview()
    ensures Valid(NewGalleryDoc()) && !ImageHidden(Some(NewGalleryDoc())) && VideoHidden(Some(NewGalleryDoc()))
    ensures Prepare(None, Some("image"), None, None) == Preview("Untitled", Camera + " No category", None)
  {
  }
}
