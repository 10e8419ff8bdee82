/**
 * Image paths of exercise GIFs: the normaliser `fixImagePath` and the
 * one-shot fallback `handleImageError` that the `<img>` elements install
 * as their `onerror` handler.
 */
module ImagePath {
  import opened Wrappers
  import opened JsString

  /** The placeholder shown for a missing or unusable image path. */
  const DefaultImage: string := "/assets/default-exercise.gif"

  const AssetsPrefix: string := "/assets/"

  /** A path the normaliser leaves alone: site assets and web addresses. */
  predicate IsResolved(p: string)
  {
    StartsWith(p, AssetsPrefix) || StartsWith(p, "http")
  }

  /** A path that mentions a GIF file (in lower or upper case). */
  predicate LooksLikeGif(p: string)
  {
    Includes(p, ".gif") || Includes(p, ".GIF")
  }

  /** `p.replace(/^\/?/, '')`: one leading slash, if present, is dropped. */
  function StripLeadingSlash(p: string): string
  {
    if |p| > 0 && p[0] == '/' then p[1..] else p
  }

  lemma DefaultImageIsResolved()
    ensures StartsWith(DefaultImage, AssetsPrefix)
  {
    assert DefaultImage[..|AssetsPrefix|] == AssetsPrefix;
  }

  /**
   * `fixImagePath(path)`, where `None` stands for `null`/`undefined`.
   * The result is never empty, is always a resolved path, and is either
   * the placeholder, the input itself, or the input moved under
   * `/assets/` with at most one leading slash removed.
   */
  function FixImagePath(path: Option<string>): (r: string)
    ensures r != ""
    ensures IsResolved(r)
    ensures || r == DefaultImage
            || (path.Some? && r == path.value)
            || (path.Some? && r == AssetsPrefix + StripLeadingSlash(path.value))
  {
    DefaultImageIsResolved();
    match path
    case None => DefaultImage
    case Some(p) =>
      if p == "" then DefaultImage
      else if IsResolved(p) then p
      else if LooksLikeGif(p) then
        // Always taken: a path under /assets/ was returned above.
        if !StartsWith(p, AssetsPrefix) then
          var r := AssetsPrefix + StripLeadingSlash(p);
          assert r[..|AssetsPrefix|] == AssetsPrefix;
          r
        else p
      else DefaultImage
  }

  /** Normalising a normalised path changes nothing. */
  lemma FixImagePathIdempotent(path: Option<string>)
    ensures FixImagePath(Some(FixImagePath(path))) == FixImagePath(path)
  {
  }

  /** A site asset or web address comes back unchanged. */
  lemma FixImagePathKeepsResolved(p: string)
    requires p != "" && IsResolved(p)
    ensures FixImagePath(Some(p)) == p
  {
  }

  /** Missing, empty and unrecognised paths all give the placeholder. */
  lemma FixImagePathFallsBack(p: string)
    ensures FixImagePath(None) == DefaultImage
    ensures FixImagePath(Some("")) == DefaultImage
    ensures !IsResolved(p) && !LooksLikeGif(p) ==> FixImagePath(Some(p)) == DefaultImage
  {
  }

  /**
   * A GIF path that is not yet resolved ends up under `/assets/` with at
   * most its leading slash dropped, and the result still names a GIF.
   */
  lemma FixImagePathKeepsGif(p: string)
    requires p != "" && LooksLikeGif(p) && !IsResolved(p)
    ensures FixImagePath(Some(p)) == AssetsPrefix + StripLeadingSlash(p)
    ensures LooksLikeGif(FixImagePath(Some(p)))
  {
    var q := StripLeadingSlash(p);
    if Includes(p, ".gif") {
      if q != p { IncludesDropFirst(p, ".gif"); }
      IncludesPrepend(AssetsPrefix, q, ".gif");
    } else {
      if q != p { IncludesDropFirst(p, ".GIF"); }
      IncludesPrepend(AssetsPrefix, q, ".GIF");
    }
  }

  /** The part of an `<img>` element the image code reads and writes. */
  class Img {
    var src: string
    /** `img.onerror !== null` */
    var hasErrorHandler: bool

    constructor (src: string, hasErrorHandler: bool)
      ensures this.src == src && this.hasErrorHandler == hasErrorHandler
    {
      this.src := src;
      this.hasErrorHandler := hasErrorHandler;
    }
  }

  /** `loadImage(img, path)`: show the normalised path and arm the fallback. */
  method LoadImage(img: Img, path: Option<string>)
    modifies img
    ensures img.src == FixImagePath(path)
    ensures img.hasErrorHandler
  {
    var imagePath := FixImagePath(path);
    img.hasErrorHandler := false;
    img.src := imagePath;
    img.hasErrorHandler := true;
  }

  /**
   * `handleImageError(img)`: detach the handler so that a failing
   * placeholder cannot re-enter it, then switch to the placeholder.
   */
  method HandleImageError(img: Img)
    modifies img
    ensures !img.hasErrorHandler
    ensures img.src == DefaultImage
  {
    img.hasErrorHandler := false;
    if img.src != DefaultImage {
      img.src := DefaultImage;
    }
  }

  /**
   * A load failure of `img`: the handler runs only while it is attached,
   * so the fallback is taken at most once and later failures change nothing.
   */
  method ImageLoadFailed(img: Img)
    modifies img
    ensures !img.hasErrorHandler
    ensures img.src == if old(img.hasErrorHandler) then DefaultImage else old(img.src)
  {
    if img.hasErrorHandler {
      HandleImageError(img);
    }
  }
}
