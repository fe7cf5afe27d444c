/**
 * The image collector: the DOM records the scripts read, the link test each
 * revision's `filterRepoImageElements` applies to an image's parent link,
 * and the filter itself.
 */
module Collector {
  import opened Wrappers
  import opened Text
  import opened LinkPattern

  /**
   * The link an image sits in. `hrefAttribute` is `getAttribute('href')`
   * (`None` when the attribute is missing), `href` is the browser-resolved
   * `anchor.href`, and `firstChildSrc` is the `src` attribute of the anchor's
   * first element child.
   */
  datatype Anchor = Anchor(hrefAttribute: Option<string>, href: string, firstChildSrc: string)

  /**
   * An `<img>` of the scanned region together with its parent element. The
   * scripts never read the image's own `src`; it is kept so that two images
   * inside the same link remain two elements of the list.
   */
  datatype ImageElement = ImageElement(src: string, parent: Anchor)

  /** The host of raw file contents: a link containing it is already the full-size image. */
  const RawContentHost := "githubusercontent.com"

  /**
   * The callback `filterRepoImageElements` hands to `Array.prototype.filter`:
   * a missing or empty link is refused, otherwise the link is kept when it
   * mentions the raw-content host or matches the revision's pattern `p`.
   */
  predicate IsRepoImageLink(p: PathPattern, link: Option<string>) {
    match link
    case None => false
    case Some(l) => l != [] && (Includes(l, RawContentHost) || Test(p, l))
  }

  predicate Keeps(p: PathPattern, image: ImageElement) {
    IsRepoImageLink(p, image.parent.hrefAttribute)
  }

  /** The images whose parent link passes the revision's link test, in document order. */
  function FilterRepoImageElements(p: PathPattern, images: seq<ImageElement>): (kept: seq<ImageElement>)
    ensures |kept| <= |images|
    ensures forall x :: x in kept <==> x in images && Keeps(p, x)
  {
    if images == [] then []
    else
      var rest := FilterRepoImageElements(p, images[1..]);
      if Keeps(p, images[0]) then [images[0]] + rest else rest
  }

  // ---------------------------------------------------------------------------
  // The link test, stated without the search

  /**
   * A link is kept exactly when it is present, not empty, and either mentions
   * the raw-content host somewhere or contains a match of the pattern.
   */
  lemma IsRepoImageLinkSpec(p: PathPattern, link: Option<string>)
    ensures IsRepoImageLink(p, link) <==>
      link.Some? && link.value != []
      && ((exists k: nat :: OccursAt(link.value, k, RawContentHost)) || Matches(p, link.value))
  {
    if link.Some? {
      TestCorrect(p, link.value);
    }
  }

  /** The later revision keeps every link an earlier revision kept. */
  lemma IsRepoImageLinkWidened(link: Option<string>)
    requires IsRepoImageLink(BlobImage, link)
    ensures IsRepoImageLink(BlobOrRawImage, link)
  {
    if !Includes(link.value, RawContentHost) {
      BlobImageImpliesBlobOrRawImage(link.value);
    }
  }

  // ---------------------------------------------------------------------------
  // The filter is an order-preserving selection of exactly the kept images

  /**
   * The indices, from `lo` on, of the images the filter keeps: increasing,
   * and containing an index exactly when the image there is kept.
   */
  function KeptIndices(p: PathPattern, images: seq<ImageElement>, lo: nat): (idx: seq<nat>)
    requires lo <= |images|
    decreases |images| - lo
    ensures forall k :: 0 <= k < |idx| ==> lo <= idx[k] < |images|
    ensures forall k, l :: 0 <= k < l < |idx| ==> idx[k] < idx[l]
  {
    if lo == |images| then []
    else (if Keeps(p, images[lo]) then [lo] else []) + KeptIndices(p, images, lo + 1)
  }

  lemma {:induction false} KeptIndicesMembers(p: PathPattern, images: seq<ImageElement>, lo: nat)
    requires lo <= |images|
    decreases |images| - lo
    ensures forall i :: lo <= i < |images| ==> (i in KeptIndices(p, images, lo) <==> Keeps(p, images[i]))
  {
    if lo < |images| {
      KeptIndicesMembers(p, images, lo + 1);
    }
  }

  lemma {:induction false} FilterPicksAt(p: PathPattern, images: seq<ImageElement>, lo: nat)
    requires lo <= |images|
    decreases |images| - lo
    ensures var idx, kept := KeptIndices(p, images, lo), FilterRepoImageElements(p, images[lo..]);
      |idx| == |kept| && forall k :: 0 <= k < |idx| ==> kept[k] == images[idx[k]]
  {
    if lo < |images| {
      FilterPicksAt(p, images, lo + 1);
      var rest, restIdx := FilterRepoImageElements(p, images[lo + 1..]), KeptIndices(p, images, lo + 1);
      assert images[lo..][1..] == images[lo + 1..];
      if Keeps(p, images[lo]) {
        var kept, idx := FilterRepoImageElements(p, images[lo..]), KeptIndices(p, images, lo);
        assert kept == [images[lo]] + rest;
        assert idx == [lo] + restIdx;
        forall k | 0 <= k < |idx| ensures kept[k] == images[idx[k]] {
          if k > 0 {
            assert kept[k] == rest[k - 1] && idx[k] == restIdx[k - 1];
          }
        }
      } else {
        assert FilterRepoImageElements(p, images[lo..]) == rest;
        assert KeptIndices(p, images, lo) == restIdx;
      }
    }
  }

  /**
   * `filterRepoImageElements` returns a subsequence of its input: the kept
   * images in their original order, each taken once, and an image at index
   * `i` is among them exactly when its parent link passes the test.
   */
  lemma FilterSelectsExactly(p: PathPattern, images: seq<ImageElement>)
    ensures var idx, kept := KeptIndices(p, images, 0), FilterRepoImageElements(p, images);
      |idx| == |kept|
      && (forall k :: 0 <= k < |idx| ==> idx[k] < |images| && kept[k] == images[idx[k]])
      && (forall k, l :: 0 <= k < l < |idx| ==> idx[k] < idx[l])
      && (forall i :: 0 <= i < |images| ==> (i in idx <==> Keeps(p, images[i])))
  {
    FilterPicksAt(p, images, 0);
    KeptIndicesMembers(p, images, 0);
    assert images[0..] == images;
  }

  /** Filtering an already filtered list changes nothing. */
  lemma {:induction false} FilterIdempotent(p: PathPattern, images: seq<ImageElement>)
    ensures FilterRepoImageElements(p, FilterRepoImageElements(p, images)) == FilterRepoImageElements(p, images)
  {
    if images != [] {
      FilterIdempotent(p, images[1..]);
      var rest := FilterRepoImageElements(p, images[1..]);
      if Keeps(p, images[0]) {
        assert ([images[0]] + rest)[1..] == rest;
      }
    }
  }

  /** The filter of a concatenation is the concatenation of the filters. */
  lemma {:induction false} FilterAppend(p: PathPattern, a: seq<ImageElement>, b: seq<ImageElement>)
    ensures FilterRepoImageElements(p, a + b) == FilterRepoImageElements(p, a) + FilterRepoImageElements(p, b)
  {
    if a != [] {
      assert (a + b)[1..] == a[1..] + b;
      FilterAppend(p, a[1..], b);
    } else {
      assert a + b == b;
    }
  }

  /**
   * What the first revision keeps is what the later revision keeps, filtered
   * once more by the first revision's test: the later selection contains the
   * earlier one in the same order.
   */
  lemma {:induction false} FilterRevisionsNested(images: seq<ImageElement>)
    ensures FilterRepoImageElements(BlobImage, images)
         == FilterRepoImageElements(BlobImage, FilterRepoImageElements(BlobOrRawImage, images))
  {
    if images != [] {
      FilterRevisionsNested(images[1..]);
      var rest := FilterRepoImageElements(BlobOrRawImage, images[1..]);
      if Keeps(BlobImage, images[0]) {
        IsRepoImageLinkWidened(images[0].parent.hrefAttribute);
      }
      if Keeps(BlobOrRawImage, images[0]) {
        assert ([images[0]] + rest)[1..] == rest;
      }
    }
  }
}
