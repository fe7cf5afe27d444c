/**
 * The latest revision's `main`: choosing the page region to scan, wiring the
 * kept images, and re-running on in-page navigation.
 */
module Viewer {
  import opened Wrappers
  import opened LinkPattern
  import opened Collector
  import opened Overlay

  /**
   * The page as `main` finds it: the images of the README's article when a
   * README element exists, and the images of the discussion element when one
   * exists.
   */
  datatype Page = Page(readme: Option<seq<ImageElement>>, discussion: Option<seq<ImageElement>>)

  /**
   * The region `main` scans: the README when there is one, whether or not a
   * discussion exists too; otherwise the discussion; otherwise none, and the
   * page is inactive.
   */
  function RegionImages(page: Page): (region: Option<seq<ImageElement>>)
    ensures region.None? <==> page.readme.None? && page.discussion.None?
    ensures page.readme.Some? ==> region == page.readme
    ensures page.readme.None? && page.discussion.Some? ==> region == page.discussion
  {
    if page.readme.Some? then page.readme
    else if page.discussion.Some? then page.discussion
    else None
  }

  /**
   * The images `main` hands to `setOnClickOnImageEvent`: the kept images of
   * the chosen region, and none on an inactive page.
   */
  function ImagesToWire(page: Page): (wired: seq<ImageElement>)
    ensures RegionImages(page).None? ==> wired == []
    ensures RegionImages(page).Some? ==>
      forall x :: x in wired <==> x in RegionImages(page).value && Keeps(BlobOrRawImage, x)
  {
    match RegionImages(page)
    case None => []
    case Some(images) => FilterRepoImageElements(BlobOrRawImage, images)
  }

  /**
   * The wired images are the chosen region's kept images in document order:
   * the images at increasing indices of the region, an index being taken
   * exactly when its image passes the link test.
   */
  lemma ImagesToWireSelects(page: Page)
    ensures RegionImages(page).Some? ==>
      var images, wired := RegionImages(page).value, ImagesToWire(page);
      var idx := KeptIndices(BlobOrRawImage, images, 0);
      |idx| == |wired|
      && (forall k :: 0 <= k < |idx| ==> idx[k] < |images| && wired[k] == images[idx[k]])
      && (forall k, l :: 0 <= k < l < |idx| ==> idx[k] < idx[l])
      && (forall i :: 0 <= i < |images| ==> (i in idx <==> Keeps(BlobOrRawImage, images[i])))
  {
    if RegionImages(page).Some? {
      FilterSelectsExactly(BlobOrRawImage, RegionImages(page).value);
    }
  }

  /** `main`: the parent of every kept image of the chosen region gets one more listener. */
  method ScanPage(page: Page, listeners: ClickListeners)
    modifies listeners
    ensures listeners.anchors == old(listeners.anchors) + Parents(ImagesToWire(page))
  {
    var region := RegionImages(page);
    if region.None? {
      assert ImagesToWire(page) == [] && Parents([]) == [];
      return;
    }
    var images := FilterRepoImageElements(BlobOrRawImage, region.value);
    listeners.SetOnClickOnImageEvent(images);
  }

  /** The mutation observer's memory of the address it last saw. */
  class PageObserver {
    var lastUrl: string

    /** `let lastUrl = location.href` when the script starts. */
    constructor (url: string)
      ensures lastUrl == url
    {
      lastUrl := url;
    }

    /**
     * The observer callback: when the address differs from the one last seen,
     * it is remembered and `main` runs again on the current page; when it is
     * the same, nothing happens. A second call with the same address is thus
     * always a no-op.
     */
    method Callback(currentUrl: string, page: Page, listeners: ClickListeners) returns (rescanned: bool)
      modifies this, listeners
      ensures rescanned <==> old(lastUrl) != currentUrl
      ensures lastUrl == currentUrl
      ensures listeners.anchors == old(listeners.anchors) + (if rescanned then Parents(ImagesToWire(page)) else [])
    {
      if lastUrl == currentUrl {
        return false;
      }
      lastUrl := currentUrl;
      ScanPage(page, listeners);
      return true;
    }
  }
}
