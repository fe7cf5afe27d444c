/**
 * The overlay controller: the singleton portal that shows one enlarged image,
 * the raw-URL choice made on each image click, and the registration of the
 * click listeners on the kept images' parent links.
 */
module Overlay {
  import opened Text
  import opened Collector

  /** The `id` of the portal's container, the element whose clicks close the portal. */
  const ContainerId := "gip-overlay-container"

  /** The `<img class="gip-image-preview">` placed in the container. */
  datatype PreviewImage = PreviewImage(src: string)

  /**
   * `getRawImageUrl`: a resolved link that already points at the raw-content
   * host is the image itself; otherwise the full-size address is the `src`
   * of the anchor's first child.
   */
  function GetRawImageUrl(anchor: Anchor): (url: string)
    ensures Includes(anchor.href, RawContentHost) ==> url == anchor.href
    ensures !Includes(anchor.href, RawContentHost) ==> url == anchor.firstChildSrc
  {
    if Includes(anchor.href, RawContentHost) then anchor.href else anchor.firstChildSrc
  }

  /** The portal element with its container, as the page holds it after `addPortalToPage`. */
  class Portal {
    /** False while the portal's style is `display: none`. */
    var visible: bool
    /** The children of the container. */
    var content: seq<PreviewImage>

    /** `createPortal`: hidden, with an empty container. */
    constructor ()
      ensures !visible && content == []
    {
      visible := false;
      content := [];
    }

    /** `togglePortal(display)`: shows or hides; the content stays. */
    method TogglePortal(display: bool)
      modifies this
      ensures visible == display && content == old(content)
    {
      visible := display;
    }

    /** `addImageToPortal(source)`: the previous content is dropped and one image of `source` remains. */
    method AddImageToPortal(source: string)
      modifies this
      ensures content == [PreviewImage(source)] && visible == old(visible)
    {
      content := [];
      content := content + [PreviewImage(source)];
    }

    /**
     * `closeOnClick`: a click whose target is the container itself hides the
     * portal; a click on anything else, the shown image included, changes
     * nothing. Hiding leaves the content in place.
     */
    method CloseOnClick(targetId: string)
      modifies this
      ensures content == old(content)
      ensures targetId == ContainerId ==> !visible
      ensures targetId != ContainerId ==> visible == old(visible)
    {
      if targetId != ContainerId {
        return;
      }
      TogglePortal(false);
    }

    /**
     * The `onClick` listener of an image link: the container ends up holding
     * exactly the image at the raw URL, and the portal is shown.
     */
    method OnClick(image: ImageElement)
      modifies this
      ensures visible
      ensures content == [PreviewImage(GetRawImageUrl(image.parent))]
    {
      var url := GetRawImageUrl(image.parent);
      AddImageToPortal(url);
      TogglePortal(true);
    }
  }

  /**
   * A fresh portal, a click on an image whose link points at the raw-content
   * host, then a click on the element with id `targetId`: the click shows
   * exactly that link's image, and the second click hides the portal only when
   * it lands on the container.
   */
  method OpenThenClick(image: ImageElement, targetId: string)
    returns (shown: seq<PreviewImage>, visibleAfterOpen: bool, visibleAfterClick: bool, shownAfterClick: seq<PreviewImage>)
    requires Includes(image.parent.href, RawContentHost)
    ensures visibleAfterOpen && shown == [PreviewImage(image.parent.href)]
    ensures visibleAfterClick <==> targetId != ContainerId
    ensures shownAfterClick == shown
  {
    var portal := new Portal();
    portal.OnClick(image);
    shown, visibleAfterOpen := portal.content, portal.visible;
    portal.CloseOnClick(targetId);
    visibleAfterClick, shownAfterClick := portal.visible, portal.content;
  }

  function Parents(images: seq<ImageElement>): (anchors: seq<Anchor>)
    ensures |anchors| == |images|
    ensures forall k :: 0 <= k < |images| ==> anchors[k] == images[k].parent
  {
    seq(|images|, k requires 0 <= k < |images| => images[k].parent)
  }

  /** The links that carry the image click listener. */
  class ClickListeners {
    /**
     * The log of `addEventListener('click', onClick)` calls, one entry per
     * call, in call order.
     */
    var anchors: seq<Anchor>

    constructor ()
      ensures anchors == []
    {
      anchors := [];
    }

    /**
     * `setOnClickOnImageEvent`: every image's parent receives one listener, in
     * the order of `images`. Nothing checks for a listener registered before.
     */
    method SetOnClickOnImageEvent(images: seq<ImageElement>)
      modifies this
      ensures anchors == old(anchors) + Parents(images)
    {
      var i := 0;
      while i < |images|
        invariant 0 <= i <= |images|
        invariant anchors == old(anchors) + Parents(images[..i])
      {
        assert Parents(images[..i + 1]) == Parents(images[..i]) + [images[i].parent];
        anchors := anchors + [images[i].parent];
        i := i + 1;
      }
      assert images[..i] == images;
    }
  }
}
