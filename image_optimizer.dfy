/** The lazy-loading bookkeeping of `ImageOptimizer`: the `processedImages`
    set that keeps any image from being handed to the intersection observer
    twice, and what loading an image does to the element and its container.
    Elements are objects whose fields stand for the attributes, classes and
    inline styles the code reads and writes. */
module LazyImages {
  import opened Wrappers
  import opened Srcset
  import opened Selection

  /** The parent element of an image: whether it holds an
      `.image-placeholder`, whether that placeholder has been hidden, and how
      many `.image-error` blocks have been appended to it. */
  class Container {
    var hasPlaceholder: bool
    var placeholderHidden: bool
    var errorBlocks: nat

    constructor (hasPlaceholder: bool)
      ensures this.hasPlaceholder == hasPlaceholder
      ensures !placeholderHidden && errorBlocks == 0
    {
      this.hasPlaceholder := hasPlaceholder;
      placeholderHidden := false;
      errorBlocks := 0;
    }
  }

  /** An `<img>` element: its `src`, its `data-src` and `data-srcset`
      attributes (`None` when absent), the `loaded` class, and whether its
      inline style leaves it displayed. */
  class Img {
    var src: string
    var dataSrc: Option<string>
    var dataSrcset: Option<string>
    var loaded: bool
    var displayed: bool
    const parent: Container

    constructor (parent: Container, src: string, dataSrc: Option<string>, loaded: bool, displayed: bool)
      ensures this.parent == parent && this.src == src && this.dataSrc == dataSrc
      ensures this.loaded == loaded && this.displayed == displayed && dataSrcset == None
    {
      this.parent := parent;
      this.src := src;
      this.dataSrc := dataSrc;
      this.dataSrcset := None;
      this.loaded := loaded;
      this.displayed := displayed;
    }

    /** The image was swapped in: it carries `loaded` and no `data-src`. */
    predicate IsLoaded()
      reads this
    {
      loaded && dataSrc == None
    }

    /** The image was given up on: hidden, with an error block beside it. */
    predicate IsErrored()
      reads this, parent
    {
      !displayed && parent.errorBlocks > 0
    }
  }

  /** `if (!src) return;`: an absent or empty `data-src` means nothing to load. */
  predicate HasDeferredSource(dataSrc: Option<string>)
  {
    dataSrc.Some? && dataSrc.value != ""
  }

  function Elements(images: seq<Img>): set<Img>
  {
    set img | img in images
  }

  lemma ElementsConcat(a: seq<Img>, b: seq<Img>)
    ensures Elements(a + b) == Elements(a) + Elements(b)
  {
  }

  predicate NoDuplicates(images: seq<Img>)
  {
    forall i, j :: 0 <= i < j < |images| ==> images[i] != images[j]
  }

  /** The images a pass over `images` hands to the observer when `seen` were
      already processed: each image neither in `seen` nor earlier in
      `images`, in order. */
  function NewlyObserved(images: seq<Img>, seen: set<Img>): (observed: seq<Img>)
    ensures NoDuplicates(observed)
    ensures Elements(observed) == Elements(images) - seen
  {
    if images == [] then []
    else
      var init := images[..|images| - 1];
      var last := images[|images| - 1];
      var earlier := NewlyObserved(init, seen);
      var added := if last in seen || last in init then [] else [last];
      ElementsConcat(earlier, added);
      ElementsConcat(init, [last]);
      assert images == init + [last];
      assert last in earlier ==> last in Elements(earlier);
      earlier + added
  }

  /** A second pass over images that were all processed observes nothing:
      observing is idempotent. */
  lemma ObserveAgainObservesNothing(images: seq<Img>, seen: set<Img>)
    requires Elements(images) <= seen
    ensures NewlyObserved(images, seen) == []
  {
  }

  /** Registrations that were unique and exactly the processed set stay so
      after a pass, and the processed set grows by the images passed over. */
  lemma RegistrationsStayUnique(registrations: seq<Img>, seen: set<Img>, images: seq<Img>)
    requires NoDuplicates(registrations) && Elements(registrations) == seen
    ensures NoDuplicates(registrations + NewlyObserved(images, seen))
    ensures Elements(registrations + NewlyObserved(images, seen)) == seen + Elements(images)
  {
    var observed := NewlyObserved(images, seen);
    var all := registrations + observed;
    forall i, j | 0 <= i < j < |all|
      ensures all[i] != all[j]
    {
      if j >= |registrations| && i < |registrations| {
        assert all[i] in seen;
        assert all[j] in Elements(observed);
      }
    }
    ElementsConcat(registrations, observed);
  }

  class ImageOptimizer {
    /** `this.processedImages`: every image ever handed to the observer. */
    var processedImages: set<Img>
    /** The calls `imageObserver.observe(img)` made so far, in order. */
    var registrations: seq<Img>

    /** Each image was handed to the observer at most once, and the processed
        set is exactly the images handed to it. */
    ghost predicate Valid()
      reads this
    {
      NoDuplicates(registrations) && Elements(registrations) == processedImages
    }

    /** `new ImageOptimizer()`, as far as the processed set goes: start empty,
        then observe the document's `img[data-src]` elements. */
    constructor (documentImages: seq<Img>)
      ensures Valid()
      ensures processedImages == Elements(documentImages)
      ensures registrations == NewlyObserved(documentImages, {})
    {
      processedImages := {};
      registrations := [];
      new;
      ObserveImages(documentImages);
    }

    /** `observeImages()`, given the elements `img[data-src]` matches: each
        one not yet processed is observed and added to the set. */
    method ObserveImages(documentImages: seq<Img>)
      requires Valid()
      modifies this
      ensures Valid()
      ensures processedImages == old(processedImages) + Elements(documentImages)
      ensures registrations == old(registrations) + NewlyObserved(documentImages, old(processedImages))
    {
      for i := 0 to |documentImages|
        invariant processedImages == old(processedImages) + Elements(documentImages[..i])
        invariant registrations == old(registrations) + NewlyObserved(documentImages[..i], old(processedImages))
      {
        var img := documentImages[i];
        assert documentImages[..i + 1][..i] == documentImages[..i];
        if img !in processedImages {
          registrations := registrations + [img];
          processedImages := processedImages + {img};
        }
      }
      assert documentImages[..|documentImages|] == documentImages;
      RegistrationsStayUnique(old(registrations), old(processedImages), documentImages);
    }

    /** `refresh()`: observe whatever `img[data-src]` elements exist now. */
    method Refresh(documentImages: seq<Img>)
      requires Valid()
      modifies this
      ensures Valid()
      ensures processedImages == old(processedImages) + Elements(documentImages)
      ensures registrations == old(registrations) + NewlyObserved(documentImages, old(processedImages))
    {
      ObserveImages(documentImages);
    }

    /** `addImage(container, { src, lazy })`: builds a fresh container and
        image; a lazy image gets `data-src`, stays hidden and is observed and
        processed, an eager one gets `src` and `loaded` at once. */
    method AddImage(src: string, lazy: bool) returns (img: Img)
      requires Valid()
      modifies this
      ensures Valid()
      ensures fresh(img) && fresh(img.parent)
      ensures img.parent.hasPlaceholder == lazy && img.parent.errorBlocks == 0
      ensures !img.parent.placeholderHidden && img.dataSrcset == None
      ensures lazy ==>
        && img.dataSrc == Some(src) && img.src == "" && !img.loaded && !img.displayed
        && registrations == old(registrations) + [img]
        && processedImages == old(processedImages) + {img}
      ensures !lazy ==>
        && img.dataSrc == None && img.src == src && img.loaded && img.displayed
        && registrations == old(registrations)
        && processedImages == old(processedImages)
    {
      var box := new Container(lazy);
      if lazy {
        img := new Img(box, "", Some(src), false, false);
        registrations := registrations + [img];
        processedImages := processedImages + {img};
      } else {
        img := new Img(box, src, None, true, true);
      }
    }

    /** `loadImage(img)` once the fetch of its deferred source has settled
        with `fetchSucceeds`: nothing happens without a deferred source; on
        success the source is swapped in, `loaded` added, `data-src` removed
        and the placeholder hidden; on failure the error path runs. */
    method LoadImage(img: Img, fetchSucceeds: bool)
      modifies img`src, img`loaded, img`dataSrc, img`displayed
      modifies img.parent`placeholderHidden, img.parent`errorBlocks
      ensures !HasDeferredSource(old(img.dataSrc)) ==>
        && img.src == old(img.src) && img.loaded == old(img.loaded)
        && img.dataSrc == old(img.dataSrc) && img.displayed == old(img.displayed)
        && img.parent.placeholderHidden == old(img.parent.placeholderHidden)
        && img.parent.errorBlocks == old(img.parent.errorBlocks)
      ensures HasDeferredSource(old(img.dataSrc)) && fetchSucceeds ==>
        && img.src == old(img.dataSrc).value && img.loaded && img.dataSrc == None
        && img.displayed == old(img.displayed)
        && img.parent.placeholderHidden == (old(img.parent.placeholderHidden) || img.parent.hasPlaceholder)
        && img.parent.errorBlocks == old(img.parent.errorBlocks)
      ensures HasDeferredSource(old(img.dataSrc)) && !fetchSucceeds ==>
        && img.src == old(img.src) && img.loaded == old(img.loaded)
        && img.dataSrc == old(img.dataSrc) && !img.displayed
        && img.parent.placeholderHidden == old(img.parent.placeholderHidden)
        && img.parent.errorBlocks == old(img.parent.errorBlocks) + 1
      ensures HasDeferredSource(old(img.dataSrc)) ==>
        (img.IsLoaded() <==> fetchSucceeds) && (!fetchSucceeds ==> img.IsErrored())
    {
      var src := img.dataSrc;
      if !HasDeferredSource(src) {
        return;
      }
      if fetchSucceeds {
        img.src := src.value;
        img.loaded := true;
        img.dataSrc := None;
        if img.parent.hasPlaceholder {
          img.parent.placeholderHidden := true;
        }
      } else {
        HandleImageError(img);
      }
    }

    /** `handleImageError(img)`: hide the image and append one error block
        to its parent. */
    method HandleImageError(img: Img)
      modifies img`displayed, img.parent`errorBlocks
      ensures !img.displayed
      ensures img.parent.errorBlocks == old(img.parent.errorBlocks) + 1
    {
      img.displayed := false;
      img.parent.errorBlocks := img.parent.errorBlocks + 1;
    }

    /** `loadResponsiveImage(img)`, the branch for browsers without native
        srcset: with a non-empty `data-srcset`, parse it, choose the nearest
        candidate for the viewport and use its url as `src` unless that url
        is empty. */
    method LoadResponsiveImage(img: Img, viewportWidth: int)
      modifies img`src
      ensures var srcset := old(img.dataSrcset);
        if srcset.Some? && srcset.value != "" then
          var sources := ParseSrcset(srcset.value);
          var url := sources[NearestIndex(sources, viewportWidth)].url;
          img.src == if url != "" then url else old(img.src)
        else
          img.src == old(img.src)
    {
      var srcset := img.dataSrcset;
      if srcset.Some? && srcset.value != "" {
        var sources := ParseSrcset(srcset.value);
        var selected := SelectImageSource(sources, viewportWidth);
        if selected != "" {
          img.src := selected;
        }
      }
    }
  }
}
