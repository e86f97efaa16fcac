/**
 * Bookmark thumbnails (src/modules/thumbnail.js): a screenshot of the page
 * is taken in a popup window, compressed by lowering the JPEG quality step
 * by step, and stored under the page url; lookups fall back to a favicon
 * service.
 *
 * The encoder is a parameter `encode: nat -> string`, the data URL produced
 * at the k-th quality step (quality 1.0, 0.9, ...); browser storage is a map
 * from url to data URL; the browser's asynchronous callbacks become an
 * ordered log of events.
 */
module Thumbnail {
  import opened Js

  // ------------------------------------------------------------ storage and lookup

  const FaviconService: string := "https://www.google.com/s2/favicons?domain="

  function FaviconFallback(url: string): string {
    FaviconService + url
  }

  /**
   * getThumbnailUrl's answer: the stored data URL when there is a non-empty
   * one and storage did not fail, otherwise the favicon-service url.
   */
  function ThumbnailFor(storage: map<string, string>, url: string, storageError: bool): (r: string)
    ensures !storageError && url in storage && storage[url] != "" ==> r == storage[url]
    ensures storageError || url !in storage || storage[url] == "" ==> r == FaviconFallback(url)
  {
    if storageError then FaviconFallback(url)
    else if url in storage && storage[url] != "" then storage[url]
    else FaviconFallback(url)
  }

  /** A lookup after saving non-empty data gives that data back. */
  lemma SaveThenLookup(storage: map<string, string>, url: string, data: string)
    requires data != ""
    ensures ThumbnailFor(storage[url := data], url, false) == data
  {
  }

  /** The last save for a url wins, and saves for other urls do not matter. */
  lemma SavesAreKeyedByUrl(storage: map<string, string>, url: string, other: string, d1: string, d2: string, e: bool)
    ensures ThumbnailFor(storage[url := d1][url := d2], url, e) == ThumbnailFor(storage[url := d2], url, e)
    ensures other != url ==> ThumbnailFor(storage[other := d1], url, e) == ThumbnailFor(storage, url, e)
  {
  }

  /** The favicon url is answered exactly on a miss, an empty value or a storage error (or when it is what was stored). */
  lemma FallbackIffMiss(storage: map<string, string>, url: string, e: bool)
    ensures ThumbnailFor(storage, url, e) == FaviconFallback(url) <==>
      e || url !in storage || storage[url] == "" || storage[url] == FaviconFallback(url)
  {
  }

  // ------------------------------------------------------------ compressImage

  /** `dataUrl.length / 1024 <= targetSizeKB`, in exact arithmetic. */
  predicate FitsTarget(dataUrl: string, targetKB: nat) {
    |dataUrl| <= targetKB * 1024
  }

  /**
   * The step at which compressImage stops when started at step `k`: the
   * first step whose encoding fits, or the floor step.
   */
  function StopStep(encode: nat -> string, targetKB: nat, floorStep: nat, k: nat): (r: nat)
    requires k <= floorStep
    ensures k <= r <= floorStep
    ensures r == floorStep || FitsTarget(encode(r), targetKB)
    ensures forall j :: k <= j < r ==> !FitsTarget(encode(j), targetKB)
    decreases floorStep - k
  {
    if FitsTarget(encode(k), targetKB) || k == floorStep then k
    else StopStep(encode, targetKB, floorStep, k + 1)
  }

  /**
   * compressImage: once the image has loaded, its loop encodes at step 0,
   * 1, ... and calls back with the first encoding that fits, or with the
   * one at the floor step. An image that fails to load has no `onerror`
   * handler, so nothing is encoded and nothing called back. Returns the
   * callbacks made and the number of encodings.
   */
  method CompressImage(encode: nat -> string, targetKB: nat, floorStep: nat, loads: bool)
    returns (callbacks: seq<string>, encodes: nat)
    ensures !loads ==> callbacks == [] && encodes == 0
    ensures loads ==> |callbacks| == 1
    ensures loads ==> encodes == StopStep(encode, targetKB, floorStep, 0) + 1 <= floorStep + 1
    ensures loads ==> callbacks[0] == encode(encodes - 1)
  {
    if !loads {
      return [], 0;
    }
    var k := 0;
    callbacks := [];
    encodes := 0;
    while callbacks == []
      invariant k <= floorStep
      invariant StopStep(encode, targetKB, floorStep, 0) == StopStep(encode, targetKB, floorStep, k)
      invariant callbacks == [] ==> encodes == k
      invariant callbacks != [] ==>
        callbacks == [encode(k)] && encodes == k + 1 && StopStep(encode, targetKB, floorStep, k) == k
      decreases floorStep - k + (if callbacks == [] then 1 else 0)
    {
      var dataUrl := encode(k);
      encodes := encodes + 1;
      if FitsTarget(dataUrl, targetKB) || k >= floorStep {
        callbacks := callbacks + [dataUrl];
      } else {
        k := k + 1;
      }
    }
  }

  /** When no encoding ever fits, every step down to the floor is encoded. */
  lemma NothingFitsReachesFloor(encode: nat -> string, targetKB: nat, floorStep: nat)
    requires forall k :: !FitsTarget(encode(k), targetKB)
    ensures StopStep(encode, targetKB, floorStep, 0) == floorStep
  {
  }

  /** A first encoding that fits is the only one. */
  lemma FirstFitStopsAtOnce(encode: nat -> string, targetKB: nat, floorStep: nat)
    requires FitsTarget(encode(0), targetKB)
    ensures StopStep(encode, targetKB, floorStep, 0) == 0
  {
  }

  // ------------------------------------------------------------ the quality floor

  /** Quality in tenths at step k, as the loop intends: 1.0, 0.9, ... */
  function QualityTenths(k: nat): int {
    10 - k
  }

  /** In tenths, `quality <= 0.1` first holds at step 9 (the tenth encoding). */
  lemma IntendedFloor()
    ensures forall k: nat :: QualityTenths(k) <= 1 <==> k >= IntendedFloorStep
  {
  }

  const IntendedFloorStep: nat := 9

  /** 0.1 as the nearest binary64 value, 3602879701896397 / 2^55. */
  const Tenth: real := 3602879701896397.0 / 36028797018963968.0

  const TwoTo52: int := 4503599627370496
  const TwoTo53: int := 9007199254740992

  /**
   * `m / scale` is `x` rounded to the nearest binary64 value, ties to an
   * even significand: `m` is a 53-bit significand, `x` lies in the same
   * binade, and the distance is under half a unit in the last place, or
   * exactly half with `m` even.
   */
  ghost predicate RoundsTo(x: real, m: int, scale: int) {
    scale > 0 && TwoTo52 <= m < TwoTo53
    && TwoTo52 as real / scale as real <= x < TwoTo53 as real / scale as real
    && var halfUlp := 1.0 / (2 * scale) as real;
       var d := x - m as real / scale as real;
       (-halfUlp < d < halfUlp) || ((d == halfUlp || d == -halfUlp) && m % 2 == 0)
  }

  /** Significand and scale of `compressionQuality` after k subtractions of 0.1 in binary64. */
  function FloatQualityParts(k: nat): (int, int)
    requires k <= 10
  {
    if k == 0 then (4503599627370496, 4503599627370496)
    else if k == 1 then (8106479329266893, 9007199254740992)
    else if k == 2 then (7205759403792794, 9007199254740992)
    else if k == 3 then (6305039478318695, 9007199254740992)
    else if k == 4 then (5404319552844596, 9007199254740992)
    else if k == 5 then (4503599627370497, 9007199254740992)
    else if k == 6 then (7205759403792796, 18014398509481984)
    else if k == 7 then (5404319552844598, 18014398509481984)
    else if k == 8 then (7205759403792799, 36028797018963968)
    else if k == 9 then (7205759403792804, 72057594037927936)
    else (5629499534213120, 40564819207303340847894502572032)
  }

  function FloatQuality(k: nat): real
    requires k <= 10
  {
    FloatQualityParts(k).0 as real / FloatQualityParts(k).1 as real
  }

  /** Each entry of the table is the correctly rounded result of the previous one minus 0.1. */
  lemma FloatQualityIsBinary64(k: nat)
    requires k < 10
    ensures RoundsTo(FloatQuality(k) - Tenth, FloatQualityParts(k + 1).0, FloatQualityParts(k + 1).1)
  {
  }

  /**
   * As written, `compressionQuality <= 0.1` on binary64 values first holds
   * after ten subtractions (quality about 1.4e-16), not nine: 0.9, 0.8, ...
   * drift upwards and the ninth value is 0.10000000000000014.
   */
  lemma AsWrittenFloor()
    ensures forall k :: 0 <= k < AsWrittenFloorStep ==> FloatQuality(k) > Tenth
    ensures FloatQuality(AsWrittenFloorStep) <= Tenth
  {
    forall k | 0 <= k < 10 ensures FloatQuality(k) > Tenth {
      if k < 9 {
        FloatQualityIsBinary64(k);
      }
    }
  }

  const AsWrittenFloorStep: nat := 10

  /**
   * An encoder that never reaches the target is asked for eleven encodings
   * as written (the last at quality near 0), against ten when the floor is
   * quality 0.1.
   */
  lemma ExtraEncodeAsWritten(encode: nat -> string, targetKB: nat)
    requires forall k :: !FitsTarget(encode(k), targetKB)
    ensures StopStep(encode, targetKB, AsWrittenFloorStep, 0) + 1 == 11
    ensures StopStep(encode, targetKB, IntendedFloorStep, 0) + 1 == 10
  {
    NothingFitsReachesFloor(encode, targetKB, AsWrittenFloorStep);
    NothingFitsReachesFloor(encode, targetKB, IntendedFloorStep);
  }

  // ------------------------------------------------------------ captureScreenshot

  /** A `chrome.tabs.onUpdated` notification. */
  datatype TabUpdate = TabUpdate(tabId: int, status: string)

  /** What the browser observably does, in order. */
  datatype Event =
    | WindowCreated(url: string, width: nat, height: nat)
    | WindowRemoved
    | StoreWrite(key: string, value: string)
    | UpdateCallback(url: string, data: string)

  /**
   * The listener test as written: the parameter `tabId` shadows the popup
   * tab's id, so `tabId === tabId` always holds and any tab's completion fires.
   */
  predicate ListenerFiresAsWritten(u: TabUpdate, popupTab: int) {
    var tabId := u.tabId;
    tabId == tabId && u.status == "complete"
  }

  /** The listener test intended: the popup's own tab finished loading. */
  predicate ListenerFires(u: TabUpdate, popupTab: int) {
    u.tabId == popupTab && u.status == "complete"
  }

  /** Another tab finishing its load triggers the capture as written, and not as intended. */
  lemma ListenerIgnoresTab()
    ensures ListenerFiresAsWritten(TabUpdate(7, "complete"), 3)
    ensures !ListenerFires(TabUpdate(7, "complete"), 3)
    ensures forall u, t :: ListenerFires(u, t) ==> ListenerFiresAsWritten(u, t)
  {
  }

  function AnyFires(updates: seq<TabUpdate>, popupTab: int): bool {
    exists i :: 0 <= i < |updates| && ListenerFires(updates[i], popupTab)
  }

  /** The data URL stored and passed on: the screenshot compressed to 100 KB. */
  function Compressed(encode: nat -> string): string {
    encode(StopStep(encode, 100, IntendedFloorStep, 0))
  }

  /**
   * Events after the listener fired: the window is removed straight after
   * the capture returns; storing and the callback follow once the image
   * has loaded (`loads`), and only for a truthy capture.
   */
  function AfterCapture(url: string, captured: string, encode: nat -> string, loads: bool, hasCallback: bool): seq<Event> {
    if captured == "" || !loads then [WindowRemoved]
    else
      var data := Compressed(encode);
      [WindowRemoved, StoreWrite(url, data)] + (if hasCallback then [UpdateCallback(url, data)] else [])
  }

  /** captureScreenshot's observable behaviour. */
  function CaptureTrace(url: string, hasCallback: bool, updates: seq<TabUpdate>, popupTab: int,
                        captured: string, encode: nat -> string, loads: bool): seq<Event>
  {
    if url == "" then []
    else
      var after := if AnyFires(updates, popupTab) then AfterCapture(url, captured, encode, loads, hasCallback) else [];
      [WindowCreated(url, 1024, 683)] + after
  }

  /** The browser side: its event log and local storage. */
  class Browser {
    var log: seq<Event>
    var storage: map<string, string>

    constructor(storage0: map<string, string>)
      ensures log == [] && storage == storage0
    {
      log := [];
      storage := storage0;
    }

    /**
     * saveScreenshotToLocalStorage: issues the write; a write the browser
     * rejects (`setFails`) is only logged to the console and leaves storage
     * as it was.
     */
    method SaveScreenshot(url: string, dataUrl: string, setFails: bool)
      modifies this
      ensures storage == if setFails then old(storage) else old(storage)[url := dataUrl]
      ensures log == old(log) + [StoreWrite(url, dataUrl)]
    {
      if !setFails {
        storage := storage[url := dataUrl];
      }
      log := log + [StoreWrite(url, dataUrl)];
    }

    /** getThumbnailUrl. */
    method GetThumbnailUrl(url: string, storageError: bool) returns (r: string)
      ensures r == ThumbnailFor(storage, url, storageError)
    {
      if storageError {
        r := FaviconFallback(url);
      } else {
        var dataUrl := if url in storage then storage[url] else "";
        if dataUrl != "" {
          r := dataUrl;
        } else {
          r := FaviconFallback(url);
        }
      }
    }

    /**
     * captureScreenshot: opens the 1024x683 popup, waits for the first
     * update on which the listener fires (it then removes itself), captures
     * the tab (`captured`, "" for no data), removes the window, and stores
     * and reports the compressed capture once the image has loaded
     * (`loads`). A rejected storage write (`setFails`) stores nothing but
     * the callback still follows.
     */
    method CaptureScreenshot(url: string, hasCallback: bool, updates: seq<TabUpdate>, popupTab: int,
                             captured: string, encode: nat -> string, loads: bool, setFails: bool)
      modifies this
      ensures log == old(log) + CaptureTrace(url, hasCallback, updates, popupTab, captured, encode, loads)
      ensures storage == if url != "" && AnyFires(updates, popupTab) && captured != "" && loads && !setFails
        then old(storage)[url := Compressed(encode)] else old(storage)
    {
      if url == "" {
        return;
      }
      log := log + [WindowCreated(url, 1024, 683)];
      var i := 0;
      var fired := false;
      while i < |updates| && !fired
        invariant 0 <= i <= |updates|
        invariant fired <==> exists j :: 0 <= j < i && ListenerFires(updates[j], popupTab)
      {
        if ListenerFires(updates[i], popupTab) {
          fired := true;
        }
        i := i + 1;
      }
      if !fired {
        assert !AnyFires(updates, popupTab);
        return;
      }
      log := log + [WindowRemoved];
      if captured != "" {
        var callbacks, _ := CompressImage(encode, 100, IntendedFloorStep, loads);
        if callbacks != [] {
          SaveScreenshot(url, callbacks[0], setFails);
          if hasCallback {
            log := log + [UpdateCallback(url, callbacks[0])];
          }
        }
      }
    }
  }

  /** An empty url opens nothing, stores nothing and calls nothing back. */
  lemma EmptyUrlDoesNothing(hasCallback: bool, updates: seq<TabUpdate>, popupTab: int, captured: string,
                            encode: nat -> string, loads: bool)
    ensures CaptureTrace("", hasCallback, updates, popupTab, captured, encode, loads) == []
  {
  }

  /**
   * Once opened, the window is removed exactly when the listener fired,
   * whether or not the capture returned data; it is removed before anything
   * is stored; the compressed capture is written under the url exactly when
   * the capture returned data and the image loaded; the callback comes at
   * most once, after the write, with the written data.
   */
  lemma CaptureOrdering(url: string, hasCallback: bool, updates: seq<TabUpdate>, popupTab: int,
                        captured: string, encode: nat -> string, loads: bool)
    requires url != ""
    ensures var t := CaptureTrace(url, hasCallback, updates, popupTab, captured, encode, loads);
      && t[0] == WindowCreated(url, 1024, 683)
      && (WindowRemoved in t <==> AnyFires(updates, popupTab))
      && (forall i :: 0 <= i < |t| && t[i].StoreWrite? ==> i == 2 && t[1] == WindowRemoved && t[i].key == url)
      && (forall i :: 0 <= i < |t| && t[i].UpdateCallback? ==> i == 3 && t[2] == StoreWrite(url, t[i].data))
      && (StoreWrite(url, Compressed(encode)) in t <==> AnyFires(updates, popupTab) && captured != "" && loads)
      && (|t| == 4 <==> AnyFires(updates, popupTab) && captured != "" && loads && hasCallback)
  {
  }
}
