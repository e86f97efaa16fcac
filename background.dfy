/**
 * The service worker's compressor (src/background.js): re-encodes the
 * capture at falling JPEG quality until the size is within 1 KB of the
 * target, the quality floor is reached, or the size stops shrinking.
 *
 * Quality is counted in twentieths (step k has quality 1 - 0.05 k), and the
 * encoder is a parameter `size: nat -> nat`, the byte size of the blob
 * encoded at step k.
 */
module Background {

  /** Quality 0.1 is 2 twentieths, reached after 18 steps of 0.05. */
  const FloorStep: nat := 18

  /** Quality in twentieths at step k. */
  function QualityTwentieths(k: nat): int {
    20 - k
  }

  /** `currentQuality <= minQuality` first holds at the floor step. */
  lemma FloorIsQualityTenth()
    ensures forall k: nat :: QualityTwentieths(k) <= 2 <==> k >= FloorStep
  {
  }

  function Abs(x: int): nat {
    if x < 0 then -x else x
  }

  /** `Math.abs(blobSizeKB - targetSizeKB) < 1`, on byte sizes. */
  predicate WithinTolerance(bytes: nat, targetKB: nat) {
    Abs(bytes - targetKB * 1024) < 1024
  }

  /**
   * Whether the loop stops at step k: within tolerance, at the quality
   * floor, or no smaller than the previous blob (there is none before
   * step 0: `lastBlobSize` starts at Infinity).
   */
  predicate StopsAt(size: nat -> nat, targetKB: nat, k: nat) {
    WithinTolerance(size(k), targetKB) || k >= FloorStep || (k > 0 && size(k) >= size(k - 1))
  }

  /** The step whose blob is handed to the callback, searching from step k. */
  function StopStep(size: nat -> nat, targetKB: nat, k: nat): (r: nat)
    requires k <= FloorStep
    ensures k <= r <= FloorStep && StopsAt(size, targetKB, r)
    ensures forall j :: k <= j < r ==> !StopsAt(size, targetKB, j)
    decreases FloorStep - k
  {
    if StopsAt(size, targetKB, k) then k else StopStep(size, targetKB, k + 1)
  }

  /** Every encoding from step 0 through step n resolves. */
  predicate EncodesThrough(encodes: nat -> bool, n: nat) {
    forall j :: 0 <= j <= n ==> encodes(j)
  }

  /** Every encoding before step n resolved. */
  predicate EncodedBefore(encodes: nat -> bool, n: nat) {
    forall j :: 0 <= j < n ==> encodes(j)
  }

  lemma EncodedStep(encodes: nat -> bool, n: nat)
    requires EncodedBefore(encodes, n) && encodes(n)
    ensures EncodedBefore(encodes, n + 1) && EncodesThrough(encodes, n)
  {
  }

  /**
   * compressImage's `compress` recursion as a loop: encode at the current
   * quality, stop and call back with that blob, or lower the quality by one
   * step, remember the size and go on. A capture that does not decode
   * (`decodes`) ends in the `.catch`, and an encoding that rejects
   * (`encodes(k)` false) ends the chain; neither calls back. Returns the
   * steps called back with.
   */
  method CompressImage(size: nat -> nat, targetKB: nat, decodes: bool, encodes: nat -> bool)
    returns (callbacks: seq<nat>)
    ensures callbacks == if decodes && EncodesThrough(encodes, StopStep(size, targetKB, 0))
      then [StopStep(size, targetKB, 0)] else []
  {
    callbacks := [];
    if !decodes {
      return;
    }
    var currentStep := 0;
    var lastBlobSize: nat := 0;
    var hasLast := false;
    while callbacks == [] && encodes(currentStep)
      invariant currentStep <= FloorStep
      invariant hasLast <==> currentStep > 0
      invariant hasLast ==> lastBlobSize == size(currentStep - 1)
      invariant StopStep(size, targetKB, 0) == StopStep(size, targetKB, currentStep)
      invariant EncodedBefore(encodes, currentStep)
      invariant callbacks != [] ==> callbacks == [currentStep] && StopsAt(size, targetKB, currentStep) && encodes(currentStep)
      decreases FloorStep - currentStep + (if callbacks == [] then 1 else 0)
    {
      var blobSize := size(currentStep);
      if WithinTolerance(blobSize, targetKB) || currentStep >= FloorStep || (hasLast && blobSize >= lastBlobSize) {
        callbacks := callbacks + [currentStep];
      } else {
        EncodedStep(encodes, currentStep);
        currentStep := currentStep + 1;
        lastBlobSize := blobSize;
        hasLast := true;
      }
    }
    if callbacks == [] {
      assert currentStep <= StopStep(size, targetKB, currentStep);
      assert !EncodesThrough(encodes, StopStep(size, targetKB, 0));
    } else {
      assert StopStep(size, targetKB, currentStep) == currentStep;
      EncodedStep(encodes, currentStep);
    }
  }

  /** At most 19 encodings are made, whatever the encoder reports. */
  lemma AtMostNineteenEncodes(size: nat -> nat, targetKB: nat)
    ensures StopStep(size, targetKB, 0) + 1 <= 19
  {
  }

  /**
   * The size guard cannot fire on the first encoding: a first blob more
   * than 1 KB under the target does not stop the loop, however small.
   */
  lemma FarUnderTargetContinues(size: nat -> nat, targetKB: nat)
    requires size(0) + 1024 <= targetKB * 1024
    ensures StopStep(size, targetKB, 0) >= 1
  {
  }

  /** A blob that does not shrink stops the loop right there. */
  lemma GrowthStops(size: nat -> nat, targetKB: nat, k: nat)
    requires 0 < k <= FloorStep && size(k) >= size(k - 1)
    requires forall j :: 0 <= j < k ==> !StopsAt(size, targetKB, j)
    ensures StopStep(size, targetKB, 0) == k
  {
    StopFromEarlier(size, targetKB, 0, k);
  }

  /** Steps that do not stop are skipped over. */
  lemma {:induction false} StopFromEarlier(size: nat -> nat, targetKB: nat, i: nat, k: nat)
    requires i <= k <= FloorStep && StopsAt(size, targetKB, k)
    requires forall j :: i <= j < k ==> !StopsAt(size, targetKB, j)
    ensures StopStep(size, targetKB, i) == k
    decreases k - i
  {
    if i < k {
      StopFromEarlier(size, targetKB, i + 1, k);
    }
  }

  /** Ever-shrinking blobs that never come within 1 KB of the target run to the floor: 19 encodings. */
  lemma ShrinkingFarFromTargetRunsToFloor(size: nat -> nat, targetKB: nat)
    requires forall k :: 0 < k <= FloorStep ==> size(k) < size(k - 1)
    requires forall k :: 0 <= k <= FloorStep ==> !WithinTolerance(size(k), targetKB)
    ensures StopStep(size, targetKB, 0) == FloorStep
  {
    StopFromEarlier(size, targetKB, 0, FloorStep);
  }
}
