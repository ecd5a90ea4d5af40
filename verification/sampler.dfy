/** ytdl_img_extractor.py, `VideoProcessor.extract_images`: the frame-sampling
    loop. The OpenCV capture is replaced by a decoder over an abstract sequence
    of decoded frames; writing a frame is recording it, with its file name, in
    the list of images the loop produces. */
module Sampler {
  import opened Wrappers
  import Decimal

  /** One `cv2.imwrite`: the decoded-frame index, the file name under
      `Images/`, and the frame written. */
  datatype Image<F> = Image(index: nat, name: string, frame: F)

  /** The decoder: the frames the file decodes to, and how many were read. */
  datatype Decoder<F> = Decoder(frames: seq<F>, position: nat)

  /** `vidcap.read()`: the next frame, or nothing once the frames are exhausted. */
  function Read<F>(d: Decoder<F>): (r: (Option<F>, Decoder<F>))
    requires d.position <= |d.frames|
    ensures r.1.frames == d.frames
    ensures d.position < |d.frames| ==> r.0 == Some(d.frames[d.position]) && r.1.position == d.position + 1
    ensures d.position == |d.frames| ==> r.0 == None && r.1 == d
  {
    if d.position < |d.frames| then (Some(d.frames[d.position]), d.(position := d.position + 1))
    else (None, d)
  }

  /** `f"frame_{str(count)}.jpg"`: the index in decimal between a fixed
      prefix and suffix, from which it can be read back. */
  function FrameFileName(count: nat): (name: string)
    ensures |name| > 10 && name[..6] == "frame_" && name[|name| - 4..] == ".jpg"
    ensures Decimal.AllDigits(name[6..|name| - 4])
    ensures Decimal.ParseNat(name[6..|name| - 4]) == count
  {
    var digits := Decimal.NatToString(count);
    var name := "frame_" + digits + ".jpg";
    assert name[6..|name| - 4] == digits;
    Decimal.ParseNatToString(count);
    name
  }

  /** Different decoded indices give different file names, so no image
      overwrites another. */
  lemma FrameFileNameInjective(a: nat, b: nat)
    ensures FrameFileName(a) == FrameFileName(b) ==> a == b
  {
    var na, nb := FrameFileName(a), FrameFileName(b);
    if na == nb {
      assert na[6..|na| - 4] == Decimal.NatToString(a);
      assert nb[6..|nb| - 4] == Decimal.NatToString(b);
      Decimal.NatToStringInjective(a, b);
    }
  }

  /** `ceil(length / fps)`: how many of `length` decoded indices are multiples of `fps`. */
  function NumImages(length: nat, fps: nat): nat
    requires fps > 0
  {
    (length + fps - 1) / fps
  }

  lemma MulAtLeast(d: int, n: int)
    requires d >= 1 && n > 0
    ensures d * n >= n
  {
  }

  /** Euclidean division is determined by a quotient and a remainder in range. */
  lemma DivUnique(a: int, n: int, q: int, r: int)
    requires n > 0 && 0 <= r < n && a == q * n + r
    ensures a / n == q && a % n == r
  {
    var q', r' := a / n, a % n;
    assert a == q' * n + r';
    if q' < q {
      assert (q - q') * n == r' - r;
      MulAtLeast(q - q', n);
    } else if q' > q {
      assert (q' - q) * n == r - r';
      MulAtLeast(q' - q, n);
    }
  }

  /** Decoding one more frame adds one image exactly when its index is a
      multiple of `fps`, and that index is then the one the next image gets. */
  lemma {:induction false} NumImagesStep(count: nat, fps: nat)
    requires fps > 0
    ensures count % fps == 0 ==> NumImages(count, fps) * fps == count && NumImages(count + 1, fps) == NumImages(count, fps) + 1
    ensures count % fps != 0 ==> NumImages(count + 1, fps) == NumImages(count, fps)
  {
    var q, r := count / fps, count % fps;
    assert count == q * fps + r;
    if r == 0 {
      DivUnique(count + fps - 1, fps, q, fps - 1);
      DivUnique(count + fps, fps, q + 1, 0);
    } else {
      DivUnique(count + fps - 1, fps, q + 1, r - 1);
      DivUnique(count + fps, fps, q + 1, r);
    }
  }

  /** The k-th image of a run over `length` frames has an index below `length`. */
  lemma {:induction false} NumImagesBound(length: nat, fps: nat, k: nat)
    requires fps > 0 && k < NumImages(length, fps)
    ensures k * fps < length
  {
    var q, r := (length + fps - 1) / fps, (length + fps - 1) % fps;
    assert length + fps - 1 == q * fps + r;
    assert (q - 1) * fps == q * fps - fps;
    MulMonotone(k, q - 1, fps);
  }

  lemma MulMonotone(a: int, b: int, n: int)
    requires 0 <= a <= b && n >= 0
    ensures a * n <= b * n
  {
  }

  /** The reference: image k is decoded frame `k * fps`, named after that index. */
  function Sample<F>(frames: seq<F>, fps: nat): (images: seq<Image<F>>)
    requires fps > 0
  {
    seq(NumImages(|frames|, fps), k requires 0 <= k < NumImages(|frames|, fps) =>
      NumImagesBound(|frames|, fps, k);
      Image(k * fps, FrameFileName(k * fps), frames[k * fps]))
  }

  /** The decoded indices written. */
  function Indices<F>(images: seq<Image<F>>): set<nat> {
    set k | 0 <= k < |images| :: images[k].index
  }

  /** The indices below `length` the rule `count % fps == 0` keeps. */
  function Kept(length: nat, fps: nat): set<nat>
    requires fps > 0
  {
    set i: nat | i < length && i % fps == 0
  }

  /** What the loop has written after `count` decoded frames: image k is frame
      `k * fps`, below `count`, named after its index. */
  ghost predicate WrittenSoFar<F>(images: seq<Image<F>>, frames: seq<F>, fps: nat, count: nat)
    requires fps > 0 && count <= |frames|
  {
    && |images| == NumImages(count, fps)
    && forall k :: 0 <= k < |images| ==>
         && images[k].index == k * fps
         && images[k].index < count
         && images[k].name == FrameFileName(images[k].index)
         && images[k].frame == frames[images[k].index]
  }

  /** Once every frame is decoded, what was written is the reference sample. */
  lemma WrittenAllIsSample<F>(images: seq<Image<F>>, frames: seq<F>, fps: nat)
    requires fps > 0 && WrittenSoFar(images, frames, fps, |frames|)
    ensures images == Sample(frames, fps)
  {
  }

  /** The frame-sampling loop. Reads until the decoder reports no frame,
      writes the frame at index `count` when `count % fps == 0`, and counts
      every decoded frame whether or not it was written. */
  method ExtractImages<F>(frames: seq<F>, fps: nat) returns (images: seq<Image<F>>, count: nat)
    requires fps > 0
    ensures count == |frames|
    ensures images == Sample(frames, fps)
    ensures |images| == (|frames| + fps - 1) / fps
    ensures Indices(images) == Kept(|frames|, fps)
    ensures forall a, b :: 0 <= a < b < |images| ==> images[a].index < images[b].index
  {
    var decoder := Decoder(frames, 0);
    count := 0;
    images := [];
    while true
      invariant decoder.frames == frames && decoder.position <= |frames|
      invariant count == decoder.position
      invariant WrittenSoFar(images, frames, fps, count)
      invariant forall a, b :: 0 <= a < b < |images| ==> images[a].index < images[b].index
      decreases |frames| - decoder.position
    {
      var (ret, next) := Read(decoder);
      decoder := next;
      if ret.None? {
        break;
      }
      NumImagesStep(count, fps);
      if count % fps == 0 {
        images := images + [Image(count, FrameFileName(count), ret.value)];
      }
      count := count + 1;
    }
    WrittenAllIsSample(images, frames, fps);
    SampleIndices(frames, fps);
  }

  /** Image k of the reference sample. */
  lemma SampleAt<F>(frames: seq<F>, fps: nat, k: nat)
    requires fps > 0 && k < NumImages(|frames|, fps)
    ensures |Sample(frames, fps)| == NumImages(|frames|, fps)
    ensures k * fps < |frames|
    ensures Sample(frames, fps)[k] == Image(k * fps, FrameFileName(k * fps), frames[k * fps])
  {
    NumImagesBound(|frames|, fps, k);
  }

  /** Every multiple of `fps` below the frame count is sampled. */
  lemma SampleCoversKept<F>(frames: seq<F>, fps: nat, i: nat)
    requires fps > 0 && i < |frames| && i % fps == 0
    ensures i in Indices(Sample(frames, fps))
  {
    var k := i / fps;
    assert i == k * fps;
    var n := NumImages(|frames|, fps);
    if n <= k {
      assert |frames| + fps - 1 == n * fps + (|frames| + fps - 1) % fps;
      MulMonotone(n, k, fps);
      assert false;
    }
    SampleAt(frames, fps, k);
    assert Sample(frames, fps)[k].index == i;
  }

  /** Every sampled index is a multiple of `fps` below the frame count. */
  lemma SampleWithinKept<F>(frames: seq<F>, fps: nat, k: nat)
    requires fps > 0 && k < |Sample(frames, fps)|
    ensures Sample(frames, fps)[k].index in Kept(|frames|, fps)
  {
    SampleAt(frames, fps, k);
    DivUnique(k * fps, fps, k, 0);
    var i: nat := k * fps;
    assert i < |frames| && i % fps == 0;
  }

  /** The sampled indices are exactly the multiples of `fps` below the frame count. */
  lemma SampleIndices<F>(frames: seq<F>, fps: nat)
    requires fps > 0
    ensures Indices(Sample(frames, fps)) == Kept(|frames|, fps)
  {
    forall i: nat | i < |frames| && i % fps == 0
      ensures i in Indices(Sample(frames, fps))
    {
      SampleCoversKept(frames, fps, i);
    }
    forall k | 0 <= k < |Sample(frames, fps)|
      ensures Sample(frames, fps)[k].index in Kept(|frames|, fps)
    {
      SampleWithinKept(frames, fps, k);
    }
  }

  /** No file name is written twice. */
  lemma SampleNamesDistinct<F>(frames: seq<F>, fps: nat, a: nat, b: nat)
    requires fps > 0 && a < b < |Sample(frames, fps)|
    ensures Sample(frames, fps)[a].name != Sample(frames, fps)[b].name
  {
    MulAtLeast(b - a, fps);
    assert b * fps - a * fps == (b - a) * fps;
    FrameFileNameInjective(a * fps, b * fps);
  }

  /** With `fps == 1` every decoded frame is written, under its own index. */
  lemma SampleEveryFrame<F>(frames: seq<F>)
    ensures |Sample(frames, 1)| == |frames|
    ensures forall i :: 0 <= i < |frames| ==>
              Sample(frames, 1)[i] == Image(i, FrameFileName(i), frames[i])
  {
  }
}
