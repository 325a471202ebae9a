/**
 * The quirc library as the firmware drives it: an object that is allocated,
 * sized to the frame, loaded with a grayscale bitmap, scanned once for QR
 * symbols, asked to decode symbols by index, and destroyed. Locating and
 * decoding themselves are not modelled; they are an oracle (`Locator`).
 */
module Quirc {
  import opened Bytes
  import opened Wrappers

  /** The bytes of a decoded symbol (`quirc_data.payload`, `payload_len` of them). */
  type Payload = seq<byte>

  /**
   * What `quirc_end` finds in a `width` x `height` bitmap, and what
   * `quirc_extract` followed by `quirc_decode` makes of each symbol found:
   * one entry per located symbol in quirc's index order, `None` where decoding
   * that symbol fails.
   */
  type Locator = (nat, nat, seq<byte>) -> seq<Option<Payload>>

  /** The object's lifecycle; there is no way back from `Destroyed`. */
  datatype Stage = Allocated | Sized | Loading | Located | Destroyed

  /** `size` zero bytes: a freshly allocated, cleared bitmap. */
  function Zeros(size: nat): (r: seq<byte>)
    ensures |r| == size && forall i :: 0 <= i < size ==> r[i] == 0
  {
    seq(size, _ => 0)
  }

  /** `struct quirc` */
  class Quirc {
    var width: nat
    var height: nat
    var image: array<byte>
    var codes: seq<Option<Payload>>
    ghost var stage: Stage

    ghost predicate Valid()
      reads this
    {
      image.Length == width * height
    }

    /** `quirc_new` once its allocation is granted: no bitmap yet. */
    constructor ()
      ensures Valid() && stage == Allocated
      ensures width == 0 && height == 0 && codes == [] && fresh(image)
    {
      width, height := 0, 0;
      image := new byte[0];
      codes := [];
      stage := Allocated;
    }

    /** `quirc_new`: `null` when the allocation is refused. */
    static method New(granted: bool) returns (q: Quirc?)
      ensures (q != null) == granted
      ensures q != null ==> fresh(q) && fresh(q.image) && q.Valid() && q.stage == Allocated && q.codes == []
    {
      if granted {
        q := new Quirc();
      } else {
        q := null;
      }
    }

    /** `quirc_resize`: a cleared `w` x `h` bitmap, or an error and no change when the allocation is refused. */
    method Resize(w: nat, h: nat, granted: bool) returns (failed: bool)
      requires Valid() && stage == Allocated
      modifies this
      ensures failed == !granted
      ensures failed ==> unchanged(this)
      ensures !failed ==> Valid() && stage == Sized && width == w && height == h && codes == old(codes)
      ensures !failed ==> fresh(image) && image[..] == Zeros(w * h)
    {
      if !granted {
        return true;
      }
      failed := false;
      width, height := w, h;
      image := new byte[w * h](_ => 0);
      stage := Sized;
    }

    /** `quirc_begin`: hands out the bitmap for the caller to fill. */
    method Begin() returns (bitmap: array<byte>)
      requires stage == Sized
      modifies this`stage
      ensures stage == Loading && bitmap == image
    {
      bitmap := image;
      stage := Loading;
    }

    /** `quirc_end`: one locate pass over the bitmap; the symbol list is fixed from here on. */
    method End(locate: Locator)
      requires Valid() && stage == Loading
      modifies this`codes, this`stage
      ensures stage == Located && codes == locate(width, height, image[..])
    {
      codes := locate(width, height, image[..]);
      stage := Located;
    }

    /** `quirc_count` */
    function Count(): nat
      reads this
    {
      |codes|
    }

    /** `quirc_extract` then `quirc_decode` for symbol `i`: its payload, or `None` when decoding fails. */
    method Decode(i: nat) returns (data: Option<Payload>)
      requires stage == Located && i < |codes|
      ensures data == codes[i]
    {
      data := codes[i];
    }

    /** `quirc_destroy` */
    method Destroy()
      requires stage != Destroyed
      modifies this`stage
      ensures stage == Destroyed
    {
      stage := Destroyed;
    }
  }
}
