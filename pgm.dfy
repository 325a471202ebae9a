/**
 * The binary graymap container ("P5") the embedded reference image is stored
 * in: `parse_pgm`, which reads its header and borrows the pixel bytes that
 * follow, and the header `preset_pgm_handler` writes in front of the pixels.
 */
module Pgm {
  import opened Bytes
  import opened Wrappers

  /** `pgm_t`: the pixel slice (the bytes `buf` points at, `len` of them) and the declared size. */
  datatype Pgm = Pgm(buf: seq<byte>, len: nat, width: nat, height: nat)

  /** One `%zu` conversion: the value read and the index just past its digits. */
  datatype Scanned = Scanned(value: nat, next: nat)

  datatype Dims = Dims(width: nat, height: nat)

  const LETTER_P: byte := 80
  const DIGIT_5: byte := 53

  /**
   * `strchr(image, '\n')`: the index of the first newline, searched from `i`;
   * the search gives up at a NUL byte (the end of the C string) and, unlike
   * `strchr`, at the end of the buffer.
   */
  function NewlineFrom(image: seq<byte>, i: nat): (r: Option<nat>)
    requires i <= |image|
    ensures r.Some? ==> i <= r.value < |image| && image[r.value] == NEWLINE
    ensures r.Some? ==> forall j :: i <= j < r.value ==> image[j] != NEWLINE && image[j] != NUL
    ensures r.None? ==>
      forall j :: i <= j < |image| && image[j] == NEWLINE ==> exists k :: i <= k < j && image[k] == NUL
    decreases |image| - i
  {
    if i == |image| then None
    else if image[i] == NEWLINE then Some(i)
    else if image[i] == NUL then None
    else NewlineFrom(image, i + 1)
  }

  /**
   * `strchr(image, '\n')` from the start: the length of the header line,
   * which holds neither newline nor NUL; no header when a NUL comes first.
   */
  function HeaderEnd(image: seq<byte>): (r: Option<nat>)
    ensures r.Some? ==> r.value < |image| && image[r.value] == NEWLINE
    ensures r.Some? ==> NEWLINE !in image[..r.value] && NUL !in image[..r.value]
    ensures r.None? ==> forall j :: 0 <= j < |image| && image[j] == NEWLINE ==> NUL in image[..j]
  {
    NewlineFrom(image, 0)
  }

  /** The whitespace a blank in a `sscanf` format, and every numeric conversion, skips. */
  function SkipSpaces(h: seq<byte>, i: nat): (j: nat)
    requires i <= |h|
    ensures i <= j <= |h|
    ensures forall k :: i <= k < j ==> IsSpace(h[k])
    ensures j < |h| ==> !IsSpace(h[j])
    decreases |h| - i
  {
    if i < |h| && IsSpace(h[i]) then SkipSpaces(h, i + 1) else i
  }

  /** The end of the longest run of digits starting at `i`. */
  function DigitsEnd(h: seq<byte>, i: nat): (j: nat)
    requires i <= |h|
    ensures i <= j <= |h|
    ensures AllDigits(h[i..j])
    ensures j < |h| ==> !IsDigit(h[j])
    decreases |h| - i
  {
    if i < |h| && IsDigit(h[i]) then DigitsEnd(h, i + 1) else i
  }

  /**
   * `%zu` read from index `i`: leading whitespace, then at least one digit.
   * It fails exactly when no digit follows the whitespace, and it reads the
   * whole run of digits.
   */
  function ScanSize(h: seq<byte>, i: nat): (r: Option<Scanned>)
    requires i <= |h|
    ensures var s := SkipSpaces(h, i); r.None? <==> s == |h| || !IsDigit(h[s])
    ensures r.Some? ==> i < r.value.next <= |h|
    ensures r.Some? ==> r.value.next == |h| || !IsDigit(h[r.value.next])
  {
    var s := SkipSpaces(h, i);
    var e := DigitsEnd(h, s);
    if e == s then None else Some(Scanned(DecimalValue(h[s..e]), e))
  }

  /** The `"P5 %zu"` part of the format: the literal `P5`, then the width. */
  function ScanWidth(h: seq<byte>): (r: Option<Scanned>)
    ensures r.Some? ==> |h| >= 2 && h[0] == LETTER_P && h[1] == DIGIT_5 && 2 < r.value.next <= |h|
  {
    if |h| < 2 || h[0] != LETTER_P || h[1] != DIGIT_5 then None else ScanSize(h, 2)
  }

  /**
   * `sscanf(header, "P5 %zu %zu %*d", ...) == 2`: the width and height, when
   * both are read; a header scans only when its width does, and reports that width.
   */
  function ScanHeader(h: seq<byte>): (r: Option<Dims>)
    ensures r.Some? ==> ScanWidth(h).Some? && r.value.width == ScanWidth(h).value.value
  {
    match ScanWidth(h)
    case None => None
    case Some(w) =>
      match ScanSize(h, w.next)
      case None => None
      case Some(ht) => Some(Dims(w.value, ht.value))
  }

  /** `parse_pgm` returning 0: the header's size and the pixels that follow its newline. */
  function Parse(image: seq<byte>): (r: Option<Pgm>)
    ensures r.Some? ==> r.value.len == |r.value.buf| < |image|
    ensures r.Some? ==> r.value.buf == image[|image| - r.value.len..]
  {
    match HeaderEnd(image)
    case None => None
    case Some(n) =>
      match ScanHeader(image[..n])
      case None => None
      case Some(d) => Some(Pgm(image[n + 1..], |image| - n - 1, d.width, d.height))
  }

  /** The width `sscanf` stores, whether or not it goes on to read a height. */
  function ScannedWidth(image: seq<byte>): (r: Option<nat>)
    ensures Parse(image).Some? ==> r == Some(Parse(image).value.width)
  {
    match HeaderEnd(image)
    case None => None
    case Some(n) =>
      match ScanWidth(image[..n])
      case None => None
      case Some(w) => Some(w.value)
  }

  /**
   * What the caller's `pgm_t` holds after `parse_pgm`, whatever it returned:
   * the parsed header on success, otherwise what it held before (`prior`)
   * with the width overwritten if `sscanf` got that far.
   */
  function Written(image: seq<byte>, prior: Pgm): (r: Pgm)
    ensures Parse(image).Some? ==> r == Parse(image).value
    ensures Parse(image).None? ==> r.buf == prior.buf && r.len == prior.len && r.height == prior.height
  {
    match Parse(image)
    case Some(p) => p
    case None =>
      match ScannedWidth(image)
      case Some(w) => prior.(width := w)
      case None => prior
  }

  /** `parse_pgm`: 0 or -1, and what it leaves in the caller's struct. */
  method ParsePgm(image: seq<byte>, prior: Pgm) returns (status: int, pgm: Pgm)
    ensures status == 0 || status == -1
    ensures status == 0 <==> Parse(image).Some?
    ensures status == 0 ==> pgm == Parse(image).value
    ensures pgm == Written(image, prior)
  {
    var r := Parse(image);
    pgm := Written(image, prior);
    status := if r.Some? then 0 else -1;
  }

  /** The header `preset_pgm_handler` formats: `"P5 %d %d %d\n"` with width, height and 255. */
  function Header(width: nat, height: nat): (r: seq<byte>)
    ensures |r| > 3 && r[..3] == [LETTER_P, DIGIT_5, SPACE] && r[|r| - 1] == NEWLINE
  {
    [LETTER_P, DIGIT_5, SPACE] + Decimal(width) + [SPACE] + Decimal(height) + [SPACE] + Decimal(255) + [NEWLINE]
  }

  /** The container `preset_pgm_handler` streams: header, then the pixel bytes. */
  function Serialise(width: nat, height: nat, pixels: seq<byte>): seq<byte> {
    Header(width, height) + pixels
  }

  /** A successful parse borrows exactly the bytes after the first newline. */
  lemma ParseSlice(image: seq<byte>) returns (n: nat)
    requires Parse(image).Some?
    ensures n < |image| && image[n] == NEWLINE && NEWLINE !in image[..n]
    ensures Parse(image).value.buf == image[n + 1..]
    ensures Parse(image).value.len == |image| - n - 1
  {
    n := HeaderEnd(image).value;
    assert forall j :: 0 <= j < n ==> image[..n][j] == image[j];
  }

  /** Without a newline there is no header: -1, and the caller's struct is untouched. */
  lemma ParseNeedsNewline(image: seq<byte>, prior: Pgm)
    requires NEWLINE !in image
    ensures Parse(image) == None
    ensures Written(image, prior) == prior
  {
  }

  /** `strchr` stops at a NUL: a NUL before the first newline hides the header. */
  lemma ParseStopsAtNul(image: seq<byte>, k: nat, prior: Pgm)
    requires k < |image| && image[k] == NUL && NEWLINE !in image[..k]
    ensures Parse(image) == None
    ensures Written(image, prior) == prior
  {
  }

  /** The whole-buffer index of the first newline of a header containing neither newline nor NUL. */
  lemma HeaderEndAfter(head: seq<byte>, tail: seq<byte>)
    requires NEWLINE !in head && NUL !in head
    ensures HeaderEnd(head + [NEWLINE] + tail) == Some(|head|)
  {
    var image := head + [NEWLINE] + tail;
    assert image[|head|] == NEWLINE;
    var r := HeaderEnd(image);
    assert forall k :: 0 <= k < |head| ==> image[k] == head[k];
  }

  /** Reading one numeral that ends at a non-digit. */
  lemma ScanNumeral(h: seq<byte>, i: nat, n: nat)
    requires i < |h| && IsSpace(h[i])
    requires i + 1 + |Decimal(n)| <= |h|
    requires h[i + 1..i + 1 + |Decimal(n)|] == Decimal(n)
    requires i + 1 + |Decimal(n)| < |h| ==> !IsDigit(h[i + 1 + |Decimal(n)|])
    ensures ScanSize(h, i) == Some(Scanned(n, i + 1 + |Decimal(n)|))
  {
    var d := Decimal(n);
    DecimalNumeral(n);
    var end := i + 1 + |d|;
    assert h[i + 1] == d[0];
    var s := SkipSpaces(h, i);
    assert s == i + 1;
    assert forall k :: s <= k < end ==> IsDigit(h[k]) by {
      forall k | s <= k < end
        ensures IsDigit(h[k])
      {
        assert h[k] == d[k - s];
      }
    }
    DigitsEndAt(h, s, end);
    assert h[s..end] == d;
  }

  /** A run of digits from `s` to a non-digit (or the end) at `end` is what `DigitsEnd` finds. */
  lemma {:induction false} DigitsEndAt(h: seq<byte>, s: nat, end: nat)
    requires s <= end <= |h|
    requires forall k :: s <= k < end ==> IsDigit(h[k])
    requires end < |h| ==> !IsDigit(h[end])
    ensures DigitsEnd(h, s) == end
    decreases end - s
  {
    if s < end {
      DigitsEndAt(h, s + 1, end);
    }
  }

  /** The header line, before its newline: `"P5 <w> <h>"` and whatever follows the height. */
  function HeaderLine(w: nat, h: nat, rest: seq<byte>): seq<byte> {
    [LETTER_P, DIGIT_5, SPACE] + Decimal(w) + [SPACE] + Decimal(h) + rest
  }

  lemma HeaderLineIsText(w: nat, h: nat, rest: seq<byte>)
    requires NEWLINE !in rest && NUL !in rest
    ensures NEWLINE !in HeaderLine(w, h, rest) && NUL !in HeaderLine(w, h, rest)
  {
    var dw, dh, head := Decimal(w), Decimal(h), HeaderLine(w, h, rest);
    DecimalNumeral(w);
    DecimalNumeral(h);
    forall k | 0 <= k < |head|
      ensures head[k] != NEWLINE && head[k] != NUL
    {
      if 3 <= k < 3 + |dw| {
        assert head[k] == dw[k - 3];
      } else if 4 + |dw| <= k < 4 + |dw| + |dh| {
        assert head[k] == dh[k - 4 - |dw|];
      } else if 4 + |dw| + |dh| <= k {
        assert head[k] == rest[k - 4 - |dw| - |dh|];
      }
    }
  }

  /** `sscanf` reads exactly the width and height from a header line. */
  lemma ScanHeaderLine(w: nat, h: nat, rest: seq<byte>)
    requires rest != [] ==> !IsDigit(rest[0])
    ensures ScanHeader(HeaderLine(w, h, rest)) == Some(Dims(w, h))
  {
    var dw, dh, head := Decimal(w), Decimal(h), HeaderLine(w, h, rest);
    assert head[3..3 + |dw|] == dw;
    assert head[3 + |dw|] == SPACE;
    ScanNumeral(head, 2, w);
    var e := 4 + |dw| + |dh|;
    assert head[4 + |dw|..e] == dh;
    if e < |head| {
      assert head[e] == rest[0];
    }
    ScanNumeral(head, 3 + |dw|, h);
  }

  /**
   * A header `"P5 <w> <h>"` followed by anything that does not continue the
   * height's digits and holds no newline or NUL parses to exactly that width,
   * height and pixel suffix; the trailing maxval is not needed.
   */
  lemma ParseHeader(w: nat, h: nat, rest: seq<byte>, pixels: seq<byte>)
    requires NEWLINE !in rest && NUL !in rest
    requires rest != [] ==> !IsDigit(rest[0])
    ensures Parse(HeaderLine(w, h, rest) + [NEWLINE] + pixels) == Some(Pgm(pixels, |pixels|, w, h))
  {
    var head := HeaderLine(w, h, rest);
    var image := head + [NEWLINE] + pixels;
    HeaderLineIsText(w, h, rest);
    HeaderEndAfter(head, pixels);
    assert image[..|head|] == head;
    assert image[|head| + 1..] == pixels;
    ScanHeaderLine(w, h, rest);
  }

  /** Serialising as `preset_pgm_handler` does and parsing again gives back the size and exactly the pixels. */
  lemma RoundTrip(width: nat, height: nat, pixels: seq<byte>)
    ensures Parse(Serialise(width, height, pixels)) == Some(Pgm(pixels, |pixels|, width, height))
  {
    var rest := [SPACE] + Decimal(255);
    DecimalNumeral(255);
    assert NUL !in rest && NEWLINE !in rest by {
      forall k | 1 <= k < |rest| ensures rest[k] != NUL && rest[k] != NEWLINE {
        assert rest[k] == Decimal(255)[k - 1];
      }
    }
    SerialiseLine(width, height, pixels);
    ParseHeader(width, height, rest, pixels);
  }

  /** The container is a header line with the maxval as its trailer, a newline, and the pixels. */
  lemma SerialiseLine(width: nat, height: nat, pixels: seq<byte>)
    ensures Serialise(width, height, pixels) == HeaderLine(width, height, [SPACE] + Decimal(255)) + [NEWLINE] + pixels
  {
  }

  /** The maxval is assignment-suppressed: `"P5 <w> <h>\n"` alone still parses. */
  lemma ParseWithoutMaxval(width: nat, height: nat, pixels: seq<byte>)
    ensures Parse([LETTER_P, DIGIT_5, SPACE] + Decimal(width) + [SPACE] + Decimal(height) + [NEWLINE] + pixels)
         == Some(Pgm(pixels, |pixels|, width, height))
  {
    ParseHeader(width, height, [], pixels);
    assert HeaderLine(width, height, []) == [LETTER_P, DIGIT_5, SPACE] + Decimal(width) + [SPACE] + Decimal(height);
  }

  /** `"P5 <w>"` with nothing after the width: a line of text whose width scans and after which no height follows. */
  lemma WidthOnly(width: nat)
    ensures var head := [LETTER_P, DIGIT_5, SPACE] + Decimal(width);
      && NEWLINE !in head && NUL !in head
      && ScanWidth(head) == Some(Scanned(width, |head|))
      && ScanSize(head, |head|) == None
  {
    var dw := Decimal(width);
    DecimalNumeral(width);
    var head := [LETTER_P, DIGIT_5, SPACE] + dw;
    forall k | 0 <= k < |head|
      ensures head[k] != NEWLINE && head[k] != NUL
    {
      if k >= 3 {
        assert head[k] == dw[k - 3];
      }
    }
    assert head[3..3 + |dw|] == dw;
    ScanNumeral(head, 2, width);
    assert SkipSpaces(head, |head|) == |head|;
  }

  /**
   * A header with a width but no height fails, yet the width has already been
   * stored in the caller's struct.
   */
  lemma ParseNeedsHeight(width: nat, pixels: seq<byte>, prior: Pgm)
    ensures Parse([LETTER_P, DIGIT_5, SPACE] + Decimal(width) + [NEWLINE] + pixels) == None
    ensures Written([LETTER_P, DIGIT_5, SPACE] + Decimal(width) + [NEWLINE] + pixels, prior) == prior.(width := width)
  {
    var head := [LETTER_P, DIGIT_5, SPACE] + Decimal(width);
    var image := head + [NEWLINE] + pixels;
    assert image == [LETTER_P, DIGIT_5, SPACE] + Decimal(width) + [NEWLINE] + pixels;
    WidthOnly(width);
    HeaderEndAfter(head, pixels);
    assert image[..|head|] == head;
  }

  /** The declared size is not checked against the pixel count. */
  lemma ParseIgnoresPixelCount(width: nat, height: nat, pixels: seq<byte>)
    requires |pixels| != width * height
    ensures Parse(Serialise(width, height, pixels)).Some?
    ensures Parse(Serialise(width, height, pixels)).value.len != width * height
  {
    RoundTrip(width, height, pixels);
  }
}
