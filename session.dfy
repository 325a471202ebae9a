/**
 * The decode session and the result aggregator: `qr_init`, `qr_read`,
 * `qr_deinit`, the HTTP success callback and `qr_read_all`, each proved
 * against a function that says what trace it leaves.
 */
module Session {
  import opened Bytes
  import opened Wrappers
  import opened Quirc
  import opened Device

  /** `memcpy(image, buf, buf_len)` into a `w` x `h` bitmap stays inside both buffers. */
  predicate CopyFits(buf: seq<byte>, len: nat, w: nat, h: nat) {
    len <= |buf| && len <= w * h
  }

  /** The bitmap quirc scans: the first `len` frame bytes, the rest of the cleared `size`-byte image untouched. */
  function Bitmap(buf: seq<byte>, len: nat, size: nat): (r: seq<byte>)
    requires len <= |buf| && len <= size
    ensures |r| == size && r[..len] == buf[..len]
    ensures forall i :: len <= i < size ==> r[i] == 0
  {
    buf[..len] + Zeros(size - len)
  }

  /**
   * What `qr_init` leaves behind given whether `quirc_new` and `quirc_resize`
   * get their memory: no session (NULL), or a session and the result of
   * locating and decoding the symbols in the copied bitmap.
   */
  function InitResult(buf: seq<byte>, len: nat, w: nat, h: nat, newOk: bool, resizeOk: bool, locate: Locator)
    : Option<seq<Option<Payload>>>
    requires CopyFits(buf, len, w, h)
  {
    if newOk && resizeOk then Some(locate(w, h, Bitmap(buf, len, w * h))) else None
  }

  /** The quirc objects `qr_init` creates and destroys: once `quirc_new` succeeds there is one, and a failed resize destroys it. */
  function InitTrace(newOk: bool, resizeOk: bool): seq<Event> {
    if !newOk then [] else if !resizeOk then [SessionCreated, SessionDestroyed] else [SessionCreated]
  }

  /** The allocations `qr_init` asks for: `quirc_resize` is reached only after `quirc_new` succeeds. */
  function InitAllocations(newOk: bool): nat {
    if newOk then 2 else 1
  }

  /** `qr_init` */
  method QrInit(dev: Device, buf: seq<byte>, len: nat, w: nat, h: nat, locate: Locator)
    returns (q: Quirc?, numCodes: int)
    requires dev.Valid() && CopyFits(buf, len, w, h)
    modifies dev`allocations, dev`trace
    ensures dev.Valid() && dev.sent == old(dev.sent)
    ensures dev.allocations == old(dev.allocations) + InitAllocations(dev.grants(old(dev.allocations)))
    ensures dev.trace
         == old(dev.trace) + InitTrace(dev.grants(old(dev.allocations)), dev.grants(old(dev.allocations) + 1))
    ensures var s := InitResult(buf, len, w, h, dev.grants(old(dev.allocations)), dev.grants(old(dev.allocations) + 1), locate);
      && (q == null <==> s.None?)
      && (q != null ==> fresh(q) && q.Valid() && q.stage == Located && s == Some(q.codes) && numCodes == |q.codes|)
      && (q != null ==> q.width == w && q.height == h && q.image[..] == Bitmap(buf, len, w * h))
  {
    numCodes := 0;
    var granted := dev.Allocate();
    q := Quirc.New(granted);
    if q != null {
      dev.Record(SessionCreated);
      granted := dev.Allocate();
      var failed := q.Resize(w, h, granted);
      if failed {
        q.Destroy();
        dev.Record(SessionDestroyed);
        q := null;
      } else {
        numCodes := Scan(q, buf, len, locate);
      }
    }
  }

  /** The end of `qr_init`: copy the frame into the cleared bitmap, run the locate pass, count the symbols. */
  method Scan(q: Quirc, buf: seq<byte>, len: nat, locate: Locator) returns (numCodes: int)
    requires q.Valid() && q.stage == Sized && CopyFits(buf, len, q.width, q.height)
    requires q.image[..] == Zeros(q.width * q.height)
    modifies q`codes, q`stage, q.image
    ensures q.Valid() && q.stage == Located && numCodes == |q.codes|
    ensures q.image[..] == Bitmap(buf, len, q.width * q.height)
    ensures q.codes == locate(q.width, q.height, Bitmap(buf, len, q.width * q.height))
  {
    var image := q.Begin();
    forall i | 0 <= i < len {
      image[i] := buf[i];
    }
    assert image[..] == Bitmap(buf, len, q.width * q.height);
    q.End(locate);
    numCodes := q.Count();
  }

  /** `qr_read`: 0 and the payload when symbol `i` decodes, -1 when it does not. */
  method QrRead(q: Quirc, i: nat) returns (status: int, data: Option<Payload>)
    requires q.stage == Located && i < |q.codes|
    ensures data == q.codes[i]
    ensures status == (if q.codes[i].Some? then 0 else -1)
  {
    data := q.Decode(i);
    status := if data.Some? then 0 else -1;
  }

  /** `qr_deinit`: destroys the object, or hands NULL to `quirc_destroy` when there is none. */
  method QrDeinit(dev: Device, q: Quirc?)
    requires dev.Valid() && (q != null ==> q.stage != Destroyed)
    modifies dev`trace, (if q == null then {} else {q})`stage
    ensures dev.Valid() && dev.sent == old(dev.sent)
    ensures dev.trace == old(dev.trace) + [if q == null then NullDestroyed else SessionDestroyed]
    ensures q != null ==> q.stage == Destroyed
  {
    if q == null {
      dev.Record(NullDestroyed);
    } else {
      q.Destroy();
      dev.Record(SessionDestroyed);
    }
  }

  const NO_QR_RESP: seq<byte> := Ascii("Failed to locate QR\n")
  const CONTENT_OPEN: seq<byte> := Ascii("Content from QR (i: ")
  const CONTENT_MID: seq<byte> := Ascii("): '")
  const CONTENT_CLOSE: seq<byte> := Ascii("'")

  /** The length of the byte-order mark that precedes every payload's content. */
  const MARKER_LEN: nat := 3

  /**
   * `%.*s` of `payload + 3` with precision `payload_len - 3`: the bytes after
   * the marker, up to the first NUL. With fewer than three bytes the
   * precision is negative, so `%s` reads on from `payload + 3`. quirc clears
   * the payload buffer before decoding, so that is an empty string.
   */
  function Content(p: Payload): (r: seq<byte>)
    ensures |p| < MARKER_LEN ==> r == []
    ensures |p| >= MARKER_LEN ==> r <= p[MARKER_LEN..] && NUL !in r
    ensures |p| >= MARKER_LEN && |r| < |p| - MARKER_LEN ==> p[MARKER_LEN + |r|] == NUL
  {
    if |p| < MARKER_LEN then [] else UpToNul(p[MARKER_LEN..])
  }

  /** The body `qr_on_success_httpd` sends for symbol `i`: it opens with the fixed text and closes with a quote. */
  function SuccessLine(i: nat, p: Payload): (r: seq<byte>)
    ensures CONTENT_OPEN <= r && r[|r| - 1] == CONTENT_CLOSE[0]
  {
    CONTENT_OPEN + Decimal(i) + CONTENT_MID + Content(p) + CONTENT_CLOSE
  }

  /** The bytes a response puts on the wire; only the not-found response reads as the not-found message. */
  function Wire(r: Response): (w: seq<byte>)
    ensures r.NoQr? ==> w == NO_QR_RESP
    ensures r.Line? ==> w != NO_QR_RESP
  {
    match r
    case NoQr => NO_QR_RESP
    case Line(i, p) => SuccessLine(i, p)
    case Chunk(d) => d
  }

  /** `qr_on_success_httpd`: sends the success line for symbol `idx`. */
  method OnSuccessHttpd(dev: Device, idx: nat, p: Payload)
    requires dev.Valid()
    modifies dev`sent, dev`trace
    ensures dev.Valid() && dev.sent == old(dev.sent) + [Line(idx, p)]
    ensures dev.trace == old(dev.trace) + [Responded(Line(idx, p))]
  {
    dev.Respond(Line(idx, p));
  }

  /** What `qr_read_all` does for symbol `i`: the callback, and what the success callback sends. */
  function ReadStep(i: nat, d: Option<Payload>): seq<Event> {
    match d
    case Some(p) => [Succeeded(i), Responded(Line(i, p))]
    case None => [Failed(i)]
  }

  /** The trace `qr_read_all` leaves for the symbols `codes`, in index order. */
  function ReadAllTrace(codes: seq<Option<Payload>>): seq<Event> {
    if codes == [] then []
    else ReadAllTrace(codes[..|codes| - 1]) + ReadStep(|codes| - 1, codes[|codes| - 1])
  }

  /** Every located symbol decoded. */
  predicate AllDecoded(codes: seq<Option<Payload>>) {
    None !in codes
  }

  /** `qr_read_all` over the session's symbols; 0 when every one decoded, -1 otherwise. */
  method ReadAll(dev: Device, q: Quirc, numCodes: int) returns (success: int)
    requires dev.Valid() && q.stage == Located && numCodes == |q.codes|
    modifies dev`sent, dev`trace
    ensures dev.Valid() && dev.trace == old(dev.trace) + ReadAllTrace(q.codes)
    ensures success == 0 || success == -1
    ensures success == 0 <==> AllDecoded(q.codes)
  {
    ghost var codes := q.codes;
    success := 0;
    for i := 0 to numCodes
      invariant q.codes == codes
      invariant dev.Valid()
      invariant dev.trace == old(dev.trace) + ReadAllTrace(codes[..i])
      invariant success == 0 || success == -1
      invariant success == 0 <==> AllDecoded(codes[..i])
    {
      var status := ReadOne(dev, q, i);
      if status != 0 {
        success := -1;
      }
      ReadAllStep(codes, i);
    }
    assert codes[..numCodes] == codes;
  }

  /** The body of `qr_read_all`'s loop: read symbol `i`, then fire the callback that matches. */
  method ReadOne(dev: Device, q: Quirc, i: nat) returns (status: int)
    requires dev.Valid() && q.stage == Located && i < |q.codes|
    modifies dev`sent, dev`trace
    ensures dev.Valid() && dev.trace == old(dev.trace) + ReadStep(i, q.codes[i])
    ensures status == (if q.codes[i].Some? then 0 else -1)
  {
    var data;
    status, data := QrRead(q, i);
    if status == 0 {
      dev.Record(Succeeded(i));
      OnSuccessHttpd(dev, i, data.value);
    } else {
      dev.Record(Failed(i));
    }
  }

  /** One more symbol read: the trace grows by its step, and the status takes it into account. */
  lemma ReadAllStep(codes: seq<Option<Payload>>, i: nat)
    requires i < |codes|
    ensures ReadAllTrace(codes[..i + 1]) == ReadAllTrace(codes[..i]) + ReadStep(i, codes[i])
    ensures AllDecoded(codes[..i + 1]) <==> AllDecoded(codes[..i]) && codes[i].Some?
  {
    assert codes[..i + 1] == codes[..i] + [codes[i]];
  }

  /** The callback `qr_read_all` fires for symbol `i`. */
  function Callback(i: nat, d: Option<Payload>): Event {
    if d.Some? then Succeeded(i) else Failed(i)
  }

  lemma CallbacksOfStep(i: nat, d: Option<Payload>)
    ensures Callbacks(ReadStep(i, d)) == [Callback(i, d)]
  {
    var r := Responded(Line(i, d.GetOr([])));
    if d.Some? {
      assert ReadStep(i, d) == [Succeeded(i)] + [r];
      CallbacksAppend([Succeeded(i)], [r]);
      assert [r][1..] == [];
    }
    assert [Callback(i, d)][1..] == [];
  }

  lemma ResponsesOfStep(i: nat, d: Option<Payload>)
    ensures Responses(ReadStep(i, d)) == LineFor(i, d)
  {
    if d.Some? {
      var r := Responded(Line(i, d.value));
      assert ReadStep(i, d) == [Succeeded(i)] + [r];
      ResponsesAppend([Succeeded(i)], [r]);
      assert [r][1..] == [];
      assert [Succeeded(i)][1..] == [];
    } else {
      assert [Failed(i)][1..] == [];
    }
  }

  /**
   * Exactly one callback per symbol, in ascending index order, the success
   * callback exactly for the symbols that decode; a failure does not stop the
   * symbols after it, and no symbols means no callback.
   */
  lemma {:induction false} ReadAllCallbacks(codes: seq<Option<Payload>>)
    ensures Callbacks(ReadAllTrace(codes)) == seq(|codes|, i requires 0 <= i < |codes| => Callback(i, codes[i]))
  {
    if codes != [] {
      var n := |codes| - 1;
      ReadAllCallbacks(codes[..n]);
      CallbacksAppend(ReadAllTrace(codes[..n]), ReadStep(n, codes[n]));
      CallbacksOfStep(n, codes[n]);
    }
  }

  /** The line `qr_read_all` sends for symbol `i`: its success line, or nothing when it did not decode. */
  function LineFor(i: nat, d: Option<Payload>): seq<Response> {
    if d.Some? then [Line(i, d.value)] else []
  }

  /** The lines `qr_read_all` should send: one per decoded symbol, in index order. */
  function SuccessLines(codes: seq<Option<Payload>>): seq<Response> {
    if codes == [] then [] else SuccessLines(codes[..|codes| - 1]) + LineFor(|codes| - 1, codes[|codes| - 1])
  }

  /** `qr_read_all` sends one line per decoded symbol, in index order, and nothing for the others. */
  lemma {:induction false} ReadAllResponses(codes: seq<Option<Payload>>)
    ensures Responses(ReadAllTrace(codes)) == SuccessLines(codes)
  {
    if codes != [] {
      var n := |codes| - 1;
      ReadAllResponses(codes[..n]);
      ResponsesAppend(ReadAllTrace(codes[..n]), ReadStep(n, codes[n]));
      ResponsesOfStep(n, codes[n]);
    }
  }

  /** `qr_read_all` touches neither the camera nor the quirc object's lifecycle. */
  lemma {:induction false} ReadAllQuiet(codes: seq<Option<Payload>>)
    ensures forall e :: e in ReadAllTrace(codes) ==> e.Succeeded? || e.Failed? || e.Responded?
  {
    if codes != [] {
      ReadAllQuiet(codes[..|codes| - 1]);
    }
  }

  /** A success line never reads as the not-found message. */
  lemma SuccessLineIsNotNoQr(i: nat, p: Payload)
    ensures SuccessLine(i, p) != NO_QR_RESP
  {
    assert SuccessLine(i, p)[0] == CONTENT_OPEN[0];
  }

  /** Everything `qr_read_all` sends is a success line, and none reads as the not-found message. */
  lemma {:induction false} ReadAllSendsNoNoQr(codes: seq<Option<Payload>>)
    ensures forall e :: e in ReadAllTrace(codes) && e.Responded? ==> e.response.Line? && Wire(e.response) != NO_QR_RESP
  {
    if codes != [] {
      var n := |codes| - 1;
      ReadAllSendsNoNoQr(codes[..n]);
      if codes[n].Some? {
        SuccessLineIsNotNoQr(n, codes[n].value);
      }
    }
  }

  /** The content of a payload is everything after the three-byte marker, when it holds no NUL. */
  lemma ContentAfterMarker(p: Payload)
    requires |p| >= MARKER_LEN && NUL !in p[MARKER_LEN..]
    ensures Content(p) == p[MARKER_LEN..]
  {
    UpToNulWhole(p[MARKER_LEN..]);
  }

  /** A payload "\xEF\xBB\xBFHELLO" decoded as symbol 0 is reported as `Content from QR (i: 0): 'HELLO'`. */
  lemma HelloLine()
    ensures SuccessLine(0, [0xEF, 0xBB, 0xBF] + Ascii("HELLO")) == Ascii("Content from QR (i: 0): 'HELLO'")
  {
    var p := [0xEF, 0xBB, 0xBF] + Ascii("HELLO");
    assert p[MARKER_LEN..] == Ascii("HELLO");
    ContentAfterMarker(p);
    assert Decimal(0) == [ZERO];
    assert SuccessLine(0, p) == CONTENT_OPEN + [ZERO] + CONTENT_MID + Ascii("HELLO") + CONTENT_CLOSE;
    HelloText();
  }

  lemma HelloText()
    ensures CONTENT_OPEN + [ZERO] + CONTENT_MID + Ascii("HELLO") + CONTENT_CLOSE == Ascii("Content from QR (i: 0): 'HELLO'")
  {
  }
}
