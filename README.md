# esp32-qr: a verified model of the QR pipeline

This project models, in Dafny, the QR pipeline of the esp32-qr firmware (`main/qr.c`). The pipeline has four parts:

- The embedded reference image is a binary graymap ("P5"). `parse_pgm` reads its header.
- `preset_pgm_handler` streams that image back as a graymap container.
- A decode session wraps the quirc library: `qr_init`, `qr_read` and `qr_deinit`.
- The result aggregator `qr_read_all` and the success callback turn the decoded symbols into HTTP responses.

On top of these sit four HTTP handlers:

- `qr_handler` takes one camera frame.
- `qr_stream_handler` retries frames until one decodes cleanly.
- `preset_qr_handler` decodes the embedded image.
- `preset_pgm_handler` exports the embedded image.

## Structure

- `wrappers.dfy` (`Wrappers`): the `Option` type.
- `bytes.dfy` (`Bytes`):
  - `uint8_t` as `byte`, and ASCII text;
  - the C-locale `isspace`/`isdigit`;
  - the numeral `%d` writes (`Decimal`) and the value `%zu` reads (`DecimalValue`);
  - what `%s` sees of a buffer (`UpToNul`).
- `pgm.dfy` (`Pgm`):
  - `parse_pgm` as the pure function `Parse`, plus `Written`, which is what the caller's `pgm_t` holds afterwards;
  - the method `ParsePgm`;
  - the header `preset_pgm_handler` formats (`Header`, `Serialise`);
  - the round trip and the parser's edge cases.
- `quirc.dfy` (`Quirc`):
  - the quirc object as a class: dimensions, bitmap `array`, located symbols, and a ghost lifecycle stage;
  - locating and decoding are an oracle, `Locator`. It maps a width, a height and a bitmap to one `Option` payload per located symbol.
- `device.dfy` (`Device`): a class holding everything a handler touches besides quirc.
  - The camera is a sequence of frames delivered by capture number. A ghost flag records whether a frame is held.
  - The heap is a sequence of yes/no answers, one per allocation.
  - The HTTP client is the list `sent` of responses.
  - A ghost `trace` of events records, in order:
    - frames taken and returned;
    - quirc objects created and destroyed, and `quirc_destroy(NULL)`;
    - the callbacks `qr_read_all` fires;
    - every response.
  - `Valid()` ties `sent` to the responses in the trace.
- `session.dfy` (`Session`):
  - `qr_init`, `qr_read`, `qr_deinit`, `qr_on_success_httpd` and `qr_read_all` as methods, each proved against a function of its inputs (`InitResult`, `InitTrace`, `ReadAllTrace`);
  - lemmas about the callbacks and lines `qr_read_all` produces;
  - the wire format of the responses (`Wire`, `SuccessLine`).
- `handlers.dfy` (`Handlers`): the four handlers as methods, each proved against a trace function. Lemmas on those functions cover:
  - the camera discipline;
  - when the not-found message is sent;
  - which quirc objects are left alive;
  - when streaming stops.

## Behaviour the model reproduces as written

- `qr_stream_handler` `continue`s after a partly failed frame without calling `qr_deinit` (`main/qr.c:167-170`). That quirc object is never destroyed (`Handlers.StreamPassFacts`).
  - The success lines of such a frame have already been sent (`main/qr.c:109`).
  - The streamed response therefore holds the lines of every partly decoded frame before the final one, not only those of the frame that decoded cleanly.
- When `qr_init` succeeds but finds no symbol, `preset_qr_handler` returns without calling `qr_deinit` (`main/qr.c:186-188`). The leak is proved in `Handlers.PresetQrLeaks`.
- `preset_qr_handler` and `preset_pgm_handler` both ignore the result of `parse_pgm` (`main/qr.c:183`, `main/qr.c:202`).
  - They go on with whatever the `pgm_t` holds: `Pgm.Written` of the asset and the struct's prior contents.
  - That includes a width stored by a `sscanf` that then failed to read a height (`Pgm.ParseNeedsHeight`).
- `qr_handler` calls `qr_deinit(NULL)` when `qr_init` failed (`main/qr.c:131`). This is recorded as a `NullDestroyed` event.
- `main/qr.h` declares four handlers, and none of them exports a live camera frame: `preset_pgm_handler` streams the embedded image (`main/qr.c:202-210`), and that is what is modelled.

## Model

| member | source | states |
|---|---|---|
| Bytes.DecimalNumeral | main/qr.c:205 | the numeral `%d` writes for a non-negative value is non-empty, all digits, has no leading zero, and reads back as the value |
| Bytes.UpToNul | main/qr.c:89-90 | what `%s` prints of a buffer is a prefix of it holding no NUL, and it ends at the first NUL when it is shorter than the buffer |
| Pgm.NewlineFrom | main/qr.c:16 | the search for `'\n'` from an index finds the first newline, with neither newline nor NUL before it, or finds none because a NUL or the end of the buffer comes before every newline |
| Pgm.HeaderEnd | main/qr.c:16-17 | the header length, when there is one, is the index of a newline with no newline or NUL before it; with none, every newline follows a NUL |
| Pgm.SkipSpaces | main/qr.c:24 | the whitespace `sscanf` skips: everything up to the result is whitespace, and the byte at the result is not |
| Pgm.DigitsEnd | main/qr.c:24 | the run of digits a `%zu` conversion consumes is all digits, and the byte after it is not a digit |
| Pgm.ScanSize | main/qr.c:24 | one `%zu` conversion fails exactly when no digit follows the whitespace; when it succeeds it consumes at least one byte and the whole run of digits |
| Pgm.ScanWidth | main/qr.c:24 | the `P5 %zu` part of the format reads a width only after the literal `P5` |
| Pgm.ScanHeader | main/qr.c:24-25 | the whole format succeeds only when its width conversion does, and reports that width |
| Pgm.Parse | main/qr.c:15-31 | a successful parse's pixel slice is a proper suffix of the image, and `len` is exactly its length |
| Pgm.ScannedWidth | main/qr.c:24 | the width `sscanf` stores; after a successful parse it is the parsed width |
| Pgm.Written | main/qr.c:15-31 | after a successful parse the struct holds the parsed header; after a failed one only its width can have changed |
| Pgm.Header | main/qr.c:205 | the header `asprintf` formats starts with `"P5 "` and ends with a newline |
| Pgm.ParsePgm | main/qr.c:15-31 | `parse_pgm` returns 0 exactly when the header parses, and -1 otherwise; on 0 the struct holds the parsed header; in every case the struct holds `Written` of the image and its prior contents |
| Pgm.ParseNeedsNewline | main/qr.c:16-17 | an image without a newline gives -1 and leaves the caller's struct untouched |
| Pgm.ParseStopsAtNul | main/qr.c:16-17 | a NUL before the first newline ends the `strchr` search: -1, struct untouched |
| Pgm.ParseSlice | main/qr.c:16-28 | on success the pixels are exactly the bytes after the first newline, and their length is `image_len - header_len - 1` |
| Pgm.ParseHeader | main/qr.c:19-30 | `"P5 <w> <h>"`, followed by anything that neither continues the height's digits nor holds a newline or NUL, then a newline and pixels, parses to exactly `w`, `h` and those pixels |
| Pgm.ScanHeaderLine | main/qr.c:24-25 | `sscanf("P5 %zu %zu %*d")` on such a header line reads exactly the width and the height |
| Pgm.ParseWithoutMaxval | main/qr.c:24-25 | the maxval is assignment-suppressed: a header `"P5 <w> <h>\n"` with no maxval still parses to `w`, `h` and the pixels |
| Pgm.ParseNeedsHeight | main/qr.c:24-25 | a header with a width but no height gives -1, yet the width has already been stored in the caller's struct |
| Pgm.ParseIgnoresPixelCount | main/qr.c:27-28 | a parse succeeds even when the pixel count differs from width times height |
| Pgm.RoundTrip | main/qr.c:205-210 | parsing the container `"P5 w h 255\n" ++ pixels` gives back `w`, `h` and exactly `pixels` |
| Session.Bitmap | main/qr.c:53-56 | the scanned bitmap holds the first `buf_len` frame bytes, and the rest of the cleared image is zero |
| Session.QrInit | main/qr.c:33-63 | NULL when `quirc_new` is refused; NULL, with the object destroyed, when `quirc_resize` is refused; otherwise a fresh located object whose bitmap is the frame copied in and whose symbols are what the oracle finds in it, with `num_codes` the symbol count; makes one allocation, or two once `quirc_new` succeeds, and sends nothing |
| Session.Scan | main/qr.c:52-60 | `quirc_begin`, the `memcpy` of `buf_len` bytes, `quirc_end` and `quirc_count`: the object becomes located on the copied bitmap and the count is its number of symbols |
| Session.QrRead | main/qr.c:65-78 | returns the payload of symbol `i` with status 0 when it decodes, and -1 when it does not |
| Session.QrDeinit | main/qr.c:80-82 | destroys the object, or records `quirc_destroy(NULL)` when there is none; sends nothing |
| Session.Content | main/qr.c:88-90 | the printed content is empty for a payload shorter than the marker; otherwise it is a NUL-free prefix of the bytes after the three-byte marker that stops only at a NUL or at the payload's end |
| Session.SuccessLine | main/qr.c:89-90 | the success line opens with `"Content from QR (i: "` and closes with a single quote |
| Session.Wire | main/qr.c:93 | the not-found response puts exactly `"Failed to locate QR\n"` on the wire, and no success line puts those bytes |
| Session.OnSuccessHttpd | main/qr.c:84-96 | sends exactly one response, the success line for symbol `idx` and its payload |
| Session.ReadAll | main/qr.c:102-117 | leaves the trace `ReadAllTrace` of the object's symbols; returns 0 exactly when every symbol decoded, and -1 otherwise |
| Session.ReadOne | main/qr.c:106-113 | one iteration of the loop: the success callback and its line when symbol `i` decodes, the failure callback otherwise, and the status of `qr_read` |
| Session.ReadAllStep | main/qr.c:105-114 | one more index adds exactly that symbol's callback step to the trace, and the status becomes -1 as soon as one symbol fails |
| Session.ReadAllCallbacks | main/qr.c:105-114 | exactly one callback per index, in ascending order from 0, the success callback exactly for the symbols that decode, a failure not stopping later indices, and none when there are no symbols |
| Session.ReadAllResponses | main/qr.c:105-114 | everything `qr_read_all` sends is one success line per decoded symbol, in index order |
| Session.ReadAllQuiet | main/qr.c:102-117 | `qr_read_all` only fires callbacks and sends; it neither takes a frame nor creates or destroys a quirc object |
| Session.ReadAllSendsNoNoQr | main/qr.c:93 | every response `qr_read_all` sends is a success line, and none is the not-found message |
| Session.SuccessLineIsNotNoQr | main/qr.c:10 | no success line has the bytes of `"Failed to locate QR\n"` |
| Session.ContentAfterMarker | main/qr.c:88-90 | the content printed for a payload is its bytes `[3, payload_len)` when they hold no NUL |
| Session.HelloLine | main/qr.c:89-90 | the payload `"\xEF\xBB\xBFHELLO"` decoded as symbol 0 is reported as `Content from QR (i: 0): 'HELLO'` |
| Handlers.CaptureInit | main/qr.c:120-127 | takes the next camera frame, runs `qr_init` on it and returns the frame: the trace is `Captured`, then what `qr_init` records, then `Released`, and the session is the one `qr_init` gives for that frame |
| Handlers.QrHandler | main/qr.c:119-143 | one call leaves exactly `QrHandlerTrace` for the next frame and heap answers: frame taken and returned, then the not-found message and `qr_deinit`, or every symbol read and the object destroyed; exactly one frame taken |
| Handlers.QrHandlerReturnsFrameFirst | main/qr.c:120-130 | `qr_handler` takes one frame first, returns it exactly once, and returns it before any response |
| Handlers.QrHandlerResponses | main/qr.c:129-139 | `qr_handler` sends only the not-found message when `qr_init` failed or found no symbol, and otherwise exactly one success line per decoded symbol |
| Handlers.QrHandlerNotFound | main/qr.c:129-130 | `qr_handler` sends the not-found message if and only if `qr_init` returned NULL or `num_codes == 0` |
| Handlers.QrHandlerReleasesSession | main/qr.c:129-141 | `qr_handler` destroys every quirc object it creates, and hands NULL to `quirc_destroy` exactly when `qr_init` failed |
| Handlers.StreamPass | main/qr.c:152-173 | one pass of the loop leaves exactly `PassTrace` for the next frame; it returns `clean`, meaning the handler returns, exactly when symbols were found and all decoded |
| Handlers.StreamPassFacts | main/qr.c:152-172 | each pass takes and returns its frame before sending; it sends the success lines of every decoded symbol even when it goes on to retry; it leaves its quirc object alive exactly when the frame partly failed |
| Handlers.StreamRead | main/qr.c:167-172 | `qr_read_all` in the stream loop, then `qr_deinit` only when it returned 0: `clean` exactly when every symbol decoded, and otherwise the object is left alive |
| Handlers.StreamHandler | main/qr.c:145-175 | within `budget` frames, the handler leaves exactly the trace of `StreamRun`, takes one frame per pass, ends with the allocation count of that run, and reports how many frames it took and whether it returned |
| Handlers.LoopReturnsOnlyWhenClean | main/qr.c:150-174 | the loop returns only right after a pass whose `qr_read_all` returned 0; every earlier pass was not clean; and it runs out of budget only when no pass within it was clean |
| Handlers.PresetQrHandler | main/qr.c:177-198 | parses the embedded image, ignoring the result, then runs the rest of the handler on whatever the struct holds; leaves exactly `PresetQrTrace` and makes the allocations of one `qr_init` |
| Handlers.PresetQrOn | main/qr.c:184-197 | `qr_init` on the parsed image, then the not-found message without `qr_deinit`, or every symbol read and the object destroyed; makes one allocation, or two once `quirc_new` succeeds |
| Handlers.PresetQrOutcome | main/qr.c:186-193 | `preset_qr_handler` sends the not-found message, and nothing else, exactly when `qr_init` failed or found nothing; otherwise it sends one success line per decoded symbol |
| Handlers.PresetQrLeaks | main/qr.c:186-195 | `preset_qr_handler` never hands NULL to `quirc_destroy`, and it leaves a quirc object alive exactly when `qr_init` succeeded with no symbol |
| Handlers.PgmExport | main/qr.c:209-211 | `preset_pgm_handler` sends three chunks, and the last is the empty one that ends the body |
| Handlers.PgmExportBody | main/qr.c:205-211 | the body those chunks make is the header `"P5 <w> <h> 255\n"` followed by the pixel slice |
| Handlers.PresetPgmHandler | main/qr.c:200-216 | sends three chunks: the header `"P5 <w> <h> 255\n"` of whatever the struct holds after `parse_pgm`, then the pixel slice, then an empty chunk; the trace records those three responses and nothing else |
| Handlers.PresetPgmRoundTrip | main/qr.c:200-211 | for a parseable asset, the body `preset_pgm_handler` streams parses to exactly what the asset parses to |
| Quirc.Quirc.New | main/qr.c:38-43 | `quirc_new` gives a fresh, unsized object exactly when its allocation is granted, and NULL otherwise |
| Quirc.Quirc.Resize | main/qr.c:46-50 | `quirc_resize` fails, changing nothing, exactly when its allocation is refused; otherwise it leaves a cleared `w` x `h` bitmap |
| Quirc.Quirc.Begin | main/qr.c:53 | `quirc_begin` hands out the object's own bitmap for loading |
| Quirc.Quirc.End | main/qr.c:58 | `quirc_end` fixes the symbol list to what the oracle finds in the bitmap |
| Quirc.Quirc.Decode | main/qr.c:69-71 | decoding symbol `i` gives the oracle's answer for that index |
| Quirc.Quirc.Destroy | main/qr.c:80-82 | `quirc_destroy` ends the object's lifecycle |
| Device.Device.Capture | main/qr.c:120 | `esp_camera_fb_get` delivers the next frame and marks it held |
| Device.Device.Release | main/qr.c:127 | `esp_camera_fb_return` gives the held frame back |

## Left out

- Logging (`ESP_LOG*`) and `httpd_resp_set_type` / `httpd_resp_set_hdr`: they send no body bytes, so they are not modelled.
- `ESP_LOGI`'s frame counter in `qr_stream_handler` (`main/qr.c:146, 151`): it only feeds a log line.
- `asprintf` and `free`: the formatted strings are built as values. A failing `asprintf`, which leaves the pointer undefined, is not modelled.
- The camera driver failing (a NULL frame from `esp_camera_fb_get`): the source dereferences it unchecked.
- quirc internals: locating, extracting and decoding symbols are the oracle `Locator`. That quirc clears the payload buffer before decoding is an assumption about the library; `Session.Content` relies on it for payloads shorter than three bytes.
- Quirc.Quirc.Resize, Session.Bitmap: a resized bitmap is modelled as cleared to zero, so the bytes past `buf_len` are zero. This is an assumption about the library: `main/qr.c:46-56` does not clear it, and a `quirc_resize` that reallocates without clearing would leave other bytes there for the locator to see whenever `buf_len < w*h`.
- `quirc_destroy(NULL)`: it is recorded as an event. The library's own handling of a NULL pointer is not part of this model.
- Handlers.StreamHandler: termination is not proved. `qr_stream_handler` loops until a frame decodes cleanly, so the model runs at most `budget` frames and states partial correctness: what the first `budget` passes do, and that any return follows a clean pass.
- Handlers.QrHandler, Handlers.StreamPass, Handlers.StreamHandler, Handlers.PresetQrHandler: the preconditions that each frame, or the parsed image, fits its own size (`len <= w*h` and `len` within the buffer) are what `memcpy` at `main/qr.c:56` needs to be defined. The source does not check them.
- Handlers.PresetPgmHandler: the precondition that the struct's `len` lies within its buffer is what `httpd_resp_send_chunk` at `main/qr.c:210` needs to be defined. After a failed parse it is a condition on the struct's uninitialised contents, which the source does not check.
- Pgm.Parse: the newline search is bounded by the image length. `strchr` is not bounded and would read past an image without newline or NUL.
- Pgm.Parse: `%zu` is modelled as optional whitespace and at least one decimal digit, with no sign and no overflow. A leading `+`/`-` and values beyond `SIZE_MAX` are not modelled.
- Pgm.Header: `%d` of the `size_t` width and height is modelled as the unbounded numeral. The narrowing to `int` for values of 2^31 and above is not modelled.
- `*num_codes` is modelled as 0 when `qr_init` fails, which is what `qr_handler` and `qr_stream_handler` initialise it to. In `preset_qr_handler` it is uninitialised, but it is never read when `qr_init` returns NULL, because `!qr` short-circuits the test.
- `qr_on_failure_httpd` is a no-op (`main/qr.c:98-100`). The model records only the `Failed` callback event.
- Responses are recorded as structured values (`Device.Response`). `Session.Wire` gives the bytes of each. Sending is an append to a log; no networking is modelled.
- The embedded asset (`_binary_image_pgm_*`) is a parameter of the handlers rather than a fixed constant.
- `main/main.c` (WiFi, NVS, server start and handler registration) is not part of this model. `main/qr.h` supplies only the shape of `pgm_t`.
- Concurrency between HTTP workers is not modelled; each handler call owns the device for its duration.
