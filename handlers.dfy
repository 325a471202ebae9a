/**
 * The HTTP handlers `qr_handler`, `qr_stream_handler`, `preset_qr_handler`
 * and `preset_pgm_handler`, each proved against a function giving the trace
 * or the responses it produces, with lemmas about those functions: the camera
 * frame is returned before anything is sent, when the not-found message is
 * sent, which quirc objects are never destroyed, and when streaming stops.
 */
module Handlers {
  import opened Bytes
  import opened Wrappers
  import opened Quirc
  import opened Device
  import opened Session
  import Pgm

  /** A frame `qr_init` can copy without overrunning either buffer. */
  predicate FrameFits(f: Frame) {
    CopyFits(f.buf, f.len, f.width, f.height)
  }

  /** Every frame the camera delivers fits its own size. */
  ghost predicate CameraFits(shots: nat -> Frame) {
    forall n: nat :: FrameFits(shots(n))
  }

  /** `qr_init` on a camera frame. */
  function FrameResult(f: Frame, newOk: bool, resizeOk: bool, locate: Locator): Option<seq<Option<Payload>>>
    requires FrameFits(f)
  {
    InitResult(f.buf, f.len, f.width, f.height, newOk, resizeOk, locate)
  }

  /** No session, or a session without symbols: what the handlers treat as "not found". */
  predicate NotFound(r: Option<seq<Option<Payload>>>) {
    r.None? || r.value == []
  }

  /** Take the frame, run `qr_init`, give the frame back, then `tail`. */
  function Framed(init: seq<Event>, tail: seq<Event>): seq<Event> {
    [Captured] + init + [Released] + tail
  }

  lemma FramedAfter(prior: seq<Event>, init: seq<Event>, tail: seq<Event>)
    ensures prior + [Captured] + init + [Released] + tail == prior + Framed(init, tail)
  {
  }

  /** What `qr_init` records: only quirc objects created and destroyed, and one that cannot be sized is destroyed at once. */
  lemma InitTraceFacts(newOk: bool, resizeOk: bool)
    ensures var t := InitTrace(newOk, resizeOk);
      && Responses(t) == []
      && (forall e :: e in t ==> e == SessionCreated || e == SessionDestroyed)
      && Occurrences(t, SessionCreated) == (if newOk then 1 else 0)
      && Occurrences(t, SessionDestroyed) == (if newOk && !resizeOk then 1 else 0)
      && Occurrences(t, NullDestroyed) == 0
  {
    if newOk && !resizeOk {
      assert [SessionCreated, SessionDestroyed][1..] == [SessionDestroyed];
      assert [SessionDestroyed][1..] == [];
    } else if newOk {
      assert [SessionCreated][1..] == [];
    }
  }

  /** `qr_read_all` leaves the camera and the quirc objects alone. */
  lemma ReadAllFacts(codes: seq<Option<Payload>>)
    ensures var t := ReadAllTrace(codes);
      && Captured !in t && Released !in t
      && Occurrences(t, SessionCreated) == 0 && Occurrences(t, SessionDestroyed) == 0 && Occurrences(t, NullDestroyed) == 0
  {
    var t := ReadAllTrace(codes);
    ReadAllQuiet(codes);
    OccurrencesAbsent(t, SessionCreated);
    OccurrencesAbsent(t, SessionDestroyed);
    OccurrencesAbsent(t, NullDestroyed);
  }

  /** How often an event occurs in a framed trace. */
  lemma FramedOccurrences(init: seq<Event>, tail: seq<Event>, e: Event)
    ensures Occurrences(Framed(init, tail), e)
         == (if e == Captured then 1 else 0) + Occurrences(init, e) + (if e == Released then 1 else 0) + Occurrences(tail, e)
  {
    OccurrencesAppend([Captured] + init + [Released], tail, e);
    OccurrencesAppend([Captured] + init, [Released], e);
    OccurrencesAppend([Captured], init, e);
    OccurrencesSingle(Captured, e);
    OccurrencesSingle(Released, e);
  }

  /**
   * Taking the frame, `qr_init`, giving the frame back, then a part that
   * neither takes nor returns a frame: the frame goes back before anything
   * is sent, and the responses are those of the part after it.
   */
  lemma FramedFacts(newOk: bool, resizeOk: bool, tail: seq<Event>)
    requires Captured !in tail && Released !in tail
    ensures FrameReturnedFirst(Framed(InitTrace(newOk, resizeOk), tail))
    ensures Responses(Framed(InitTrace(newOk, resizeOk), tail)) == Responses(tail)
  {
    var init := InitTrace(newOk, resizeOk);
    InitTraceFacts(newOk, resizeOk);
    var pre := [Captured] + init + [Released];
    var t := pre + tail;
    assert t == Framed(init, tail);
    forall j | 0 <= j < |pre|
      ensures !t[j].Responded? && (j > 0 ==> t[j] != Captured)
    {
      assert t[j] == pre[j] && pre[j] in pre;
      if 0 < j < |pre| - 1 {
        assert pre[j] == init[j - 1] && init[j - 1] in init;
      }
    }
    forall j | |pre| <= j <= |t|
      ensures Released in t[..j]
    {
      assert t[..j][|pre| - 1] == Released;
    }
    assert Captured !in init && Released !in init;
    FramedOccurrences(init, tail, Captured);
    FramedOccurrences(init, tail, Released);
    OccurrencesAbsent(init, Captured);
    OccurrencesAbsent(init, Released);
    OccurrencesAbsent(tail, Captured);
    OccurrencesAbsent(tail, Released);
    ResponsesAppend(pre, tail);
    ResponsesAppend([Captured] + init, [Released]);
    ResponsesAppend([Captured], init);
    assert [Captured][1..] == [] && [Released][1..] == [];
  }

  /**
   * How `qr_handler` and each pass of `qr_stream_handler` begin: take a
   * frame, run `qr_init` on it, give the frame back.
   */
  method CaptureInit(dev: Device, locate: Locator) returns (q: Quirc?, numCodes: int)
    requires dev.Valid() && !dev.holding && FrameFits(dev.shots(dev.captured))
    modifies dev`captured, dev`holding, dev`allocations, dev`trace
    ensures dev.Valid() && !dev.holding && dev.captured == old(dev.captured) + 1
    ensures dev.allocations == old(dev.allocations) + InitAllocations(dev.grants(old(dev.allocations)))
    ensures dev.trace == old(dev.trace) + [Captured] + InitTrace(dev.grants(old(dev.allocations)), dev.grants(old(dev.allocations) + 1)) + [Released]
    ensures var r := FrameResult(dev.shots(old(dev.captured)), dev.grants(old(dev.allocations)), dev.grants(old(dev.allocations) + 1), locate);
      && (q == null <==> r.None?)
      && (q != null ==> fresh(q) && q.stage == Located && r == Some(q.codes) && numCodes == |q.codes|)
  {
    var frame := dev.Capture();
    q, numCodes := QrInit(dev, frame.buf, frame.len, frame.width, frame.height, locate);
    dev.Release();
  }

  /** The not-found message, or the trace of `qr_read_all`: what a handler reports once `qr_init` is done. */
  function Report(r: Option<seq<Option<Payload>>>): seq<Event> {
    if NotFound(r) then [Responded(NoQr)] else ReadAllTrace(r.value)
  }

  /** `qr_handler` after the frame is back: the report, then `qr_deinit` of whatever `qr_init` returned. */
  function QrHandlerTail(r: Option<seq<Option<Payload>>>): seq<Event> {
    Report(r) + [if r.None? then NullDestroyed else SessionDestroyed]
  }

  /** The trace of one `qr_handler` call on frame `f`. */
  function QrHandlerTrace(f: Frame, newOk: bool, resizeOk: bool, locate: Locator): seq<Event>
    requires FrameFits(f)
  {
    Framed(InitTrace(newOk, resizeOk), QrHandlerTail(FrameResult(f, newOk, resizeOk, locate)))
  }

  /** `qr_handler` */
  method QrHandler(dev: Device, locate: Locator)
    requires dev.Valid() && !dev.holding && FrameFits(dev.shots(dev.captured))
    modifies dev
    ensures dev.Valid() && !dev.holding && dev.captured == old(dev.captured) + 1
    ensures dev.allocations == old(dev.allocations) + InitAllocations(dev.grants(old(dev.allocations)))
    ensures dev.trace == old(dev.trace)
      + QrHandlerTrace(dev.shots(old(dev.captured)), dev.grants(old(dev.allocations)), dev.grants(old(dev.allocations) + 1), locate)
  {
    ghost var c, a := dev.captured, dev.allocations;
    var q, numCodes := CaptureInit(dev, locate);
    ghost var r := FrameResult(dev.shots(c), dev.grants(a), dev.grants(a + 1), locate);
    ghost var head := dev.trace;
    ghost var tail := QrHandlerTail(r);
    if q == null || numCodes == 0 {
      ghost var last := if q == null then NullDestroyed else SessionDestroyed;
      assert tail == [Responded(NoQr)] + [last];
      dev.Respond(NoQr);
      QrDeinit(dev, q);
      assert dev.trace == head + [Responded(NoQr)] + [last];
      Assoc(head, [Responded(NoQr)], [last]);
    } else {
      assert tail == ReadAllTrace(q.codes) + [SessionDestroyed];
      var _ := ReadAll(dev, q, numCodes);
      QrDeinit(dev, q);
      assert dev.trace == head + ReadAllTrace(q.codes) + [SessionDestroyed];
      Assoc(head, ReadAllTrace(q.codes), [SessionDestroyed]);
    }
    FramedAfter(old(dev.trace), InitTrace(dev.grants(a), dev.grants(a + 1)), tail);
  }

  /** `qr_handler` takes one frame and returns it once, before it sends anything. */
  lemma QrHandlerReturnsFrameFirst(f: Frame, newOk: bool, resizeOk: bool, locate: Locator)
    requires FrameFits(f)
    ensures FrameReturnedFirst(QrHandlerTrace(f, newOk, resizeOk, locate))
  {
    var r := FrameResult(f, newOk, resizeOk, locate);
    if !NotFound(r) {
      ReadAllFacts(r.value);
    }
    FramedFacts(newOk, resizeOk, QrHandlerTail(r));
  }

  /** The report sends the not-found message alone, or one line per decoded symbol; it never takes or returns a frame. */
  lemma ReportFacts(r: Option<seq<Option<Payload>>>)
    ensures Responses(Report(r)) == if NotFound(r) then [NoQr] else SuccessLines(r.value)
    ensures Responded(NoQr) in Report(r) <==> NotFound(r)
    ensures Captured !in Report(r) && Released !in Report(r)
  {
    if NotFound(r) {
      assert [Responded(NoQr)][1..] == [];
    } else {
      var t := ReadAllTrace(r.value);
      assert Captured !in t && Released !in t by {
        ReadAllFacts(r.value);
      }
      assert Responses(t) == SuccessLines(r.value) by {
        ReadAllResponses(r.value);
      }
      assert Responded(NoQr) !in t by {
        ReadAllSendsNoNoQr(r.value);
      }
    }
  }

  /** A trace that ends in an event that sends nothing has the responses of what comes before it. */
  lemma ResponsesBefore(t: seq<Event>, last: Event)
    requires !last.Responded?
    ensures Responses(t + [last]) == Responses(t)
  {
    ResponsesAppend(t, [last]);
    assert [last][1..] == [];
  }

  /**
   * What `qr_handler` sends: "Failed to locate QR\n" exactly when `qr_init`
   * failed or found nothing, otherwise one line per decoded symbol.
   */
  lemma QrHandlerResponses(f: Frame, newOk: bool, resizeOk: bool, locate: Locator)
    requires FrameFits(f)
    ensures var r := FrameResult(f, newOk, resizeOk, locate);
      Responses(QrHandlerTrace(f, newOk, resizeOk, locate))
        == if NotFound(r) then [NoQr] else SuccessLines(r.value)
  {
    var r := FrameResult(f, newOk, resizeOk, locate);
    var last := if r.None? then NullDestroyed else SessionDestroyed;
    var tail := QrHandlerTail(r);
    assert tail == Report(r) + [last];
    ReportFacts(r);
    ResponsesBefore(Report(r), last);
    FramedFacts(newOk, resizeOk, tail);
  }

  /** `qr_handler` sends the not-found message exactly when `qr_init` failed or found nothing. */
  lemma QrHandlerNotFound(f: Frame, newOk: bool, resizeOk: bool, locate: Locator)
    requires FrameFits(f)
    ensures (Responded(NoQr) in QrHandlerTrace(f, newOk, resizeOk, locate)) <==> NotFound(FrameResult(f, newOk, resizeOk, locate))
  {
    var r := FrameResult(f, newOk, resizeOk, locate);
    var init, tail := InitTrace(newOk, resizeOk), QrHandlerTail(r);
    var no := Responded(NoQr);
    assert no !in init by {
      InitTraceFacts(newOk, resizeOk);
    }
    assert no in tail <==> NotFound(r) by {
      ReportFacts(r);
    }
    InFramed(init, tail, no);
  }

  /** An event is in a framed trace when it is one of the frame events or it is in one of the parts. */
  lemma InFramed(init: seq<Event>, tail: seq<Event>, e: Event)
    ensures e in Framed(init, tail) <==> e == Captured || e in init || e == Released || e in tail
  {
  }

  /**
   * `qr_handler` destroys every quirc object it creates; when `quirc_new` or
   * `quirc_resize` fails it hands NULL to `quirc_destroy`.
   */
  lemma QrHandlerReleasesSession(f: Frame, newOk: bool, resizeOk: bool, locate: Locator)
    requires FrameFits(f)
    ensures var t := QrHandlerTrace(f, newOk, resizeOk, locate);
      && Occurrences(t, SessionCreated) == Occurrences(t, SessionDestroyed)
      && Occurrences(t, NullDestroyed) == if FrameResult(f, newOk, resizeOk, locate).None? then 1 else 0
  {
    var r := FrameResult(f, newOk, resizeOk, locate);
    var init, tail := InitTrace(newOk, resizeOk), QrHandlerTail(r);
    InitTraceFacts(newOk, resizeOk);
    var last := if r.None? then NullDestroyed else SessionDestroyed;
    var body := if NotFound(r) then [Responded(NoQr)] else ReadAllTrace(r.value);
    assert tail == body + [last];
    if NotFound(r) {
      OccurrencesSingle(Responded(NoQr), SessionCreated);
      OccurrencesSingle(Responded(NoQr), SessionDestroyed);
      OccurrencesSingle(Responded(NoQr), NullDestroyed);
    } else {
      ReadAllFacts(r.value);
    }
    forall e | e in {SessionCreated, SessionDestroyed, NullDestroyed}
      ensures Occurrences(tail, e) == Occurrences(body, e) + (if last == e then 1 else 0)
    {
      OccurrencesAppend(body, [last], e);
      OccurrencesSingle(last, e);
    }
    FramedOccurrences(init, tail, SessionCreated);
    FramedOccurrences(init, tail, SessionDestroyed);
    FramedOccurrences(init, tail, NullDestroyed);
  }

  /** One pass of `qr_stream_handler`'s loop after the frame is back. A partly failed frame `continue`s without `qr_deinit`. */
  function PassTail(r: Option<seq<Option<Payload>>>): seq<Event> {
    match r
    case None => [NullDestroyed]
    case Some(codes) =>
      if codes == [] then [SessionDestroyed]
      else ReadAllTrace(codes) + (if AllDecoded(codes) then [SessionDestroyed] else [])
  }

  /** The trace of one pass of `qr_stream_handler`'s loop on frame `f`. */
  function PassTrace(f: Frame, newOk: bool, resizeOk: bool, locate: Locator): seq<Event>
    requires FrameFits(f)
  {
    Framed(InitTrace(newOk, resizeOk), PassTail(FrameResult(f, newOk, resizeOk, locate)))
  }

  /** A pass after which `qr_stream_handler` returns: symbols were found and `qr_read_all` returned 0. */
  predicate Clean(r: Option<seq<Option<Payload>>>) {
    r.Some? && r.value != [] && AllDecoded(r.value)
  }

  /** A pass in which some symbols were found and at least one did not decode. */
  predicate Partial(r: Option<seq<Option<Payload>>>) {
    r.Some? && r.value != [] && !AllDecoded(r.value)
  }

  /** What one pass of the loop leaves: its trace, whether the handler returns after it, and the allocation count after it. */
  datatype Pass = Pass(trace: seq<Event>, clean: bool, next: nat)

  /** The pass on capture number `c` with the heap at allocation number `a`. */
  function PassAt(shots: nat -> Frame, grants: nat -> bool, locate: Locator, c: nat, a: nat): Pass
    requires FrameFits(shots(c))
  {
    var f, newOk, resizeOk := shots(c), grants(a), grants(a + 1);
    Pass(PassTrace(f, newOk, resizeOk, locate), Clean(FrameResult(f, newOk, resizeOk, locate)), a + InitAllocations(newOk))
  }

  /** One pass of `qr_stream_handler`'s loop; `clean` when the handler returns after it, false where it `continue`s. */
  method StreamPass(dev: Device, locate: Locator) returns (clean: bool)
    requires dev.Valid() && !dev.holding && FrameFits(dev.shots(dev.captured))
    modifies dev
    ensures dev.Valid() && !dev.holding && dev.captured == old(dev.captured) + 1
    ensures dev.allocations == old(dev.allocations) + InitAllocations(dev.grants(old(dev.allocations)))
    ensures var f, newOk, resizeOk := dev.shots(old(dev.captured)), dev.grants(old(dev.allocations)), dev.grants(old(dev.allocations) + 1);
      && clean == Clean(FrameResult(f, newOk, resizeOk, locate))
      && dev.trace == old(dev.trace) + PassTrace(f, newOk, resizeOk, locate)
  {
    ghost var c, a := dev.captured, dev.allocations;
    var q, numCodes := CaptureInit(dev, locate);
    ghost var r := FrameResult(dev.shots(c), dev.grants(a), dev.grants(a + 1), locate);
    ghost var head := dev.trace;
    ghost var tail := PassTail(r);
    if q == null || numCodes == 0 {
      assert tail == [if q == null then NullDestroyed else SessionDestroyed];
      assert !Clean(r);
      QrDeinit(dev, q);
      clean := false;
    } else {
      clean := StreamRead(dev, q, numCodes);
      ghost var last := if clean then [SessionDestroyed] else [];
      assert tail == ReadAllTrace(q.codes) + last;
      assert clean == Clean(r);
      Assoc(head, ReadAllTrace(q.codes), last);
    }
    assert dev.trace == head + tail;
    FramedAfter(old(dev.trace), InitTrace(dev.grants(a), dev.grants(a + 1)), tail);
  }

  /** `qr_read_all` in the stream loop (`main/qr.c:167-172`): `qr_deinit` only when every symbol decoded, `continue` otherwise. */
  method StreamRead(dev: Device, q: Quirc, numCodes: int) returns (clean: bool)
    requires dev.Valid() && q.stage == Located && numCodes == |q.codes|
    modifies dev`sent, dev`trace, q`stage
    ensures dev.Valid() && clean == AllDecoded(q.codes)
    ensures dev.trace == old(dev.trace) + ReadAllTrace(q.codes) + (if clean then [SessionDestroyed] else [])
  {
    var status := ReadAll(dev, q, numCodes);
    if status != 0 {
      clean := false;
      assert dev.trace == old(dev.trace) + ReadAllTrace(q.codes) + [];
    } else {
      QrDeinit(dev, q);
      clean := true;
    }
  }

  /** A pass of the loop as the loop sees it: the pass function at the current capture and allocation. */
  method NextPass(dev: Device, locate: Locator, ghost pass: (nat, nat) -> Pass) returns (clean: bool)
    requires dev.Valid() && !dev.holding && CameraFits(dev.shots)
    requires forall c: nat, a: nat {:trigger PassAt(dev.shots, dev.grants, locate, c, a)} ::
      pass(c, a) == PassAt(dev.shots, dev.grants, locate, c, a)
    modifies dev
    ensures dev.Valid() && !dev.holding && dev.captured == old(dev.captured) + 1
    ensures var p := pass(old(dev.captured), old(dev.allocations));
      clean == p.clean && dev.trace == old(dev.trace) + p.trace && dev.allocations == p.next
  {
    ghost var c, a := dev.captured, dev.allocations;
    assert pass(c, a) == PassAt(dev.shots, dev.grants, locate, c, a);
    clean := StreamPass(dev, locate);
  }

  /** The trace of a run of `qr_stream_handler`, how many frames it took, whether it returned, and the allocation count after it. */
  datatype Run = Run(trace: seq<Event>, frames: nat, returned: bool, next: nat)

  /**
   * The loop of `qr_stream_handler` over the passes `pass`, from capture `c`
   * and allocation `a`, cut off after `budget` frames: it returns after the
   * first clean pass and otherwise goes on with the next frame.
   */
  function Loop(pass: (nat, nat) -> Pass, c: nat, a: nat, budget: nat): Run
    decreases budget
  {
    if budget == 0 then Run([], 0, false, a)
    else
      var p := pass(c, a);
      if p.clean then Run(p.trace, 1, true, p.next)
      else
        var rest := Loop(pass, c + 1, p.next, budget - 1);
        Run(p.trace + rest.trace, rest.frames + 1, rest.returned, rest.next)
  }

  /** The passes the camera and the heap give rise to. */
  function Passes(shots: nat -> Frame, grants: nat -> bool, locate: Locator): (nat, nat) -> Pass
    requires CameraFits(shots)
  {
    (c: nat, a: nat) => PassAt(shots, grants, locate, c, a)
  }

  /** `qr_stream_handler` from capture number `c` and allocation number `a`, cut off after `budget` frames. */
  function StreamRun(shots: nat -> Frame, grants: nat -> bool, locate: Locator, c: nat, a: nat, budget: nat): Run
    requires CameraFits(shots)
  {
    Loop(Passes(shots, grants, locate), c, a, budget)
  }

  /** A run that has already taken `frames` frames leaving `done`, followed by the run `rest`. */
  function After(done: seq<Event>, frames: nat, rest: Run): Run {
    Run(done + rest.trace, frames + rest.frames, rest.returned, rest.next)
  }

  lemma LoopStep(pass: (nat, nat) -> Pass, c: nat, a: nat, n: nat, done: seq<Event>, frames: nat)
    requires n > 0
    ensures var p := pass(c, a);
      After(done, frames, Loop(pass, c, a, n))
        == if p.clean then Run(done + p.trace, frames + 1, true, p.next) else After(done + p.trace, frames + 1, Loop(pass, c + 1, p.next, n - 1))
  {
    var p := pass(c, a);
    Assoc(done, p.trace, Loop(pass, c + 1, p.next, n - 1).trace);
  }

  lemma LoopAgree(p: (nat, nat) -> Pass, q: (nat, nat) -> Pass, c: nat, a: nat, n: nat)
    requires forall c: nat, a: nat :: p(c, a) == q(c, a)
    ensures Loop(p, c, a, n) == Loop(q, c, a, n)
    decreases n
  {
    if n > 0 {
      LoopAgree(p, q, c + 1, p(c, a).next, n - 1);
    }
  }

  /** The passes as a function value known pass by pass only, as the loop meets them. */
  lemma PassFunction(shots: nat -> Frame, grants: nat -> bool, locate: Locator) returns (pass: (nat, nat) -> Pass)
    requires CameraFits(shots)
    ensures forall c: nat, a: nat {:trigger PassAt(shots, grants, locate, c, a)} :: pass(c, a) == PassAt(shots, grants, locate, c, a)
  {
    pass := Passes(shots, grants, locate);
  }

  /**
   * `qr_stream_handler`: the source loops until a frame decodes cleanly; the
   * model stops after `budget` frames and says whether it returned.
   */
  method StreamHandler(dev: Device, locate: Locator, budget: nat) returns (frames: nat, returned: bool)
    requires dev.Valid() && !dev.holding && CameraFits(dev.shots)
    modifies dev
    ensures dev.Valid() && !dev.holding && dev.captured == old(dev.captured) + frames
    ensures var run := StreamRun(dev.shots, dev.grants, locate, old(dev.captured), old(dev.allocations), budget);
      && dev.trace == old(dev.trace) + run.trace && frames == run.frames && returned == run.returned
      && dev.allocations == run.next
  {
    ghost var pass := PassFunction(dev.shots, dev.grants, locate);
    ghost var total := Loop(pass, dev.captured, dev.allocations, budget);
    assert StreamRun(dev.shots, dev.grants, locate, dev.captured, dev.allocations, budget) == total by {
      LoopAgree(pass, Passes(dev.shots, dev.grants, locate), dev.captured, dev.allocations, budget);
    }
    ghost var done: seq<Event> := [];
    assert total == After(done, 0, total);
    frames := 0;
    while frames < budget
      invariant dev.Valid() && !dev.holding && frames <= budget
      invariant dev.trace == old(dev.trace) + done && dev.captured == old(dev.captured) + frames
      invariant total == After(done, frames, Loop(pass, dev.captured, dev.allocations, budget - frames))
      decreases budget - frames
    {
      ghost var c, a := dev.captured, dev.allocations;
      ghost var p, n := pass(c, a), budget - frames;
      assert total == if p.clean then Run(done + p.trace, frames + 1, true, p.next) else After(done + p.trace, frames + 1, Loop(pass, c + 1, p.next, n - 1)) by {
        LoopStep(pass, c, a, n, done, frames);
      }
      var clean := NextPass(dev, locate, pass);
      ghost var t := pass(c, a).trace;
      frames := frames + 1;
      Assoc(old(dev.trace), done, t);
      done := done + t;
      if clean {
        return frames, true;
      }
    }
    assert done + [] == done;
    returned := false;
  }

  /** Pass number `k` of a run over `pass` that starts at capture `c` and allocation `a`. */
  function PassNo(pass: (nat, nat) -> Pass, c: nat, a: nat, k: nat): Pass
    decreases k
  {
    if k == 0 then pass(c, a) else PassNo(pass, c + 1, pass(c, a).next, k - 1)
  }

  /**
   * The stream loop returns only right after a clean pass, every pass before
   * it failed to locate or to decode, and within the budget it keeps going
   * exactly as long as no pass is clean.
   */
  lemma {:induction false} LoopReturnsOnlyWhenClean(pass: (nat, nat) -> Pass, c: nat, a: nat, budget: nat)
    ensures var run := Loop(pass, c, a, budget);
      && run.frames <= budget
      && (run.returned ==> run.frames >= 1 && PassNo(pass, c, a, run.frames - 1).clean)
      && (forall k :: 0 <= k < run.frames - 1 ==> !PassNo(pass, c, a, k).clean)
      && (!run.returned ==> run.frames == budget && forall k :: 0 <= k < budget ==> !PassNo(pass, c, a, k).clean)
    decreases budget
  {
    if budget > 0 && !pass(c, a).clean {
      var a' := pass(c, a).next;
      LoopReturnsOnlyWhenClean(pass, c + 1, a', budget - 1);
      forall k | 0 < k < budget
        ensures PassNo(pass, c, a, k) == PassNo(pass, c + 1, a', k - 1)
      {
      }
    }
  }

  /**
   * One pass of the stream loop takes and returns its frame before sending,
   * sends the lines of the symbols that decoded even when it goes on to
   * retry, and leaves its quirc object alive exactly when it was partial.
   */
  lemma StreamPassFacts(f: Frame, newOk: bool, resizeOk: bool, locate: Locator)
    requires FrameFits(f)
    ensures FrameReturnedFirst(PassTrace(f, newOk, resizeOk, locate))
    ensures var r := FrameResult(f, newOk, resizeOk, locate);
      Responses(PassTrace(f, newOk, resizeOk, locate)) == if r.Some? then SuccessLines(r.value) else []
    ensures var t := PassTrace(f, newOk, resizeOk, locate);
      Occurrences(t, SessionCreated)
        == Occurrences(t, SessionDestroyed) + if Partial(FrameResult(f, newOk, resizeOk, locate)) then 1 else 0
  {
    var r := FrameResult(f, newOk, resizeOk, locate);
    var init, tail := InitTrace(newOk, resizeOk), PassTail(r);
    InitTraceFacts(newOk, resizeOk);
    if r.Some? && r.value != [] {
      var last := if AllDecoded(r.value) then [SessionDestroyed] else [];
      ReadAllFacts(r.value);
      ReadAllResponses(r.value);
      ResponsesAppend(ReadAllTrace(r.value), last);
      ResponsesSilent(last);
      OccurrencesAppend(ReadAllTrace(r.value), last, SessionCreated);
      OccurrencesAppend(ReadAllTrace(r.value), last, SessionDestroyed);
      if last != [] {
        OccurrencesSingle(SessionDestroyed, SessionCreated);
        OccurrencesSingle(SessionDestroyed, SessionDestroyed);
      }
    } else {
      var e := if r.None? then NullDestroyed else SessionDestroyed;
      assert tail == [e];
      OccurrencesSingle(e, SessionCreated);
      OccurrencesSingle(e, SessionDestroyed);
      assert tail[1..] == [];
    }
    FramedFacts(newOk, resizeOk, tail);
    FramedOccurrences(init, tail, SessionCreated);
    FramedOccurrences(init, tail, SessionDestroyed);
  }

  /** An image whose pixel slice `qr_init` can copy without overrunning either buffer. */
  predicate ImageFits(p: Pgm.Pgm) {
    CopyFits(p.buf, p.len, p.width, p.height)
  }

  /** `qr_init` on the image `preset_qr_handler` took from `parse_pgm`. */
  function PresetResult(p: Pgm.Pgm, newOk: bool, resizeOk: bool, locate: Locator): Option<seq<Option<Payload>>>
    requires CopyFits(p.buf, p.len, p.width, p.height)
  {
    InitResult(p.buf, p.len, p.width, p.height, newOk, resizeOk, locate)
  }

  /** `preset_qr_handler` after `qr_init`: when nothing is found it returns without `qr_deinit`. */
  function PresetQrTail(r: Option<seq<Option<Payload>>>): seq<Event> {
    Report(r) + (if NotFound(r) then [] else [SessionDestroyed])
  }

  /** The trace of one `preset_qr_handler` call on the image `p`. */
  function PresetQrTrace(p: Pgm.Pgm, newOk: bool, resizeOk: bool, locate: Locator): seq<Event>
    requires CopyFits(p.buf, p.len, p.width, p.height)
  {
    InitTrace(newOk, resizeOk) + PresetQrTail(PresetResult(p, newOk, resizeOk, locate))
  }

  /**
   * `preset_qr_handler`: the embedded image is parsed and the return code
   * ignored, so `qr_init` sees whatever the struct holds (`prior` is its
   * uninitialised contents).
   */
  method PresetQrHandler(dev: Device, asset: seq<byte>, prior: Pgm.Pgm, locate: Locator)
    requires dev.Valid()
    requires ImageFits(Pgm.Written(asset, prior))
    modifies dev`allocations, dev`sent, dev`trace
    ensures dev.Valid()
    ensures dev.allocations == old(dev.allocations) + InitAllocations(dev.grants(old(dev.allocations)))
    ensures dev.trace == old(dev.trace)
      + PresetQrTrace(Pgm.Written(asset, prior), dev.grants(old(dev.allocations)), dev.grants(old(dev.allocations) + 1), locate)
  {
    var _, pgm := Pgm.ParsePgm(asset, prior);
    PresetQrOn(dev, pgm, locate);
  }

  /** `preset_qr_handler` from `qr_init` on: the image it got from `parse_pgm` is decoded and reported. */
  method PresetQrOn(dev: Device, pgm: Pgm.Pgm, locate: Locator)
    requires dev.Valid() && ImageFits(pgm)
    modifies dev`allocations, dev`sent, dev`trace
    ensures dev.Valid()
    ensures dev.allocations == old(dev.allocations) + InitAllocations(dev.grants(old(dev.allocations)))
    ensures dev.trace == old(dev.trace) + PresetQrTrace(pgm, dev.grants(old(dev.allocations)), dev.grants(old(dev.allocations) + 1), locate)
  {
    ghost var a := dev.allocations;
    ghost var init := InitTrace(dev.grants(a), dev.grants(a + 1));
    ghost var r := PresetResult(pgm, dev.grants(a), dev.grants(a + 1), locate);
    var q, numCodes := QrInit(dev, pgm.buf, pgm.len, pgm.width, pgm.height, locate);
    ghost var tail := PresetQrTail(r);
    assert PresetQrTrace(pgm, dev.grants(a), dev.grants(a + 1), locate) == init + tail;
    ghost var head := dev.trace;
    assert head == old(dev.trace) + init;
    if q == null || numCodes == 0 {
      assert tail == [Responded(NoQr)];
      dev.Respond(NoQr);
      assert dev.trace == head + tail;
    } else {
      assert tail == ReadAllTrace(q.codes) + [SessionDestroyed];
      var _ := ReadAll(dev, q, numCodes);
      QrDeinit(dev, q);
      assert dev.trace == head + ReadAllTrace(q.codes) + [SessionDestroyed];
      Assoc(head, ReadAllTrace(q.codes), [SessionDestroyed]);
    }
    Assoc(old(dev.trace), init, tail);
  }

  /**
   * `preset_qr_handler` sends the not-found message exactly when `qr_init`
   * failed or found nothing, and otherwise one line per decoded symbol.
   */
  lemma PresetQrOutcome(p: Pgm.Pgm, newOk: bool, resizeOk: bool, locate: Locator)
    requires CopyFits(p.buf, p.len, p.width, p.height)
    ensures var r := PresetResult(p, newOk, resizeOk, locate);
      Responses(PresetQrTrace(p, newOk, resizeOk, locate))
        == if NotFound(r) then [NoQr] else SuccessLines(r.value)
    ensures var r := PresetResult(p, newOk, resizeOk, locate);
      (Responded(NoQr) in PresetQrTrace(p, newOk, resizeOk, locate)) <==> NotFound(r)
  {
    var r := PresetResult(p, newOk, resizeOk, locate);
    var init, tail := InitTrace(newOk, resizeOk), PresetQrTail(r);
    InitTraceFacts(newOk, resizeOk);
    ResponsesAppend(init, tail);
    if NotFound(r) {
      assert [Responded(NoQr)][1..] == [];
    } else {
      ReadAllResponses(r.value);
      ReadAllSendsNoNoQr(r.value);
      ResponsesAppend(ReadAllTrace(r.value), [SessionDestroyed]);
      assert [SessionDestroyed][1..] == [];
    }
  }

  /**
   * `preset_qr_handler` never hands NULL to `quirc_destroy`, and it leaves a
   * quirc object alive exactly when `qr_init` succeeded and found no symbol.
   */
  lemma PresetQrLeaks(p: Pgm.Pgm, newOk: bool, resizeOk: bool, locate: Locator)
    requires CopyFits(p.buf, p.len, p.width, p.height)
    ensures var t := PresetQrTrace(p, newOk, resizeOk, locate);
      && NullDestroyed !in t
      && Occurrences(t, SessionCreated)
         == Occurrences(t, SessionDestroyed) + if PresetResult(p, newOk, resizeOk, locate) == Some([]) then 1 else 0
  {
    var r := PresetResult(p, newOk, resizeOk, locate);
    var init, tail := InitTrace(newOk, resizeOk), PresetQrTail(r);
    InitTraceFacts(newOk, resizeOk);
    if NotFound(r) {
      forall e | e in {SessionCreated, SessionDestroyed, NullDestroyed}
        ensures Occurrences(tail, e) == 0
      {
        OccurrencesSingle(Responded(NoQr), e);
      }
    } else {
      ReadAllFacts(r.value);
      forall e | e in {SessionCreated, SessionDestroyed, NullDestroyed}
        ensures Occurrences(tail, e) == Occurrences(ReadAllTrace(r.value), e) + (if e == SessionDestroyed then 1 else 0)
      {
        OccurrencesAppend(ReadAllTrace(r.value), [SessionDestroyed], e);
        OccurrencesSingle(SessionDestroyed, e);
      }
    }
    forall e | e in {SessionCreated, SessionDestroyed, NullDestroyed}
      ensures Occurrences(init + tail, e) == Occurrences(init, e) + Occurrences(tail, e)
    {
      OccurrencesAppend(init, tail, e);
    }
    OccurrencesAbsent(init + tail, NullDestroyed);
  }

  /** What `preset_pgm_handler` streams: the header chunk, the pixel chunk, the empty chunk that ends the body. */
  function PgmExport(p: Pgm.Pgm): (rs: seq<Response>)
    requires p.len <= |p.buf|
    ensures |rs| == 3 && (forall k :: 0 <= k < 3 ==> rs[k].Chunk?) && rs[2].data == []
  {
    [Chunk(Pgm.Header(p.width, p.height)), Chunk(p.buf[..p.len]), Chunk([])]
  }

  /** The body the client receives from a sequence of responses. */
  function Body(rs: seq<Response>): seq<byte> {
    if rs == [] then []
    else Wire(rs[0]) + Body(rs[1..])
  }

  /** `preset_pgm_handler`; like `preset_qr_handler` it ignores what `parse_pgm` returned. */
  method PresetPgmHandler(dev: Device, asset: seq<byte>, prior: Pgm.Pgm)
    requires dev.Valid()
    requires Pgm.Written(asset, prior).len <= |Pgm.Written(asset, prior).buf|
    modifies dev`sent, dev`trace
    ensures var rs := PgmExport(Pgm.Written(asset, prior));
      && dev.Valid() && dev.sent == old(dev.sent) + rs
      && dev.trace == old(dev.trace) + [Responded(rs[0]), Responded(rs[1]), Responded(rs[2])]
  {
    var _, pgm := Pgm.ParsePgm(asset, prior);
    var header := Pgm.Header(pgm.width, pgm.height);
    dev.Respond(Chunk(header));
    dev.Respond(Chunk(pgm.buf[..pgm.len]));
    dev.Respond(Chunk([]));
  }

  /** The body the client receives from `preset_pgm_handler` is the header followed by the pixel slice. */
  lemma PgmExportBody(p: Pgm.Pgm)
    requires p.len <= |p.buf|
    ensures Body(PgmExport(p)) == Pgm.Serialise(p.width, p.height, p.buf[..p.len])
  {
    var rs := PgmExport(p);
    assert rs[1..][1..][1..] == [];
    assert Body(rs[1..][1..]) == [];
    assert Body(rs[1..]) == p.buf[..p.len];
  }

  /** The container `preset_pgm_handler` streams for a parseable image parses to what the image parsed to. */
  lemma PresetPgmRoundTrip(asset: seq<byte>, prior: Pgm.Pgm)
    requires Pgm.Parse(asset).Some?
    ensures Pgm.Written(asset, prior).len <= |Pgm.Written(asset, prior).buf|
    ensures Pgm.Parse(Body(PgmExport(Pgm.Written(asset, prior)))) == Pgm.Parse(asset)
  {
    var p := Pgm.Parse(asset).value;
    assert p.buf[..p.len] == p.buf;
    PgmExportBody(p);
    Pgm.RoundTrip(p.width, p.height, p.buf);
  }
}
