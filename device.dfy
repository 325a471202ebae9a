/**
 * What a request handler touches besides quirc: the camera driver, the heap
 * quirc allocates from, and the HTTP response. A ghost trace records, in
 * order, every frame taken and returned, every quirc object created and
 * destroyed, every callback `qr_read_all` fires and every response sent.
 */
module Device {
  import opened Bytes

  /** `camera_fb_t`: a frame buffer of `len` bytes and the frame's size. */
  datatype Frame = Frame(buf: seq<byte>, len: nat, width: nat, height: nat)

  /**
   * One call that writes to the HTTP client: `httpd_resp_send` of the
   * not-found message; `httpd_resp_send` of the line `qr_on_success_httpd`
   * formats for symbol `index` and its payload; or `httpd_resp_send_chunk`
   * (an empty chunk ends the body). `Session.Wire` gives the bytes of each.
   */
  datatype Response = NoQr | Line(index: nat, payload: seq<byte>) | Chunk(data: seq<byte>)

  datatype Event =
    | Captured                     // esp_camera_fb_get
    | Released                     // esp_camera_fb_return
    | SessionCreated               // quirc_new succeeded
    | SessionDestroyed             // quirc_destroy of a live object
    | NullDestroyed                // quirc_destroy handed NULL
    | Succeeded(index: nat)        // on_success for symbol index
    | Failed(index: nat)           // on_failure for symbol index
    | Responded(response: Response)

  lemma Assoc<T>(a: seq<T>, b: seq<T>, c: seq<T>)
    ensures a + b + c == a + (b + c)
  {
  }

  /** The responses in a trace, in order. */
  function Responses(t: seq<Event>): seq<Response> {
    if t == [] then []
    else (if t[0].Responded? then [t[0].response] else []) + Responses(t[1..])
  }

  lemma {:induction false} ResponsesAppend(a: seq<Event>, b: seq<Event>)
    ensures Responses(a + b) == Responses(a) + Responses(b)
  {
    if a == [] {
      assert a + b == b;
    } else {
      var head := if a[0].Responded? then [a[0].response] else [];
      assert (a + b)[0] == a[0];
      assert (a + b)[1..] == a[1..] + b;
      assert Responses(a + b) == head + Responses(a[1..] + b);
      assert Responses(a) == head + Responses(a[1..]);
      ResponsesAppend(a[1..], b);
      Assoc(head, Responses(a[1..]), Responses(b));
    }
  }

  /** A trace in which nothing was sent contributes no response. */
  lemma {:induction false} ResponsesSilent(t: seq<Event>)
    requires forall j :: 0 <= j < |t| ==> !t[j].Responded?
    ensures Responses(t) == []
  {
    if t != [] {
      ResponsesSilent(t[1..]);
    }
  }

  /** The callbacks `qr_read_all` fired in a trace, in order. */
  function Callbacks(t: seq<Event>): seq<Event> {
    if t == [] then []
    else (if t[0].Succeeded? || t[0].Failed? then [t[0]] else []) + Callbacks(t[1..])
  }

  lemma {:induction false} CallbacksAppend(a: seq<Event>, b: seq<Event>)
    ensures Callbacks(a + b) == Callbacks(a) + Callbacks(b)
  {
    if a == [] {
      assert a + b == b;
    } else {
      var head := if a[0].Succeeded? || a[0].Failed? then [a[0]] else [];
      assert (a + b)[0] == a[0];
      assert (a + b)[1..] == a[1..] + b;
      assert Callbacks(a + b) == head + Callbacks(a[1..] + b);
      assert Callbacks(a) == head + Callbacks(a[1..]);
      CallbacksAppend(a[1..], b);
      Assoc(head, Callbacks(a[1..]), Callbacks(b));
    }
  }

  /** How many times `e` occurs in `t`. */
  function Occurrences(t: seq<Event>, e: Event): nat {
    if t == [] then 0 else (if t[0] == e then 1 else 0) + Occurrences(t[1..], e)
  }

  lemma {:induction false} OccurrencesAppend(a: seq<Event>, b: seq<Event>, e: Event)
    ensures Occurrences(a + b, e) == Occurrences(a, e) + Occurrences(b, e)
  {
    if a == [] {
      assert a + b == b;
    } else {
      assert (a + b)[0] == a[0];
      assert (a + b)[1..] == a[1..] + b;
      OccurrencesAppend(a[1..], b, e);
    }
  }

  /** An event occurs no times exactly when it is not in the trace. */
  lemma {:induction false} OccurrencesAbsent(t: seq<Event>, e: Event)
    ensures Occurrences(t, e) == 0 <==> e !in t
  {
    if t != [] {
      OccurrencesAbsent(t[1..], e);
      assert t == [t[0]] + t[1..];
    }
  }

  lemma OccurrencesSingle(x: Event, e: Event)
    ensures Occurrences([x], e) == if x == e then 1 else 0
  {
    assert [x][1..] == [];
  }

  /** The camera discipline: one frame taken first, given back once, and given back before anything is sent. */
  ghost predicate FrameReturnedFirst(t: seq<Event>) {
    |t| > 0 && t[0] == Captured
    && Occurrences(t, Captured) == 1 && Occurrences(t, Released) == 1
    && forall j :: 0 <= j < |t| && t[j].Responded? ==> Released in t[..j]
  }

  /** The ESP32 as one handler invocation sees it. */
  class Device {
    /** the frame the camera delivers on its n-th capture */
    const shots: nat -> Frame
    var captured: nat
    ghost var holding: bool
    /** whether the heap grants its n-th allocation */
    const grants: nat -> bool
    var allocations: nat
    /** what has been written to the HTTP client */
    var sent: seq<Response>
    ghost var trace: seq<Event>

    ghost predicate Valid()
      reads this
    {
      sent == Responses(trace)
    }

    constructor (shots: nat -> Frame, grants: nat -> bool)
      ensures Valid() && this.shots == shots && this.grants == grants
      ensures captured == 0 && allocations == 0 && !holding && trace == []
    {
      this.shots, this.grants := shots, grants;
      captured, allocations := 0, 0;
      holding := false;
      sent, trace := [], [];
    }

    /** `esp_camera_fb_get`: the next frame; the handler holds it until it gives it back. */
    method Capture() returns (frame: Frame)
      requires Valid() && !holding
      modifies this`captured, this`holding, this`trace
      ensures Valid() && holding && frame == shots(old(captured)) && captured == old(captured) + 1
      ensures trace == old(trace) + [Captured]
    {
      frame := shots(captured);
      captured := captured + 1;
      holding := true;
      ResponsesAppend(trace, [Captured]);
      trace := trace + [Captured];
    }

    /** `esp_camera_fb_return` */
    method Release()
      requires Valid() && holding
      modifies this`holding, this`trace
      ensures Valid() && !holding && trace == old(trace) + [Released]
    {
      holding := false;
      ResponsesAppend(trace, [Released]);
      trace := trace + [Released];
    }

    /** One `malloc` on behalf of quirc. */
    method Allocate() returns (granted: bool)
      modifies this`allocations
      ensures granted == grants(old(allocations)) && allocations == old(allocations) + 1
    {
      granted := grants(allocations);
      allocations := allocations + 1;
    }

    /** `httpd_resp_send` or `httpd_resp_send_chunk` */
    method Respond(r: Response)
      requires Valid()
      modifies this`sent, this`trace
      ensures Valid() && sent == old(sent) + [r] && trace == old(trace) + [Responded(r)]
    {
      ResponsesAppend(trace, [Responded(r)]);
      sent := sent + [r];
      trace := trace + [Responded(r)];
    }

    /** Notes an event that sends nothing. */
    ghost method Record(e: Event)
      requires Valid() && !e.Responded?
      modifies this`trace
      ensures Valid() && trace == old(trace) + [e]
    {
      ResponsesAppend(trace, [e]);
      trace := trace + [e];
    }
  }
}
