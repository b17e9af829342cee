/**
 The enveloped event stream of WatchRuntime (internal/serverclient/client.go): a flag byte, the
 payload's size as four bytes, most significant first, and the payload.
 */
module Frames {
  import opened Wrappers

  type Byte = x: int | 0 <= x < 256

  const HEADER: nat := 5
  const MAX_MESSAGE: nat := 4 * 1024 * 1024

  datatype Frame = Frame(flags: Byte, payload: seq<Byte>)

  /** How the stream ends: nil, or one of the errors. */
  datatype Outcome = Closed | BrokenHeader | TooLarge | CutPayload | BadPayload | HandlerFailed

  /** Bit 1 of the flags marks the end of the stream. */
  predicate EndsStream(flags: Byte) {
    flags / 2 % 2 == 1
  }

  function SizeBytes(n: nat): (b: seq<Byte>)
    requires n < 0x1_0000_0000
    ensures |b| == 4 && SizeOf(b) == n
  {
    var upper: int := n / 256;
    var top: int := upper / 256;
    var b0: int, b1: int, b2: int, b3: int := top / 256, top % 256, upper % 256, n % 256;
    [b0, b1, b2, b3]
  }

  function SizeOf(b: seq<Byte>): nat
    requires |b| == 4
  {
    var b0: int, b1: int, b2: int, b3: int := b[0], b[1], b[2], b[3];
    ((b0 * 256 + b1) * 256 + b2) * 256 + b3
  }

  function Encode(f: Frame): seq<Byte>
    requires |f.payload| <= MAX_MESSAGE
  {
    [f.flags] + SizeBytes(|f.payload|) + f.payload
  }

  ghost predicate Sendable(frames: seq<Frame>) {
    forall i | 0 <= i < |frames| :: |frames[i].payload| <= MAX_MESSAGE
  }

  function EncodeAll(frames: seq<Frame>): seq<Byte>
    requires Sendable(frames)
  {
    if frames == [] then [] else Encode(frames[0]) + EncodeAll(frames[1..])
  }

  /**
   The receiving loop on the bytes still to come. `broken` says that reading past them fails
   rather than ends; `decode` parses a payload, `handle` is the handler's verdict.
   */
  function Watch<E>(body: seq<Byte>, broken: bool, decode: seq<Byte> -> Option<E>, handle: E -> bool): (seq<E>, Outcome)
    decreases |body|
  {
    if |body| < HEADER then ([], if broken then BrokenHeader else Closed)
    else
      var flags, size := body[0], SizeOf(body[1..HEADER]);
      if size > MAX_MESSAGE then ([], TooLarge)
      else if |body| < HEADER + size then ([], CutPayload)
      else if EndsStream(flags) then ([], Closed)
      else
        match decode(body[HEADER..HEADER + size])
        case None => ([], BadPayload)
        case Some(event) =>
          if !handle(event) then ([event], HandlerFailed)
          else
            var (events, outcome) := Watch(body[HEADER + size..], broken, decode, handle);
            ([event] + events, outcome)
  }

  /** Four bytes, the first one heaviest. */
  lemma SizeSpeltOut(b: seq<Byte>)
    requires |b| == 4
    ensures var b0: int, b1: int, b2: int, b3: int := b[0], b[1], b[2], b[3];
            SizeOf(b) == b0 * 16_777_216 + b1 * 65_536 + b2 * 256 + b3
  {
  }

  /**
   The loop byte by byte: fewer than five bytes end it; a size over 4 MiB or a payload that is cut
   is an error; a whole frame ends it without an event if bit 1 of its first byte is set, whatever
   bit 0 is, and else hands its payload over.
   */
  lemma FrameSpeltOut<E>(body: seq<Byte>, broken: bool, decode: seq<Byte> -> Option<E>, handle: E -> bool)
    ensures |body| < 5 ==> Watch(body, broken, decode, handle) == ([], if broken then BrokenHeader else Closed)
    ensures |body| >= 5 ==>
              var b1: int, b2: int, b3: int, b4: int := body[1], body[2], body[3], body[4];
              var size := b1 * 16_777_216 + b2 * 65_536 + b3 * 256 + b4;
              && (size > 4_194_304 ==> Watch(body, broken, decode, handle) == ([], TooLarge))
              && (size <= 4_194_304 && |body| < 5 + size ==> Watch(body, broken, decode, handle) == ([], CutPayload))
              && (size <= 4_194_304 && 5 + size <= |body| ==>
                    if body[0] % 4 == 2 || body[0] % 4 == 3 then Watch(body, broken, decode, handle) == ([], Closed)
                    else
                      match decode(body[5..5 + size])
                      case None => Watch(body, broken, decode, handle) == ([], BadPayload)
                      case Some(event) =>
                        if !handle(event) then Watch(body, broken, decode, handle) == ([event], HandlerFailed)
                        else
                          var (events, outcome) := Watch(body[5 + size..], broken, decode, handle);
                          Watch(body, broken, decode, handle) == ([event] + events, outcome))
  {
    if |body| >= 5 {
      SizeSpeltOut(body[1..HEADER]);
      hide SizeOf;
    }
  }

  /** The end of a stream, flags 2 and a JSON object, is no event; the same bytes under flags 0 are one. */
  lemma EndFrameIsNoEvent<E>(rest: seq<Byte>, decode: seq<Byte> -> Option<E>, handle: E -> bool)
    ensures Watch([2, 0, 0, 0, 2, 123, 125] + rest, false, decode, handle) == ([], Closed)
    ensures decode([123, 125]).Some? ==>
              decode([123, 125]).value in Watch([0, 0, 0, 0, 2, 123, 125] + rest, false, decode, handle).0
  {
    var (end, event) := ([2, 0, 0, 0, 2, 123, 125] + rest, [0, 0, 0, 0, 2, 123, 125] + rest);
    FrameSpeltOut(end, false, decode, handle);
    FrameSpeltOut(event, false, decode, handle);
    hide Watch;
    assert event[5..7] == [123, 125];
  }

  /** How a frame is sent. */
  lemma FrameBytes(f: Frame)
    requires |f.payload| <= 4_194_304
    ensures var n := |f.payload|;
            Encode(f) == [f.flags, n / 16_777_216, n / 65_536 % 256, n / 256 % 256, n % 256] + f.payload
  {
    var n := |f.payload|;
    assert n / 256 / 256 == n / 65_536 && n / 65_536 / 256 == n / 16_777_216;
  }

  /** The loop has handled these events, and what it does with the rest completes what it does with the body. */
  ghost predicate Midway<E>(
      body: seq<Byte>, broken: bool, decode: seq<Byte> -> Option<E>, handle: E -> bool, handled: seq<E>,
      rest: seq<Byte>)
  {
    var (events, end) := Watch(rest, broken, decode, handle);
    Watch(body, broken, decode, handle) == (handled + events, end)
  }

  /** A frame that is handed over: the loop goes on behind it, or stops there if it is refused. */
  lemma FrameHandled<E>(
      body: seq<Byte>, broken: bool, decode: seq<Byte> -> Option<E>, handle: E -> bool, handled: seq<E>,
      rest: seq<Byte>)
    requires Midway(body, broken, decode, handle, handled, rest) && |rest| >= HEADER
    requires var size := SizeOf(rest[1..HEADER]);
             && size <= MAX_MESSAGE && HEADER + size <= |rest| && !EndsStream(rest[0])
             && decode(rest[HEADER..HEADER + size]).Some?
    ensures var size := SizeOf(rest[1..HEADER]);
            var event := decode(rest[HEADER..HEADER + size]).value;
            if handle(event) then Midway(body, broken, decode, handle, handled + [event], rest[HEADER + size..])
            else Watch(body, broken, decode, handle) == (handled + [event], HandlerFailed)
  {
    hide SizeOf;
    var size := SizeOf(rest[1..HEADER]);
    var event := decode(rest[HEADER..HEADER + size]).value;
    var later := Watch(rest[HEADER + size..], broken, decode, handle).0;
    assert handled + ([event] + later) == (handled + [event]) + later;
  }

  method WatchRuntime<E>(body: seq<Byte>, broken: bool, decode: seq<Byte> -> Option<E>, handle: E -> bool)
    returns (handled: seq<E>, outcome: Outcome)
    ensures (handled, outcome) == Watch(body, broken, decode, handle)
  {
    hide SizeOf;
    handled := [];
    var rest := body;
    assert [] + Watch(body, broken, decode, handle).0 == Watch(body, broken, decode, handle).0;
    while true
      invariant Midway(body, broken, decode, handle, handled, rest)
      decreases |rest|
    {
      assert handled + [] == handled;
      if |rest| < HEADER {
        return handled, if broken then BrokenHeader else Closed;
      }
      var flags, size := rest[0], SizeOf(rest[1..HEADER]);
      if size > MAX_MESSAGE {
        return handled, TooLarge;
      }
      if |rest| < HEADER + size {
        return handled, CutPayload;
      }
      if EndsStream(flags) {
        return handled, Closed;
      }
      var event := decode(rest[HEADER..HEADER + size]);
      if event == None {
        return handled, BadPayload;
      }
      FrameHandled(body, broken, decode, handle, handled, rest);
      hide Midway, Watch;
      handled := handled + [event.value];
      var accepted := handle(event.value);
      if !accepted {
        return handled, HandlerFailed;
      }
      rest := rest[HEADER + size..];
    }
  }

  // ---------- Decoding inverts encoding ----------

  /** The frames that the loop hands over whole: not the end, parsed, and welcome. */
  ghost predicate Delivered<E>(frames: seq<Frame>, decode: seq<Byte> -> Option<E>, handle: E -> bool) {
    forall i | 0 <= i < |frames| ::
      !EndsStream(frames[i].flags) && decode(frames[i].payload).Some? && handle(decode(frames[i].payload).value)
  }

  function Events<E>(frames: seq<Frame>, decode: seq<Byte> -> Option<E>): seq<E>
    requires forall i | 0 <= i < |frames| :: decode(frames[i].payload).Some?
  {
    seq(|frames|, i requires 0 <= i < |frames| && decode(frames[i].payload).Some? => decode(frames[i].payload).value)
  }

  lemma HeaderReads(f: Frame, rest: seq<Byte>)
    requires |f.payload| <= MAX_MESSAGE
    ensures var body := Encode(f) + rest;
            && |body| >= HEADER + |f.payload|
            && body[0] == f.flags && SizeOf(body[1..HEADER]) == |f.payload|
            && body[HEADER..HEADER + |f.payload|] == f.payload && body[HEADER + |f.payload|..] == rest
  {
    var body := Encode(f) + rest;
    assert body[1..HEADER] == SizeBytes(|f.payload|);
  }

  /** What a sequence of frames makes the loop do: the events it handles, and how it ends if a frame ends it. */
  function Play<E>(frames: seq<Frame>, decode: seq<Byte> -> Option<E>, handle: E -> bool): (seq<E>, Option<Outcome>) {
    if frames == [] then ([], None)
    else if EndsStream(frames[0].flags) then ([], Some(Closed))
    else
      match decode(frames[0].payload)
      case None => ([], Some(BadPayload))
      case Some(event) =>
        if !handle(event) then ([event], Some(HandlerFailed))
        else
          var (events, end) := Play(frames[1..], decode, handle);
          ([event] + events, end)
  }

  /** Frames that are all handed over end nothing and come out as their events. */
  lemma {:induction false} PlayDelivered<E>(frames: seq<Frame>, decode: seq<Byte> -> Option<E>, handle: E -> bool)
    requires Delivered(frames, decode, handle)
    ensures Play(frames, decode, handle) == (Events(frames, decode), None)
    decreases |frames|
  {
    if frames != [] {
      PlayDelivered(frames[1..], decode, handle);
      assert Events(frames, decode) == [decode(frames[0].payload).value] + Events(frames[1..], decode);
    }
  }

  /** Whole frames do what they do as frames, and unless one ends the loop, decoding goes on with what follows. */
  lemma {:induction false} WatchSplits<E>(
      frames: seq<Frame>, rest: seq<Byte>, broken: bool, decode: seq<Byte> -> Option<E>, handle: E -> bool)
    requires Sendable(frames)
    ensures var ((events, end), (later, outcome)) := (Play(frames, decode, handle),
        Watch(rest, broken, decode, handle));
            Watch(EncodeAll(frames) + rest, broken, decode, handle)
              == if end.Some? then (events, end.value) else (events + later, outcome)
    decreases |frames|
  {
    hide SizeOf, SizeBytes, Encode;
    var later := Watch(rest, broken, decode, handle).0;
    if frames == [] {
      assert EncodeAll(frames) + rest == rest && [] + later == later;
    } else {
      var f, onward := frames[0], EncodeAll(frames[1..]) + rest;
      WatchSplits(frames[1..], rest, broken, decode, handle);
      assert EncodeAll(frames) + rest == Encode(f) + onward;
      HeaderReads(f, onward);
      hide Encode, EncodeAll;
      if !EndsStream(f.flags) && decode(f.payload).Some? {
        var (event, events) := (decode(f.payload).value, Play(frames[1..], decode, handle).0);
        assert ([event] + events) + later == [event] + (events + later);
      }
    }
  }

  /** The loop stops cleanly at the first end-of-stream frame, whatever bytes come after it. */
  lemma StopsAtEndOfStream<E>(
      frames: seq<Frame>, last: Frame, rest: seq<Byte>, broken: bool, decode: seq<Byte> -> Option<E>, handle: E -> bool)
    requires Sendable(frames) && Delivered(frames, decode, handle)
    requires |last.payload| <= MAX_MESSAGE && EndsStream(last.flags)
    ensures Watch(EncodeAll(frames) + (Encode(last) + rest), broken, decode, handle) == (Events(frames, decode), Closed)
  {
    HeaderReads(last, rest);
    PlayDelivered(frames, decode, handle);
    WatchSplits(frames, Encode(last) + rest, broken, decode, handle);
    assert Events(frames, decode) + [] == Events(frames, decode);
  }

  /** How many of the frames lie whole within the first `n` bytes. */
  function WholeFrames(frames: seq<Frame>, n: nat): (k: nat)
    requires Sendable(frames) && n <= |EncodeAll(frames)|
    ensures k <= |frames| && |EncodeAll(frames[..k])| <= n
  {
    if frames == [] || n < |Encode(frames[0])| then 0
    else
      var k := WholeFrames(frames[1..], n - |Encode(frames[0])|);
      assert frames[..k + 1][1..] == frames[1..][..k];
      1 + k
  }

  /** The first `n` elements are `whole` and a proper beginning of `next`, or nothing more without a next. */
  ghost predicate CutAt<T(!new)>(all: seq<T>, whole: seq<T>, next: Option<seq<T>>, n: nat)
    requires |whole| <= n <= |all|
  {
    var tail := all[|whole|..n];
    && all[..n] == whole + tail
    && (if next.Some? then tail < next.value else tail == [])
  }

  lemma CutBehind<T(!new)>(first: seq<T>, rest: seq<T>, whole: seq<T>, next: Option<seq<T>>, n: nat)
    requires |whole| <= n <= |rest| && CutAt(rest, whole, next, n)
    ensures CutAt(first + rest, first + whole, next, |first| + n)
  {
    var tail := rest[|whole|..n];
    assert (first + rest)[|first + whole|..|first| + n] == tail;
    assert first + (whole + tail) == (first + whole) + tail;
    assert (first + rest)[..|first| + n] == first + rest[..n];
  }

  lemma EncodeOneMore(f: Frame, rest: seq<Frame>)
    requires Sendable(rest) && |f.payload| <= MAX_MESSAGE
    ensures Sendable([f] + rest) && EncodeAll([f] + rest) == Encode(f) + EncodeAll(rest)
  {
    assert ([f] + rest)[1..] == rest;
    hide Encode;
  }

  /** The encoding of frame `k`, if there is one. */
  function EncodedAt(frames: seq<Frame>, k: nat): Option<seq<Byte>>
    requires Sendable(frames)
  {
    if k < |frames| then Some(Encode(frames[k])) else None
  }

  /** The first `n` bytes are the first `k` frames and a proper beginning of the next one, if there is one. */
  ghost predicate CutAfter(frames: seq<Frame>, n: nat, k: nat)
    requires Sendable(frames) && n <= |EncodeAll(frames)| && k <= |frames| && |EncodeAll(frames[..k])| <= n
  {
    CutAt(EncodeAll(frames), EncodeAll(frames[..k]), EncodedAt(frames, k), n)
  }

  lemma PrefixOneMore(f: Frame, rest: seq<Frame>, k: nat)
    requires Sendable(rest) && |f.payload| <= MAX_MESSAGE && k <= |rest|
    ensures Sendable([f] + rest) && EncodedAt([f] + rest, k + 1) == EncodedAt(rest, k)
    ensures EncodeAll(([f] + rest)[..k + 1]) == Encode(f) + EncodeAll(rest[..k])
  {
    EncodeOneMore(f, rest[..k]);
    assert ([f] + rest)[..k + 1] == [f] + rest[..k];
    hide Encode, EncodeAll;
  }

  lemma CutOneLater(f: Frame, rest: seq<Frame>, n: nat, k: nat)
    requires Sendable(rest) && |f.payload| <= MAX_MESSAGE
    requires n <= |EncodeAll(rest)| && k <= |rest| && |EncodeAll(rest[..k])| <= n && CutAfter(rest, n, k)
    ensures Sendable([f] + rest) && |Encode(f)| + n <= |EncodeAll([f] + rest)|
    ensures |EncodeAll(([f] + rest)[..k + 1])| <= |Encode(f)| + n && CutAfter([f] + rest, |Encode(f)| + n, k + 1)
  {
    hide EncodeAll, Encode, CutAt, EncodedAt;
    EncodeOneMore(f, rest);
    PrefixOneMore(f, rest, k);
    hide Sendable;
    CutBehind(Encode(f), EncodeAll(rest), EncodeAll(rest[..k]), EncodedAt(rest, k), n);
  }

  /** A stream cut after `n` bytes is its whole frames and a proper beginning of the next one. */
  lemma {:induction false} CutStream(frames: seq<Frame>, n: nat)
    requires Sendable(frames) && n <= |EncodeAll(frames)|
    ensures CutAfter(frames, n, WholeFrames(frames, n))
    decreases |frames|, 0
  {
    if frames == [] || n < |Encode(frames[0])| {
      CutInFirst(frames, n);
    } else {
      var f, rest := frames[0], frames[1..];
      assert frames == [f] + rest;
      EncodeOneMore(f, rest);
      hide EncodeAll, Encode, WholeFrames, CutAfter;
      CutStreamOneMore(f, rest, n - |Encode(f)|);
    }
  }

  lemma {:induction false} CutStreamOneMore(f: Frame, rest: seq<Frame>, n: nat)
    requires Sendable(rest) && |f.payload| <= MAX_MESSAGE && n <= |EncodeAll(rest)|
    ensures Sendable([f] + rest) && |Encode(f)| + n <= |EncodeAll([f] + rest)|
    ensures CutAfter([f] + rest, |Encode(f)| + n, WholeFrames([f] + rest, |Encode(f)| + n))
    decreases |rest|, 1
  {
    hide EncodeAll, Encode, CutAfter, Sendable, WholeFrames;
    CutStream(rest, n);
    WholeOneMore(f, rest, n);
    CutOneLater(f, rest, n, WholeFrames(rest, n));
  }

  lemma WholeOneMore(f: Frame, rest: seq<Frame>, n: nat)
    requires Sendable(rest) && |f.payload| <= MAX_MESSAGE && n <= |EncodeAll(rest)|
    ensures Sendable([f] + rest) && |Encode(f)| + n <= |EncodeAll([f] + rest)|
    ensures WholeFrames([f] + rest, |Encode(f)| + n) == WholeFrames(rest, n) + 1
  {
    EncodeOneMore(f, rest);
    assert ([f] + rest)[1..] == rest;
    hide Encode, EncodeAll;
  }

  lemma CutInFirst(frames: seq<Frame>, n: nat)
    requires Sendable(frames) && n <= |EncodeAll(frames)| && (frames != [] ==> n < |Encode(frames[0])|)
    ensures CutAfter(frames, n, 0)
  {
    hide Encode;
    assert frames[..0] == [];
    if frames != [] {
      assert EncodeAll(frames)[..n] == Encode(frames[0])[..n];
    }
  }

  /**
   A truncated stream does exactly what its whole frames do. If none of those ends the loop, it ends
   without an error if the cut leaves less than a header of the next frame, and with one if the cut
   lies in the payload.
   */
  lemma TruncationHandsOverPrefix<E>(frames: seq<Frame>, n: nat, decode: seq<Byte> -> Option<E>, handle: E -> bool)
    requires Sendable(frames) && n <= |EncodeAll(frames)|
    ensures var k := WholeFrames(frames, n);
            var ((events, end), left) := (Play(frames[..k], decode, handle), n - |EncodeAll(frames[..k])|);
            Watch(EncodeAll(frames)[..n], false, decode, handle)
              == (events, if end.Some? then end.value else if left < HEADER then Closed else CutPayload)
  {
    hide SizeOf, SizeBytes, EncodeAll, WholeFrames, Play;
    var k := WholeFrames(frames, n);
    var tail := EncodeAll(frames)[|EncodeAll(frames[..k])|..n];
    CutStream(frames, n);
    WatchSplits(frames[..k], tail, false, decode, handle);
    assert Play(frames[..k], decode, handle).0 + [] == Play(frames[..k], decode, handle).0;
    if |tail| >= HEADER {
      HeaderReads(frames[k], []);
      assert Encode(frames[k]) + [] == Encode(frames[k]);
      assert tail[1..HEADER] == Encode(frames[k])[1..HEADER];
    }
  }

  /**
   Whatever the bytes, the decoder and the handler: a stream cut anywhere hands over a beginning
   of what the whole stream does; and where the cut one ends with a frame that is too large,
   unreadable or refused, so does the whole one, after the same events.
   */
  lemma {:induction false} CutHandsOverPrefix<E>(
      body: seq<Byte>, n: nat, cut: bool, broken: bool, decode: seq<Byte> -> Option<E>, handle: E -> bool)
    requires n <= |body|
    ensures var (events, outcome) := Watch(body[..n], cut, decode, handle);
            && events <= Watch(body, broken, decode, handle).0
            && (outcome in {TooLarge, BadPayload, HandlerFailed} ==>
                  Watch(body, broken, decode, handle) == (events, outcome))
    decreases |body|
  {
    hide SizeOf;
    if n >= HEADER {
      var size := SizeOf(body[1..HEADER]);
      CutKeepsFrame(body, n, size);
      if HEADER + size <= n {
        CutHandsOverPrefix(body[HEADER + size..], n - HEADER - size, cut, broken, decode, handle);
      }
    }
  }

  lemma CutKeepsFrame(body: seq<Byte>, n: nat, size: nat)
    requires HEADER <= n <= |body|
    ensures body[..n][1..HEADER] == body[1..HEADER]
    ensures HEADER + size <= n ==>
              && body[..n][HEADER..HEADER + size] == body[HEADER..HEADER + size]
              && body[..n][HEADER + size..] == body[HEADER + size..][..n - HEADER - size]
  {
  }
}
