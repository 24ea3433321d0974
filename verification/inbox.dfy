/** The LSP inbox under every interleaving of the reader thread and the requester. */
module Inbox {

  // A step is one atomic access: a load, an add, a subtract or a send. A frame carries its
  // place in the order the reader parsed frames, and its payload size.

  const MAX_QUEUED_MESSAGES: nat := 16
  const MAX_QUEUED_BYTES: nat := 32 * 1024 * 1024

  datatype Msg = Msg(id: nat, len: nat)

  /** Where the reader thread is. It holds a frame from the parse until it is queued, flagged
    * as dropped, or lost to a closed channel. */
  datatype Reader =
    | Reading
    | Checking(m: Msg)   // loads the byte counter
    | Adding(m: Msg)     // within the bound: adds its bytes
    | Sending(m: Msg)    // tries to queue it
    | Undoing(m: Msg)    // the queue was full: subtracts its bytes
    | Flagging(m: Msg)   // past a bound: sets the overflow flag
    | FlaggingEnd        // a malformed frame: sets the flag and stops
    | Stopped
    | Lost(m: Msg)       // the channel was closed under it

  /** Where the requester is: between receives, or with a frame whose bytes are still counted. */
  datatype Requester = Waiting | Accounting(m: Msg) | Closed

  datatype State = State(
    parsed: seq<Msg>,
    queue: seq<Msg>,
    bytes: int,
    overflow: bool,
    reader: Reader,
    requester: Requester,
    delivered: seq<Msg>)

  const Start: State := State([], [], 0, false, Reading, Waiting, [])

  datatype Event =
    | Notification         // dropped before queueing
    | Frame(len: nat)      // a response or a server request was parsed
    | EndOfStream
    | BadFrame
    | ReaderStep           // the reader's next access
    | Receive
    | Account              // the requester subtracts a received frame's bytes
    | Close                // the session and its receiver are dropped

  predicate Enabled(s: State, e: Event) {
    match e
    case Notification | Frame(_) | EndOfStream | BadFrame => s.reader.Reading?
    case ReaderStep => !s.reader.Reading? && !s.reader.Stopped? && !s.reader.Lost?
    case Receive => s.requester.Waiting? && s.queue != []
    case Account => s.requester.Accounting?
    case Close => s.requester.Waiting?
  }

  function ReaderNext(s: State): State
    requires Enabled(s, ReaderStep)
  {
    match s.reader
    case Checking(m) => s.(reader := if s.bytes + m.len > MAX_QUEUED_BYTES then Flagging(m) else Adding(m))
    case Adding(m) => s.(bytes := s.bytes + m.len, reader := Sending(m))
    case Sending(m) =>
      if s.requester.Closed? then s.(reader := Lost(m))
      else if |s.queue| >= MAX_QUEUED_MESSAGES then s.(reader := Undoing(m))
      else s.(queue := s.queue + [m], reader := Reading)
    case Undoing(m) => s.(bytes := s.bytes - m.len, reader := Flagging(m))
    case Flagging(_) => s.(overflow := true, reader := Reading)
    case FlaggingEnd => s.(overflow := true, reader := Stopped)
  }

  function Apply(s: State, e: Event): State
    requires Enabled(s, e)
  {
    match e
    case Notification => s
    case Frame(len) =>
      var m := Msg(|s.parsed|, len);
      s.(parsed := s.parsed + [m], reader := Checking(m))
    case EndOfStream => s.(reader := Stopped)
    case BadFrame => s.(reader := FlaggingEnd)
    case ReaderStep => ReaderNext(s)
    case Receive => s.(queue := s.queue[1..], requester := Accounting(s.queue[0]))
    case Account =>
      var m := s.requester.m;
      s.(bytes := s.bytes - m.len, requester := Waiting, delivered := s.delivered + [m])
    case Close => s.(requester := Closed)
  }

  // ---- what every step keeps --------------------------------------------------------------

  /** The frame each side has in hand. */
  function ReaderHas(r: Reader): seq<Msg> {
    if r.Checking? || r.Adding? || r.Sending? || r.Undoing? || r.Flagging? || r.Lost? then [r.m] else []
  }
  function RequesterHas(r: Requester): seq<Msg> { if r.Accounting? then [r.m] else [] }

  /** The frames not dropped, in the order they travel: delivered, in the requester's hand,
    * queued, in the reader's hand. */
  function Chain(s: State): seq<Msg> {
    s.delivered + RequesterHas(s.requester) + s.queue + ReaderHas(s.reader)
  }

  /** `c` is part of `parsed`, in its order and without repetition. */
  ghost predicate PartOf(c: seq<Msg>, parsed: seq<Msg>) {
    && (forall k :: 0 <= k < |c| ==> c[k].id < |parsed| && parsed[c[k].id] == c[k])
    && (forall j, k :: 0 <= j < k < |c| ==> c[j].id < c[k].id)
  }

  function Size(ms: seq<Msg>): nat {
    if ms == [] then 0 else Size(ms[..|ms| - 1]) + ms[|ms| - 1].len
  }

  /** The bytes a reader has added and not yet handed over or taken back. */
  function ReaderOwes(r: Reader): nat {
    if r.Sending? || r.Undoing? || r.Lost? then r.m.len else 0
  }

  ghost predicate Inv(s: State) {
    && PartOf(Chain(s), s.parsed)
    && (!s.overflow ==> Chain(s) == s.parsed)
    && s.bytes == Size(RequesterHas(s.requester)) + Size(s.queue) + ReaderOwes(s.reader)
    && s.bytes + (if s.reader.Adding? then s.reader.m.len else 0) <= MAX_QUEUED_BYTES
    && |s.queue| <= MAX_QUEUED_MESSAGES
    && (forall k :: 0 <= k < |s.parsed| ==> s.parsed[k].id == k)
  }

  lemma {:induction false} SizeHead(ms: seq<Msg>)
    requires ms != []
    ensures Size(ms) == ms[0].len + Size(ms[1..])
    decreases |ms|
  {
    if |ms| == 1 {
      assert ms[..0] == [] && ms[1..] == [];
    } else {
      SizeHead(ms[..|ms| - 1]);
      assert ms[..|ms| - 1][1..] == ms[1..][..|ms| - 2];
    }
  }

  lemma OneSize(m: Msg)
    ensures Size([m]) == m.len
  {
    assert [m][..0] == [];
  }

  lemma SizeTail(ms: seq<Msg>, m: Msg)
    ensures Size(ms + [m]) == Size(ms) + m.len
  {
    assert (ms + [m])[..|ms|] == ms;
  }

  /** A newly parsed frame goes last. */
  lemma LongerPart(c: seq<Msg>, parsed: seq<Msg>, m: Msg)
    requires PartOf(c, parsed) && m.id == |parsed|
    ensures PartOf(c + [m], parsed + [m])
  {
    var d, all := c + [m], parsed + [m];
    assert forall k :: 0 <= k < |c| ==> d[k] == c[k];
    assert forall k :: 0 <= k < |parsed| ==> all[k] == parsed[k];
  }

  lemma FrameKeeps(s: State, len: nat)
    requires Inv(s) && s.reader.Reading?
    ensures Inv(Apply(s, Frame(len)))
  {
    hide Size, PartOf;
    var t, m := Apply(s, Frame(len)), Msg(|s.parsed|, len);
    LongerPart(Chain(s), s.parsed, m);
    assert Chain(t) == Chain(s) + [m];
  }

  lemma SendKeeps(s: State)
    requires Inv(s) && s.reader.Sending?
    ensures Inv(ReaderNext(s))
  {
    hide Size, PartOf;
    SizeTail(s.queue, s.reader.m);
    assert Chain(ReaderNext(s)) == Chain(s);
  }

  /** Dropping the last frame of the chain keeps the rest in order. */
  lemma ShorterPart(c: seq<Msg>, m: Msg, parsed: seq<Msg>)
    requires PartOf(c + [m], parsed)
    ensures PartOf(c, parsed)
  {
    assert forall k :: 0 <= k < |c| ==> (c + [m])[k] == c[k];
  }

  lemma FlagKeeps(s: State)
    requires Inv(s) && s.reader.Flagging?
    ensures Inv(ReaderNext(s))
  {
    hide Size, PartOf;
    var t := ReaderNext(s);
    assert Chain(s) == Chain(t) + [s.reader.m];
    ShorterPart(Chain(t), s.reader.m, s.parsed);
  }

  lemma ReaderKeeps(s: State)
    requires Inv(s) && Enabled(s, ReaderStep)
    ensures Inv(ReaderNext(s))
  {
    hide Size, PartOf;
    if s.reader.Sending? {
      SendKeeps(s);
    } else if s.reader.Flagging? {
      FlagKeeps(s);
    } else {
      assert Chain(ReaderNext(s)) == Chain(s);
    }
  }

  lemma ReceiveKeeps(s: State)
    requires Inv(s) && Enabled(s, Receive)
    ensures Inv(Apply(s, Receive))
  {
    hide Size, PartOf;
    var t := Apply(s, Receive);
    SizeHead(s.queue);
    OneSize(s.queue[0]);
    NoSize();
    assert Chain(t) == Chain(s);
  }

  lemma NoSize() ensures Size([]) == 0 {}

  lemma AccountKeeps(s: State)
    requires Inv(s) && Enabled(s, Account)
    ensures Inv(Apply(s, Account))
  {
    hide Size, PartOf;
    OneSize(s.requester.m);
    NoSize();
    assert Chain(Apply(s, Account)) == Chain(s);
  }

  lemma StepKeeps(s: State, e: Event)
    requires Inv(s) && Enabled(s, e)
    ensures Inv(Apply(s, e))
  {
    hide Size, PartOf;
    match e
    case Frame(len) => FrameKeeps(s, len);
    case ReaderStep => ReaderKeeps(s);
    case Receive => ReceiveKeeps(s);
    case Account => AccountKeeps(s);
    case _ => assert Chain(Apply(s, e)) == Chain(s);
  }

  // ---- runs ---------------------------------------------------------------------------------

  predicate Legal(s: State, run: seq<Event>)
    decreases |run|
  {
    run == [] || (Enabled(s, run[0]) && Legal(Apply(s, run[0]), run[1..]))
  }

  function After(s: State, run: seq<Event>): State
    requires Legal(s, run)
    decreases |run|
  {
    if run == [] then s else After(Apply(s, run[0]), run[1..])
  }

  lemma {:induction false} RunKeeps(s: State, run: seq<Event>)
    requires Inv(s) && Legal(s, run)
    ensures Inv(After(s, run))
    decreases |run|
  {
    hide Inv, Apply, Enabled;
    if run != [] {
      StepKeeps(s, run[0]);
      RunKeeps(Apply(s, run[0]), run[1..]);
    }
  }

  /** The two subtractions never take more than the counter holds. */
  ghost predicate NeverUnderflows(s: State) {
    && 0 <= s.bytes
    && (s.reader.Undoing? ==> s.reader.m.len <= s.bytes)
    && (s.requester.Accounting? ==> s.requester.m.len <= s.bytes)
  }

  /** In every interleaving: the counter is the queued sizes plus what each side has in flight,
    * it never underflows or passes its bound, the queue never passes its length bound, what is
    * delivered is in order and never twice, and until the overflow flag is set every frame
    * parsed is delivered, queued or in flight. */
  lemma EveryInterleavingIsSound(run: seq<Event>)
    requires Legal(Start, run)
    ensures var s := After(Start, run);
      && s.bytes == Size(RequesterHas(s.requester)) + Size(s.queue) + ReaderOwes(s.reader)
      && NeverUnderflows(s) && s.bytes <= MAX_QUEUED_BYTES && |s.queue| <= MAX_QUEUED_MESSAGES
      && PartOf(Chain(s), s.parsed)
      && (!s.overflow ==> Chain(s) == s.parsed)
  {
    hide Size, Apply, Enabled;
    StartInv();
    RunKeeps(Start, run);
    var s := After(Start, run);
    if s.requester.Accounting? { OneSize(s.requester.m); }
  }

  lemma StartInv() ensures Inv(Start) && AllThere(Start) {}

  /** The flag, once set, stays: every later wait sees it. */
  lemma {:induction false} OverflowSticks(s: State, run: seq<Event>)
    requires Legal(s, run) && s.overflow
    ensures After(s, run).overflow
    decreases |run|
  {
    if run != [] { OverflowSticks(Apply(s, run[0]), run[1..]); }
  }

  /** A frame that was parsed and is nowhere on the way was dropped with the flag set. */
  lemma MissingMeansOverflow(run: seq<Event>, id: nat)
    requires Legal(Start, run)
    requires var s := After(Start, run); id < |s.parsed| && s.parsed[id] !in Chain(s)
    ensures After(Start, run).overflow
  {
    hide Chain, PartOf, Size;
    EveryInterleavingIsSound(run);
  }

  // ---- nothing is dropped without need ---------------------------------------------------------

  /** The frames parsed and not yet delivered fit both bounds. */
  ghost predicate Light(s: State) {
    && |s.parsed| <= |s.delivered| + MAX_QUEUED_MESSAGES
    && Size(s.parsed) <= Size(s.delivered) + MAX_QUEUED_BYTES
  }

  /** Every state of the run is light, and no frame of it is malformed. */
  ghost predicate Quiet(s: State, run: seq<Event>)
    requires Legal(s, run)
    decreases |run|
  {
    Light(s) && (run == [] || (!run[0].BadFrame? && Quiet(Apply(s, run[0]), run[1..])))
  }

  /** Nothing was dropped and nothing is about to be. */
  ghost predicate AllThere(s: State) {
    Inv(s) && !s.overflow && !s.reader.Flagging? && !s.reader.Undoing? && !s.reader.FlaggingEnd?
  }

  lemma {:induction false} SizeAdds(a: seq<Msg>, b: seq<Msg>)
    ensures Size(a + b) == Size(a) + Size(b)
    decreases |b|
  {
    if b == [] {
      assert a + b == a;
    } else {
      assert (a + b)[..|a + b| - 1] == a + b[..|b| - 1];
      SizeAdds(a, b[..|b| - 1]);
    }
  }

  /** What is on the way is what was parsed and not delivered. */
  lemma OnTheWay(s: State)
    requires AllThere(s)
    ensures |s.parsed| == |s.delivered| + |RequesterHas(s.requester)| + |s.queue| + |ReaderHas(s.reader)|
    ensures Size(s.parsed) == Size(s.delivered) + Size(RequesterHas(s.requester)) + Size(s.queue)
      + Size(ReaderHas(s.reader))
  {
    hide Size;
    var a, b, c, d := s.delivered, RequesterHas(s.requester), s.queue, ReaderHas(s.reader);
    SizeAdds(a, b);
    SizeAdds(a + b, c);
    SizeAdds(a + b + c, d);
  }

  lemma LightStep(s: State, e: Event)
    requires AllThere(s) && Light(s) && Enabled(s, e) && !e.BadFrame?
    ensures AllThere(Apply(s, e))
  {
    hide Size, PartOf;
    StepKeeps(s, e);
    OnTheWay(s);
    if e.ReaderStep? && ReaderHas(s.reader) != [] { OneSize(s.reader.m); }
  }

  /** The flag has a cause: in a run whose undelivered frames always fit the bounds, and with no
    * malformed frame, it is never set and every frame is still on its way. */
  lemma {:induction false} QuietRunsDropNothing(s: State, run: seq<Event>)
    requires AllThere(s) && Legal(s, run) && Quiet(s, run)
    ensures AllThere(After(s, run)) && Chain(After(s, run)) == After(s, run).parsed
    decreases |run|
  {
    hide Inv, Apply, Enabled, Light;
    if run == [] {
      ThereIsAll(s);
    } else {
      LightStep(s, run[0]);
      QuietRunsDropNothing(Apply(s, run[0]), run[1..]);
    }
  }

  lemma ThereIsAll(s: State) requires AllThere(s) ensures Chain(s) == s.parsed {}
}
