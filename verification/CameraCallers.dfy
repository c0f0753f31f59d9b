/** What the callers of the camera service of camera/camera.c see, in terms of what they pass in. */
module CameraCallers {
  import opened CameraRuns
  import opened CameraSpec

  // ----- Reading a frame in pieces -----

  /** A copy made after the first `at` operations of a run, and the bytes it gave. */
  datatype Piece = Piece(at: nat, capacity: nat, data: seq<Byte>)

  function Joined(pieces: seq<Piece>): seq<Byte> {
    if pieces == [] then [] else Joined(pieces[..|pieces| - 1]) + pieces[|pieces| - 1].data
  }

  /** Each piece was copied through the lease from where the one before it ended. */
  predicate Copied(info: Info, ops: seq<Op>, owner: nat, h: nat, lease: nat, pieces: seq<Piece>) {
    forall i :: 0 <= i < |pieces| ==> CopiedAt(info, ops, owner, h, lease, pieces, i)
  }

  predicate CopiedAt(info: Info, ops: seq<Op>, owner: nat, h: nat, lease: nat, pieces: seq<Piece>, i: nat)
    requires i < |pieces|
  {
    var p := pieces[i];
    && p.at <= |ops|
    && NextCopy(After(info, ops[..p.at]), owner, h, lease, |Joined(pieces[..i])|, p.capacity).1 == Bytes(p.data)
  }

  /** What a copy made earlier in a run read is told by the history at its end. */
  lemma ReadEarlier(info: Info, before: seq<Op>, rest: seq<Op>, ops: seq<Op>, owner: nat, h: nat, lease: nat,
                    offset: nat, capacity: nat, reply: Reply) returns (m: nat)
    requires NextCopy(After(info, before), owner, h, lease, offset, capacity).1 == reply && reply.Bytes?
    requires ops == before + rest && Current(After(info, ops), h)
    ensures ReadsFrame(Told(info, ops, h), m, lease, offset, capacity, reply)
  {
    m := CopiesAreTheFrame(info, before, owner, h, lease, offset, capacity);
    HistoryGrows(info, before, rest, h);
    ReadsLater(Told(info, before, h), Told(info, ops, h), m, lease, offset, capacity, reply);
  }

  lemma SameLeaseReads(info: Info, ops: seq<Op>, h: nat, k: nat, m: nat, lease: nat, offset: nat, capacity: nat,
                       reply: Reply)
    requires Current(After(info, ops), h) && ReadsFrame(Told(info, ops, h), m, lease, offset, capacity, reply)
    requires k < |Told(info, ops, h).acquired| && Told(info, ops, h).acquired[k].lease == lease
    ensures ReadsFrame(Told(info, ops, h), k, lease, offset, capacity, reply)
  {
    LeasesAreDistinct(info, ops, h, k, m);
  }

  /** A copy made earlier in a run reads the frame that the lease still names at its end. */
  lemma EarlierCopy(info: Info, before: seq<Op>, rest: seq<Op>, ops: seq<Op>, owner: nat, h: nat, lease: nat,
                    offset: nat, capacity: nat, reply: Reply, k: nat)
    requires NextCopy(After(info, before), owner, h, lease, offset, capacity).1 == reply && reply.Bytes?
    requires ops == before + rest && Current(After(info, ops), h)
    requires k < |Told(info, ops, h).acquired| && Told(info, ops, h).acquired[k].lease == lease
    ensures ReadsFrame(Told(info, ops, h), k, lease, offset, capacity, reply)
  {
    var m := ReadEarlier(info, before, rest, ops, owner, h, lease, offset, capacity, reply);
    SameLeaseReads(info, ops, h, k, m, lease, offset, capacity, reply);
  }

  /** Joining one more piece of a frame to those before it. */
  lemma JoinPiece(data: seq<Byte>, front: seq<Byte>, piece: seq<Byte>, capacity: nat)
    requires |front| <= |data| && front == data[..|front|] && PieceOf(piece, data, |front|, capacity)
    ensures |front + piece| <= |data| && front + piece == data[..|front + piece|]
    ensures |piece| < capacity ==> front + piece == data
  {
  }

  /** The k-th frame handed out has that lease, and this is what was submitted under its number. */
  predicate Names(hist: History, k: nat, lease: nat, data: seq<Byte>) {
    && k < |hist.acquired| && hist.acquired[k].lease == lease
    && 1 <= hist.acquired[k].sequence <= |hist.stored| && data == hist.stored[hist.acquired[k].sequence - 1].data
  }

  /** The pieces joined are the beginning of a frame, and all of it once a piece does not fill its buffer. */
  predicate Assembles(pieces: seq<Piece>, data: seq<Byte>) {
    && |Joined(pieces)| <= |data| && Joined(pieces) == data[..|Joined(pieces)|]
    && (pieces != [] && |pieces[|pieces| - 1].data| < pieces[|pieces| - 1].capacity ==> Joined(pieces) == data)
  }

  lemma CopiedFront(info: Info, ops: seq<Op>, owner: nat, h: nat, lease: nat, pieces: seq<Piece>)
    requires Copied(info, ops, owner, h, lease, pieces) && pieces != []
    ensures Copied(info, ops, owner, h, lease, pieces[..|pieces| - 1])
    ensures CopiedAt(info, ops, owner, h, lease, pieces, |pieces| - 1)
  {
    var front := pieces[..|pieces| - 1];
    forall i | 0 <= i < |front| ensures CopiedAt(info, ops, owner, h, lease, front, i) {
      assert CopiedAt(info, ops, owner, h, lease, pieces, i) && front[..i] == pieces[..i];
    }
  }

  lemma {:induction false} PiecesJoin(info: Info, ops: seq<Op>, owner: nat, h: nat, lease: nat, pieces: seq<Piece>,
                                      k: nat, data: seq<Byte>)
    requires Copied(info, ops, owner, h, lease, pieces) && Current(After(info, ops), h)
    requires Names(Told(info, ops, h), k, lease, data)
    ensures Assembles(pieces, data)
    decreases |pieces|
  {
    if pieces != [] {
      var front, p := pieces[..|pieces| - 1], pieces[|pieces| - 1];
      CopiedFront(info, ops, owner, h, lease, pieces);
      PiecesJoin(info, ops, owner, h, lease, front, k, data);
      EarlierCopy(info, ops[..p.at], ops[p.at..], ops, owner, h, lease, |Joined(front)|, p.capacity, Bytes(p.data), k);
      NamesReads(Told(info, ops, h), k, lease, data, |Joined(front)|, p.capacity, Bytes(p.data));
      JoinPiece(data, Joined(front), p.data, p.capacity);
    }
  }

  lemma ReadNames(hist: History, k: nat, lease: nat, offset: nat, capacity: nat, reply: Reply)
    requires ReadsFrame(hist, k, lease, offset, capacity, reply)
    ensures Names(hist, k, lease, hist.stored[hist.acquired[k].sequence - 1].data)
  {
  }

  lemma NamesReads(hist: History, k: nat, lease: nat, data: seq<Byte>, offset: nat, capacity: nat, reply: Reply)
    requires Names(hist, k, lease, data) && ReadsFrame(hist, k, lease, offset, capacity, reply)
    ensures PieceOf(reply.data, data, offset, capacity)
  {
  }

  /** An application that reads a frame through its lease in pieces, each from where the one before it ended, and
      whatever happens in between, joins them to the frame as it was submitted. */
  lemma PiecesAreTheFrame(info: Info, ops: seq<Op>, owner: nat, h: nat, lease: nat, pieces: seq<Piece>)
    returns (k: nat, data: seq<Byte>)
    requires Copied(info, ops, owner, h, lease, pieces) && pieces != [] && pieces[|pieces| - 1].at == |ops|
    ensures Names(Told(info, ops, h), k, lease, data) && Assembles(pieces, data)
  {
    var n := |pieces| - 1;
    assert CopiedAt(info, ops, owner, h, lease, pieces, n) && ops[..|ops|] == ops;
    var offset, capacity := |Joined(pieces[..n])|, pieces[n].capacity;
    k := CopiesAreTheFrame(info, ops, owner, h, lease, offset, capacity);
    ReadNames(Told(info, ops, h), k, lease, offset, capacity, Bytes(pieces[n].data));
    data := Told(info, ops, h).stored[Told(info, ops, h).acquired[k].sequence - 1].data;
    PiecesJoin(info, ops, owner, h, lease, pieces, k, data);
  }

  // ----- Opening -----

  /** A configuration the platform offers; three frames of two bytes a pixel each must have a size. */
  predicate Offered(info: Info, config: Config) {
    && config.device == info.device && config.format in info.formats && config.format <= 3
    && 1 <= config.width <= info.maxWidth && 1 <= config.height <= info.maxHeight && 1 <= config.fps <= info.maxFps
    && 2 * (config.width * config.height) <= info.sizeLimit
  }

  predicate Present(info: Info) {
    info.detected && info.ready && info.error == 0
  }

  /** The source's divisions are the test that the bytes of a frame have a size. */
  lemma SizeTest(width: nat, height: nat, limit: nat)
    requires height > 0
    ensures width > limit / height || width * height > limit / 2 <==> 2 * (width * height) > limit
  {
    var q := limit / height;
    if width > q {
      assert (q + 1) * height > limit;
      assert width * height >= (q + 1) * height by {
        assert (width - q - 1) * height >= 0;
      }
    }
  }

  lemma OpenRefusal(st: State, owner: nat, config: Config)
    ensures OpenError(st, owner, config)
         == if !Present(st.info) then (true, NoDevice)
            else if owner == 0 || !Offered(st.info, config) then (true, InvalidArgument)
            else (st.openCount > 0, Busy)
  {
    if config.height > 0 {
      SizeTest(config.width, config.height, st.info.sizeLimit);
    }
  }

  /** In every reachable state with nobody opening or closing, an open begins exactly when the camera is there, the
      configuration is one it offers, no stream is open and there is memory; otherwise nothing changes and the
      reply says what was missing first. */
  lemma OpenBegins(info: Info, ops: seq<Op>, owner: nat, config: Config, memory: bool)
    requires After(info, ops).pipeline.Idle?
    ensures var st := After(info, ops);
            var (now, reply) := Next(st, BeginOpen(owner, config, memory));
            && (reply == Done <==> Present(st.info) && owner != 0 && Offered(st.info, config) && memory
                                   && forall i :: 0 <= i < STREAM_CAPACITY ==> !st.streams[i].open)
            && (reply != Done ==>
                  && now == st
                  && reply == Failed(if !Present(st.info) then NoDevice
                                     else if owner == 0 || !Offered(st.info, config) then InvalidArgument
                                     else if exists i :: 0 <= i < STREAM_CAPACITY && st.streams[i].open then Busy
                                     else NoMemory))
  {
    var st := After(info, ops);
    OpenRefusal(st, owner, config);
    OneStream(info, ops, owner, config, memory);
  }

  // ----- Submitting -----

  /** Whether a submission is one for the stream: of its format and size, and with a stride where pixels are
      packed. */
  predicate Matches(s: Stream, f: Submission) {
    && 1 <= |f.data| && f.format <= 3 && f.format == s.config.format
    && f.width == s.config.width && f.height == s.config.height && (f.format <= 1 ==> f.stride != 0)
  }

  /** A submission changes a stream exactly when the stream is open, neither faulted nor hung up, and the frame is
      one for it. */
  lemma SubmitTouches(st: State, f: Submission, i: nat)
    requires Shaped(st) && i < STREAM_CAPACITY
    ensures var s := st.streams[i];
            Next(st, Submit(f)).0.streams[i] != s <==> s.open && !s.faulted && !s.hangup && Matches(s, f)
  {
  }

  /** With a slot free the first of them takes the frame, described as it was submitted under the next number; one that
      is too large for it faults the stream instead. */
  lemma SubmitWhenFree(st: State, f: Submission, i: nat, j: nat)
    requires Shaped(st) && i < STREAM_CAPACITY && j < FRAME_CAPACITY
    requires var s := st.streams[i]; s.open && !s.faulted && !s.hangup && Matches(s, f)
    requires var frames := st.streams[i].frames;
             && !frames[j].leased && !frames[j].ready
             && forall k :: 0 <= k < j ==> frames[k].leased || frames[k].ready
    ensures var s, t := st.streams[i], Next(st, Submit(f)).0.streams[i];
            && |t.frames| == FRAME_CAPACITY && t.drops == s.drops
            && if |f.data| > s.frames[j].capacity then t.faulted && t.frames == s.frames
               else
                 && !t.faulted && t.frames[j].ready && !t.frames[j].leased && t.frames[j].data == f.data
                 && t.frames[j].metadata
                    == Metadata(0, f.format, f.width, f.height, f.stride, |f.data|, f.timestamp, s.sequence + 1, 0)
                 && t.sequence == s.sequence + 1
                 && forall k :: 0 <= k < FRAME_CAPACITY && k != j ==> t.frames[k] == s.frames[k]
  {
    assert FirstFree(st.streams[i].frames, 0) == j;
  }

  /** A frame that no free slot takes replaces, of those not leased, the one captured first; it is dropped when all
      are leased, and an H.264 stream faults instead. */
  lemma SubmitWhenFull(st: State, f: Submission, i: nat, j: nat)
    requires Shaped(st) && i < STREAM_CAPACITY && j < FRAME_CAPACITY
    requires var s := st.streams[i]; s.open && !s.faulted && !s.hangup && Matches(s, f)
    requires forall k :: 0 <= k < FRAME_CAPACITY ==> st.streams[i].frames[k].leased || st.streams[i].frames[k].ready
    ensures var s, t := st.streams[i], Next(st, Submit(f)).0.streams[i];
            if f.format == H264 then t == s.(faulted := true)
            else
              && t.drops == s.drops + 1
              && (t.frames[j] != s.frames[j] ==>
                    && !s.frames[j].leased && t.frames[j].data == f.data
                    && forall k :: 0 <= k < FRAME_CAPACITY && !s.frames[k].leased ==>
                         s.frames[j].metadata.sequence <= s.frames[k].metadata.sequence)
  {
    var s := st.streams[i];
    forall k | 0 <= k < FRAME_CAPACITY && !s.frames[k].leased ensures Eligible(s.frames[k], false) {
    }
  }

  // ----- Acquiring -----

  /** An acquire through a handle its owner holds gives the frame captured first of those ready, numbered with the
      drops so far; with none ready it says why there will be none, or to try again. */
  lemma AcquireTells(st: State, owner: nat, h: nat, k: nat)
    requires Shaped(st) && owner != 0 && Current(st, h) && st.streams[h % HANDLE_BASE].owner == owner
    requires k < FRAME_CAPACITY
    ensures var s := st.streams[h % HANDLE_BASE];
            var reply := Next(st, Acquire(owner, h)).1;
            && (reply.Frame? ==> reply.metadata.dropped == s.drops)
            && (s.frames[k].ready && !s.frames[k].leased ==>
                  reply.Frame? && reply.metadata.sequence <= s.frames[k].metadata.sequence)
            && (!reply.Frame? ==> reply == Failed(if s.faulted then InputOutput
                                                  else if s.hangup then NoDevice else TryAgain))
  {
    var s := st.streams[h % HANDLE_BASE];
    if s.frames[k].ready && !s.frames[k].leased {
      assert Eligible(s.frames[k], true);
    }
  }

  /** While a stream is unfaulted a frame says how many of the submissions before it are neither handed out nor
      waiting. */
  lemma FrameTellsDrops(info: Info, ops: seq<Op>, owner: nat, h: nat)
    requires Next(After(info, ops), Acquire(owner, h)).1.Frame? && Current(After(info, ops), h)
    requires !After(info, ops).streams[h % HANDLE_BASE].faulted
    ensures Next(After(info, ops), Acquire(owner, h)).1.metadata.dropped
         == Told(info, ops, h).offered - |Told(info, ops, h).acquired|
            - ReadyCount(After(info, ops).streams[h % HANDLE_BASE].frames)
  {
    NothingLost(info, ops, h);
    AcquireTells(After(info, ops), owner, h, 0);
  }

  // ----- Opening to the end, and the capture worker -----

  lemma HandleOf(i: nat, generation: nat)
    requires i < STREAM_CAPACITY
    ensures var h := StreamHandle(i, generation);
            h % HANDLE_BASE == i && h / HANDLE_BASE == generation && (generation > 0 ==> h > 0)
  {
  }

  /** A handle of a stream that its owner holds. */
  ghost predicate Holds(st: State, h: nat, i: nat)
    requires Shaped(st)
  {
    i < STREAM_CAPACITY && h % 4 == i && Current(st, h) && Owned(st, st.streams[i].owner, h) == i
  }

  lemma StartedHolds(st: State, i: nat)
    requires Shaped(st) && i < STREAM_CAPACITY && st.streams[i].open && st.streams[i].owner != 0
    ensures Holds(st, StreamHandle(i, st.streams[i].generation), i)
  {
    HandleOf(i, st.streams[i].generation);
  }

  lemma StartedNext(st: State, started: bool)
    requires Shaped(st) && st.pipeline.Opening?
    ensures var n, i := Next(st, FinishOpen(started)), st.pipeline.index;
            && n.0.pipeline.Idle? && |n.0.streams| == |st.streams|
            && if started then
                 n.1 == Handle(StreamHandle(i, st.streams[i].generation)) && n.0.streams == st.streams
               else n.1 == Failed(InputOutput) && !n.0.streams[i].open
  {
  }

  /** An open ends with a handle its owner holds, in the stream that was opened; when the platform does not start the
      stream is free again. */
  lemma OpenEnds(info: Info, ops: seq<Op>, started: bool) returns (i: nat)
    requires After(info, ops).pipeline.Opening?
    ensures var st := After(info, ops);
            var n := Next(st, FinishOpen(started));
            && Shaped(n.0) && i < STREAM_CAPACITY && st.streams[i].open && n.0.pipeline.Idle?
            && if started then n.1.Handle? && n.0.streams == st.streams && Holds(n.0, n.1.handle, i)
               else n.1 == Failed(InputOutput) && !n.0.streams[i].open
  {
    var st := After(info, ops);
    i := st.pipeline.index;
    OpeningIsOpen(info, ops);
    NextShaped(st, FinishOpen(started));
    StartedNext(st, started);
    if started {
      StartedHolds(Next(st, FinishOpen(started)).0, i);
    }
  }

  lemma {:induction false} OpeningIsOpen(info: Info, ops: seq<Op>)
    ensures var st := After(info, ops);
            st.pipeline.Opening? ==> st.streams[st.pipeline.index].open && st.streams[st.pipeline.index].owner != 0
    decreases |ops|
  {
    if |ops| > 0 {
      OpeningIsOpen(info, ops[..|ops| - 1]);
      OpeningStays(After(info, ops[..|ops| - 1]), ops[|ops| - 1]);
    }
  }

  lemma OpeningStays(st: State, op: Op)
    requires Shaped(st)
    requires st.pipeline.Opening? ==> st.streams[st.pipeline.index].open && st.streams[st.pipeline.index].owner != 0
    ensures var now := Next(st, op).0;
            now.pipeline.Opening? && now.pipeline.index < |now.streams| ==>
              now.streams[now.pipeline.index].open && now.streams[now.pipeline.index].owner != 0
  {
  }

  /** A close begins exactly for the owner that holds the handle, with nobody opening or closing: the stream hangs up,
      and every other stays. */
  lemma CloseBegins(st: State, owner: nat, h: nat)
    requires Shaped(st) && st.pipeline.Idle? && owner != 0
    ensures var n, i := Next(st, BeginClose(owner, h)), h % HANDLE_BASE;
            var s := st.streams[i];
            if h > 0 && Current(st, h) && s.owner == owner then
              && n.1 == Done && n.0.pipeline == Closing(i) && |n.0.streams| == |st.streams|
              && n.0.streams[i].hangup && n.0.streams[i].frames == s.frames && n.0.streams[i].open
              && forall j :: 0 <= j < STREAM_CAPACITY && j != i ==> n.0.streams[j] == st.streams[j]
            else n == (st, Failed(BadHandle))
  {
  }

  predicate Unused(slot: Slot) {
    !slot.ready && !slot.leased
  }

  /** And it ends with the stream free, and every other as it was. */
  lemma CloseEnds(st: State)
    requires Shaped(st) && st.pipeline.Closing?
    ensures var n, i := Next(st, FinishClose), st.pipeline.index;
            && n.1 == Done && n.0.pipeline.Idle? && |n.0.streams| == |st.streams|
            && !n.0.streams[i].open && n.0.streams[i].generation == st.streams[i].generation
            && (forall k :: 0 <= k < |n.0.streams[i].frames| ==> Unused(n.0.streams[i].frames[k]))
            && forall j :: 0 <= j < STREAM_CAPACITY && j != i ==> n.0.streams[j] == st.streams[j]
  {
  }

  /** The first stream that is open and neither faulted nor hung up. */
  predicate FirstCapturing(st: State, i: nat)
    requires Shaped(st)
  {
    && i < STREAM_CAPACITY && st.streams[i].open && !st.streams[i].faulted && !st.streams[i].hangup
    && forall j :: 0 <= j < i ==> !(st.streams[j].open && !st.streams[j].faulted && !st.streams[j].hangup)
  }

  lemma {:induction false} ReadyFrom(streams: seq<Stream>, from: nat, i: nat)
    requires from <= i <= |streams| && (i < |streams| ==> Capturing(streams[i]))
    requires forall j :: from <= j < i ==> !Capturing(streams[j])
    ensures CaptureReady(streams, from)
         == (i < |streams| && (streams[i].config.format != H264
                               || exists k :: 0 <= k < |streams[i].frames| && !streams[i].frames[k].leased
                                              && !streams[i].frames[k].ready))
    decreases i - from
  {
    if from < i {
      ReadyFrom(streams, from + 1, i);
    } else if from < |streams| {
      var k := FirstFree(streams[i].frames, 0);
    }
  }

  /** The worker captures exactly when the first capturing stream takes raw frames or has a slot that is free. */
  lemma CapturesExactly(st: State, i: nat)
    requires Shaped(st)
    ensures FirstCapturing(st, i) ==>
              (CaptureReady(st.streams, 0)
               <==> st.streams[i].config.format != H264
                    || exists k :: 0 <= k < FRAME_CAPACITY && !st.streams[i].frames[k].leased
                                   && !st.streams[i].frames[k].ready)
    ensures (forall j :: !FirstCapturing(st, j)) ==> !CaptureReady(st.streams, 0)
  {
    if FirstCapturing(st, i) {
      ReadyFrom(st.streams, 0, i);
    }
    if forall j :: !FirstCapturing(st, j) {
      NoneCaptures(st, STREAM_CAPACITY);
      ReadyFrom(st.streams, 0, STREAM_CAPACITY);
    }
  }

  lemma {:induction false} NoneCaptures(st: State, n: nat)
    requires Shaped(st) && n <= STREAM_CAPACITY && forall j :: !FirstCapturing(st, j)
    ensures forall j :: 0 <= j < n ==> !Capturing(st.streams[j])
  {
    if n > 0 {
      NoneCaptures(st, n - 1);
      assert !FirstCapturing(st, n - 1);
    }
  }
}
