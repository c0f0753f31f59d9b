/** Camera streams and frame leases of camera/camera.c as a state machine over values: `Next` is one
    section under the camera mutex, so a run is any interleaving of the capture worker with callers. */
module CameraSpec {
  type Byte = b: int | 0 <= b < 256

  const RAW8: nat := 0
  const RGB565: nat := 1
  const JPEG: nat := 2
  const H264: nat := 3
  const FORMAT_COUNT: nat := 4
  const STREAM_CAPACITY: nat := 4
  const FRAME_CAPACITY: nat := 3
  const HANDLE_BASE: nat := 4

  datatype Error = InvalidArgument | BadHandle | InputOutput | NoDevice | TryAgain | Busy | NoMemory | TooMany

  datatype Config = Config(device: int, format: nat, width: nat, height: nat, fps: nat)

  datatype Metadata = Metadata(
    lease: nat, format: nat, width: nat, height: nat, stride: nat, size: nat, timestamp: nat, sequence: nat,
    dropped: nat)

  /** `data` is the part of the slot's buffer that holds a frame. */
  datatype Slot = Slot(data: seq<Byte>, capacity: nat, generation: nat, metadata: Metadata, ready: bool, leased: bool)

  datatype Stream = Stream(
    owner: nat, frames: seq<Slot>, config: Config, generation: nat, sequence: nat, drops: nat, open: bool,
    faulted: bool, hangup: bool)

  /** What a poll asks about. */
  datatype Events = Events(readable: bool, error: bool, hangup: bool)

  datatype Submission = Submission(data: seq<Byte>, width: nat, height: nat, stride: nat, format: nat, timestamp: nat)

  /** What the platform reports; `sizeLimit` is the largest size of an allocation. */
  datatype Info = Info(
    detected: bool, ready: bool, error: int, device: int, formats: set<nat>, maxWidth: nat, maxHeight: nat,
    maxFps: nat, sizeLimit: nat)

  const NO_METADATA := Metadata(0, 0, 0, 0, 0, 0, 0, 0, 0)
  const NO_CONFIG := Config(0, 0, 0, 0, 0)

  function EmptySlot(capacity: nat): Slot {
    Slot([], capacity, 0, NO_METADATA, false, false)
  }

  function EmptySlots(capacity: nat): (frames: seq<Slot>) {
    [EmptySlot(capacity), EmptySlot(capacity), EmptySlot(capacity)]
  }

  function ClosedStream(generation: nat): Stream {
    Stream(0, EmptySlots(0), NO_CONFIG, generation, 0, 0, false, false, false)
  }

  // ----- One stream -----

  /** The frame index search of submit: the first slot neither leased nor ready, or the length. */
  function FirstFree(frames: seq<Slot>, from: nat): (i: nat)
    requires from <= |frames|
    ensures from <= i <= |frames|
    ensures i < |frames| ==> !frames[i].leased && !frames[i].ready
    ensures forall j :: from <= j < i ==> frames[j].leased || frames[j].ready
    decreases |frames| - from
  {
    if from == |frames| || (!frames[from].leased && !frames[from].ready) then from else FirstFree(frames, from + 1)
  }

  predicate Eligible(slot: Slot, mustBeReady: bool) {
    !slot.leased && (mustBeReady ==> slot.ready)
  }

  /** The eligible slot of lowest sequence number among the first `n`, or -1. */
  function Oldest(frames: seq<Slot>, mustBeReady: bool, n: nat): (r: int)
    requires n <= |frames|
    ensures -1 <= r < n
    ensures r == -1 <==> forall i :: 0 <= i < n ==> !Eligible(frames[i], mustBeReady)
    ensures r >= 0 ==> Eligible(frames[r], mustBeReady)
    ensures r >= 0 ==> forall i :: 0 <= i < n && Eligible(frames[i], mustBeReady) ==>
                         frames[r].metadata.sequence <= frames[i].metadata.sequence
  {
    if n == 0 then -1
    else
      var best := Oldest(frames, mustBeReady, n - 1);
      var slot := frames[n - 1];
      if Eligible(slot, mustBeReady) && (best == -1 || slot.metadata.sequence < frames[best].metadata.sequence)
      then n - 1 else best
  }

  predicate Packed(format: nat) {
    format == RAW8 || format == RGB565
  }

  /** Whether the stream takes part in a submission at all. */
  predicate Listens(s: Stream, f: Submission) {
    && s.open && !s.faulted && !s.hangup
    && f.format == s.config.format && f.width == s.config.width && f.height == s.config.height
    && !(Packed(f.format) && f.stride == 0)
  }

  function Described(f: Submission, sequence: nat): Metadata {
    Metadata(0, f.format, f.width, f.height, f.stride, |f.data|, f.timestamp, sequence, 0)
  }

  /** Store a submission in a slot, or fault the stream when it does not fit. */
  function Store(s: Stream, i: nat, f: Submission): (r: Stream)
    requires i < |s.frames|
    ensures |r.frames| == |s.frames| && r.open == s.open && r.generation == s.generation
  {
    if |f.data| > s.frames[i].capacity then s.(faulted := true)
    else
      s.(frames := s.frames[i := s.frames[i].(data := f.data, ready := true, metadata := Described(f, s.sequence + 1))],
         sequence := s.sequence + 1)
  }

  function Offer(s: Stream, f: Submission): (r: Stream)
    ensures |r.frames| == |s.frames| && r.open == s.open && r.generation == s.generation
  {
    if !Listens(s, f) then s
    else
      var free := FirstFree(s.frames, 0);
      if free < |s.frames| then Store(s, free, f)
      else if f.format == H264 then s.(faulted := true)
      else
        var oldest := Oldest(s.frames, false, |s.frames|);
        if oldest == -1 then s.(drops := s.drops + 1) else Store(s.(drops := s.drops + 1), oldest, f)
  }

  function LeaseHandle(index: nat, generation: nat): nat {
    generation * HANDLE_BASE + index
  }

  /** The slot the next acquire hands out, or -1. */
  function NextReady(frames: seq<Slot>): (r: int)
    ensures -1 <= r < |frames|
    ensures r >= 0 ==> frames[r].ready && !frames[r].leased
  {
    Oldest(frames, true, |frames|)
  }

  function LeasedSlot(frames: seq<Slot>, i: nat, drops: nat): Slot
    requires i < |frames|
  {
    var slot := frames[i];
    slot.(ready := false, leased := true, generation := slot.generation + 1,
          metadata := slot.metadata.(lease := LeaseHandle(i, slot.generation + 1), dropped := drops))
  }

  function Take(s: Stream): Stream
    requires NextReady(s.frames) >= 0
  {
    s.(frames := s.frames[NextReady(s.frames) := LeasedSlot(s.frames, NextReady(s.frames), s.drops)])
  }

  /** The slot a lease names, or -1 when the lease is not active. */
  function LeaseIndex(frames: seq<Slot>, lease: nat): (r: int)
    ensures -1 <= r < |frames|
  {
    var i := lease % HANDLE_BASE;
    if lease == 0 || i >= FRAME_CAPACITY || i >= |frames| then -1
    else if frames[i].leased && frames[i].generation == lease / HANDLE_BASE then i else -1
  }

  function GiveBack(s: Stream, i: nat): Stream
    requires i < |s.frames|
  {
    s.(frames := s.frames[i := s.frames[i].(leased := false)])
  }

  /** `bytes` is what a buffer of that capacity takes of `data` from `offset` on. */
  predicate PieceOf(bytes: seq<Byte>, data: seq<Byte>, offset: nat, capacity: nat) {
    && |bytes| == (if offset >= |data| then 0 else if |data| - offset < capacity then |data| - offset else capacity)
    && forall j :: 0 <= j < |bytes| ==> bytes[j] == data[offset + j]
  }

  /** The bytes a copy hands out. */
  function Excerpt(data: seq<Byte>, offset: nat, capacity: nat): (r: seq<Byte>)
    ensures PieceOf(r, data, offset, capacity)
  {
    if offset >= |data| then []
    else if |data| - offset > capacity then data[offset..offset + capacity] else data[offset..]
  }

  // ----- All streams -----

  /** Who holds the pipeline mutex across the platform's start and stop calls. */
  datatype Pipeline = Idle | Opening(index: nat) | Closing(index: nat)

  datatype State = State(streams: seq<Stream>, openCount: nat, info: Info, pipeline: Pipeline)

  datatype Op =
    | BeginOpen(owner: nat, config: Config, memory: bool)
    | FinishOpen(started: bool)
    | BeginClose(owner: nat, handle: int)
    | BeginCloseOwner(owner: nat, index: nat)
    | FinishClose
    | Acquire(owner: nat, handle: int)
    | Copy(owner: nat, handle: int, lease: nat, offset: nat, capacity: nat)
    | Release(owner: nat, handle: int, lease: nat)
    | Submit(submission: Submission)
    | Fault(error: int)
    | Unplug
    | Forget

  /** `Blocked` is a caller still waiting for the pipeline mutex. */
  datatype Reply =
    | Done
    | Handle(handle: nat)
    | Frame(metadata: Metadata)
    | Bytes(data: seq<Byte>)
    | Failed(error: Error)
    | Blocked

  predicate Shaped(st: State) {
    && |st.streams| == STREAM_CAPACITY
    && (forall i :: 0 <= i < |st.streams| ==>
          |st.streams[i].frames| == FRAME_CAPACITY && (st.streams[i].open ==> st.streams[i].generation > 0))
    && (st.pipeline.Idle? || st.pipeline.index < STREAM_CAPACITY)
  }

  function StreamHandle(index: nat, generation: nat): nat {
    generation * HANDLE_BASE + index
  }

  /** The stream a handle names when `owner` holds it open, or -1. */
  function Owned(st: State, owner: nat, handle: int): (r: int)
    requires Shaped(st)
    ensures -1 <= r < |st.streams|
  {
    if owner == 0 || handle <= 0 then -1
    else
      var s := st.streams[handle % HANDLE_BASE];
      if s.open && s.owner == owner && s.generation == handle / HANDLE_BASE then handle % HANDLE_BASE else -1
  }

  function WithStream(st: State, i: nat, s: Stream): State
    requires i < |st.streams|
  {
    st.(streams := st.streams[i := s])
  }

  function OpenError(st: State, owner: nat, config: Config): (r: (bool, Error))
  {
    var info := st.info;
    if !info.detected || !info.ready || info.error != 0 then (true, NoDevice)
    else if owner == 0 || config.device != info.device || config.width == 0 || config.height == 0
         || config.width > info.maxWidth || config.height > info.maxHeight || config.fps == 0
         || config.fps > info.maxFps || config.format >= FORMAT_COUNT || config.format !in info.formats
         || config.width > info.sizeLimit / config.height || config.width * config.height > info.sizeLimit / 2
    then (true, InvalidArgument)
    else if st.openCount > 0 then (true, Busy)
    else (false, Busy)
  }

  /** The first stream that is not open, or the length. */
  function FirstClosed(streams: seq<Stream>, from: nat): (i: nat)
    requires from <= |streams|
    ensures from <= i <= |streams|
    ensures i < |streams| ==> !streams[i].open
    ensures forall j :: from <= j < i ==> streams[j].open
    decreases |streams| - from
  {
    if from == |streams| || !streams[from].open then from else FirstClosed(streams, from + 1)
  }

  function Opened(owner: nat, config: Config, generation: nat): Stream {
    Stream(owner, EmptySlots(config.width * config.height * 2), config, generation, 0, 0, true, false, false)
  }

  function NextBeginOpen(st: State, owner: nat, config: Config, memory: bool): (State, Reply)
    requires Shaped(st)
  {
    var index := FirstClosed(st.streams, 0);
    if !st.pipeline.Idle? then (st, Blocked)
    else if OpenError(st, owner, config).0 then (st, Failed(OpenError(st, owner, config).1))
    else if index == |st.streams| then (st, Failed(TooMany))
    else if !memory then (st, Failed(NoMemory))
    else
      (WithStream(st, index, Opened(owner, config, st.streams[index].generation + 1))
       .(openCount := 1, pipeline := Opening(index)), Done)
  }

  function NextFinishOpen(st: State, started: bool): (State, Reply)
    requires Shaped(st)
  {
    if !st.pipeline.Opening? then (st, Blocked)
    else
      var i := st.pipeline.index;
      if started then (st.(pipeline := Idle), Handle(StreamHandle(i, st.streams[i].generation)))
      else
        (WithStream(st, i, ClosedStream(st.streams[i].generation)).(openCount := 0, pipeline := Idle),
         Failed(InputOutput))
  }

  function HungUp(st: State, i: nat): State
    requires Shaped(st) && i < |st.streams|
  {
    WithStream(st, i, st.streams[i].(hangup := true)).(pipeline := Closing(i))
  }

  function NextBeginClose(st: State, owner: nat, handle: int): (State, Reply)
    requires Shaped(st)
  {
    if !st.pipeline.Idle? then (st, Blocked)
    else
      var i := Owned(st, owner, handle);
      if i == -1 then (st, Failed(BadHandle)) else (HungUp(st, i), Done)
  }

  function NextBeginCloseOwner(st: State, owner: nat, index: nat): (State, Reply)
    requires Shaped(st)
  {
    if !st.pipeline.Idle? || index >= |st.streams| then (st, Blocked)
    else if st.streams[index].open && (owner == 0 || st.streams[index].owner == owner) then (HungUp(st, index), Done)
    else (st, Done)
  }

  function NextFinishClose(st: State): (State, Reply)
    requires Shaped(st)
  {
    if !st.pipeline.Closing? then (st, Blocked)
    else
      var i := st.pipeline.index;
      (WithStream(st, i, ClosedStream(st.streams[i].generation)).(openCount := 0, pipeline := Idle), Done)
  }

  function NextAcquire(st: State, owner: nat, handle: int): (State, Reply)
    requires Shaped(st)
  {
    var i := Owned(st, owner, handle);
    if i == -1 then (st, Failed(BadHandle))
    else
      var s := st.streams[i];
      if NextReady(s.frames) >= 0 then (WithStream(st, i, Take(s)), Frame(Take(s).frames[NextReady(s.frames)].metadata))
      else (st, Failed(if s.faulted then InputOutput else if s.hangup then NoDevice else TryAgain))
  }

  function NextCopy(st: State, owner: nat, handle: int, lease: nat, offset: nat, capacity: nat): (State, Reply)
    requires Shaped(st)
  {
    var i := Owned(st, owner, handle);
    if capacity == 0 then (st, Failed(InvalidArgument))
    else if i == -1 || LeaseIndex(st.streams[i].frames, lease) == -1 then (st, Failed(BadHandle))
    else (st, Bytes(Excerpt(st.streams[i].frames[LeaseIndex(st.streams[i].frames, lease)].data, offset, capacity)))
  }

  function NextRelease(st: State, owner: nat, handle: int, lease: nat): (State, Reply)
    requires Shaped(st)
  {
    var i := Owned(st, owner, handle);
    if i == -1 || LeaseIndex(st.streams[i].frames, lease) == -1 then (st, Failed(BadHandle))
    else (WithStream(st, i, GiveBack(st.streams[i], LeaseIndex(st.streams[i].frames, lease))), Done)
  }

  predicate Usable(f: Submission) {
    f.data != [] && f.format < FORMAT_COUNT
  }

  function OfferAll(streams: seq<Stream>, f: Submission): (r: seq<Stream>)
    ensures |r| == |streams|
    ensures forall i :: 0 <= i < |streams| ==> r[i] == Offer(streams[i], f)
  {
    if streams == [] then [] else OfferAll(streams[..|streams| - 1], f) + [Offer(streams[|streams| - 1], f)]
  }

  function FaultAll(streams: seq<Stream>): (r: seq<Stream>)
    ensures |r| == |streams|
    ensures forall i :: 0 <= i < |streams| ==> r[i] == streams[i].(faulted := streams[i].faulted || streams[i].open)
  {
    if streams == [] then []
    else
      var s := streams[|streams| - 1];
      FaultAll(streams[..|streams| - 1]) + [s.(faulted := s.faulted || s.open)]
  }

  function HangUpAll(streams: seq<Stream>): (r: seq<Stream>)
    ensures |r| == |streams|
    ensures forall i :: 0 <= i < |streams| ==> r[i] == streams[i].(hangup := streams[i].hangup || streams[i].open)
  {
    if streams == [] then []
    else
      var s := streams[|streams| - 1];
      HangUpAll(streams[..|streams| - 1]) + [s.(hangup := s.hangup || s.open)]
  }

  function Next(st: State, op: Op): (State, Reply)
    requires Shaped(st)
  {
    match op
    case BeginOpen(owner, config, memory) => NextBeginOpen(st, owner, config, memory)
    case FinishOpen(started) => NextFinishOpen(st, started)
    case BeginClose(owner, handle) => NextBeginClose(st, owner, handle)
    case BeginCloseOwner(owner, index) => NextBeginCloseOwner(st, owner, index)
    case FinishClose => NextFinishClose(st)
    case Acquire(owner, handle) => NextAcquire(st, owner, handle)
    case Copy(owner, handle, lease, offset, capacity) => NextCopy(st, owner, handle, lease, offset, capacity)
    case Release(owner, handle, lease) => NextRelease(st, owner, handle, lease)
    case Submit(f) => (if Usable(f) then st.(streams := OfferAll(st.streams, f)) else st, Done)
    case Fault(error) => (st.(streams := FaultAll(st.streams), info := st.info.(error := error)), Done)
    case Unplug => (st.(streams := HangUpAll(st.streams)), Done)
    case Forget => (st.(info := st.info.(detected := false, ready := false)), Done)
  }

  function Start(info: Info): State {
    State([ClosedStream(0), ClosedStream(0), ClosedStream(0), ClosedStream(0)], 0, info, Idle)
  }

  /** The state after a run of operations. */
  function After(info: Info, ops: seq<Op>): (st: State)
    ensures Shaped(st)
  {
    if ops == [] then Start(info)
    else
      var st := After(info, ops[..|ops| - 1]);
      NextShaped(st, ops[|ops| - 1]);
      Next(st, ops[|ops| - 1]).0
  }

  lemma NextShaped(st: State, op: Op)
    requires Shaped(st)
    ensures Shaped(Next(st, op).0)
  {
    match op
    case BeginOpen(owner, config, memory) => assert Shaped(NextBeginOpen(st, owner, config, memory).0);
    case FinishOpen(started) => assert Shaped(NextFinishOpen(st, started).0);
    case BeginClose(owner, handle) => assert Shaped(NextBeginClose(st, owner, handle).0);
    case BeginCloseOwner(owner, index) => assert Shaped(NextBeginCloseOwner(st, owner, index).0);
    case FinishClose => assert Shaped(NextFinishClose(st).0);
    case Acquire(owner, handle) => assert Shaped(NextAcquire(st, owner, handle).0);
    case Copy(_, _, _, _, _) =>
    case Release(owner, handle, lease) => assert Shaped(NextRelease(st, owner, handle, lease).0);
    case Submit(_) =>
    case Fault(_) =>
    case Unplug =>
    case Forget =>
  }

  /** Whether a stream takes submissions at all. */
  predicate Capturing(s: Stream) {
    s.open && !s.faulted && !s.hangup
  }

  /** What the capture worker asks before it encodes: has the first capturing stream room for a frame? */
  function CaptureReady(streams: seq<Stream>, from: nat): bool
    requires from <= |streams|
    decreases |streams| - from
  {
    if from == |streams| then false
    else if !Capturing(streams[from]) then CaptureReady(streams, from + 1)
    else streams[from].config.format != H264 || FirstFree(streams[from].frames, 0) < |streams[from].frames|
  }

  /** A worker that asked first does not fault an H.264 stream with a frame that fits. */
  lemma {:induction false} ReadyMeansNoFault(streams: seq<Stream>, from: nat, i: nat, f: Submission)
    requires from <= i < |streams| && CaptureReady(streams, from) && Listens(streams[i], f)
    requires forall j :: from <= j < i ==> !streams[j].open
    requires forall k :: 0 <= k < |streams[i].frames| ==> |f.data| <= streams[i].frames[k].capacity
    ensures !Offer(streams[i], f).faulted
    decreases i - from
  {
    if from < i {
      ReadyMeansNoFault(streams, from + 1, i, f);
    }
  }
}
