/** The camera service of camera/camera.c, updated in place: each method is one section under the camera
    mutex and does what the state machine of CameraSpec says. */
module Camera {
  import opened CameraSpec

  method FindFree(frames: seq<Slot>) returns (i: nat)
    ensures i == FirstFree(frames, 0)
  {
    i := 0;
    while i < |frames| && (frames[i].leased || frames[i].ready)
      invariant i <= |frames| && FirstFree(frames, i) == FirstFree(frames, 0)
    {
      i := i + 1;
    }
  }

  method FindOldest(frames: seq<Slot>, mustBeReady: bool) returns (slot: int)
    ensures slot == Oldest(frames, mustBeReady, |frames|)
  {
    slot := -1;
    for i := 0 to |frames|
      invariant slot == Oldest(frames, mustBeReady, i)
    {
      var candidate := frames[i];
      if Eligible(candidate, mustBeReady)
         && (slot == -1 || candidate.metadata.sequence < frames[slot].metadata.sequence) {
        slot := i;
      }
    }
  }

  class CameraService {
    var streams: seq<Stream>
    var openCount: nat
    var info: Info
    var pipeline: Pipeline

    function Snapshot(): State
      reads this
    {
      State(streams, openCount, info, pipeline)
    }

    predicate Valid()
      reads this
    {
      Shaped(Snapshot())
    }

    constructor (info: Info)
      ensures Valid() && Snapshot() == Start(info)
    {
      this.info, openCount, pipeline := info, 0, Idle;
      streams := [ClosedStream(0), ClosedStream(0), ClosedStream(0), ClosedStream(0)];
    }

    /** Everything up to the platform's start call. */
    method BeginOpen(owner: nat, config: Config, memory: bool) returns (reply: Reply)
      requires Valid()
      modifies this
      ensures Valid() && (Snapshot(), reply) == Next(old(Snapshot()), CameraSpec.BeginOpen(owner, config, memory))
    {
      NextShaped(Snapshot(), CameraSpec.BeginOpen(owner, config, memory));
      if !pipeline.Idle? {
        return Blocked;
      }
      var refused := OpenError(Snapshot(), owner, config);
      if refused.0 {
        return Failed(refused.1);
      }
      var index := 0;
      while index < STREAM_CAPACITY && streams[index].open
        invariant 0 <= index <= STREAM_CAPACITY && FirstClosed(streams, index) == FirstClosed(streams, 0)
      {
        index := index + 1;
      }
      if index == STREAM_CAPACITY {
        return Failed(TooMany);
      }
      if !memory {
        return Failed(NoMemory);
      }
      streams := streams[index := Opened(owner, config, streams[index].generation + 1)];
      openCount := 1;
      pipeline := Opening(index);
      return Done;
    }

    method Free(index: nat)
      requires Valid() && index < STREAM_CAPACITY
      modifies this`streams, this`openCount, this`pipeline
      ensures Valid() && openCount == 0 && pipeline == Idle
      ensures streams == old(streams)[index := ClosedStream(old(streams)[index].generation)]
    {
      streams := streams[index := ClosedStream(streams[index].generation)];
      openCount := 0;
      pipeline := Idle;
    }

    method FinishOpen(started: bool) returns (reply: Reply)
      requires Valid()
      modifies this
      ensures Valid() && (Snapshot(), reply) == Next(old(Snapshot()), CameraSpec.FinishOpen(started))
    {
      if !pipeline.Opening? {
        return Blocked;
      }
      var index := pipeline.index;
      if started {
        pipeline := Idle;
        return Handle(StreamHandle(index, streams[index].generation));
      }
      Free(index);
      return Failed(InputOutput);
    }

    /** owned_stream. */
    method Find(owner: nat, handle: int) returns (index: int)
      requires Valid()
      ensures index == Owned(Snapshot(), owner, handle)
    {
      if owner == 0 || handle <= 0 {
        return -1;
      }
      index := handle % HANDLE_BASE;
      var stream := streams[index];
      if !stream.open || stream.owner != owner || stream.generation != handle / HANDLE_BASE {
        index := -1;
      }
    }

    method BeginClose(owner: nat, handle: int) returns (reply: Reply)
      requires Valid()
      modifies this
      ensures Valid() && (Snapshot(), reply) == Next(old(Snapshot()), CameraSpec.BeginClose(owner, handle))
    {
      if !pipeline.Idle? {
        return Blocked;
      }
      var index := Find(owner, handle);
      if index == -1 {
        return Failed(BadHandle);
      }
      streams := streams[index := streams[index].(hangup := true)];
      pipeline := Closing(index);
      return Done;
    }

    method BeginCloseOwner(owner: nat, index: nat) returns (reply: Reply)
      requires Valid()
      modifies this
      ensures Valid() && (Snapshot(), reply) == Next(old(Snapshot()), CameraSpec.BeginCloseOwner(owner, index))
    {
      if !pipeline.Idle? || index >= STREAM_CAPACITY {
        return Blocked;
      }
      if streams[index].open && (owner == 0 || streams[index].owner == owner) {
        streams := streams[index := streams[index].(hangup := true)];
        pipeline := Closing(index);
      }
      return Done;
    }

    method FinishClose() returns (reply: Reply)
      requires Valid()
      modifies this
      ensures Valid() && (Snapshot(), reply) == Next(old(Snapshot()), CameraSpec.FinishClose)
    {
      if !pipeline.Closing? {
        return Blocked;
      }
      Free(pipeline.index);
      return Done;
    }

    method Acquire(owner: nat, handle: int) returns (reply: Reply)
      requires Valid()
      modifies this`streams
      ensures Valid() && (Snapshot(), reply) == Next(old(Snapshot()), CameraSpec.Acquire(owner, handle))
    {
      var index := Find(owner, handle);
      if index == -1 {
        return Failed(BadHandle);
      }
      var stream := streams[index];
      var slot := FindOldest(stream.frames, true);
      if slot == -1 {
        return Failed(if stream.faulted then InputOutput else if stream.hangup then NoDevice else TryAgain);
      }
      var leased := LeasedSlot(stream.frames, slot, stream.drops);
      streams := streams[index := stream.(frames := stream.frames[slot := leased])];
      return Frame(leased.metadata);
    }

    method Copy(owner: nat, handle: int, lease: nat, offset: nat, capacity: nat) returns (reply: Reply)
      requires Valid()
      ensures (Snapshot(), reply) == Next(Snapshot(), CameraSpec.Copy(owner, handle, lease, offset, capacity))
    {
      if capacity == 0 {
        return Failed(InvalidArgument);
      }
      var index := Find(owner, handle);
      if index == -1 {
        return Failed(BadHandle);
      }
      var slot := LeaseIndex(streams[index].frames, lease);
      if slot == -1 {
        return Failed(BadHandle);
      }
      var data := streams[index].frames[slot].data;
      if offset >= |data| {
        return Bytes([]);
      }
      var bytes := |data| - offset;
      if bytes > capacity {
        bytes := capacity;
      }
      assert data[offset..|data|] == data[offset..];
      return Bytes(data[offset..offset + bytes]);
    }

    method Release(owner: nat, handle: int, lease: nat) returns (reply: Reply)
      requires Valid()
      modifies this`streams
      ensures Valid() && (Snapshot(), reply) == Next(old(Snapshot()), CameraSpec.Release(owner, handle, lease))
    {
      var index := Find(owner, handle);
      if index == -1 {
        return Failed(BadHandle);
      }
      var stream := streams[index];
      var slot := LeaseIndex(stream.frames, lease);
      if slot == -1 {
        return Failed(BadHandle);
      }
      streams := streams[index := stream.(frames := stream.frames[slot := stream.frames[slot].(leased := false)])];
      return Done;
    }

    /** The first frame that waits to be acquired. */
    method FrameWaits(index: nat) returns (waits: bool)
      requires Valid() && index < STREAM_CAPACITY
      ensures waits <==> exists i :: 0 <= i < |streams[index].frames| && Eligible(streams[index].frames[i], true)
    {
      var frames := streams[index].frames;
      for i := 0 to |frames|
        invariant forall j :: 0 <= j < i ==> !Eligible(frames[j], true)
      {
        if frames[i].ready && !frames[i].leased {
          assert Eligible(frames[i], true);
          return true;
        }
      }
      return false;
    }

    /** camera_service_poll: of the events asked for, readable exactly when an acquire would hand out a frame,
        error on a faulted stream and hangup on one that is hung up; accepted for an owned handle only. */
    method Poll(owner: nat, handle: int, asked: Events) returns (accepted: bool, events: Events)
      requires Valid()
      ensures accepted <==> Owned(Snapshot(), owner, handle) != -1
      ensures accepted <==> Next(Snapshot(), CameraSpec.Acquire(owner, handle)).1 != Failed(BadHandle)
      ensures accepted ==>
                && events.readable == (asked.readable && Next(Snapshot(), CameraSpec.Acquire(owner, handle)).1.Frame?)
                && events.error == (asked.error && streams[Owned(Snapshot(), owner, handle)].faulted)
                && events.hangup == (asked.hangup && streams[Owned(Snapshot(), owner, handle)].hangup)
      ensures !accepted ==> events == Events(false, false, false)
    {
      events := Events(false, false, false);
      var index := Find(owner, handle);
      if index == -1 {
        return false, events;
      }
      var waits := FrameWaits(index);
      if waits {
        events := events.(readable := asked.readable);
      }
      if streams[index].faulted {
        events := events.(error := asked.error);
      }
      if streams[index].hangup {
        events := events.(hangup := asked.hangup);
      }
      return true, events;
    }

    /** What one stream does with a submission. */
    method OfferTo(index: nat, f: Submission)
      requires Valid() && index < STREAM_CAPACITY
      modifies this`streams
      ensures streams == old(streams)[index := Offer(old(streams)[index], f)]
    {
      var stream := streams[index];
      if !stream.open || stream.faulted || stream.hangup {
        return;
      }
      if f.format != stream.config.format || f.width != stream.config.width || f.height != stream.config.height
         || (Packed(f.format) && f.stride == 0) {
        return;
      }
      var selected := FindFree(stream.frames);
      if selected == |stream.frames| {
        if f.format == H264 {
          streams := streams[index := stream.(faulted := true)];
          return;
        }
        stream := stream.(drops := stream.drops + 1);
        var oldest := FindOldest(stream.frames, false);
        if oldest == -1 {
          streams := streams[index := stream];
          return;
        }
        selected := oldest;
      }
      streams := streams[index := Store(stream, selected, f)];
    }

    method Submit(f: Submission) returns (reply: Reply)
      requires Valid()
      modifies this`streams
      ensures Valid() && (Snapshot(), reply) == Next(old(Snapshot()), CameraSpec.Submit(f))
    {
      NextShaped(Snapshot(), CameraSpec.Submit(f));
      if f.data == [] || f.format >= FORMAT_COUNT {
        return Done;
      }
      ghost var before := streams;
      for i := 0 to STREAM_CAPACITY
        invariant Valid() && |streams| == |before|
        invariant forall j :: 0 <= j < |before| ==> streams[j] == if j < i then Offer(before[j], f) else before[j]
      {
        OfferTo(i, f);
      }
      assert streams == OfferAll(before, f);
      return Done;
    }

    method Fault(error: int) returns (reply: Reply)
      requires Valid()
      modifies this
      ensures Valid() && (Snapshot(), reply) == Next(old(Snapshot()), CameraSpec.Fault(error))
    {
      ghost var before := streams;
      info := info.(error := error);
      for i := 0 to STREAM_CAPACITY
        invariant |streams| == |before| == STREAM_CAPACITY
        invariant Snapshot() == old(Snapshot()).(streams := streams, info := info)
        invariant info == old(info).(error := error)
        invariant forall j :: 0 <= j < |before| ==>
                    streams[j]
                    == if j < i then before[j].(faulted := before[j].faulted || before[j].open) else before[j]
      {
        var stream := streams[i];
        streams := streams[i := stream.(faulted := stream.faulted || stream.open)];
      }
      assert streams == FaultAll(before);
      return Done;
    }

    method Unplug() returns (reply: Reply)
      requires Valid()
      modifies this`streams
      ensures Valid() && (Snapshot(), reply) == Next(old(Snapshot()), CameraSpec.Unplug)
    {
      ghost var before := streams;
      for i := 0 to STREAM_CAPACITY
        invariant |streams| == |before| == STREAM_CAPACITY
        invariant forall j :: 0 <= j < |before| ==>
                    streams[j] == if j < i then before[j].(hangup := before[j].hangup || before[j].open) else before[j]
      {
        var stream := streams[i];
        streams := streams[i := stream.(hangup := stream.hangup || stream.open)];
      }
      assert streams == HangUpAll(before);
      return Done;
    }

    method Forget() returns (reply: Reply)
      requires Valid()
      modifies this`info
      ensures Valid() && (Snapshot(), reply) == Next(old(Snapshot()), CameraSpec.Forget)
    {
      info := info.(detected := false, ready := false);
      return Done;
    }

    method HasRoom() returns (ready: bool)
      requires Valid()
      ensures ready == CaptureReady(streams, 0)
    {
      var i := 0;
      while i < STREAM_CAPACITY && !Capturing(streams[i])
        invariant 0 <= i <= STREAM_CAPACITY && CaptureReady(streams, i) == CaptureReady(streams, 0)
      {
        i := i + 1;
      }
      if i == STREAM_CAPACITY {
        return false;
      }
      if streams[i].config.format != H264 {
        return true;
      }
      var free := FindFree(streams[i].frames);
      return free < |streams[i].frames|;
    }
  }
}
