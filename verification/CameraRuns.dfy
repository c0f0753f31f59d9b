/** What holds of a camera stream over every run of camera/camera.c. */
module CameraRuns {
  import opened CameraSpec

  /** What a run has shown of one stream handle: how many submissions it took part in, those that were
      stored, the frames handed out, the leases taken back, and whether it was ever open and closed again. */
  datatype History = History(
    offered: nat, stored: seq<Submission>, acquired: seq<Metadata>, released: set<nat>, issued: bool, closed: bool)

  const NOTHING := History(0, [], [], {}, false, false)

  predicate Current(st: State, h: nat)
    requires Shaped(st)
  {
    var s := st.streams[h % HANDLE_BASE];
    s.open && h / HANDLE_BASE == s.generation
  }

  function Seen(st: State, op: Op, h: nat, hist: History): History
    requires Shaped(st)
  {
    var s := st.streams[h % HANDLE_BASE];
    match op
    case Submit(f) =>
      if Usable(f) && Current(st, h) && Listens(s, f) then
        hist.(offered := hist.offered + 1,
              stored := if Offer(s, f).sequence > s.sequence then hist.stored + [f] else hist.stored)
      else hist
    case Acquire(_, handle) =>
      if handle == h && Next(st, op).1.Frame? then hist.(acquired := hist.acquired + [Next(st, op).1.metadata])
      else hist
    case Release(_, handle, lease) =>
      if handle == h && Next(st, op).1.Done? then hist.(released := hist.released + {lease}) else hist
    case _ => hist
  }

  function Observe(st: State, op: Op, h: nat, hist: History): History
    requires Shaped(st)
  {
    NextShaped(st, op);
    var now := Current(Next(st, op).0, h);
    Seen(st, op, h, hist).(issued := hist.issued || now, closed := hist.closed || (hist.issued && !now))
  }

  function Told(info: Info, ops: seq<Op>, h: nat): History {
    if ops == [] then NOTHING
    else Observe(After(info, ops[..|ops| - 1]), ops[|ops| - 1], h, Told(info, ops[..|ops| - 1], h))
  }

  // ----- What holds of a stream and its history -----

  ghost predicate SlotsOk(frames: seq<Slot>, sequence: nat) {
    && |frames| == FRAME_CAPACITY
    && (forall i :: 0 <= i < |frames| ==> !(frames[i].ready && frames[i].leased))
    && (forall i :: 0 <= i < |frames| && (frames[i].ready || frames[i].leased) ==>
          1 <= frames[i].metadata.sequence <= sequence)
    && (forall i, j :: 0 <= i < j < |frames| && frames[i].ready && frames[j].ready ==>
          frames[i].metadata.sequence != frames[j].metadata.sequence)
  }

  /** Handed-out sequence numbers increase; those of an H.264 stream are 1, 2, 3 and so on. */
  ghost predicate InOrder(acquired: seq<Metadata>) {
    && (forall j, k :: 0 <= j < k < |acquired| ==> acquired[j].sequence < acquired[k].sequence)
    && (forall k :: 0 <= k < |acquired| && acquired[k].format == H264 ==> acquired[k].sequence == k + 1)
  }

  ghost predicate OrderOk(frames: seq<Slot>, sequence: nat, format: nat, acquired: seq<Metadata>) {
    && InOrder(acquired)
    && (forall k :: 0 <= k < |acquired| ==> acquired[k].sequence <= sequence && acquired[k].format == format)
    && (forall i, k :: 0 <= i < |frames| && frames[i].ready && 0 <= k < |acquired| ==>
          acquired[k].sequence < frames[i].metadata.sequence)
    && (forall i :: 0 <= i < |frames| && frames[i].ready ==> frames[i].metadata.format == format)
  }

  ghost predicate HasReady(frames: seq<Slot>, sequence: nat) {
    exists i :: 0 <= i < |frames| && frames[i].ready && frames[i].metadata.sequence == sequence
  }

  /** Whatever was stored and not handed out yet is ready. */
  ghost predicate Gapless(frames: seq<Slot>, sequence: nat, taken: nat) {
    taken <= sequence && (forall q :: taken < q <= sequence ==> HasReady(frames, q))
  }

  predicate Describes(m: Metadata, f: Submission) {
    && m.format == f.format && m.width == f.width && m.height == f.height && m.stride == f.stride
    && m.size == |f.data| && m.timestamp == f.timestamp
  }

  ghost predicate Faithful(acquired: seq<Metadata>, stored: seq<Submission>) {
    forall k :: 0 <= k < |acquired| ==>
      1 <= acquired[k].sequence <= |stored| && Describes(acquired[k], stored[acquired[k].sequence - 1])
  }

  /** A ready or leased slot holds the submission its metadata names, byte for byte. */
  ghost predicate ContentOk(frames: seq<Slot>, acquired: seq<Metadata>, stored: seq<Submission>) {
    && Faithful(acquired, stored)
    && (forall i :: 0 <= i < |frames| && (frames[i].ready || frames[i].leased) ==>
          && 1 <= frames[i].metadata.sequence <= |stored|
          && Describes(frames[i].metadata, stored[frames[i].metadata.sequence - 1])
          && frames[i].data == stored[frames[i].metadata.sequence - 1].data)
  }

  ghost predicate Handed(acquired: seq<Metadata>, lease: nat) {
    exists k :: 0 <= k < |acquired| && acquired[k].lease == lease
  }

  predicate Active(frames: seq<Slot>, lease: nat) {
    LeaseIndex(frames, lease) >= 0
  }

  /** A lease is active exactly from the hand-out of its frame to its release, and never again. */
  ghost predicate LeasesOk(frames: seq<Slot>, acquired: seq<Metadata>, released: set<nat>) {
    && |frames| == FRAME_CAPACITY
    && (forall i :: 0 <= i < |frames| && frames[i].leased ==>
          && frames[i].generation >= 1 && frames[i].metadata.lease == LeaseHandle(i, frames[i].generation)
          && frames[i].metadata in acquired)
    && (forall k :: 0 <= k < |acquired| ==>
          && acquired[k].lease % HANDLE_BASE < FRAME_CAPACITY
          && 1 <= acquired[k].lease / HANDLE_BASE <= frames[acquired[k].lease % HANDLE_BASE].generation
          && (acquired[k].lease in released <==> !Active(frames, acquired[k].lease)))
    && (forall lease :: lease in released ==> Handed(acquired, lease))
    && (forall j, k :: 0 <= j < k < |acquired| ==> acquired[j].lease != acquired[k].lease)
  }

  function One(b: bool): nat { if b then 1 else 0 }

  function ReadyCount(frames: seq<Slot>): nat
    requires |frames| == FRAME_CAPACITY
  {
    One(frames[0].ready) + One(frames[1].ready) + One(frames[2].ready)
  }

  /** Every submission was handed out, is still ready, or was counted as dropped; only the one that
      faulted the stream may be missing. */
  predicate CountOk(s: Stream, offered: nat, taken: nat)
    requires |s.frames| == FRAME_CAPACITY
  {
    var sum := taken + ReadyCount(s.frames) + s.drops;
    offered == sum || (s.faulted && offered == sum + 1)
  }

  ghost predicate FramesOk(frames: seq<Slot>, sequence: nat, format: nat, acquired: seq<Metadata>,
                           stored: seq<Submission>, released: set<nat>) {
    && SlotsOk(frames, sequence) && OrderOk(frames, sequence, format, acquired)
    && (format == H264 ==> Gapless(frames, sequence, |acquired|))
    && |stored| == sequence && ContentOk(frames, acquired, stored) && LeasesOk(frames, acquired, released)
  }

  ghost predicate Sound(s: Stream, hist: History) {
    && FramesOk(s.frames, s.sequence, s.config.format, hist.acquired, hist.stored, hist.released)
    && (s.config.format == H264 ==> s.drops == 0)
  }

  ghost predicate StreamOk(s: Stream, hist: History) {
    Sound(s, hist) && CountOk(s, hist.offered, |hist.acquired|)
  }

  /** What stays true of a handle after it is closed. */
  ghost predicate PastOk(hist: History) {
    hist.closed == hist.issued && InOrder(hist.acquired) && Faithful(hist.acquired, hist.stored)
  }

  ghost predicate Known(st: State, h: nat, hist: History)
    requires Shaped(st)
  {
    var s := st.streams[h % HANDLE_BASE];
    if Current(st, h) then hist.issued && !hist.closed && StreamOk(s, hist)
    else if h / HANDLE_BASE > s.generation then hist == NOTHING
    else PastOk(hist)
  }

  // ----- Storing a submission -----

  function Filled(slot: Slot, f: Submission, sequence: nat): Slot {
    slot.(data := f.data, ready := true, metadata := Described(f, sequence))
  }

  lemma StoreSlots(frames: seq<Slot>, sequence: nat, i: nat, f: Submission)
    requires SlotsOk(frames, sequence) && i < |frames| && !frames[i].leased
    ensures SlotsOk(frames[i := Filled(frames[i], f, sequence + 1)], sequence + 1)
  {
  }

  lemma StoreOrder(frames: seq<Slot>, sequence: nat, acquired: seq<Metadata>, i: nat, f: Submission)
    requires OrderOk(frames, sequence, f.format, acquired) && i < |frames|
    ensures OrderOk(frames[i := Filled(frames[i], f, sequence + 1)], sequence + 1, f.format, acquired)
  {
  }

  lemma StoreGapless(frames: seq<Slot>, sequence: nat, taken: nat, i: nat, f: Submission)
    requires Gapless(frames, sequence, taken) && i < |frames| && !frames[i].ready
    ensures Gapless(frames[i := Filled(frames[i], f, sequence + 1)], sequence + 1, taken)
  {
    var now := frames[i := Filled(frames[i], f, sequence + 1)];
    forall q | taken < q <= sequence + 1 ensures HasReady(now, q) {
      if q == sequence + 1 {
        assert now[i].ready;
      } else {
        assert HasReady(frames, q);
        var j :| 0 <= j < |frames| && frames[j].ready && frames[j].metadata.sequence == q;
        assert now[j] == frames[j];
      }
    }
  }

  lemma StoreContent(frames: seq<Slot>, acquired: seq<Metadata>, stored: seq<Submission>, i: nat, f: Submission)
    requires ContentOk(frames, acquired, stored) && i < |frames|
    ensures ContentOk(frames[i := Filled(frames[i], f, |stored| + 1)], acquired, stored + [f])
  {
  }

  lemma StoreLeases(frames: seq<Slot>, acquired: seq<Metadata>, released: set<nat>, i: nat, f: Submission,
                    sequence: nat)
    requires LeasesOk(frames, acquired, released) && i < |frames| && !frames[i].leased
    ensures LeasesOk(frames[i := Filled(frames[i], f, sequence)], acquired, released)
  {
    var now := frames[i := Filled(frames[i], f, sequence)];
    assert forall lease: nat :: Active(now, lease) == Active(frames, lease);
  }

  /** What a submission adds to the history of a stream that takes part in it. */
  function Offered(s: Stream, f: Submission, hist: History): History {
    hist.(offered := hist.offered + 1,
          stored := if Offer(s, f).sequence > s.sequence then hist.stored + [f] else hist.stored)
  }

  lemma StoreKeeps(frames: seq<Slot>, sequence: nat, acquired: seq<Metadata>, stored: seq<Submission>,
                   released: set<nat>, i: nat, f: Submission)
    requires FramesOk(frames, sequence, f.format, acquired, stored, released) && i < |frames| && !frames[i].leased
    requires f.format == H264 ==> !frames[i].ready
    ensures var now := frames[i := Filled(frames[i], f, sequence + 1)];
            FramesOk(now, sequence + 1, f.format, acquired, stored + [f], released)
  {
    StoreSlots(frames, sequence, i, f);
    StoreOrder(frames, sequence, acquired, i, f);
    StoreContent(frames, acquired, stored, i, f);
    StoreLeases(frames, acquired, released, i, f, sequence + 1);
    if f.format == H264 {
      StoreGapless(frames, sequence, |acquired|, i, f);
    }
  }

  /** The slot a submission takes, or -1. */
  function Target(s: Stream, f: Submission): (i: int)
    ensures -1 <= i < |s.frames|
  {
    var free := FirstFree(s.frames, 0);
    if free < |s.frames| then free
    else if f.format == H264 then -1
    else Oldest(s.frames, false, |s.frames|)
  }

  /** A submission ends in exactly one of four ways. */
  lemma OfferCases(s: Stream, f: Submission)
    requires |s.frames| == FRAME_CAPACITY && Listens(s, f)
    requires forall i :: 0 <= i < |s.frames| ==> !(s.frames[i].ready && s.frames[i].leased)
    ensures var i := Target(s, f);
            if i == -1 then
              Offer(s, f) == if f.format == H264 then s.(faulted := true) else s.(drops := s.drops + 1)
            else
              && !s.frames[i].leased && (f.format == H264 ==> !s.frames[i].ready)
              && Offer(s, f) == Store(s.(drops := s.drops + One(s.frames[i].ready)), i, f)
  {
    var free := FirstFree(s.frames, 0);
    if free == |s.frames| && f.format != H264 {
      var oldest := Oldest(s.frames, false, |s.frames|);
      if oldest >= 0 {
        assert s.frames[oldest].ready;
      }
    } else if free < |s.frames| {
      assert s.(drops := s.drops + 0) == s;
    }
  }

  lemma OfferCount(s: Stream, f: Submission, offered: nat, taken: nat)
    requires |s.frames| == FRAME_CAPACITY && Listens(s, f) && CountOk(s, offered, taken)
    requires forall i :: 0 <= i < |s.frames| ==> !(s.frames[i].ready && s.frames[i].leased)
    ensures |Offer(s, f).frames| == FRAME_CAPACITY && CountOk(Offer(s, f), offered + 1, taken)
  {
    OfferCases(s, f);
  }

  lemma OfferKeeps(s: Stream, f: Submission, hist: History)
    requires StreamOk(s, hist) && Listens(s, f)
    ensures StreamOk(Offer(s, f), Offered(s, f, hist))
  {
    OfferSound(s, f, hist);
    OfferCount(s, f, hist.offered, |hist.acquired|);
  }

  lemma OfferSound(s: Stream, f: Submission, hist: History)
    requires Sound(s, hist) && Listens(s, f)
    ensures Sound(Offer(s, f), Offered(s, f, hist))
  {
    OfferCases(s, f);
    var i := Target(s, f);
    if i >= 0 {
      StoreOrFault(s, i, f, hist);
    }
  }

  lemma SoundFrom(s: Stream, hist: History, frames: seq<Slot>, sequence: nat, stored: seq<Submission>)
    requires FramesOk(frames, sequence, s.config.format, hist.acquired, stored, hist.released)
    requires s.frames == frames && s.sequence == sequence && hist.stored == stored
    requires s.config.format == H264 ==> s.drops == 0
    ensures Sound(s, hist)
  {
  }

  lemma StoredSound(s: Stream, i: nat, f: Submission, hist: History)
    requires Sound(s, hist) && f.format == s.config.format
    requires i < |s.frames| && !s.frames[i].leased && |f.data| <= s.frames[i].capacity
    requires s.config.format == H264 ==> !s.frames[i].ready
    ensures Sound(Store(s, i, f), hist.(offered := hist.offered + 1, stored := hist.stored + [f]))
  {
    StoreKeeps(s.frames, s.sequence, hist.acquired, hist.stored, hist.released, i, f);
    SoundFrom(Store(s, i, f), hist.(offered := hist.offered + 1, stored := hist.stored + [f]), Store(s, i, f).frames,
              s.sequence + 1, hist.stored + [f]);
  }

  /** Neither the flags nor the drop counter of a stream that may drop bears on the frames. */
  lemma FlagsSound(s: Stream, t: Stream, hist: History, more: History)
    requires Sound(s, hist) && t.frames == s.frames && t.sequence == s.sequence && t.config == s.config
    requires t.config.format == H264 ==> t.drops == 0
    requires more == hist.(offered := more.offered)
    ensures Sound(t, more)
  {
  }

  lemma StoreOrFault(s: Stream, i: nat, f: Submission, hist: History)
    requires Sound(s, hist) && f.format == s.config.format
    requires i < |s.frames| && !s.frames[i].leased
    requires s.config.format == H264 ==> !s.frames[i].ready
    ensures var t := Store(s.(drops := s.drops + One(s.frames[i].ready)), i, f);
            var stored := if t.sequence > s.sequence then hist.stored + [f] else hist.stored;
            Sound(t, hist.(offered := hist.offered + 1, stored := stored))
  {
    var dropped := s.(drops := s.drops + One(s.frames[i].ready));
    if |f.data| <= s.frames[i].capacity {
      FlagsSound(s, dropped, hist, hist);
      StoredSound(dropped, i, f, hist);
    } else {
      FlagsSound(s, Store(dropped, i, f), hist, hist.(offered := hist.offered + 1, stored := hist.stored));
    }
  }

  // ----- Handing a frame out and taking it back -----

  lemma TakeSlots(frames: seq<Slot>, sequence: nat, drops: nat)
    requires SlotsOk(frames, sequence) && NextReady(frames) >= 0
    ensures SlotsOk(frames[NextReady(frames) := LeasedSlot(frames, NextReady(frames), drops)], sequence)
  {
  }

  lemma TakeOrder(frames: seq<Slot>, sequence: nat, format: nat, acquired: seq<Metadata>, drops: nat)
    requires SlotsOk(frames, sequence) && OrderOk(frames, sequence, format, acquired) && NextReady(frames) >= 0
    requires format == H264 ==> frames[NextReady(frames)].metadata.sequence == |acquired| + 1
    ensures var slot := LeasedSlot(frames, NextReady(frames), drops);
            OrderOk(frames[NextReady(frames) := slot], sequence, format, acquired + [slot.metadata])
  {
    var i := NextReady(frames);
    forall j | 0 <= j < |frames| && frames[j].ready && j != i
      ensures frames[i].metadata.sequence < frames[j].metadata.sequence
    {
      assert Eligible(frames[j], true);
    }
  }

  /** The next frame of an H.264 stream continues where the last one ended. */
  lemma NextIsNext(frames: seq<Slot>, sequence: nat, acquired: seq<Metadata>)
    requires SlotsOk(frames, sequence) && OrderOk(frames, sequence, H264, acquired)
    requires Gapless(frames, sequence, |acquired|) && NextReady(frames) >= 0
    ensures frames[NextReady(frames)].metadata.sequence == |acquired| + 1
  {
    var q := |acquired| + 1;
    var i := NextReady(frames);
    if |acquired| > 0 {
      assert acquired[|acquired| - 1].sequence == |acquired|;
    }
    assert q <= frames[i].metadata.sequence <= sequence;
    assert HasReady(frames, q);
    var j :| 0 <= j < |frames| && frames[j].ready && frames[j].metadata.sequence == q;
    assert Eligible(frames[j], true);
  }

  lemma TakeGapless(frames: seq<Slot>, sequence: nat, taken: nat, drops: nat)
    requires Gapless(frames, sequence, taken) && SlotsOk(frames, sequence) && NextReady(frames) >= 0
    requires frames[NextReady(frames)].metadata.sequence == taken + 1
    ensures Gapless(frames[NextReady(frames) := LeasedSlot(frames, NextReady(frames), drops)], sequence, taken + 1)
  {
    var now := frames[NextReady(frames) := LeasedSlot(frames, NextReady(frames), drops)];
    forall q | taken + 1 < q <= sequence ensures HasReady(now, q) {
      assert HasReady(frames, q);
      var j :| 0 <= j < |frames| && frames[j].ready && frames[j].metadata.sequence == q;
      assert now[j] == frames[j];
    }
  }

  lemma TakeContent(frames: seq<Slot>, acquired: seq<Metadata>, stored: seq<Submission>, drops: nat)
    requires ContentOk(frames, acquired, stored) && NextReady(frames) >= 0
    ensures var slot := LeasedSlot(frames, NextReady(frames), drops);
            ContentOk(frames[NextReady(frames) := slot], acquired + [slot.metadata], stored)
  {
  }

  lemma TakeLeases(frames: seq<Slot>, acquired: seq<Metadata>, released: set<nat>, drops: nat)
    requires LeasesOk(frames, acquired, released) && NextReady(frames) >= 0
    ensures var slot := LeasedSlot(frames, NextReady(frames), drops);
            LeasesOk(frames[NextReady(frames) := slot], acquired + [slot.metadata], released)
  {
    var i := NextReady(frames);
    var slot := LeasedSlot(frames, i, drops);
    var now := frames[i := slot];
    var more := acquired + [slot.metadata];
    var minted := slot.metadata.lease;
    assert minted % HANDLE_BASE == i && minted / HANDLE_BASE == frames[i].generation + 1;
    forall k | 0 <= k < |acquired|
      ensures acquired[k].lease != minted && Active(now, acquired[k].lease) == Active(frames, acquired[k].lease)
    {
    }
    forall lease | lease in released ensures Handed(more, lease) {
      assert Handed(acquired, lease);
      var k :| 0 <= k < |acquired| && acquired[k].lease == lease;
      assert more[k].lease == lease;
    }
    assert more[|acquired|] == slot.metadata;
    assert minted !in released;
  }

  lemma TakeFrames(frames: seq<Slot>, sequence: nat, format: nat, acquired: seq<Metadata>, stored: seq<Submission>,
                   released: set<nat>, drops: nat)
    requires FramesOk(frames, sequence, format, acquired, stored, released) && NextReady(frames) >= 0
    ensures var slot := LeasedSlot(frames, NextReady(frames), drops);
            FramesOk(frames[NextReady(frames) := slot], sequence, format, acquired + [slot.metadata], stored, released)
  {
    if format == H264 {
      NextIsNext(frames, sequence, acquired);
      TakeGapless(frames, sequence, |acquired|, drops);
    }
    TakeSlots(frames, sequence, drops);
    TakeOrder(frames, sequence, format, acquired, drops);
    TakeContent(frames, acquired, stored, drops);
    TakeLeases(frames, acquired, released, drops);
  }

  lemma TakeKeeps(s: Stream, hist: History)
    requires StreamOk(s, hist) && NextReady(s.frames) >= 0
    ensures StreamOk(Take(s), hist.(acquired := hist.acquired + [Take(s).frames[NextReady(s.frames)].metadata]))
  {
    assert CountOk(Take(s), hist.offered, |hist.acquired| + 1);
    assert Take(s).frames[NextReady(s.frames)] == LeasedSlot(s.frames, NextReady(s.frames), s.drops);
    TakeFrames(s.frames, s.sequence, s.config.format, hist.acquired, hist.stored, hist.released, s.drops);
  }

  lemma GiveBackLeases(frames: seq<Slot>, lease: nat, acquired: seq<Metadata>, released: set<nat>)
    requires LeasesOk(frames, acquired, released) && Active(frames, lease)
    ensures var i := LeaseIndex(frames, lease);
            LeasesOk(frames[i := frames[i].(leased := false)], acquired, released + {lease})
  {
    var i := LeaseIndex(frames, lease);
    var now := frames[i := frames[i].(leased := false)];
    assert frames[i].metadata.lease == lease && frames[i].metadata in acquired;
    assert Handed(acquired, lease);
    forall k | 0 <= k < |acquired|
      ensures acquired[k].lease != lease ==> Active(now, acquired[k].lease) == Active(frames, acquired[k].lease)
      ensures acquired[k].lease == lease ==> !Active(now, acquired[k].lease)
    {
    }
  }

  /** Giving a slot back changes nothing about the frames still waiting. */
  lemma GiveBackWaiting(frames: seq<Slot>, i: nat, sequence: nat, format: nat, acquired: seq<Metadata>,
                        stored: seq<Submission>)
    requires i < |frames| && frames[i].leased
    requires SlotsOk(frames, sequence) && OrderOk(frames, sequence, format, acquired)
    requires ContentOk(frames, acquired, stored)
    ensures var now := frames[i := frames[i].(leased := false)];
            SlotsOk(now, sequence) && OrderOk(now, sequence, format, acquired) && ContentOk(now, acquired, stored)
  {
  }

  lemma GiveBackGapless(frames: seq<Slot>, i: nat, sequence: nat, taken: nat)
    requires i < |frames| && frames[i].leased && Gapless(frames, sequence, taken)
    ensures Gapless(frames[i := frames[i].(leased := false)], sequence, taken)
  {
    var now := frames[i := frames[i].(leased := false)];
    forall q | taken < q <= sequence ensures HasReady(now, q) {
      assert HasReady(frames, q);
      var j :| 0 <= j < |frames| && frames[j].ready && frames[j].metadata.sequence == q;
      assert now[j].ready && now[j].metadata == frames[j].metadata;
    }
  }

  lemma GiveBackKeeps(s: Stream, lease: nat, hist: History)
    requires StreamOk(s, hist) && Active(s.frames, lease)
    ensures StreamOk(GiveBack(s, LeaseIndex(s.frames, lease)), hist.(released := hist.released + {lease}))
  {
    var i := LeaseIndex(s.frames, lease);
    GiveBackWaiting(s.frames, i, s.sequence, s.config.format, hist.acquired, hist.stored);
    if s.config.format == H264 {
      GiveBackGapless(s.frames, i, s.sequence, |hist.acquired|);
    }
    GiveBackLeases(s.frames, lease, hist.acquired, hist.released);
  }

  // ----- Every step keeps what is known of every handle -----

  /** A step that neither opens nor closes the stream of `h`. */
  lemma KeptBy(st: State, op: Op, h: nat, hist: History)
    requires Shaped(st) && Shaped(Next(st, op).0) && Known(st, h, hist)
    requires Next(st, op).0.streams[h % HANDLE_BASE].open == st.streams[h % HANDLE_BASE].open
    requires Next(st, op).0.streams[h % HANDLE_BASE].generation == st.streams[h % HANDLE_BASE].generation
    requires if Current(st, h) then StreamOk(Next(st, op).0.streams[h % HANDLE_BASE], Seen(st, op, h, hist))
             else Seen(st, op, h, hist) == hist
    ensures Known(Next(st, op).0, h, Observe(st, op, h, hist))
  {
  }

  lemma SameStream(st: State, op: Op, h: nat, hist: History)
    requires Shaped(st) && Shaped(Next(st, op).0) && Known(st, h, hist)
    requires Next(st, op).0.streams[h % HANDLE_BASE] == st.streams[h % HANDLE_BASE]
    requires Seen(st, op, h, hist) == hist
    ensures Known(Next(st, op).0, h, Observe(st, op, h, hist))
  {
  }

  lemma SubmitKeeps(st: State, f: Submission, h: nat, hist: History)
    requires Shaped(st) && Known(st, h, hist)
    ensures Known(Next(st, Submit(f)).0, h, Observe(st, Submit(f), h, hist))
  {
    NextShaped(st, Submit(f));
    var s := st.streams[h % HANDLE_BASE];
    if Usable(f) && Current(st, h) && Listens(s, f) {
      OfferKeeps(s, f, hist);
      assert Seen(st, Submit(f), h, hist) == Offered(s, f, hist);
    }
    KeptBy(st, Submit(f), h, hist);
  }

  lemma FlagsKeep(st: State, op: Op, h: nat, hist: History)
    requires Shaped(st) && Known(st, h, hist) && (op.Fault? || op.Unplug? || op.Forget?)
    ensures Known(Next(st, op).0, h, Observe(st, op, h, hist))
  {
    NextShaped(st, op);
    var s, t := st.streams[h % HANDLE_BASE], Next(st, op).0.streams[h % HANDLE_BASE];
    assert t == s.(faulted := t.faulted, hangup := t.hangup);
    KeptBy(st, op, h, hist);
  }

  /** A handle that is not `h` names another stream, or one that `h` does not name any more. */
  lemma OtherHandle(st: State, owner: nat, handle: int, h: nat)
    requires Shaped(st) && handle != h
    ensures Owned(st, owner, handle) == h % HANDLE_BASE ==> !Current(st, h)
  {
  }

  lemma AcquireKeeps(st: State, owner: nat, handle: int, h: nat, hist: History)
    requires Shaped(st) && Known(st, h, hist)
    ensures Known(Next(st, Acquire(owner, handle)).0, h, Observe(st, Acquire(owner, handle), h, hist))
  {
    NextShaped(st, Acquire(owner, handle));
    if handle != h {
      OtherHandle(st, owner, handle, h);
    } else if Next(st, Acquire(owner, handle)).1.Frame? {
      TakeKeeps(st.streams[h % HANDLE_BASE], hist);
    }
    KeptBy(st, Acquire(owner, handle), h, hist);
  }

  lemma ReleaseKeeps(st: State, owner: nat, handle: int, lease: nat, h: nat, hist: History)
    requires Shaped(st) && Known(st, h, hist)
    ensures Known(Next(st, Release(owner, handle, lease)).0, h, Observe(st, Release(owner, handle, lease), h, hist))
  {
    NextShaped(st, Release(owner, handle, lease));
    if handle != h {
      OtherHandle(st, owner, handle, h);
    } else if Next(st, Release(owner, handle, lease)).1.Done? {
      GiveBackKeeps(st.streams[h % HANDLE_BASE], lease, hist);
    }
    KeptBy(st, Release(owner, handle, lease), h, hist);
  }

  lemma HangUpKeeps(st: State, op: Op, h: nat, hist: History)
    requires Shaped(st) && Known(st, h, hist) && (op.BeginClose? || op.BeginCloseOwner?)
    ensures Known(Next(st, op).0, h, Observe(st, op, h, hist))
  {
    NextShaped(st, op);
    var s, t := st.streams[h % HANDLE_BASE], Next(st, op).0.streams[h % HANDLE_BASE];
    assert t == s || t == s.(hangup := true);
    KeptBy(st, op, h, hist);
  }

  lemma FreshStreamOk(owner: nat, config: Config, generation: nat)
    ensures StreamOk(Opened(owner, config, generation), NOTHING.(issued := true))
  {
  }

  lemma OpenKeeps(st: State, owner: nat, config: Config, memory: bool, h: nat, hist: History)
    requires Shaped(st) && Known(st, h, hist)
    ensures var op := BeginOpen(owner, config, memory); Known(Next(st, op).0, h, Observe(st, op, h, hist))
  {
    var op := BeginOpen(owner, config, memory);
    NextShaped(st, op);
    var s := st.streams[h % HANDLE_BASE];
    if Next(st, op).0.streams[h % HANDLE_BASE] == s {
      SameStream(st, op, h, hist);
    } else {
      FreshStreamOk(owner, config, s.generation + 1);
    }
  }

  lemma FreeKeeps(st: State, op: Op, h: nat, hist: History)
    requires Shaped(st) && Known(st, h, hist) && (op.FinishOpen? || op.FinishClose?)
    ensures Known(Next(st, op).0, h, Observe(st, op, h, hist))
  {
    NextShaped(st, op);
    var s := st.streams[h % HANDLE_BASE];
    if Next(st, op).0.streams[h % HANDLE_BASE] == s {
      SameStream(st, op, h, hist);
    }
  }

  lemma NextKeeps(st: State, op: Op, h: nat, hist: History)
    requires Shaped(st) && Known(st, h, hist)
    ensures Shaped(Next(st, op).0) && Known(Next(st, op).0, h, Observe(st, op, h, hist))
  {
    NextShaped(st, op);
    match op {
      case BeginOpen(owner, config, memory) => OpenKeeps(st, owner, config, memory, h, hist);
      case FinishOpen(_) => FreeKeeps(st, op, h, hist);
      case FinishClose => FreeKeeps(st, op, h, hist);
      case BeginClose(_, _) => HangUpKeeps(st, op, h, hist);
      case BeginCloseOwner(_, _) => HangUpKeeps(st, op, h, hist);
      case Acquire(owner, handle) => AcquireKeeps(st, owner, handle, h, hist);
      case Copy(_, _, _, _, _) => SameStream(st, op, h, hist);
      case Release(owner, handle, lease) => ReleaseKeeps(st, owner, handle, lease, h, hist);
      case Submit(f) => SubmitKeeps(st, f, h, hist);
      case _ => FlagsKeep(st, op, h, hist);
    }
  }

  /** Everything above holds of every handle after every run. */
  lemma {:induction false} RunKeeps(info: Info, ops: seq<Op>, h: nat)
    ensures Known(After(info, ops), h, Told(info, ops, h))
    decreases |ops|
  {
    if ops != [] {
      RunKeeps(info, ops[..|ops| - 1], h);
      NextKeeps(After(info, ops[..|ops| - 1]), ops[|ops| - 1], h, Told(info, ops[..|ops| - 1], h));
    }
  }

  // ----- The promises -----

  /** The frames an application acquires through a handle come in the order they were captured, each the
      submission its sequence number names, and without a gap on an H.264 stream. */
  lemma AcquiredInOrder(info: Info, ops: seq<Op>, h: nat)
    ensures InOrder(Told(info, ops, h).acquired)
    ensures Faithful(Told(info, ops, h).acquired, Told(info, ops, h).stored)
  {
    RunKeeps(info, ops, h);
  }

  /** While a stream is unfaulted, every submission it took part in was acquired, is ready or was dropped;
      an H.264 stream never drops. */
  lemma NothingLost(info: Info, ops: seq<Op>, h: nat)
    requires Current(After(info, ops), h)
    ensures var s := After(info, ops).streams[h % HANDLE_BASE];
            var hist := Told(info, ops, h);
            && (!s.faulted ==> hist.offered == |hist.acquired| + ReadyCount(s.frames) + s.drops)
            && (s.config.format == H264 ==> s.drops == 0)
  {
    RunKeeps(info, ops, h);
  }

  /** A slot is never ready and leased at once. */
  lemma ReadyOrLeased(info: Info, ops: seq<Op>, h: nat, i: nat)
    requires Current(After(info, ops), h) && i < FRAME_CAPACITY
    ensures var slot := After(info, ops).streams[h % HANDLE_BASE].frames[i]; !(slot.ready && slot.leased)
  {
    RunKeeps(info, ops, h);
  }

  /** A lease is accepted exactly when it was handed out and not taken back, on a stream still open, for
      its owner. */
  lemma LeaseAccepted(info: Info, ops: seq<Op>, owner: nat, h: nat, lease: nat)
    ensures var st := After(info, ops);
            var hist := Told(info, ops, h);
            NextRelease(st, owner, h, lease).1 == Done <==>
              && owner != 0 && Current(st, h) && st.streams[h % HANDLE_BASE].owner == owner
              && Handed(hist.acquired, lease) && lease !in hist.released
  {
    RunKeeps(info, ops, h);
    var st := After(info, ops);
    var hist := Told(info, ops, h);
    LeaseReplies(st, owner, h, lease, 0, 0);
    if Current(st, h) {
      LeaseState(st.streams[h % HANDLE_BASE].frames, hist.acquired, hist.released, lease);
    }
  }

  lemma LeaseState(frames: seq<Slot>, acquired: seq<Metadata>, released: set<nat>, lease: nat)
    requires LeasesOk(frames, acquired, released)
    ensures Active(frames, lease) <==> Handed(acquired, lease) && lease !in released
  {
    if Active(frames, lease) {
      var i := LeaseIndex(frames, lease);
      assert frames[i].metadata in acquired && frames[i].metadata.lease == lease;
    }
  }

  /** Copy and release agree on when they refuse, and a copy reads the leased slot. */
  lemma LeaseReplies(st: State, owner: nat, h: nat, lease: nat, offset: nat, capacity: nat)
    requires Shaped(st)
    ensures var s := st.streams[h % HANDLE_BASE];
            var named := owner != 0 && Current(st, h) && s.owner == owner && Active(s.frames, lease);
            && NextRelease(st, owner, h, lease).1 == (if named then Done else Failed(BadHandle))
            && NextCopy(st, owner, h, lease, offset, capacity).1
               == if capacity == 0 then Failed(InvalidArgument)
                  else if !named then Failed(BadHandle)
                  else Bytes(Excerpt(s.frames[LeaseIndex(s.frames, lease)].data, offset, capacity))
  {
  }

  lemma OnePiece(a: seq<Byte>, b: seq<Byte>, data: seq<Byte>, offset: nat, capacity: nat)
    requires PieceOf(a, data, offset, capacity) && PieceOf(b, data, offset, capacity)
    ensures a == b
  {
  }

  /** A released lease, or any lease of a closed handle, is refused ever after. */
  lemma RefusedForever(info: Info, ops: seq<Op>, later: seq<Op>, owner: nat, h: nat, lease: nat, offset: nat,
                       capacity: nat)
    requires lease in Told(info, ops, h).released || Told(info, ops, h).closed
    ensures NextRelease(After(info, ops + later), owner, h, lease).1 == Failed(BadHandle)
    ensures NextCopy(After(info, ops + later), owner, h, lease, offset, capacity).1
         == Failed(if capacity == 0 then InvalidArgument else BadHandle)
  {
    HistoryGrows(info, ops, later, h);
    RunKeeps(info, ops + later, h);
    var st := After(info, ops + later);
    var hist := Told(info, ops + later, h);
    LeaseReplies(st, owner, h, lease, offset, capacity);
    if Current(st, h) {
      LeaseState(st.streams[h % HANDLE_BASE].frames, hist.acquired, hist.released, lease);
    }
  }

  /** A closed handle names no stream ever after, for any owner: acquire, copy, release and close refuse it. */
  lemma ClosedForever(info: Info, ops: seq<Op>, later: seq<Op>, owner: nat, h: nat)
    requires Told(info, ops, h).closed
    ensures Owned(After(info, ops + later), owner, h) == -1
    ensures NextAcquire(After(info, ops + later), owner, h).1 == Failed(BadHandle)
  {
    HistoryGrows(info, ops, later, h);
    RunKeeps(info, ops + later, h);
  }

  /** What was seen of a handle earlier in a run is part of what is seen later. */
  predicate Grows(was: History, now: History) {
    && was.released <= now.released && (was.closed ==> now.closed)
    && was.acquired <= now.acquired && was.stored <= now.stored
  }

  lemma GrowsOn(a: History, b: History, c: History)
    requires Grows(a, b) && Grows(b, c)
    ensures Grows(a, c)
  {
  }

  lemma ObserveGrows(st: State, op: Op, h: nat, hist: History)
    requires Shaped(st)
    ensures Grows(hist, Observe(st, op, h, hist))
  {
  }

  lemma ToldGrows(info: Info, ops: seq<Op>, h: nat)
    requires ops != []
    ensures Grows(Told(info, ops[..|ops| - 1], h), Told(info, ops, h))
  {
    ObserveGrows(After(info, ops[..|ops| - 1]), ops[|ops| - 1], h, Told(info, ops[..|ops| - 1], h));
  }

  lemma {:induction false} HistoryGrows(info: Info, ops: seq<Op>, later: seq<Op>, h: nat)
    ensures Grows(Told(info, ops, h), Told(info, ops + later, h))
    decreases |later|
  {
    if later == [] {
      assert ops + later == ops;
    } else {
      var all := ops + later;
      var fewer := later[..|later| - 1];
      assert all[..|all| - 1] == ops + fewer;
      HistoryGrows(info, ops, fewer, h);
      ToldGrows(info, all, h);
      GrowsOn(Told(info, ops, h), Told(info, ops + fewer, h), Told(info, all, h));
    }
  }

  lemma SlotOfLease(frames: seq<Slot>, acquired: seq<Metadata>, released: set<nat>, stored: seq<Submission>,
                    lease: nat)
    returns (k: nat)
    requires LeasesOk(frames, acquired, released) && ContentOk(frames, acquired, stored) && Active(frames, lease)
    ensures k < |acquired| && acquired[k].lease == lease && 1 <= acquired[k].sequence <= |stored|
    ensures frames[LeaseIndex(frames, lease)].data == stored[acquired[k].sequence - 1].data
  {
    var slot := frames[LeaseIndex(frames, lease)];
    assert slot.metadata in acquired;
    k :| 0 <= k < |acquired| && acquired[k] == slot.metadata;
  }

  /** A reply holds bytes of the `k`-th acquired frame, from the offset on, as they were submitted. */
  predicate ReadsFrame(hist: History, k: nat, lease: nat, offset: nat, capacity: nat, reply: Reply) {
    && k < |hist.acquired| && hist.acquired[k].lease == lease
    && 1 <= hist.acquired[k].sequence <= |hist.stored|
    && reply.Bytes? && PieceOf(reply.data, hist.stored[hist.acquired[k].sequence - 1].data, offset, capacity)
  }

  lemma CopyReads(st: State, hist: History, owner: nat, h: nat, lease: nat, offset: nat, capacity: nat)
    returns (k: nat)
    requires Shaped(st) && Known(st, h, hist) && NextCopy(st, owner, h, lease, offset, capacity).1.Bytes?
    ensures Current(st, h)
    ensures ReadsFrame(hist, k, lease, offset, capacity, NextCopy(st, owner, h, lease, offset, capacity).1)
  {
    LeaseReplies(st, owner, h, lease, offset, capacity);
    k := SlotOfLease(st.streams[h % HANDLE_BASE].frames, hist.acquired, hist.released, hist.stored, lease);
  }

  /** Whenever a frame's bytes are copied, they are those submitted under its sequence number. */
  lemma CopiesAreTheFrame(info: Info, ops: seq<Op>, owner: nat, h: nat, lease: nat, offset: nat, capacity: nat)
    returns (k: nat)
    requires NextCopy(After(info, ops), owner, h, lease, offset, capacity).1.Bytes?
    ensures Current(After(info, ops), h)
    ensures ReadsFrame(Told(info, ops, h), k, lease, offset, capacity,
                       NextCopy(After(info, ops), owner, h, lease, offset, capacity).1)
  {
    RunKeeps(info, ops, h);
    k := CopyReads(After(info, ops), Told(info, ops, h), owner, h, lease, offset, capacity);
  }

  lemma LeasesDiffer(acquired: seq<Metadata>, frames: seq<Slot>, released: set<nat>, j: nat, k: nat)
    requires LeasesOk(frames, acquired, released) && j < |acquired| && k < |acquired|
    requires acquired[j].lease == acquired[k].lease
    ensures j == k
  {
  }

  lemma LeasesAreDistinct(info: Info, ops: seq<Op>, h: nat, j: nat, k: nat)
    requires Current(After(info, ops), h)
    requires j < |Told(info, ops, h).acquired| && k < |Told(info, ops, h).acquired|
    requires Told(info, ops, h).acquired[j].lease == Told(info, ops, h).acquired[k].lease
    ensures j == k
  {
    RunKeeps(info, ops, h);
    var hist := Told(info, ops, h);
    LeasesDiffer(hist.acquired, After(info, ops).streams[h % HANDLE_BASE].frames, hist.released, j, k);
  }

  /** What was read of a frame earlier in a run is what its history tells later. */
  lemma ReadsLater(hist: History, more: History, k: nat, lease: nat, offset: nat, capacity: nat, reply: Reply)
    requires Grows(hist, more) && ReadsFrame(hist, k, lease, offset, capacity, reply)
    ensures ReadsFrame(more, k, lease, offset, capacity, reply)
  {
  }

  lemma SameBytes(st: State, hist: History, now: State, more: History, owner: nat, h: nat, lease: nat, offset: nat,
                  capacity: nat)
    requires Shaped(st) && Known(st, h, hist) && NextCopy(st, owner, h, lease, offset, capacity).1.Bytes?
    requires Shaped(now) && Known(now, h, more) && NextCopy(now, owner, h, lease, offset, capacity).1.Bytes?
    requires Grows(hist, more)
    ensures NextCopy(now, owner, h, lease, offset, capacity).1 == NextCopy(st, owner, h, lease, offset, capacity).1
  {
    var k := CopyReads(st, hist, owner, h, lease, offset, capacity);
    var m := CopyReads(now, more, owner, h, lease, offset, capacity);
    LeasesDiffer(more.acquired, now.streams[h % HANDLE_BASE].frames, more.released, k, m);
    SameFrame(hist, more, k, lease, offset, capacity, NextCopy(st, owner, h, lease, offset, capacity).1,
              NextCopy(now, owner, h, lease, offset, capacity).1);
  }

  lemma SameFrame(hist: History, more: History, k: nat, lease: nat, offset: nat, capacity: nat, first: Reply,
                  second: Reply)
    requires Grows(hist, more) && ReadsFrame(hist, k, lease, offset, capacity, first)
    requires ReadsFrame(more, k, lease, offset, capacity, second)
    ensures first == second
  {
    OnePiece(first.data, second.data, hist.stored[hist.acquired[k].sequence - 1].data, offset, capacity);
  }

  /** The bytes readable through a lease never change while it lasts. */
  lemma LeaseBytesStay(info: Info, ops: seq<Op>, later: seq<Op>, owner: nat, h: nat, lease: nat, offset: nat,
                       capacity: nat)
    requires NextCopy(After(info, ops), owner, h, lease, offset, capacity).1.Bytes?
    requires NextCopy(After(info, ops + later), owner, h, lease, offset, capacity).1.Bytes?
    ensures NextCopy(After(info, ops + later), owner, h, lease, offset, capacity).1
         == NextCopy(After(info, ops), owner, h, lease, offset, capacity).1
  {
    HistoryGrows(info, ops, later, h);
    RunKeeps(info, ops, h);
    RunKeeps(info, ops + later, h);
    SameBytes(After(info, ops), Told(info, ops, h), After(info, ops + later), Told(info, ops + later, h), owner, h,
              lease, offset, capacity);
  }

  // ----- One stream at a time -----

  ghost predicate Exclusive(st: State)
    requires Shaped(st)
  {
    && (forall i, j :: 0 <= i < j < |st.streams| ==> !(st.streams[i].open && st.streams[j].open))
    && (forall i :: 0 <= i < |st.streams| && st.streams[i].open ==> st.openCount == 1)
    && (st.openCount == 0 || (st.openCount == 1 && exists i :: 0 <= i < |st.streams| && st.streams[i].open))
    && (!st.pipeline.Idle? ==> st.streams[st.pipeline.index].open)
  }

  ghost predicate SameOpen(st: State, t: State)
    requires Shaped(st) && Shaped(t)
  {
    && t.openCount == st.openCount && (forall i :: 0 <= i < |st.streams| ==> t.streams[i].open == st.streams[i].open)
    && (t.pipeline == st.pipeline || t.pipeline.Idle? || (st.pipeline.Idle? && t.streams[t.pipeline.index].open))
  }

  lemma SameOpenExclusive(st: State, t: State)
    requires Shaped(st) && Shaped(t) && Exclusive(st) && SameOpen(st, t)
    ensures Exclusive(t)
  {
    if st.openCount == 1 {
      var i :| 0 <= i < |st.streams| && st.streams[i].open;
      assert t.streams[i].open;
    }
  }

  /** Only opening and freeing change which streams are open. */
  lemma OthersKeepOpen(st: State, op: Op)
    requires Shaped(st) && Shaped(Next(st, op).0) && !op.BeginOpen? && !op.FinishOpen? && !op.FinishClose?
    ensures SameOpen(st, Next(st, op).0)
  {
  }

  lemma StepExclusive(st: State, op: Op)
    requires Shaped(st) && Exclusive(st)
    ensures Shaped(Next(st, op).0) && Exclusive(Next(st, op).0)
  {
    NextShaped(st, op);
    var t := Next(st, op).0;
    if !op.BeginOpen? && !op.FinishOpen? && !op.FinishClose? {
      OthersKeepOpen(st, op);
      SameOpenExclusive(st, t);
    } else if op.BeginOpen? {
      OpenExclusive(st, op.owner, op.config, op.memory);
    } else if op.FinishOpen? && op.started {
      SameOpenExclusive(st, t);
    } else {
      FreeExclusive(st, op);
    }
  }

  lemma OpenExclusive(st: State, owner: nat, config: Config, memory: bool)
    requires Shaped(st) && Exclusive(st) && Shaped(NextBeginOpen(st, owner, config, memory).0)
    ensures Exclusive(NextBeginOpen(st, owner, config, memory).0)
    ensures NextBeginOpen(st, owner, config, memory).1 != Failed(TooMany)
  {
    assert st.openCount == 0 ==> !st.streams[0].open;
    var t := NextBeginOpen(st, owner, config, memory).0;
    assert t != st ==> t.streams[t.pipeline.index].open;
  }

  lemma FreeExclusive(st: State, op: Op)
    requires Shaped(st) && Exclusive(st) && (op == FinishOpen(false) || op.FinishClose?) && Shaped(Next(st, op).0)
    ensures Exclusive(Next(st, op).0)
  {
  }

  /** At most one stream is open, and an open never finds the table of streams full. */
  lemma {:induction false} OneStream(info: Info, ops: seq<Op>, owner: nat, config: Config, memory: bool)
    ensures Exclusive(After(info, ops))
    ensures NextBeginOpen(After(info, ops), owner, config, memory).1 != Failed(TooMany)
    decreases |ops|
  {
    if ops != [] {
      OneStream(info, ops[..|ops| - 1], owner, config, memory);
      StepExclusive(After(info, ops[..|ops| - 1]), ops[|ops| - 1]);
    }
    NextShaped(After(info, ops), BeginOpen(owner, config, memory));
    OpenExclusive(After(info, ops), owner, config, memory);
  }
}
