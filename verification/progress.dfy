/**
  Frame-threading progress: the two counters a decoded picture publishes for
  the frame threads that reference it.

  Counter 0 tells how many rows of the picture are reconstructed, counter 1
  how many rows of its motion vectors are known. A signal raises a counter
  and never lowers it; a wait on a counter is released once the counter has
  reached the awaited row. Both primitive families the headers call,
  `ff_thread_{await,report}_progress` and
  `ff_hevc_rpi_progress_{wait,signal}_field`, act on those two counters (the
  ones `set_all_done` writes); their bodies are not part of this model, and a
  missing counter block releases every wait, as
  `ff_thread_await_progress` does when `progress` is NULL.
 */
module ProgressSync {
  /** `INT_MAX` of a 32-bit `int`, the row that marks a picture complete. */
  const INT_MAX: int := 0x7FFF_FFFF

  /** A row number or progress value as a C `int`. */
  predicate IsCInt(v: int) {
    -0x8000_0000 <= v <= INT_MAX
  }

  /** The counter a call names: field 0 is reconstruction, field 1 motion vectors. */
  datatype Field = Recon | Mv

  /** Which primitive family a wrapper calls. */
  datatype Api = ThreadProgress | RpiField

  /** One call a wrapper issues: a wait for `row`, or a signal of `row`. */
  datatype Call = Await(api: Api, field: Field, row: int) | Report(api: Api, field: Field, row: int)

  /** The two progress counters of a picture. */
  datatype Counters = Counters(recon: int, mv: int) {
    function At(f: Field): int {
      match f
      case Recon => recon
      case Mv => mv
    }
  }

  /** The other field. */
  function Other(f: Field): (g: Field)
    ensures g != f
  {
    match f
    case Recon => Mv
    case Mv => Recon
  }

  /** A signal of `v` on `f`: the counter becomes `v` only if that raises it. */
  function Raise(k: Counters, f: Field, v: int): (r: Counters)
    ensures r.At(f) >= k.At(f) && r.At(f) >= v
    ensures r.At(f) == k.At(f) || r.At(f) == v
    ensures r.At(Other(f)) == k.At(Other(f))
  {
    if k.At(f) >= v then k
    else match f
      case Recon => k.(recon := v)
      case Mv => k.(mv := v)
  }

  /** The counters after a sequence of calls; waits change nothing. */
  function Run(k: Counters, calls: seq<Call>): (r: Counters)
    ensures r.recon >= k.recon && r.mv >= k.mv
    decreases |calls|
  {
    if |calls| == 0 then k
    else
      var k' := if calls[0].Report? then Raise(k, calls[0].field, calls[0].row) else k;
      Run(k', calls[1..])
  }

  /** A wait is released when its counter has reached the awaited row. */
  predicate Released(k: Counters, c: Call) {
    c.Await? ==> k.At(c.field) >= c.row
  }

  /** A sequence of calls gets through: every wait in it is released when it is reached. */
  predicate Passes(k: Counters, calls: seq<Call>)
    decreases |calls|
  {
    |calls| == 0 ||
    (Released(k, calls[0]) && Passes(Run(k, calls[..1]), calls[1..]))
  }

  /** Running two sequences one after the other runs their concatenation. */
  lemma {:induction false} RunAppend(k: Counters, a: seq<Call>, b: seq<Call>)
    ensures Run(k, a + b) == Run(Run(k, a), b)
    decreases |a|
  {
    if |a| > 0 {
      assert (a + b)[0] == a[0];
      assert (a + b)[1..] == a[1..] + b;
      var k' := if a[0].Report? then Raise(k, a[0].field, a[0].row) else k;
      RunAppend(k', a[1..], b);
    } else {
      assert a + b == b;
    }
  }

  /** Once a sequence of calls has passed, a wait that was released stays released. */
  lemma {:induction false} ReleasedStays(k: Counters, calls: seq<Call>, c: Call)
    requires Released(k, c)
    ensures Released(Run(k, calls), c)
  {
    var r := Run(k, calls);
    if c.Await? {
      match c.field
      case Recon => assert r.recon >= k.recon;
      case Mv => assert r.mv >= k.mv;
    }
  }

  /** Waits alone never block a picture whose counters have reached their rows. */
  lemma {:induction false} WaitsPass(k: Counters, calls: seq<Call>)
    requires forall i :: 0 <= i < |calls| ==> calls[i].Await? && k.At(calls[i].field) >= calls[i].row
    ensures Passes(k, calls)
    decreases |calls|
  {
    if |calls| > 0 {
      assert Run(k, calls[..1]) == Run(k, []);
      assert forall i :: 0 <= i < |calls[1..]| ==> calls[1..][i] == calls[i + 1];
      WaitsPass(k, calls[1..]);
    }
  }

  /** A signal of `v` releases every later wait on that field for a row up to `v`. */
  lemma SignalReleases(k: Counters, api: Api, api': Api, f: Field, v: int, y: int)
    requires y <= v
    ensures Released(Run(k, [Report(api, f, v)]), Await(api', f, y))
  {
    assert [Report(api, f, v)][1..] == [];
  }
}

/**
  The progress wrappers of libavcodec/hevc.h. In the build with `RPI`
  defined they choose between the RPI field primitives and frame threading
  by `enable_rpi`, and gate the signals by `used_for_ref`; in the build
  without it they are macros over frame threading on counter 0 only.
 */
module HevcProgress {
  import opened ProgressSync

  /** Whether the header is compiled with `RPI` defined. */
  datatype Build = RpiBuild | PlainBuild

  /** The decoder-context fields the wrappers read. */
  datatype Config = Config(enableRpi: bool, usedForRef: bool)

  /** `ff_hevc_progress_wait_mv`: wait until the motion vectors of row `y` of a reference are known. */
  function WaitMv(b: Build, c: Config, y: int): (r: seq<Call>)
    ensures |r| == 1 && r[0].Await? && r[0].row == y
    ensures r[0].api == RpiField <==> b == RpiBuild && c.enableRpi
    ensures r[0].field == (if b == RpiBuild && c.enableRpi then Mv else Recon)
  {
    if b == RpiBuild && c.enableRpi then [Await(RpiField, Mv, y)]
    else [Await(ThreadProgress, Recon, y)]
  }

  /** `ff_hevc_progress_signal_mv`: publish the motion vectors of row `y`. */
  function SignalMv(b: Build, c: Config, y: int): (r: seq<Call>)
    ensures r != [] <==> b == RpiBuild && c.enableRpi && c.usedForRef
    ensures r != [] ==> r == [Report(RpiField, Mv, y)]
  {
    if b == RpiBuild && c.enableRpi && c.usedForRef then [Report(RpiField, Mv, y)] else []
  }

  /** `ff_hevc_progress_wait_recon`: wait until row `y` of a reference is reconstructed. */
  function WaitRecon(b: Build, c: Config, y: int): (r: seq<Call>)
    ensures |r| == 1 && r[0].Await? && r[0].row == y && r[0].field == Recon
    ensures r[0].api == RpiField <==> b == RpiBuild && c.enableRpi
  {
    if b == RpiBuild && c.enableRpi then [Await(RpiField, Recon, y)]
    else [Await(ThreadProgress, Recon, y)]
  }

  /**
    `ff_hevc_progress_signal_recon`: publish reconstruction of row `y`. The
    RPI build signals only a picture used for reference; the plain build
    always signals.
   */
  function SignalRecon(b: Build, c: Config, y: int): (r: seq<Call>)
    ensures r != [] <==> b == PlainBuild || c.usedForRef
    ensures r != [] ==> |r| == 1 && r[0] == Report(r[0].api, Recon, y)
    ensures r != [] ==> (r[0].api == RpiField <==> b == RpiBuild && c.enableRpi)
  {
    match b
    case PlainBuild => [Report(ThreadProgress, Recon, y)]
    case RpiBuild =>
      if !c.usedForRef then []
      else if c.enableRpi then [Report(RpiField, Recon, y)]
      else [Report(ThreadProgress, Recon, y)]
  }

  /** `ff_hevc_progress_signal_all_done`: mark the picture complete. */
  function SignalAllDone(b: Build, c: Config): (r: seq<Call>)
    ensures forall i :: 0 <= i < |r| ==> r[i].Report? && r[i].row == INT_MAX
    ensures 1 <= |r| <= 2 && r[0].field == Recon
    ensures |r| == 2 <==> b == RpiBuild && c.enableRpi
    ensures |r| == 2 ==> r[1].field == Mv
    ensures forall i :: 0 <= i < |r| ==> (r[i].api == RpiField <==> b == RpiBuild && c.enableRpi)
  {
    if b == RpiBuild && c.enableRpi then [Report(RpiField, Recon, INT_MAX), Report(RpiField, Mv, INT_MAX)]
    else [Report(ThreadProgress, Recon, INT_MAX)]
  }

  /**
    After `signal_all_done`, every wait the same build and configuration can
    issue, for any row an `int` can hold, is released.
   */
  lemma AllDoneReleases(b: Build, c: Config, k: Counters, y: int)
    requires IsCInt(y)
    ensures Passes(Run(k, SignalAllDone(b, c)), WaitMv(b, c, y))
    ensures Passes(Run(k, SignalAllDone(b, c)), WaitRecon(b, c, y))
  {
    var s := SignalAllDone(b, c);
    var k' := Run(k, s);
    if |s| == 2 {
      RunAppend(k, [s[0]], [s[1]]);
      assert s == [s[0]] + [s[1]];
      SignalReleases(k, RpiField, RpiField, Recon, INT_MAX, y);
      SignalReleases(Run(k, [s[0]]), RpiField, RpiField, Mv, INT_MAX, y);
      ReleasedStays(Run(k, [s[0]]), [s[1]], Await(RpiField, Recon, y));
    } else {
      SignalReleases(k, s[0].api, ThreadProgress, Recon, INT_MAX, y);
    }
    WaitsPass(k', WaitMv(b, c, y));
    WaitsPass(k', WaitRecon(b, c, y));
  }

  /**
    A picture used for reference that has signalled row `y` (motion vectors,
    then reconstruction) releases every later wait for a row up to `y`, in
    both builds and whether or not `enable_rpi` is set.
   */
  lemma SignalledRowsRelease(b: Build, c: Config, k: Counters, y: int, y': int)
    requires c.usedForRef && y' <= y
    ensures Passes(Run(k, SignalMv(b, c, y) + SignalRecon(b, c, y)), WaitMv(b, c, y'))
    ensures Passes(Run(k, SignalMv(b, c, y) + SignalRecon(b, c, y)), WaitRecon(b, c, y'))
  {
    var m := SignalMv(b, c, y);
    var r := SignalRecon(b, c, y);
    RunAppend(k, m, r);
    var k1 := Run(k, m);
    var k2 := Run(k1, r);
    SignalReleases(k1, r[0].api, r[0].api, Recon, y, y');
    assert r == [Report(r[0].api, Recon, y)];
    if m != [] {
      SignalReleases(k, RpiField, RpiField, Mv, y, y');
      ReleasedStays(Run(k, m), r, Await(RpiField, Mv, y'));
    }
    WaitsPass(k2, WaitMv(b, c, y'));
    WaitsPass(k2, WaitRecon(b, c, y'));
  }

  /**
    Without `used_for_ref` the RPI build signals nothing, so a wait beyond the
    counters stays blocked; the plain build signals reconstruction anyway.
   */
  lemma UnreferencedSignalsNothing(c: Config, k: Counters, y: int)
    requires !c.usedForRef && k.recon < y && k.mv < y
    ensures !Passes(Run(k, SignalMv(RpiBuild, c, y) + SignalRecon(RpiBuild, c, y)), WaitRecon(RpiBuild, c, y))
    ensures !Passes(Run(k, SignalMv(RpiBuild, c, y) + SignalRecon(RpiBuild, c, y)), WaitMv(RpiBuild, c, y))
    ensures Passes(Run(k, SignalMv(PlainBuild, c, y) + SignalRecon(PlainBuild, c, y)), WaitRecon(PlainBuild, c, y))
  {
    assert SignalMv(RpiBuild, c, y) + SignalRecon(RpiBuild, c, y) == [];
    assert SignalMv(PlainBuild, c, y) + SignalRecon(PlainBuild, c, y) == [Report(ThreadProgress, Recon, y)];
    SignalReleases(k, ThreadProgress, ThreadProgress, Recon, y, y);
    WaitsPass(Run(k, [Report(ThreadProgress, Recon, y)]), WaitRecon(PlainBuild, c, y));
  }
}

/**
  The progress wrappers of libavcodec/rpi_hevcdec.h: always the RPI field
  primitives, signals gated by `used_for_ref`.
 */
module RpiProgress {
  import opened ProgressSync
  import H = HevcProgress

  /** `ff_hevc_rpi_progress_wait_mv`: wait on the motion-vector counter. */
  function WaitMv(y: int): (r: seq<Call>)
    ensures |r| == 1 && r[0].Await? && r[0].field == Mv && r[0].row == y
  {
    [Await(RpiField, Mv, y)]
  }

  /** `ff_hevc_rpi_progress_signal_mv`: publish motion vectors of a reference picture. */
  function SignalMv(usedForRef: bool, y: int): (r: seq<Call>)
    ensures r != [] <==> usedForRef
    ensures forall i :: 0 <= i < |r| ==> r[i].Report? && r[i].field == Mv && r[i].row == y
  {
    if usedForRef then [Report(RpiField, Mv, y)] else []
  }

  /** `ff_hevc_rpi_progress_wait_recon`: wait on the reconstruction counter. */
  function WaitRecon(y: int): (r: seq<Call>)
    ensures |r| == 1 && r[0].Await? && r[0].field == Recon && r[0].row == y
  {
    [Await(RpiField, Recon, y)]
  }

  /** `ff_hevc_rpi_progress_signal_recon`: publish reconstruction of a reference picture. */
  function SignalRecon(usedForRef: bool, y: int): (r: seq<Call>)
    ensures r != [] <==> usedForRef
    ensures forall i :: 0 <= i < |r| ==> r[i].Report? && r[i].field == Recon && r[i].row == y
  {
    if usedForRef then [Report(RpiField, Recon, y)] else []
  }

  /** `ff_hevc_rpi_progress_signal_all_done`: both counters to `INT_MAX`, unconditionally. */
  function SignalAllDone(): (r: seq<Call>)
    ensures forall i :: 0 <= i < |r| ==> r[i].Report? && r[i].row == INT_MAX
    ensures |r| == 2 && r[0].field == Recon && r[1].field == Mv
    ensures forall i :: 0 <= i < |r| ==> r[i].api == RpiField
  {
    [Report(RpiField, Recon, INT_MAX), Report(RpiField, Mv, INT_MAX)]
  }

  /**
    The RPI decoder's wrappers are the RPI path of the generic header: with
    `enable_rpi` set, each hevc.h wrapper issues exactly the calls of its
    rpi_hevcdec.h counterpart.
   */
  lemma AgreesWithRpiPath(c: H.Config, y: int)
    requires c.enableRpi
    ensures H.WaitMv(H.RpiBuild, c, y) == WaitMv(y)
    ensures H.SignalMv(H.RpiBuild, c, y) == SignalMv(c.usedForRef, y)
    ensures H.WaitRecon(H.RpiBuild, c, y) == WaitRecon(y)
    ensures H.SignalRecon(H.RpiBuild, c, y) == SignalRecon(c.usedForRef, y)
    ensures H.SignalAllDone(H.RpiBuild, c) == SignalAllDone()
  {
  }

  /** From counters an `int` can hold, `signal_all_done` leaves both at `INT_MAX`. */
  lemma AllDoneCompletes(k: Counters)
    requires IsCInt(k.recon) && IsCInt(k.mv)
    ensures Run(k, SignalAllDone()) == Counters(INT_MAX, INT_MAX)
  {
    var s := SignalAllDone();
    RunAppend(k, [s[0]], [s[1]]);
    assert s == [s[0]] + [s[1]];
    assert [s[0]][1..] == [] && [s[1]][1..] == [];
  }

  /** After `signal_all_done`, every wait of the RPI decoder is released. */
  lemma AllDoneReleases(k: Counters, y: int)
    requires IsCInt(y)
    ensures Passes(Run(k, SignalAllDone()), WaitMv(y))
    ensures Passes(Run(k, SignalAllDone()), WaitRecon(y))
  {
    H.AllDoneReleases(H.RpiBuild, H.Config(true, false), k, y);
  }
}

/**
  `set_all_done`, which marks a missing reference complete without
  signalling: it stores `INT_MAX` into both progress counters of the
  picture's `tf.progress` buffer reference, if it has one.

  The buffer reference is an `AVBufferRef` (libavutil/buffer.h, not part of
  this model), three words on the 32-bit ARM target: `buffer`, `data` (the
  pointer to the two counters) and `size`.
 */
module ProgressBuffer {
  import opened Optional
  import opened ProgressSync
  import RpiProgress

  /** The words of an `AVBufferRef`. */
  datatype BufferRef = BufferRef(buffer: int, data: int, size: int)

  /** A picture's `tf.progress`: the reference itself and the counters its `data` points at. */
  datatype ProgressRef = ProgressRef(header: BufferRef, counters: Counters)

  /** Store `v` into word `i` of the reference, counting from `buffer`; past `size` is outside this model. */
  function StoreHeaderWord(h: BufferRef, i: nat, v: int): (r: BufferRef)
    requires i < 3
    ensures i != 0 ==> r.buffer == h.buffer
    ensures i != 1 ==> r.data == h.data
    ensures i != 2 ==> r.size == h.size
    ensures (i == 0 ==> r.buffer == v) && (i == 1 ==> r.data == v) && (i == 2 ==> r.size == v)
  {
    if i == 0 then h.(buffer := v) else if i == 1 then h.(data := v) else h.(size := v)
  }

  /**
    `ff_hevc_progress_set_all_done` as libavcodec/hevc.h writes it: `p` is
    the address OF the `data` field (word 1), so `p[0]` and `p[1]` land on
    `data` and `size` and the counters keep their values.
   */
  function SetAllDoneAsWritten(p: Option<ProgressRef>): (r: Option<ProgressRef>)
    ensures r.None? <==> p.None?
    ensures r.Some? ==> r.value.counters == p.value.counters
    ensures r.Some? ==> r.value.header.buffer == p.value.header.buffer
  {
    match p
    case None => None
    case Some(pr) =>
      var h := StoreHeaderWord(StoreHeaderWord(pr.header, 1 + 0, INT_MAX), 1 + 1, INT_MAX);
      Some(ProgressRef(h, pr.counters))
  }

  /**
    `ff_hevc_rpi_progress_set_all_done` of libavcodec/rpi_hevcdec.h, the
    intended behaviour: `p` is the `data` pointer itself, so `p[0]` and
    `p[1]` are the two counters.
   */
  function SetAllDone(p: Option<ProgressRef>): (r: Option<ProgressRef>)
    ensures r.None? <==> p.None?
    ensures r.Some? ==> r.value.header == p.value.header
    ensures r.Some? ==> r.value.counters.At(Recon) == INT_MAX && r.value.counters.At(Mv) == INT_MAX
  {
    match p
    case None => None
    case Some(pr) =>
      var k := pr.counters.(recon := INT_MAX).(mv := INT_MAX);
      Some(ProgressRef(pr.header, k))
  }

  /**
    The corrected `set_all_done` leaves the counters exactly where
    `signal_all_done` would, releasing every wait for a row an `int` can
    hold, without touching the buffer reference; it is idempotent.
   */
  lemma SetAllDoneCompletes(p: Option<ProgressRef>, c: Call)
    requires p.Some? && IsCInt(p.value.counters.recon) && IsCInt(p.value.counters.mv)
    requires c.Await? && IsCInt(c.row)
    ensures SetAllDone(p).value.header == p.value.header
    ensures SetAllDone(p).value.counters == Run(p.value.counters, RpiProgress.SignalAllDone())
    ensures Released(SetAllDone(p).value.counters, c)
    ensures SetAllDone(SetAllDone(p)) == SetAllDone(p)
  {
    RpiProgress.AllDoneCompletes(p.value.counters);
  }

  /** Without a buffer reference both versions do nothing. */
  lemma SetAllDoneNull()
    ensures SetAllDone(None) == None && SetAllDoneAsWritten(None) == None
  {
  }

  /**
    The version in hevc.h overwrites the reference's `data` pointer and
    `size` and leaves the counters alone: for every picture the counters
    are unchanged, and for a picture at row 0 a wait for row 1 stays blocked
    where the corrected version releases it.
   */
  lemma AsWrittenMissesCounters(p: Option<ProgressRef>)
    requires p.Some?
    ensures SetAllDoneAsWritten(p).value.counters == p.value.counters
    ensures SetAllDoneAsWritten(p).value.header == p.value.header.(data := INT_MAX, size := INT_MAX)
    ensures p.value.counters == Counters(0, 0) ==>
      !Released(SetAllDoneAsWritten(p).value.counters, Await(RpiField, Recon, 1)) &&
      Released(SetAllDone(p).value.counters, Await(RpiField, Recon, 1))
  {
  }

  /** A concrete picture on which the two versions differ. */
  lemma AsWrittenCounterexample()
    ensures var p := Some(ProgressRef(BufferRef(0x1000, 0x2000, 8), Counters(0, 0)));
      SetAllDoneAsWritten(p).value.header.data == INT_MAX &&
      SetAllDoneAsWritten(p).value.counters.recon == 0 &&
      SetAllDone(p).value.counters.recon == INT_MAX &&
      SetAllDoneAsWritten(p) != SetAllDone(p)
  {
    AsWrittenMissesCounters(Some(ProgressRef(BufferRef(0x1000, 0x2000, 8), Counters(0, 0))));
  }
}
