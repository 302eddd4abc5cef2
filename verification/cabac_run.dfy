/**
  Runs of the three CABAC routines of libavcodec/arm/cabac.h over one slice:
  a sequence of context-coded decisions, bypass bits and bypass signs, as a
  syntax-element parser issues them.

  Two facts about whole runs: the checked refill never moves the cursor
  past `bytestream_end + 2` once it starts at or before that point, and a
  run of the routines decodes what the run of the standard's decoding
  processes decodes, as long as the standard has not read into the last
  two bytes before `bytestream_end`.
 */
module CabacRun {
  import opened Optional
  import opened Bits
  import opened CabacArm
  import opened CabacRefinement
  import opened CabacBypassRefinement
  import Std = CabacStandard

  /** A value of a C `int`. */
  type Int32 = x: int | -0x8000_0000 <= x < 0x8000_0000

  /** One call into the engine: a decision with context `k`, a bypass bit, or a bypass sign applied to `v`. */
  datatype Op = Decision(k: nat) | Bypass | Sign(v: Int32)

  /** The values a run returns, the engine it leaves and the context bytes after it. */
  datatype ArmOut = ArmOut(values: seq<int>, engine: Engine, ctx: seq<byte>)

  /** The bins the standard decodes, its final state and its context variables. */
  datatype StdOut = StdOut(bins: seq<int>, state: Std.ArithState, ctx: seq<Std.ContextVar>)

  /**
    One routine call. Outside the engine invariant (`Normalized`) the 32-bit
    registers of the routines are not modelled, and a context index beyond
    the context bytes is not a call the decoder makes; both give no result.
   */
  function ArmStep(t: Tables, st: Stream, e: Engine, ctx: seq<byte>, op: Op): (r: Option<(int, Engine, seq<byte>)>)
    requires ValidStream(st)
    ensures r.Some? ==> |r.value.2| == |ctx|
    ensures r.Some? ==> r.value.1.pos == e.pos || (e.pos <= st.end && r.value.1.pos == e.pos + 2)
  {
    if !Normalized(e) then None
    else match op
      case Decision(k) =>
        if k < |ctx| then
          var d := DecodeDecision(t, st, e, ctx, k);
          Some((d.bit, d.engine, d.ctx))
        else None
      case Bypass =>
        var b := DecodeBypass(st, e);
        Some((b.bit, b.engine, ctx))
      case Sign(v) =>
        var s := DecodeBypassSign(st, e, v);
        Some((s.value, s.engine, ctx))
  }

  /** A run of routine calls; no result once a call has none. */
  function ArmRun(t: Tables, st: Stream, e: Engine, ctx: seq<byte>, ops: seq<Op>): (r: Option<ArmOut>)
    requires ValidStream(st)
    ensures r.Some? ==> |r.value.values| == |ops| && |r.value.ctx| == |ctx|
    ensures r.Some? ==> e.pos <= r.value.engine.pos
    ensures r.Some? && e.pos <= st.end + 2 ==> r.value.engine.pos <= st.end + 2
    decreases |ops|
  {
    if |ops| == 0 then Some(ArmOut([], e, ctx))
    else match ArmStep(t, st, e, ctx, ops[0])
      case None => None
      case Some((x, e', ctx')) =>
        match ArmRun(t, st, e', ctx', ops[1..])
        case None => None
        case Some(rest) => Some(ArmOut([x] + rest.values, rest.engine, rest.ctx))
  }

  /** Every context variable in range. */
  predicate AllValid(cv: seq<Std.ContextVar>) {
    forall j :: 0 <= j < |cv| ==> Std.ValidContext(cv[j])
  }

  /** One decoding process of the standard; a bypass sign decodes a bypass bin. */
  function StdStep(std: Std.StdTables, data: seq<byte>, a: Std.ArithState, cv: seq<Std.ContextVar>, op: Op): (r: Option<(int, Std.ArithState, seq<Std.ContextVar>)>)
    requires Std.Valid(a) && AllValid(cv)
    ensures r.Some? ==> Std.Valid(r.value.1) && AllValid(r.value.2) && |r.value.2| == |cv|
    ensures r.Some? ==> r.value.1.bitPos >= a.bitPos
  {
    match op
    case Decision(k) =>
      if k < |cv| then
        var d := Std.DecodeDecision(std, data, a, cv[k]);
        Some((d.bin, d.state, cv[k := d.ctx]))
      else None
    case _ =>
      var b := Std.DecodeBypass(data, a);
      Some((b.bin, b.state, cv))
  }

  /** A run of the standard's decoding processes. */
  function StdRun(std: Std.StdTables, data: seq<byte>, a: Std.ArithState, cv: seq<Std.ContextVar>, ops: seq<Op>): (r: Option<StdOut>)
    requires Std.Valid(a) && AllValid(cv)
    ensures r.Some? ==> |r.value.bins| == |ops| && |r.value.ctx| == |cv| && AllValid(r.value.ctx)
    ensures r.Some? ==> Std.Valid(r.value.state) && r.value.state.bitPos >= a.bitPos
    decreases |ops|
  {
    if |ops| == 0 then Some(StdOut([], a, cv))
    else match StdStep(std, data, a, cv, ops[0])
      case None => None
      case Some((b, a', cv')) =>
        match StdRun(std, data, a', cv', ops[1..])
        case None => None
        case Some(rest) => Some(StdOut([b] + rest.bins, rest.state, rest.ctx))
  }

  /** What a routine returns for the standard's bin: the bin itself, or the sign it applies. */
  function Expected(op: Op, bin: int): int {
    match op
    case Sign(v) => if bin == 1 then v else Neg32(v)
    case _ => bin
  }

  /** The context bytes hold the packed context variables. */
  predicate PacksContexts(ctx: seq<byte>, cv: seq<Std.ContextVar>) {
    |ctx| == |cv| && AllValid(cv) && forall j :: 0 <= j < |ctx| ==> ctx[j] as int == Pack(cv[j])
  }

  /** One routine call decodes the standard's bin and keeps states and contexts corresponding. */
  lemma StepRefines(ff: Tables, std: Std.StdTables, st: Stream, e: Engine, a: Std.ArithState,
                    ctx: seq<byte>, cv: seq<Std.ContextVar>, op: Op)
    requires ValidStream(st) && PacksTables(ff, std) && Std.Valid(a) && Corresponds(st.data, e, a)
    requires e.pos <= st.end && PacksContexts(ctx, cv)
    requires StdStep(std, st.data, a, cv, op).Some?
    ensures var s := StdStep(std, st.data, a, cv, op).value; var r := ArmStep(ff, st, e, ctx, op);
      r.Some? && r.value.0 == Expected(op, s.0) && Corresponds(st.data, r.value.1, s.1) && PacksContexts(r.value.2, s.2)
  {
    CorrespondsBounds(st.data, e, a);
    match op
    case Decision(k) =>
      DecisionRefines(ff, std, st, e, a, ctx, k, cv[k]);
      var s := Std.DecodeDecision(std, st.data, a, cv[k]);
      var d := DecodeDecision(ff, st, e, ctx, k);
      assert d.ctx == ctx[k := Pack(s.ctx) as byte];
      assert forall j :: 0 <= j < |ctx| ==> d.ctx[j] as int == Pack(cv[k := s.ctx][j]);
    case Bypass =>
      BypassRefines(st, e, a);
    case Sign(v) =>
      BypassSignRefines(st, e, a, v);
  }

  /**
    A run of the routines from corresponding states decodes, value for value,
    what the standard decodes, and ends in corresponding states, provided the
    standard's final bit position stays 16 bits short of `bytestream_end`
    (so that no routine call starts with its cursor past the end).
   */
  lemma {:induction false} RunRefines(ff: Tables, std: Std.StdTables, st: Stream, e: Engine, a: Std.ArithState,
                                      ctx: seq<byte>, cv: seq<Std.ContextVar>, ops: seq<Op>)
    requires ValidStream(st) && PacksTables(ff, std) && Std.Valid(a) && Corresponds(st.data, e, a)
    requires PacksContexts(ctx, cv)
    requires StdRun(std, st.data, a, cv, ops).Some?
    requires StdRun(std, st.data, a, cv, ops).value.state.bitPos + 16 <= 8 * st.end
    ensures var s := StdRun(std, st.data, a, cv, ops).value; var r := ArmRun(ff, st, e, ctx, ops);
      r.Some? && Corresponds(st.data, r.value.engine, s.state) && PacksContexts(r.value.ctx, s.ctx) &&
      forall i :: 0 <= i < |ops| ==> r.value.values[i] == Expected(ops[i], s.bins[i])
    decreases |ops|
  {
    if |ops| > 0 {
      var s1 := StdStep(std, st.data, a, cv, ops[0]).value;
      var rest := StdRun(std, st.data, s1.1, s1.2, ops[1..]);
      assert 8 * e.pos <= a.bitPos + 16;
      StepRefines(ff, std, st, e, a, ctx, cv, ops[0]);
      var r1 := ArmStep(ff, st, e, ctx, ops[0]).value;
      RunRefines(ff, std, st, r1.1, s1.1, r1.2, s1.2, ops[1..]);
      var tail := ArmRun(ff, st, r1.1, r1.2, ops[1..]).value;
      assert forall i :: 1 <= i < |ops| ==> ops[i] == ops[1..][i - 1];
    }
  }
}
