/** What the shader object hands to the Direct3D 11 device: GPU constant buffers, and the
    calls `Bind` and `Unbind` issue, recorded in order. */
module Device {
  import opened Common

  /** A dynamic constant buffer on the GPU: its `ByteWidth` and the cells last uploaded to
      it (`[]` until the first upload; a freshly created buffer's contents are undefined). */
  datatype GpuBuffer = GpuBuffer(byteWidth: nat, image: seq<Word>)

  /** The `ByteWidth` `SetShader` and `Clone` request for a buffer of `size` bytes: the size
      rounded up to whole 16-byte registers. */
  function BufferWidth(size: nat): (w: nat)
    ensures w % 16 == 0 && size <= w < size + 16
  {
    (size + 15) / 16 * 16
  }

  /** The rounding is the identity exactly on sizes that are already whole registers. */
  lemma BufferWidthExact(size: nat)
    ensures BufferWidth(size) == size <==> size % 16 == 0
  {
  }

  /** A buffer as created: the requested width and no contents yet. */
  function NewBuffer(width: nat): (b: GpuBuffer)
    ensures b.byteWidth == width && b.image == []
  {
    GpuBuffer(width, [])
  }

  datatype DeviceCall =
    | SetProgram(stage: nat, program: Option<ProgramId>)
    | SetShaderResources(stage: nat, views: seq<Option<View>>)
    | SetSamplers(stage: nat, states: seq<Option<View>>)
    | SetConstantBuffers(stage: nat, buffers: seq<GpuBuffer>)
    | SetComputeUavs(start: nat, count: nat, views: seq<Option<View>>)

  /** The six `*SetShader` calls at the start of `Bind`, in the order vertex, geometry,
      pixel, compute, hull, domain. */
  function ProgramCalls(programs: seq<Option<ProgramId>>): (calls: seq<DeviceCall>)
    requires |programs| == NumStages
    ensures |calls| == NumStages
    ensures forall c :: c in calls ==> c.SetProgram?
    ensures forall st :: 0 <= st < NumStages ==> SetProgram(st, programs[st]) in calls
  {
    [SetProgram(VertexStage, programs[VertexStage]), SetProgram(GeometryStage, programs[GeometryStage]),
     SetProgram(PixelStage, programs[PixelStage]), SetProgram(ComputeStage, programs[ComputeStage]),
     SetProgram(HullStage, programs[HullStage]), SetProgram(DomainStage, programs[DomainStage])]
  }

  /** The calls that attach one stage's views, samplers and constant buffers; an empty
      vector is not attached. */
  function StageAttachCalls(st: nat, srvs: seq<Option<View>>, samplers: seq<Option<View>>, cbufs: seq<GpuBuffer>): (calls: seq<DeviceCall>)
    ensures |calls| <= 3
  {
    (if |srvs| > 0 then [SetShaderResources(st, srvs)] else [])
    + (if |samplers| > 0 then [SetSamplers(st, samplers)] else [])
    + (if |cbufs| > 0 then [SetConstantBuffers(st, cbufs)] else [])
  }

  /** A stage's views, samplers and constant buffers are each attached exactly when the
      vector is non-empty. */
  lemma StageAttachCallsIff(st: nat, srvs: seq<Option<View>>, samplers: seq<Option<View>>, cbufs: seq<GpuBuffer>)
    ensures SetShaderResources(st, srvs) in StageAttachCalls(st, srvs, samplers, cbufs) <==> |srvs| > 0
    ensures SetSamplers(st, samplers) in StageAttachCalls(st, srvs, samplers, cbufs) <==> |samplers| > 0
    ensures SetConstantBuffers(st, cbufs) in StageAttachCalls(st, srvs, samplers, cbufs) <==> |cbufs| > 0
  {
  }

  /** The calls of every stage, concatenated in stage order. */
  function Flatten(plan: seq<seq<DeviceCall>>): (calls: seq<DeviceCall>)
    decreases |plan|
  {
    if plan == [] then [] else Flatten(plan[..|plan| - 1]) + plan[|plan| - 1]
  }

  /** Each stage's attach calls, by stage. */
  function AttachPlan(srvs: seq<seq<Option<View>>>, samplers: seq<seq<Option<View>>>, cbufs: seq<seq<GpuBuffer>>): (plan: seq<seq<DeviceCall>>)
    requires |samplers| == |srvs| && |cbufs| == |srvs|
    ensures |plan| == |srvs|
    ensures forall st :: 0 <= st < |plan| ==> plan[st] == StageAttachCalls(st, srvs[st], samplers[st], cbufs[st])
  {
    seq(|srvs|, st requires 0 <= st < |srvs| => StageAttachCalls(st, srvs[st], samplers[st], cbufs[st]))
  }

  /** Whether call `c` attaches views, samplers or constant buffers to stage `st`. */
  predicate Attaches(c: DeviceCall, st: nat) {
    (c.SetShaderResources? || c.SetSamplers? || c.SetConstantBuffers?) && c.stage == st
  }

  /** The calls among `calls` that attach something to stage `st`, in order. */
  function CallsFor(calls: seq<DeviceCall>, st: nat): (r: seq<DeviceCall>)
    ensures |r| <= |calls|
    decreases |calls|
  {
    if calls == [] then []
    else
      var c := calls[|calls| - 1];
      CallsFor(calls[..|calls| - 1], st) + (if Attaches(c, st) then [c] else [])
  }

  /** Selecting a stage's calls distributes over concatenation. */
  lemma {:induction false} CallsForConcat(a: seq<DeviceCall>, b: seq<DeviceCall>, st: nat)
    ensures CallsFor(a + b, st) == CallsFor(a, st) + CallsFor(b, st)
    decreases |b|
  {
    if b == [] {
      assert a + b == a;
    } else {
      var init := b[..|b| - 1];
      var x := b[|b| - 1];
      var tail := if Attaches(x, st) then [x] else [];
      assert (a + b)[..|a + b| - 1] == a + init;
      assert (a + b)[|a + b| - 1] == x;
      assert CallsFor(a + b, st) == CallsFor(a + init, st) + tail;
      assert CallsFor(b, st) == CallsFor(init, st) + tail;
      CallsForConcat(a, init, st);
    }
  }

  /** A call that attaches to stage `st` is among the calls exactly when it is among that
      stage's selection. */
  lemma {:induction false} CallsForKeeps(calls: seq<DeviceCall>, st: nat, x: DeviceCall)
    requires Attaches(x, st)
    ensures x in calls <==> x in CallsFor(calls, st)
    decreases |calls|
  {
    if calls != [] {
      var init := calls[..|calls| - 1];
      CallsForKeeps(init, st, x);
      assert calls == init + [calls[|calls| - 1]];
    }
  }

  lemma CallsForSingle(x: DeviceCall, st: nat)
    ensures CallsFor([x], st) == if Attaches(x, st) then [x] else []
  {
    assert [x][..0] == [];
  }

  /** One stage's attach calls, seen from stage `st`: all of them or none. */
  lemma StageCallsFor(s: nat, srvs: seq<Option<View>>, samplers: seq<Option<View>>, cbufs: seq<GpuBuffer>, st: nat)
    ensures CallsFor(StageAttachCalls(s, srvs, samplers, cbufs), st)
            == if s == st then StageAttachCalls(s, srvs, samplers, cbufs) else []
  {
    var a := if |srvs| > 0 then [SetShaderResources(s, srvs)] else [];
    var b := if |samplers| > 0 then [SetSamplers(s, samplers)] else [];
    var c := if |cbufs| > 0 then [SetConstantBuffers(s, cbufs)] else [];
    assert StageAttachCalls(s, srvs, samplers, cbufs) == a + b + c;
    CallsForSingle(SetShaderResources(s, srvs), st);
    CallsForSingle(SetSamplers(s, samplers), st);
    CallsForSingle(SetConstantBuffers(s, cbufs), st);
    CallsForConcat(a, b, st);
    CallsForConcat(a + b, c, st);
  }

  /** Appending calls that are all for stage `s`, or none of them for stage `st`. */
  lemma CallsForStep(prev: seq<DeviceCall>, last: seq<DeviceCall>, s: nat, st: nat, want: seq<DeviceCall>)
    requires CallsFor(last, st) == if s == st then last else []
    requires CallsFor(prev, st) == if st < s then want else []
    ensures CallsFor(prev + last, st) == if st < s + 1 then (if s == st then last else want) else []
  {
    CallsForConcat(prev, last, st);
    if s == st {
      assert [] + last == last;
    } else {
      assert CallsFor(prev, st) + [] == CallsFor(prev, st);
    }
  }

  /** When stage `s`'s calls all attach to stage `s`, the calls for stage `st` in the
      concatenation are stage `st`'s own. */
  lemma {:induction false} FlattenFor(plan: seq<seq<DeviceCall>>, st: nat)
    requires forall s :: 0 <= s < |plan| ==> CallsFor(plan[s], st) == if s == st then plan[s] else []
    ensures CallsFor(Flatten(plan), st) == if st < |plan| then plan[st] else []
    decreases |plan|
  {
    if plan != [] {
      var n := |plan|;
      var init := plan[..n - 1];
      var want := if st < n then plan[st] else [];
      assert forall s :: 0 <= s < |init| ==> init[s] == plan[s];
      FlattenFor(init, st);
      assert CallsFor(Flatten(init), st) == if st < n - 1 then want else [];
      CallsForStep(Flatten(init), plan[n - 1], n - 1, st, want);
    }
  }

  /** Among all of `Bind`'s attach calls, the ones for stage `st` are exactly that stage's
      calls, in order: its views, samplers and buffers, each vector only when non-empty. */
  lemma AttachCallsFor(srvs: seq<seq<Option<View>>>, samplers: seq<seq<Option<View>>>, cbufs: seq<seq<GpuBuffer>>, st: nat)
    requires |samplers| == |srvs| && |cbufs| == |srvs| && st < |srvs|
    ensures CallsFor(Flatten(AttachPlan(srvs, samplers, cbufs)), st)
            == StageAttachCalls(st, srvs[st], samplers[st], cbufs[st])
  {
    var plan := AttachPlan(srvs, samplers, cbufs);
    forall s | 0 <= s < |plan|
      ensures CallsFor(plan[s], st) == if s == st then plan[s] else []
    {
      StageCallsFor(s, srvs[s], samplers[s], cbufs[s], st);
    }
    FlattenFor(plan, st);
  }

  /** `Bind` attaches a stage's views, samplers and constant buffers each exactly when the
      vector is non-empty. */
  lemma AttachCallsNonEmpty(srvs: seq<seq<Option<View>>>, samplers: seq<seq<Option<View>>>, cbufs: seq<seq<GpuBuffer>>, st: nat)
    requires |samplers| == |srvs| && |cbufs| == |srvs| && st < |srvs|
    ensures SetShaderResources(st, srvs[st]) in Flatten(AttachPlan(srvs, samplers, cbufs)) <==> |srvs[st]| > 0
    ensures SetSamplers(st, samplers[st]) in Flatten(AttachPlan(srvs, samplers, cbufs)) <==> |samplers[st]| > 0
    ensures SetConstantBuffers(st, cbufs[st]) in Flatten(AttachPlan(srvs, samplers, cbufs)) <==> |cbufs[st]| > 0
  {
    var calls := Flatten(AttachPlan(srvs, samplers, cbufs));
    AttachCallsFor(srvs, samplers, cbufs, st);
    StageAttachCallsIff(st, srvs[st], samplers[st], cbufs[st]);
    CallsForKeeps(calls, st, SetShaderResources(st, srvs[st]));
    CallsForKeeps(calls, st, SetSamplers(st, samplers[st]));
    CallsForKeeps(calls, st, SetConstantBuffers(st, cbufs[st]));
  }

  /** The compute stage's unordered-access views, attached from slot 0 when it has any. */
  function UavCalls(uavs: seq<Option<View>>): (calls: seq<DeviceCall>)
    ensures calls == [] <==> uavs == []
  {
    if |uavs| > 0 then [SetComputeUavs(0, |uavs|, uavs)] else []
  }

  /** After `Bind`, the device's compute slots hold the stage's views. */
  lemma UavCallsBind(bound: seq<Option<View>>, uavs: seq<Option<View>>)
    ensures forall i :: 0 <= i < |bound| && i < |uavs| ==> DeviceUavs(bound, UavCalls(uavs))[i] == uavs[i]
  {
    var calls := UavCalls(uavs);
    if |uavs| > 0 {
      assert calls[..|calls| - 1] == [];
    }
  }

  /** `CSSetUnorderedAccessViews(start, count, views)` on the device's compute UAV slots:
      slots `start .. start+count-1` take the given views, the others keep theirs. */
  function ApplyComputeUavs(bound: seq<Option<View>>, start: nat, count: nat, views: seq<Option<View>>): (r: seq<Option<View>>)
    ensures |r| == |bound|
    ensures forall i :: 0 <= i < |bound| ==>
      r[i] == (if start <= i < start + count && i - start < |views| then views[i - start] else bound[i])
  {
    seq(|bound|, i requires 0 <= i < |bound| =>
      if start <= i < start + count && i - start < |views| then views[i - start] else bound[i])
  }

  function Nulls(n: nat): (r: seq<Option<View>>)
    ensures |r| == n && forall i :: 0 <= i < n ==> r[i].None?
  {
    seq(n, _ => None)
  }

  /** `Unbind` as written: a null vector as long as the compute stage's UAV vector, but a
      count of 1. */
  function UnbindCallsAsWritten(numUavs: nat): (calls: seq<DeviceCall>)
    ensures |calls| <= 1
  {
    if numUavs == 0 then [] else [SetComputeUavs(0, 1, Nulls(numUavs))]
  }

  /** `Unbind` with the count the null vector was built for. */
  function UnbindCalls(numUavs: nat): (calls: seq<DeviceCall>)
    ensures |calls| <= 1
  {
    if numUavs == 0 then [] else [SetComputeUavs(0, numUavs, Nulls(numUavs))]
  }

  /** The device's compute UAV slots after a sequence of calls; other calls leave them. */
  function DeviceUavs(bound: seq<Option<View>>, calls: seq<DeviceCall>): (r: seq<Option<View>>)
    ensures |r| == |bound|
    decreases |calls|
  {
    if calls == [] then bound
    else
      var c := calls[|calls| - 1];
      var before := DeviceUavs(bound, calls[..|calls| - 1]);
      if c.SetComputeUavs? then ApplyComputeUavs(before, c.start, c.count, c.views) else before
  }

  /** After `Unbind`, none of the slots the compute stage's UAV vector covers holds a view. */
  lemma UnbindReleasesAll(bound: seq<Option<View>>, numUavs: nat)
    ensures forall i :: 0 <= i < |bound| && i < numUavs ==> DeviceUavs(bound, UnbindCalls(numUavs))[i].None?
  {
    var calls := UnbindCalls(numUavs);
    if numUavs > 0 {
      assert calls[..|calls| - 1] == [];
    }
  }

  /** As written, a compute shader with two UAVs bound keeps the second one bound after
      `Unbind`. */
  lemma UnbindAsWrittenKeepsSecondUav(v0: View, v1: View)
    ensures DeviceUavs([Some(v0), Some(v1)], UnbindCallsAsWritten(2)) == [None, Some(v1)]
  {
    var calls := UnbindCallsAsWritten(2);
    assert calls[..|calls| - 1] == [];
  }
}
