/** The typed parameter writers (`SetD3D11ShaderParameter<Src, Dst>`) as transformations of
    one stage's binding state: its constant-buffer mirrors with their dirty flags and its
    sampler, shader-resource-view and unordered-access-view slot vectors. */
module Writers {
  import opened Common
  import opened Effects
  import opened Cells

  /** The C++ type the effect parameter's value is read as (`bool`, `uint32_t`, `int32_t`, `float`). */
  datatype ScalarType = SrcBool | SrcUInt | SrcInt | SrcFloat

  /** `D3D_SHADER_VARIABLE_TYPE` as reported by reflection, restricted to what the engine
      distinguishes. */
  datatype VarType = SvtBool | SvtUInt | SvtInt | SvtFloat | SvtSampler | SvtTexture | SvtBuffer | SvtOther

  /** `static_cast<Dst>(v)` from an effect-side scalar to a shader-side cell: a parameter of
      the model, since only equality of the resulting bit patterns is observed. */
  type Converter = (ScalarType, VarType, Word) -> Word

  /** Which slot vector a resource writer stores into, and from which kind of object. */
  datatype SlotWriterKind = SamplerState | TextureSrv | BufferSrv | TextureUav | BufferUav

  function SlotsOf(k: SlotWriterKind): (s: SlotKind)
    ensures s == SamplerSlots <==> k == SamplerState
    ensures s == UavSlots <==> k in {TextureUav, BufferUav}
  {
    match k
    case SamplerState => SamplerSlots
    case TextureSrv | BufferSrv => SrvSlots
    case TextureUav | BufferUav => UavSlots
  }

  /** The specialisations of `SetD3D11ShaderParameter`. Vectors have `n` components. */
  datatype Writer =
    | ScalarWriter(src: ScalarType, dst: VarType)
    | VectorWriter(n: nat)
    | MatrixWriter
    | ScalarArrayWriter(src: ScalarType, dst: VarType)
    | VectorArrayWriter(n: nat)
    | MatrixArrayWriter
    | SlotWriter(k: SlotWriterKind)

  /** `D3D11ShaderParameterHandle`: where a parameter lives in one stage. For constant-buffer
      variables `offset` is a byte offset into buffer `cbuff`; for resources it is the slot. */
  datatype ParamHandle = ParamHandle(stage: nat, svt: VarType, cbuff: nat, offset: nat,
                                     elements: nat, rows: nat, columns: nat)

  /** `parameter_bind_t`: the handle, the effect parameter (index and name) and the writer;
      `None` is the empty function object left behind when no specialisation matches. */
  datatype Binding = Binding(handle: ParamHandle, param: nat, name: string, writer: Option<Writer>)

  /** The binding state of one stage. */
  datatype StageStore = StageStore(
    mirrors: seq<seq<Word>>,
    dirty: seq<bool>,
    samplers: seq<Option<View>>,
    srvs: seq<Option<View>>,
    uavs: seq<Option<View>>)

  predicate Consistent(s: StageStore) {
    |s.dirty| == |s.mirrors|
  }

  /** The sizes a stage's reflection fixed: mirror lengths in cells and slot-vector lengths. */
  datatype Shape = Shape(sizes: seq<nat>, samplers: nat, srvs: nat, uavs: nat)

  function ShapeOf(s: StageStore): (sh: Shape)
    ensures |sh.sizes| == |s.mirrors|
    ensures forall j :: 0 <= j < |s.mirrors| ==> sh.sizes[j] == |s.mirrors[j]|
    ensures sh.samplers == |s.samplers| && sh.srvs == |s.srvs| && sh.uavs == |s.uavs|
  {
    Shape(seq(|s.mirrors|, j requires 0 <= j < |s.mirrors| => |s.mirrors[j]|), |s.samplers|, |s.srvs|, |s.uavs|)
  }

  function SlotCount(sh: Shape, k: SlotKind): nat {
    match k
    case SamplerSlots => sh.samplers
    case SrvSlots => sh.srvs
    case UavSlots => sh.uavs
  }

  function Slots(s: StageStore, k: SlotKind): (v: seq<Option<View>>)
    ensures |v| == SlotCount(ShapeOf(s), k)
  {
    match k
    case SamplerSlots => s.samplers
    case SrvSlots => s.srvs
    case UavSlots => s.uavs
  }

  predicate IsBufferWriter(w: Writer) {
    !w.SlotWriter?
  }

  /** Number of cells from the handle's offset that a writer may touch. */
  function Extent(w: Writer, h: ParamHandle): nat
    requires IsBufferWriter(w)
  {
    match w
    case ScalarWriter(_, _) => 1
    case VectorWriter(n) => n
    case MatrixWriter => 4 * h.rows
    case ScalarArrayWriter(_, _) => if h.elements == 0 then 0 else 4 * (h.elements - 1) + 1
    case VectorArrayWriter(_) => 4 * h.elements
    case MatrixArrayWriter => 4 * h.rows * h.elements
  }

  /** A writer's target lies inside the stage's state: a constant-buffer variable inside its
      mirror at a 4-byte-aligned offset (at most four matrix rows, 2 to 4 vector
      components), a resource inside its slot vector. */
  predicate Fits(w: Writer, h: ParamHandle, sh: Shape) {
    match w
    case SlotWriter(k) => h.offset < SlotCount(sh, SlotsOf(k))
    case _ =>
      && h.cbuff < |sh.sizes|
      && h.offset % 4 == 0
      && (w.VectorWriter? || w.VectorArrayWriter? ==> 2 <= w.n <= 4)
      && (w.MatrixWriter? || w.MatrixArrayWriter? ==> h.rows <= 4)
      && h.offset / 4 + Extent(w, h) <= sh.sizes[h.cbuff]
  }

  /** The effect parameter's value has the shape the writer reads. */
  predicate ValueFits(w: Writer, v: Value) {
    match w
    case ScalarWriter(_, _) => v.ScalarValue?
    case VectorWriter(n) => v.VectorValue? && |v.ws| == n
    case MatrixWriter => v.MatrixValue? && |v.ws| == 16
    case ScalarArrayWriter(_, _) => v.ScalarArrayValue?
    case VectorArrayWriter(n) => v.VectorArrayValue? && forall k :: 0 <= k < |v.vs| ==> |v.vs[k]| == n
    case MatrixArrayWriter => v.MatrixArrayValue? && forall k :: 0 <= k < |v.ms| ==> |v.ms[k]| == 16
    case SlotWriter(k) => if k == SamplerState then v.SamplerValue? else v.ResourceValue?
  }

  predicate BindsFit(binds: seq<Binding>, sh: Shape) {
    forall k :: 0 <= k < |binds| && binds[k].writer.Some? ==> Fits(binds[k].writer.value, binds[k].handle, sh)
  }

  predicate EnvFits(env: seq<Value>, binds: seq<Binding>) {
    forall k :: 0 <= k < |binds| ==>
      binds[k].param < |env| && (binds[k].writer.Some? ==> ValueFits(binds[k].writer.value, env[binds[k].param]))
  }

  /** The change-tracking promise between two states of a stage: flags are only ever set, and
      a buffer whose flag is still clear holds exactly what it held before. */
  predicate ChangeTracked(s: StageStore, r: StageStore)
    requires Consistent(s) && Consistent(r)
  {
    && |r.dirty| == |s.dirty|
    && (forall j :: 0 <= j < |s.dirty| && s.dirty[j] ==> r.dirty[j])
    && (forall j :: 0 <= j < |s.dirty| && !r.dirty[j] ==> r.mirrors[j] == s.mirrors[j])
  }

  lemma ChangeTrackedTrans(a: StageStore, b: StageStore, c: StageStore)
    requires Consistent(a) && Consistent(b) && Consistent(c)
    requires ChangeTracked(a, b) && ChangeTracked(b, c)
    ensures ChangeTracked(a, c)
  {
  }

  /** `static_cast` applied to every element. */
  function ConvertAll(conv: Converter, src: ScalarType, dst: VarType, ws: seq<Word>): (r: seq<Word>)
    ensures |r| == |ws|
    ensures forall i :: 0 <= i < |ws| ==> r[i] == conv(src, dst, ws[i])
  {
    seq(|ws|, i requires 0 <= i < |ws| => conv(src, dst, ws[i]))
  }

  function WithMirror(s: StageStore, c: nat, m: Mirror): (r: StageStore)
    requires Consistent(s) && c < |s.mirrors| && |m.cells| == |s.mirrors[c]|
    ensures Consistent(r) && ShapeOf(r) == ShapeOf(s)
  {
    s.(mirrors := s.mirrors[c := m.cells], dirty := s.dirty[c := m.dirty])
  }

  lemma MulMono(a: nat, b: nat, c: nat)
    requires b <= c
    ensures a * b <= a * c
  {
  }

  /** A constant-buffer writer's effect on the mirror of its buffer. */
  function WriteMirror(m: Mirror, h: ParamHandle, w: Writer, v: Value, conv: Converter): (r: Mirror)
    requires IsBufferWriter(w) && ValueFits(w, v)
    requires h.offset % 4 == 0 && h.offset / 4 + Extent(w, h) <= |m.cells|
    requires (w.MatrixWriter? || w.MatrixArrayWriter?) ==> h.rows <= 4
    requires (w.VectorArrayWriter?) ==> w.n <= 4
    ensures |r.cells| == |m.cells|
  {
    var at := h.offset / 4;
    if w.ScalarWriter? then StoreIfChanged(m, at, [conv(w.src, w.dst, v.w)])
    else if w.VectorWriter? then StoreIfChanged(m, at, v.ws)
    else if w.MatrixWriter? then MatrixStore(m, at, h.rows, v.ws)
    else if w.ScalarArrayWriter? then
      var n := Min(h.elements, |v.ws|);
      ScalarArrayStore(m, at, ConvertAll(conv, w.src, w.dst, v.ws[..n]))
    else if w.VectorArrayWriter? then VectorArrayStore(m, at, h.elements, v.vs)
    else
      var n := Min(h.elements, |v.ms|);
      MulMono(4 * h.rows, n, h.elements);
      Mirror(MatrixArrayStore(m.cells, at, h.rows, v.ms[..n]), true)
  }

  /** One call of a writer's `operator()` with the parameter's current value `v`. Arrays are
      clamped to the element count the shader declares (see the findings on the scalar- and
      matrix-array writers). A null sampler, texture or buffer leaves its slot as it was. */
  function Write(s: StageStore, h: ParamHandle, w: Writer, v: Value, conv: Converter): (r: StageStore)
    requires Consistent(s) && Fits(w, h, ShapeOf(s)) && ValueFits(w, v)
    ensures Consistent(r) && ShapeOf(r) == ShapeOf(s)
  {
    if w.SlotWriter? then
      match v
      case SamplerValue(st) => if st.None? then s else s.(samplers := s.samplers[h.offset := st])
      case ResourceValue(rv) =>
        if rv.None? then s
        else if w.k == TextureSrv || w.k == BufferSrv then s.(srvs := s.srvs[h.offset := Some(rv.value.srv)])
        else s.(uavs := s.uavs[h.offset := Some(rv.value.uav)])
    else
      WithMirror(s, h.cbuff, WriteMirror(Mirror(s.mirrors[h.cbuff], s.dirty[h.cbuff]), h, w, v, conv))
  }

  /** Each writer touches only its own target: a constant-buffer writer only its buffer's
      mirror and flag, a resource writer only its one slot. */
  lemma WriteFrame(s: StageStore, h: ParamHandle, w: Writer, v: Value, conv: Converter)
    requires Consistent(s) && Fits(w, h, ShapeOf(s)) && ValueFits(w, v)
    ensures var r := Write(s, h, w, v, conv);
      if w.SlotWriter? then
        && r.mirrors == s.mirrors && r.dirty == s.dirty
        && (forall k :: k != SlotsOf(w.k) ==> Slots(r, k) == Slots(s, k))
        && (forall i :: 0 <= i < |Slots(s, SlotsOf(w.k))| && i != h.offset ==>
              Slots(r, SlotsOf(w.k))[i] == Slots(s, SlotsOf(w.k))[i])
      else
        && r.samplers == s.samplers && r.srvs == s.srvs && r.uavs == s.uavs
        && (forall j :: 0 <= j < |s.mirrors| && j != h.cbuff ==> r.mirrors[j] == s.mirrors[j] && r.dirty[j] == s.dirty[j])
  {
  }

  /** A resource writer handed an object stores that object's view in its slot; handed null
      it keeps the previous binding. */
  lemma SlotWriteResult(s: StageStore, h: ParamHandle, k: SlotWriterKind, v: Value, conv: Converter)
    requires Consistent(s) && Fits(SlotWriter(k), h, ShapeOf(s)) && ValueFits(SlotWriter(k), v)
    ensures var slot := Slots(Write(s, h, SlotWriter(k), v, conv), SlotsOf(k))[h.offset];
      match v
      case SamplerValue(st) => slot == (if st.Some? then st else s.samplers[h.offset])
      case ResourceValue(rv) =>
        slot == (if rv.None? then Slots(s, SlotsOf(k))[h.offset]
                 else if SlotsOf(k) == SrvSlots then Some(rv.value.srv) else Some(rv.value.uav))
      case _ => false
  {
  }

  /** Every writer keeps the change-tracking promise: whatever it changes in a mirror, it
      flags. */
  lemma WriteChangeTracked(s: StageStore, h: ParamHandle, w: Writer, v: Value, conv: Converter)
    requires Consistent(s) && Fits(w, h, ShapeOf(s)) && ValueFits(w, v)
    ensures ChangeTracked(s, Write(s, h, w, v, conv))
  {
    if w.ScalarArrayWriter? {
      var m := Mirror(s.mirrors[h.cbuff], s.dirty[h.cbuff]);
      var n := Min(h.elements, |v.ws|);
      ScalarArrayStoreCleanUnchanged(m, h.offset / 4, ConvertAll(conv, w.src, w.dst, v.ws[..n]));
    }
  }

  /** The compare-before-write writers (scalar, vector, matrix and scalar array) flag their
      buffer only when a cell really changes: once the buffer is uploaded and its flag
      cleared, writing the same value again leaves it clean. The vector- and matrix-array
      writers flag their buffer on every call, whatever the value. */
  lemma RewriteAfterUploadClean(s: StageStore, h: ParamHandle, w: Writer, v: Value, conv: Converter)
    requires Consistent(s) && Fits(w, h, ShapeOf(s)) && ValueFits(w, v) && IsBufferWriter(w)
    ensures var r := Write(s, h, w, v, conv);
      var uploaded := r.(dirty := r.dirty[h.cbuff := false]);
      var again := Write(uploaded, h, w, v, conv);
      again.dirty[h.cbuff] <==> (w.VectorArrayWriter? || w.MatrixArrayWriter?)
  {
    var r := Write(s, h, w, v, conv);
    var uploaded := r.(dirty := r.dirty[h.cbuff := false]);
    var at := h.offset / 4;
    if w.ScalarArrayWriter? {
      var m := Mirror(s.mirrors[h.cbuff], s.dirty[h.cbuff]);
      var n := Min(h.elements, |v.ws|);
      var cs := ConvertAll(conv, w.src, w.dst, v.ws[..n]);
      var m1 := ScalarArrayStore(m, at, cs);
      var u := Mirror(m1.cells, false);
      assert Mirror(uploaded.mirrors[h.cbuff], uploaded.dirty[h.cbuff]) == u;
      forall k | 0 <= k < |cs|
        ensures u.cells[at + 4 * k] == cs[k]
      {
        ScalarArrayStoreAt(m, at, cs, k);
      }
      ScalarArrayStoreDirtyIffDiffers(u, at, cs);
    }
  }

  /** A cell the scalar-array loop visits lies within the first cell of the last element. */
  lemma ArrayCellBound(at: nat, n: nat, j: nat)
    ensures ArrayCell(at, n, j) ==> at <= j <= at + 4 * (n - 1)
  {
    if ArrayCell(at, n, j) {
      var k := (j - at) / 4;
      assert j - at == 4 * k;
    }
  }

  /** Every constant-buffer writer stays inside its extent: the cells outside the
      `Extent(w, h)` cells from the handle's offset keep their value. The extent of the
      vector-array and matrix writers is whole registers, which can reach past the variable
      into the unused components of its last register. */
  lemma WriteMirrorInside(m: Mirror, h: ParamHandle, w: Writer, v: Value, conv: Converter, j: nat)
    requires IsBufferWriter(w) && ValueFits(w, v)
    requires h.offset % 4 == 0 && h.offset / 4 + Extent(w, h) <= |m.cells|
    requires (w.MatrixWriter? || w.MatrixArrayWriter?) ==> h.rows <= 4
    requires w.VectorArrayWriter? ==> w.n <= 4
    requires j < |m.cells| && (j < h.offset / 4 || h.offset / 4 + Extent(w, h) <= j)
    ensures WriteMirror(m, h, w, v, conv).cells[j] == m.cells[j]
  {
    var at := h.offset / 4;
    if w.ScalarArrayWriter? {
      var n := Min(h.elements, |v.ws|);
      var cs := ConvertAll(conv, w.src, w.dst, v.ws[..n]);
      ArrayCellBound(at, n, j);
      ScalarArrayStoreElsewhere(m, at, cs, j);
    } else if w.MatrixArrayWriter? {
      var n := Min(h.elements, |v.ms|);
      MulMono(4 * h.rows, n, h.elements);
      MatrixArrayStoreElsewhere(m.cells, at, h.rows, v.ms[..n], j);
    } else if w.VectorArrayWriter? {
      VectorArrayStoreElsewhere(m, at, h.elements, v.vs, j);
    }
  }

  /** The cells the scalar-array writer writes as written: `target_[i * 4]` for every
      element `i` of the value, whatever the declared element count. */
  function ScalarArrayCellsAsWritten(at: nat, count: nat): (cs: seq<nat>)
    ensures |cs| == count
    ensures forall i :: 0 <= i < count ==> cs[i] == at + 4 * i && cs[i] >= at
  {
    seq(count, i => at + 4 * i)
  }

  /** `float a[1]` as the only variable of a 16-byte buffer: its handle fits the buffer,
      yet a two-element value makes the as-written loop write cell 4, past the buffer's
      four cells. The model's writer leaves every cell but cell 0 as it was. */
  lemma ScalarArrayOverrunAsWritten(conv: Converter)
    ensures var h := ParamHandle(VertexStage, SvtFloat, 0, 0, 1, 0, 1);
      var w := ScalarArrayWriter(SrcFloat, SvtFloat);
      var m := Mirror([0, 0, 0, 0], false);
      && Fits(w, h, Shape([4], 0, 0, 0))
      && ScalarArrayCellsAsWritten(h.offset / 4, 2)[1] == |m.cells|
      && forall j :: 1 <= j < 4 ==> WriteMirror(m, h, w, ScalarArrayValue([1, 2]), conv).cells[j] == 0
  {
    var h := ParamHandle(VertexStage, SvtFloat, 0, 0, 1, 0, 1);
    var w := ScalarArrayWriter(SrcFloat, SvtFloat);
    var m := Mirror([0, 0, 0, 0], false);
    forall j | 1 <= j < 4
      ensures WriteMirror(m, h, w, ScalarArrayValue([1, 2]), conv).cells[j] == 0
    {
      WriteMirrorInside(m, h, w, ScalarArrayValue([1, 2]), conv, j);
    }
  }

  /** The cells the matrix-array writer writes as written: `rows` registers for every
      matrix of the value, one after the other, whatever the declared element count. */
  function MatrixArrayCellsAsWritten(at: nat, rows: nat, count: nat): (cs: seq<nat>)
    ensures |cs| == 4 * rows * count
    ensures forall i :: 0 <= i < |cs| ==> cs[i] == at + i
  {
    seq(4 * rows * count, i => at + i)
  }

  /** `float4x4 m[1]` as the only variable of a 64-byte buffer: its handle fits the buffer,
      yet a two-matrix value makes the as-written loop write cells 16 to 31, past the
      buffer's sixteen cells. The model's writer stays inside them. */
  lemma MatrixArrayOverrunAsWritten(conv: Converter, a: seq<Word>, b: seq<Word>)
    requires |a| == 16 && |b| == 16
    ensures var h := ParamHandle(VertexStage, SvtFloat, 0, 0, 1, 4, 4);
      && Fits(MatrixArrayWriter, h, Shape([16], 0, 0, 0))
      && MatrixArrayCellsAsWritten(h.offset / 4, h.rows, 2)[16] == 16
      && |WriteMirror(Mirror(Zeros16(), false), h, MatrixArrayWriter, MatrixArrayValue([a, b]), conv).cells| == 16
  {
  }

  function Zeros16(): (z: seq<Word>)
    ensures |z| == 16
  {
    seq(16, _ => 0)
  }

  /** The stage's bindings run in order (`pb.func()` for each `param_binds_[st]`). The run
      stops at a binding with no writer (calling an empty function object throws); the
      flag says whether every binding ran. */
  function RunStage(s: StageStore, binds: seq<Binding>, env: seq<Value>, conv: Converter): (r: (StageStore, bool))
    requires Consistent(s) && BindsFit(binds, ShapeOf(s)) && EnvFits(env, binds)
    ensures Consistent(r.0) && ShapeOf(r.0) == ShapeOf(s)
    ensures ChangeTracked(s, r.0)
    ensures r.1 <==> forall k :: 0 <= k < |binds| ==> binds[k].writer.Some?
    decreases |binds|
  {
    if binds == [] then (s, true)
    else
      var init := binds[..|binds| - 1];
      var b := binds[|binds| - 1];
      var p := RunStage(s, init, env, conv);
      if !p.1 || b.writer.None? then (p.0, false)
      else
        WriteChangeTracked(p.0, b.handle, b.writer.value, env[b.param], conv);
        ChangeTrackedTrans(s, p.0, Write(p.0, b.handle, b.writer.value, env[b.param], conv));
        (Write(p.0, b.handle, b.writer.value, env[b.param], conv), true)
  }

  /** A prefix of a table fits wherever the table does. */
  lemma PrefixFits(binds: seq<Binding>, sh: Shape, env: seq<Value>, n: nat)
    requires BindsFit(binds, sh) && EnvFits(env, binds) && n <= |binds|
    ensures BindsFit(binds[..n], sh) && EnvFits(env, binds[..n])
  {
  }

  /** One binding further: the run over the first `i + 1` bindings is the run over the first
      `i` followed by binding `i`'s writer, or a stop when it has none. */
  lemma RunStageStep(s: StageStore, binds: seq<Binding>, env: seq<Value>, conv: Converter, i: nat)
    requires Consistent(s) && BindsFit(binds, ShapeOf(s)) && EnvFits(env, binds) && i < |binds|
    requires BindsFit(binds[..i], ShapeOf(s)) && EnvFits(env, binds[..i])
    requires BindsFit(binds[..i + 1], ShapeOf(s)) && EnvFits(env, binds[..i + 1])
    ensures var p := RunStage(s, binds[..i], env, conv);
      RunStage(s, binds[..i + 1], env, conv) ==
        if !p.1 || binds[i].writer.None? then (p.0, false)
        else (Write(p.0, binds[i].handle, binds[i].writer.value, env[binds[i].param], conv), true)
  {
    assert binds[..i + 1][..i] == binds[..i];
  }

  /** Every binding of the table has a writer. */
  predicate AllWriters(binds: seq<Binding>) {
    forall k :: 0 <= k < |binds| ==> binds[k].writer.Some?
  }

  /** Once the run has stopped it stays stopped: a run over the whole table ends in the state
      the run over the prefix stopped in. */
  lemma {:induction false} RunStageStops(s: StageStore, binds: seq<Binding>, env: seq<Value>, conv: Converter, n: nat)
    requires Consistent(s) && BindsFit(binds, ShapeOf(s)) && EnvFits(env, binds) && n <= |binds|
    requires !RunStage(s, binds[..n], env, conv).1
    ensures RunStage(s, binds, env, conv) == RunStage(s, binds[..n], env, conv)
    decreases |binds|
  {
    if n < |binds| {
      var init := binds[..|binds| - 1];
      assert init[..n] == binds[..n];
      RunStageStops(s, init, env, conv, n);
    } else {
      assert binds[..n] == binds;
    }
  }

  /** Bindings with no writer do not touch the stage's slot vectors or mirrors beyond the
      targets of the bindings that ran: a stage without constant-buffer bindings keeps its
      mirrors and flags. */
  lemma {:induction false} RunStageSlotsOnly(s: StageStore, binds: seq<Binding>, env: seq<Value>, conv: Converter)
    requires Consistent(s) && BindsFit(binds, ShapeOf(s)) && EnvFits(env, binds)
    requires forall k :: 0 <= k < |binds| && binds[k].writer.Some? ==> binds[k].writer.value.SlotWriter?
    ensures RunStage(s, binds, env, conv).0.mirrors == s.mirrors
    ensures RunStage(s, binds, env, conv).0.dirty == s.dirty
    decreases |binds|
  {
    if binds != [] {
      var init := binds[..|binds| - 1];
      RunStageSlotsOnly(s, init, env, conv);
      var p := RunStage(s, init, env, conv);
      var b := binds[|binds| - 1];
      if p.1 && b.writer.Some? {
        WriteFrame(p.0, b.handle, b.writer.value, env[b.param], conv);
      }
    }
  }
}
