/** What `SetShader` builds from a compiled stage's reflection: the constant-buffer mirrors
    and GPU buffers, the slot vectors sized from the bound resources, the binding table, and
    the vertex input signature. Reflection data is plain input. */
module Reflect {
  import opened Common
  import opened Effects
  import opened Writers
  import opened Dispatch
  import opened Device
  import opened Cells

  /** `D3D_SHADER_VARIABLE_CLASS`: scalar, vector, matrix (either packing) or anything else. */
  datatype VarClass = ScalarClass | VectorClass | MatrixClass | OtherClass

  /** `D3D11_SHADER_VARIABLE_DESC` with its type description: byte offset and byte size in the
      buffer, type, class, array element count (0 for a non-array), rows and columns;
      `used` is `D3D_SVF_USED`. */
  datatype VarDesc = VarDesc(name: string, startOffset: nat, size: nat, svt: VarType, cls: VarClass,
                             elements: nat, rows: nat, columns: nat, used: bool)

  /** `D3D11_SHADER_BUFFER_DESC`: the buffer's size in bytes and its variables. */
  datatype CBufferDesc = CBufferDesc(size: nat, vars: seq<VarDesc>)

  /** `D3D_SHADER_INPUT_TYPE`. */
  datatype InputKind =
    | SitCBuffer | SitTBuffer | SitTexture | SitSampler
    | SitUavRwTyped | SitStructured | SitUavRwStructured | SitByteAddress | SitUavRwByteAddress
    | SitUavAppendStructured | SitUavConsumeStructured | SitUavRwStructuredWithCounter

  /** `D3D11_SHADER_INPUT_BIND_DESC`; `bufferDimension` is `Dimension == D3D_SRV_DIMENSION_BUFFER`. */
  datatype BoundResource = BoundResource(name: string, kind: InputKind, bindPoint: nat, bufferDimension: bool)

  /** `D3D11_SIGNATURE_PARAMETER_DESC`. */
  datatype SignatureParam = SignatureParam(semanticName: string, semanticIndex: nat, register: nat,
                                           systemValue: nat, componentType: nat, mask: nat,
                                           readWriteMask: nat, stream: nat)

  datatype ShaderReflection = ShaderReflection(cbuffers: seq<CBufferDesc>, resources: seq<BoundResource>,
                                               inputs: seq<SignatureParam>)

  /** The bytes HLSL's constant-buffer packing gives a variable: each element takes `rows`
      16-byte registers, and the very last register holds only `columns` components, so
      a following variable may pack into the rest of it. */
  function PackedBytes(v: VarDesc): int {
    var n := if v.elements == 0 then 1 else v.elements;
    16 * (v.rows * n - 1) + 4 * v.columns
  }

  /** A variable as the reflector lays it out in a buffer of `bufferSize` bytes: its size is
      the packed size of its type, it starts on a 4-byte boundary (on a register boundary
      when it is an array or a matrix), and it ends inside the buffer. */
  predicate LaidOut(v: VarDesc, bufferSize: nat) {
    && 1 <= v.rows <= 4 && 1 <= v.columns <= 4
    && (v.cls == ScalarClass ==> v.rows == 1 && v.columns == 1)
    && (v.cls == VectorClass ==> v.rows == 1)
    && v.size == PackedBytes(v)
    && v.startOffset % 4 == 0
    && (v.elements > 0 || v.cls == MatrixClass ==> v.startOffset % 16 == 0)
    && v.startOffset + v.size <= bufferSize
  }

  /** Constant-buffer sizes are whole registers, and every variable lies inside its buffer. */
  predicate BuffersLaidOut(cbs: seq<CBufferDesc>) {
    forall c :: 0 <= c < |cbs| ==>
      && cbs[c].size % 16 == 0
      && forall v :: v in cbs[c].vars ==> LaidOut(v, cbs[c].size)
  }

  predicate WellFormed(refl: ShaderReflection) {
    BuffersLaidOut(refl.cbuffers)
  }

  // ---------------------------------------------------------------------------------------
  // Slot vectors

  /** The slot vector each bound-resource kind occupies; constant and texture buffers and
      counter-carrying structured buffers occupy none. */
  function Category(k: InputKind): (r: Option<SlotKind>)
    ensures r == Some(SamplerSlots) <==> k == SitSampler
    ensures r == Some(SrvSlots) <==> k in {SitTexture, SitStructured, SitByteAddress}
    ensures r == Some(UavSlots) <==> k in {SitUavRwTyped, SitUavRwStructured, SitUavRwByteAddress,
                                           SitUavAppendStructured, SitUavConsumeStructured}
  {
    match k
    case SitSampler => Some(SamplerSlots)
    case SitTexture | SitStructured | SitByteAddress => Some(SrvSlots)
    case SitUavRwTyped | SitUavRwStructured | SitUavRwByteAddress
       | SitUavAppendStructured | SitUavConsumeStructured => Some(UavSlots)
    case _ => None
  }

  /** The running maximum `num_samplers` / `num_srvs` / `num_uavs` of the first sizing loop,
      starting from -1. */
  function MaxBindPoint(rs: seq<BoundResource>, k: SlotKind): (m: int)
    ensures m >= -1
    decreases |rs|
  {
    if rs == [] then -1
    else
      var m := MaxBindPoint(rs[..|rs| - 1], k);
      var r := rs[|rs| - 1];
      if Category(r.kind) == Some(k) && r.bindPoint > m then r.bindPoint else m
  }

  /** The slot vector's length: one more than the largest bind point of its category. */
  function SlotVectorLength(rs: seq<BoundResource>, k: SlotKind): nat {
    MaxBindPoint(rs, k) + 1
  }

  /** Every resource of the category has a slot... */
  lemma {:induction false} SlotVectorCovers(rs: seq<BoundResource>, k: SlotKind, i: nat)
    requires i < |rs| && Category(rs[i].kind) == Some(k)
    ensures rs[i].bindPoint < SlotVectorLength(rs, k)
    decreases |rs|
  {
    if i < |rs| - 1 {
      SlotVectorCovers(rs[..|rs| - 1], k, i);
    }
  }

  /** ...and the vector is no longer than that: it is empty when the category is absent, and
      otherwise its last slot is some resource's bind point. */
  lemma {:induction false} SlotVectorTight(rs: seq<BoundResource>, k: SlotKind)
    ensures SlotVectorLength(rs, k) == 0 <==> forall i :: 0 <= i < |rs| ==> Category(rs[i].kind) != Some(k)
    ensures SlotVectorLength(rs, k) > 0 ==>
      exists i :: 0 <= i < |rs| && Category(rs[i].kind) == Some(k) && rs[i].bindPoint == SlotVectorLength(rs, k) - 1
    decreases |rs|
  {
    if rs != [] {
      var init := rs[..|rs| - 1];
      SlotVectorTight(init, k);
      if SlotVectorLength(rs, k) > 0 && SlotVectorLength(rs, k) == SlotVectorLength(init, k) {
        var i :| 0 <= i < |init| && Category(init[i].kind) == Some(k) && init[i].bindPoint == SlotVectorLength(init, k) - 1;
        assert rs[i] == init[i];
      }
      if forall i :: 0 <= i < |rs| ==> Category(rs[i].kind) != Some(k) {
        assert forall i :: 0 <= i < |init| ==> init[i] == rs[i];
      }
    }
  }

  // ---------------------------------------------------------------------------------------
  // Handles and the binding table

  /** The handle of a constant-buffer variable; rows and columns are narrowed to `uint8_t`. */
  function VarHandle(st: nat, c: nat, v: VarDesc): (h: ParamHandle)
    ensures h.stage == st && h.cbuff == c && h.offset == v.startOffset && h.svt == v.svt
    ensures h.elements == v.elements && h.rows < 256 && h.columns < 256
    ensures v.rows < 256 ==> h.rows == v.rows
  {
    ParamHandle(st, v.svt, c, v.startOffset, v.elements, v.rows % 256, v.columns % 256)
  }

  /** The handle of a bound resource: its slot is the bind point, and the variable type says
      sampler, buffer or texture. */
  function ResourceHandle(st: nat, r: BoundResource): (h: ParamHandle)
    ensures h.stage == st && h.offset == r.bindPoint
    ensures h.cbuff == 0 && h.elements == 1 && h.rows == 0 && h.columns == 1
    ensures h.svt == (if r.kind == SitSampler then SvtSampler else if r.bufferDimension then SvtBuffer else SvtTexture)
  {
    var svt := if r.kind == SitSampler then SvtSampler else if r.bufferDimension then SvtBuffer else SvtTexture;
    ParamHandle(st, svt, 0, r.bindPoint, 1, 0, 1)
  }

  /** The bindings of buffer `c`'s variables, in declaration order: one for each used
      variable whose name is an effect parameter. */
  function VarBindings(e: Effect, st: nat, c: nat, vars: seq<VarDesc>): (bs: seq<Binding>)
    ensures |bs| <= |vars|
    ensures forall k :: 0 <= k < |bs| ==>
      bs[k].handle.stage == st && bs[k].handle.cbuff == c && bs[k].param < |e.params|
      && bs[k] == GetBindFunc(e, bs[k].handle, bs[k].param)
      && ParameterByName(e, bs[k].name) == Some(bs[k].param)
    decreases |vars|
  {
    if vars == [] then []
    else
      var v := vars[|vars| - 1];
      var p := ParameterByName(e, v.name);
      VarBindings(e, st, c, vars[..|vars| - 1])
      + (if v.used && p.Some? then [GetBindFunc(e, VarHandle(st, c, v), p.value)] else [])
  }

  /** A variable gets a binding exactly when it is used and its name resolves. */
  lemma {:induction false} VarBindingsExactly(e: Effect, st: nat, c: nat, vars: seq<VarDesc>)
    ensures forall v :: v in vars && v.used && ParameterByName(e, v.name).Some? ==>
      GetBindFunc(e, VarHandle(st, c, v), ParameterByName(e, v.name).value) in VarBindings(e, st, c, vars)
    ensures forall b :: b in VarBindings(e, st, c, vars) ==>
      exists v :: v in vars && v.used && ParameterByName(e, v.name) == Some(b.param) && b == GetBindFunc(e, VarHandle(st, c, v), b.param)
    decreases |vars|
  {
    if vars != [] {
      var init := vars[..|vars| - 1];
      VarBindingsExactly(e, st, c, init);
      forall v | v in vars && v.used && ParameterByName(e, v.name).Some?
        ensures GetBindFunc(e, VarHandle(st, c, v), ParameterByName(e, v.name).value) in VarBindings(e, st, c, vars)
      {
        if v != vars[|vars| - 1] {
          assert v in init;
        }
      }
      forall b | b in VarBindings(e, st, c, vars)
        ensures exists v :: v in vars && v.used && ParameterByName(e, v.name) == Some(b.param) && b == GetBindFunc(e, VarHandle(st, c, v), b.param)
      {
        if b in VarBindings(e, st, c, init) {
          var v :| v in init && v.used && ParameterByName(e, v.name) == Some(b.param) && b == GetBindFunc(e, VarHandle(st, c, v), b.param);
          assert v in vars;
        } else {
          assert vars[|vars| - 1] in vars;
        }
      }
    }
  }

  /** The bindings of all constant buffers, buffer by buffer. */
  function CBufferBindings(e: Effect, st: nat, cbs: seq<CBufferDesc>): (bs: seq<Binding>)
    ensures forall k :: 0 <= k < |bs| ==>
      bs[k].handle.stage == st && bs[k].handle.cbuff < |cbs| && bs[k].param < |e.params|
      && bs[k] == GetBindFunc(e, bs[k].handle, bs[k].param)
      && ParameterByName(e, bs[k].name) == Some(bs[k].param)
    decreases |cbs|
  {
    if cbs == [] then []
    else CBufferBindings(e, st, cbs[..|cbs| - 1]) + VarBindings(e, st, |cbs| - 1, cbs[|cbs| - 1].vars)
  }

  /** One more buffer appends its variables' bindings. */
  lemma CBufferBindingsStep(e: Effect, st: nat, cbs: seq<CBufferDesc>, c: nat)
    requires c < |cbs|
    ensures CBufferBindings(e, st, cbs[..c + 1])
            == CBufferBindings(e, st, cbs[..c]) + VarBindings(e, st, c, cbs[c].vars)
  {
    assert cbs[..c + 1][..c] == cbs[..c];
  }

  /** The bindings of the bound resources of the nine slot-occupying kinds whose names
      resolve, in reflection order. */
  function ResourceBindings(e: Effect, st: nat, rs: seq<BoundResource>): (bs: seq<Binding>)
    ensures |bs| <= |rs|
    ensures forall k :: 0 <= k < |bs| ==>
      bs[k].handle.stage == st && bs[k].param < |e.params| && bs[k] == GetBindFunc(e, bs[k].handle, bs[k].param)
      && ParameterByName(e, bs[k].name) == Some(bs[k].param)
    decreases |rs|
  {
    if rs == [] then []
    else
      var r := rs[|rs| - 1];
      var p := ParameterByName(e, r.name);
      ResourceBindings(e, st, rs[..|rs| - 1])
      + (if Category(r.kind).Some? && p.Some? then [GetBindFunc(e, ResourceHandle(st, r), p.value)] else [])
  }

  /** `param_binds_[type]` after `SetShader`: variables first, then resources. */
  function StageBindings(e: Effect, st: nat, refl: ShaderReflection): (bs: seq<Binding>)
    ensures forall k :: 0 <= k < |bs| ==>
      bs[k].handle.stage == st && bs[k].param < |e.params| && bs[k] == GetBindFunc(e, bs[k].handle, bs[k].param)
      && ParameterByName(e, bs[k].name) == Some(bs[k].param)
  {
    CBufferBindings(e, st, refl.cbuffers) + ResourceBindings(e, st, refl.resources)
  }

  // ---------------------------------------------------------------------------------------
  // The stage's fresh state

  function Zeros(n: nat): (r: seq<Word>)
    ensures |r| == n && forall i :: 0 <= i < n ==> r[i] == 0
  {
    seq(n, _ => 0)
  }

  /** The state `SetShader` gives a freshly reflected stage as written: zeroed mirrors, all
      flags clear, null slots. */
  function FreshStoreAsWritten(refl: ShaderReflection): (s: StageStore)
    ensures Consistent(s)
  {
    var cbs := refl.cbuffers;
    StageStore(seq(|cbs|, c requires 0 <= c < |cbs| => Zeros(cbs[c].size / 4)),
               seq(|cbs|, _ => false),
               Nulls(SlotVectorLength(refl.resources, SamplerSlots)),
               Nulls(SlotVectorLength(refl.resources, SrvSlots)),
               Nulls(SlotVectorLength(refl.resources, UavSlots)))
  }

  /** The state the model gives a freshly reflected stage: as written, but every flag set,
      since the new GPU buffers hold nothing yet. */
  function FreshStore(refl: ShaderReflection): (s: StageStore)
    ensures Consistent(s) && ShapeOf(s) == ShapeOf(FreshStoreAsWritten(refl))
    ensures s.mirrors == FreshStoreAsWritten(refl).mirrors
    ensures forall c :: 0 <= c < |s.dirty| ==> s.dirty[c]
  {
    var w := FreshStoreAsWritten(refl);
    w.(dirty := seq(|refl.cbuffers|, _ => true))
  }

  /** The stage's GPU constant buffers, `(Size + 15) / 16 * 16` bytes wide and not yet written. */
  function FreshBuffers(refl: ShaderReflection): (gs: seq<GpuBuffer>)
    ensures |gs| == |refl.cbuffers|
    ensures forall c :: 0 <= c < |gs| ==> gs[c] == NewBuffer(BufferWidth(refl.cbuffers[c].size))
  {
    seq(|refl.cbuffers|, c requires 0 <= c < |refl.cbuffers| => NewBuffer(BufferWidth(refl.cbuffers[c].size)))
  }

  /** Each GPU buffer is wide enough for its mirror. */
  lemma FreshBuffersHoldMirrors(refl: ShaderReflection)
    requires WellFormed(refl)
    ensures forall c :: 0 <= c < |refl.cbuffers| ==>
      4 * |FreshStore(refl).mirrors[c]| <= FreshBuffers(refl)[c].byteWidth
  {
  }

  // ---------------------------------------------------------------------------------------
  // Agreement between the effect and the reflection, and why the table then fits

  /** A resource whose name is an effect parameter is declared with that parameter's type, so
      its register class matches the parameter's. */
  predicate ResourcesAgree(e: Effect, rs: seq<BoundResource>) {
    forall i :: 0 <= i < |rs| && Category(rs[i].kind).Some? && ParameterByName(e, rs[i].name).Some? ==>
      TypeCategory(e.params[ParameterByName(e, rs[i].name).value].kind) == Category(rs[i].kind)
  }

  /** The mirror lengths, in cells, of the stage's constant buffers. */
  function MirrorSizes(cbs: seq<CBufferDesc>): (sz: seq<nat>)
    ensures |sz| == |cbs| && forall j :: 0 <= j < |cbs| ==> sz[j] == cbs[j].size / 4
  {
    seq(|cbs|, j requires 0 <= j < |cbs| => cbs[j].size / 4)
  }

  /** The shader declares a constant-buffer variable with its parameter's type: an array
      exactly when the parameter is one, a scalar for a scalar parameter, a vector of as many
      components for a vector parameter, and a matrix for a matrix parameter. */
  predicate DeclaredAs(p: EffectParam, v: VarDesc) {
    && !IsResourceType(p.kind)
    && (p.arraySize.Some? <==> v.elements > 0)
    && (p.kind in {Bool, UInt, Int, Float} ==> v.cls == ScalarClass)
    && (Components(p.kind) > 0 ==> v.cls == VectorClass && v.columns == Components(p.kind))
    && (p.kind == Float4x4 ==> v.cls == MatrixClass)
  }

  /** Every used variable whose name resolves is declared with its parameter's type: the
      shader text declares it from that very parameter. */
  predicate VarsAgree(e: Effect, cbs: seq<CBufferDesc>) {
    forall c, v :: 0 <= c < |cbs| && v in cbs[c].vars && v.used && ParameterByName(e, v.name).Some? ==>
      DeclaredAs(e.params[ParameterByName(e, v.name).value], v)
  }

  predicate Agrees(e: Effect, refl: ShaderReflection) {
    ResourcesAgree(e, refl.resources) && VarsAgree(e, refl.cbuffers)
  }

  /** A span that starts on a register boundary and ends before the next register boundary
      of the buffer extends to that boundary and no further. */
  lemma RegisterRound(o: nat, regs: nat, b: nat)
    requires o % 16 == 0 && b % 16 == 0 && o + 16 * regs < b
    ensures o + 16 * (regs + 1) <= b
  {
    var q := (o + 16 * regs) / 16;
    assert o + 16 * regs == 16 * q;
    assert b == 16 * (b / 16);
  }

  /** A byte span on 4-byte boundaries, as a span of cells. */
  lemma CellBound(o: nat, cells: nat, b: nat)
    requires o % 4 == 0 && b % 4 == 0 && o + 4 * cells <= b
    ensures o / 4 + cells <= b / 4
  {
  }

  /** The cells a writer touches, counted in bytes from the variable's offset, end inside a
      buffer laid out by HLSL's packing, given the variable has the shape the writer expects. */
  lemma ExtentInside(w: Writer, v: VarDesc, b: nat, h: ParamHandle)
    requires IsBufferWriter(w) && LaidOut(v, b) && b % 16 == 0
    requires h.offset == v.startOffset && h.rows == v.rows && h.elements == v.elements
    requires w.ScalarWriter? || w.ScalarArrayWriter? ==> v.cls == ScalarClass
    requires w.VectorWriter? || w.VectorArrayWriter? ==> v.cls == VectorClass && v.columns == w.n
    requires w.MatrixWriter? || w.MatrixArrayWriter? ==> v.cls == MatrixClass
    requires w.ScalarArrayWriter? || w.VectorArrayWriter? || w.MatrixArrayWriter? <==> v.elements > 0
    ensures v.startOffset + 4 * Extent(w, h) <= b
  {
    var o := v.startOffset;
    match w
    case ScalarWriter(_, _) =>
    case VectorWriter(_) =>
    case ScalarArrayWriter(_, _) =>
    case VectorArrayWriter(_) =>
      RegisterRound(o, v.elements - 1, b);
    case MatrixWriter =>
      RegisterRound(o, v.rows - 1, b);
    case MatrixArrayWriter =>
      var k := v.rows * v.elements;
      assert k >= 1;
      assert v.size == 16 * (k - 1) + 4 * v.columns;
      RegisterRound(o, k - 1, b);
      assert Extent(w, h) == 4 * k;
  }

  /** The writer `GetBindFunc` selects for a variable declared with its parameter's type stays
      inside the variable's buffer: the packing rule gives whole registers to arrays and
      matrices, and the buffer's size is whole registers. */
  lemma DeclaredVarFits(p: EffectParam, v: VarDesc, st: nat, c: nat, cbs: seq<CBufferDesc>)
    requires BuffersLaidOut(cbs) && c < |cbs| && v in cbs[c].vars && DeclaredAs(p, v)
    ensures var w := SelectWriter(p.kind, p.arraySize.Some?, v.svt);
      w.Some? ==> IsBufferWriter(w.value) && Fits(w.value, VarHandle(st, c, v), Shape(MirrorSizes(cbs), 0, 0, 0))
  {
    var w := SelectWriter(p.kind, p.arraySize.Some?, v.svt);
    if w.Some? {
      SelectWriterTargets(p.kind, p.arraySize.Some?, v.svt);
      var b := cbs[c].size;
      var h := VarHandle(st, c, v);
      assert LaidOut(v, b) && b % 16 == 0;
      ExtentInside(w.value, v, b, h);
      CellBound(v.startOffset, Extent(w.value, h), b);
    }
  }

  /** The writers' extents are whole registers, while HLSL packs a following variable into
      the unused components of an array's last register: in `float2 a[2]; float2 b;` the
      variable `b` starts at byte 24, and writing `a` zeroes it. `b`'s own binding comes
      later in the table and writes it again. */
  lemma VectorArrayZeroesPackedNeighbour(conv: Converter)
    ensures var a := VarDesc("a", 0, 24, SvtFloat, VectorClass, 2, 1, 2, true);
      var b := VarDesc("b", 24, 8, SvtFloat, VectorClass, 0, 1, 2, true);
      var m := Mirror(Zeros(6) + [5, 5], false);
      var h := VarHandle(VertexStage, 0, a);
      && WellFormed(ShaderReflection([CBufferDesc(32, [a, b])], [], []))
      && Extent(VectorArrayWriter(2), h) == 8
      && WriteMirror(m, h, VectorArrayWriter(2), VectorArrayValue([[1, 1], [1, 1]]), conv).cells[6..8] == [0, 0]
  {
    var a := VarDesc("a", 0, 24, SvtFloat, VectorClass, 2, 1, 2, true);
    var m := Mirror(Zeros(6) + [5, 5], false);
    var vs: seq<seq<Word>> := [[1, 1], [1, 1]];
    VectorArrayStoreLayout(m, 0, 2, vs, 1, 2);
    VectorArrayStoreLayout(m, 0, 2, vs, 1, 3);
  }

  /** The binding of one agreeing resource fits the slot vectors sized from all of them. */
  lemma ResourceBindingFits(e: Effect, st: nat, rs: seq<BoundResource>, i: nat, sh: Shape)
    requires ResourcesAgree(e, rs) && i < |rs|
    requires Category(rs[i].kind).Some? && ParameterByName(e, rs[i].name).Some?
    requires forall k :: k in {SamplerSlots, SrvSlots, UavSlots} ==> SlotCount(sh, k) == SlotVectorLength(rs, k)
    ensures var b := GetBindFunc(e, ResourceHandle(st, rs[i]), ParameterByName(e, rs[i].name).value);
      b.writer.Some? && b.writer.value.SlotWriter? && Fits(b.writer.value, b.handle, sh)
  {
    var r := rs[i];
    var p := e.params[ParameterByName(e, r.name).value];
    var svt := ResourceHandle(st, r).svt;
    assert TypeCategory(p.kind) == Category(r.kind);
    SelectWriterEmptyIff(p.kind, p.arraySize.Some?, svt);
    SelectWriterTargets(p.kind, p.arraySize.Some?, svt);
    SlotVectorCovers(rs, Category(r.kind).value, i);
  }

  /** Every binding of `bs` has a slot writer that fits `sh`. */
  predicate SlotWritersFit(bs: seq<Binding>, sh: Shape) {
    forall k :: 0 <= k < |bs| ==> bs[k].writer.Some? && bs[k].writer.value.SlotWriter? && Fits(bs[k].writer.value, bs[k].handle, sh)
  }

  lemma SlotWritersFitAppend(a: seq<Binding>, b: seq<Binding>, sh: Shape)
    requires SlotWritersFit(a, sh) && SlotWritersFit(b, sh)
    ensures SlotWritersFit(a + b, sh)
  {
    forall k | 0 <= k < |a + b|
      ensures (a + b)[k].writer.Some? && (a + b)[k].writer.value.SlotWriter? && Fits((a + b)[k].writer.value, (a + b)[k].handle, sh)
    {
      if k >= |a| {
        assert (a + b)[k] == b[k - |a|];
      }
    }
  }

  /** Every resource binding fits: the slot vectors are long enough for every bind point. */
  lemma ResourceBindingsFit(e: Effect, st: nat, rs: seq<BoundResource>, n: nat, sh: Shape)
    requires ResourcesAgree(e, rs) && n <= |rs|
    requires forall k :: k in {SamplerSlots, SrvSlots, UavSlots} ==> SlotCount(sh, k) == SlotVectorLength(rs, k)
    ensures BindsFit(ResourceBindings(e, st, rs[..n]), sh)
    ensures forall b :: b in ResourceBindings(e, st, rs[..n]) ==> b.writer.Some? && b.writer.value.SlotWriter?
  {
    ResourceSlotWritersFit(e, st, rs, n, sh);
  }

  lemma {:induction false} ResourceSlotWritersFit(e: Effect, st: nat, rs: seq<BoundResource>, n: nat, sh: Shape)
    requires ResourcesAgree(e, rs) && n <= |rs|
    requires forall k :: k in {SamplerSlots, SrvSlots, UavSlots} ==> SlotCount(sh, k) == SlotVectorLength(rs, k)
    ensures SlotWritersFit(ResourceBindings(e, st, rs[..n]), sh)
    decreases n
  {
    if n > 0 {
      ResourceBindingsStep(e, st, rs, n);
      ResourceSlotWritersFit(e, st, rs, n - 1, sh);
      var r := rs[n - 1];
      var p := ParameterByName(e, r.name);
      if Category(r.kind).Some? && p.Some? {
        ResourceBindingFits(e, st, rs, n - 1, sh);
        SlotWritersFitAppend(ResourceBindings(e, st, rs[..n - 1]), [GetBindFunc(e, ResourceHandle(st, r), p.value)], sh);
      }
    }
  }

  /** One more bound resource appends at most its own binding. */
  lemma ResourceBindingsStep(e: Effect, st: nat, rs: seq<BoundResource>, n: nat)
    requires 0 < n <= |rs|
    ensures var r := rs[n - 1];
      var p := ParameterByName(e, r.name);
      ResourceBindings(e, st, rs[..n]) == ResourceBindings(e, st, rs[..n - 1])
        + (if Category(r.kind).Some? && p.Some? then [GetBindFunc(e, ResourceHandle(st, r), p.value)] else [])
  {
    assert rs[..n][..n - 1] == rs[..n - 1];
  }

  /** The bindings of a buffer's variables fit, as `DeclaredVarFits` shows for each. */
  lemma {:induction false} VarBindingsFit(e: Effect, st: nat, cbs: seq<CBufferDesc>, c: nat, vars: seq<VarDesc>, sh: Shape)
    requires VarsAgree(e, cbs) && BuffersLaidOut(cbs) && c < |cbs| && forall v :: v in vars ==> v in cbs[c].vars
    requires sh.sizes == MirrorSizes(cbs)
    ensures BindsFit(VarBindings(e, st, c, vars), sh)
    ensures forall b :: b in VarBindings(e, st, c, vars) && b.writer.Some? ==> IsBufferWriter(b.writer.value)
    decreases |vars|
  {
    if vars != [] {
      var init := vars[..|vars| - 1];
      VarBindingsFit(e, st, cbs, c, init, sh);
      var v := vars[|vars| - 1];
      var p := ParameterByName(e, v.name);
      if v.used && p.Some? {
        DeclaredVarFits(e.params[p.value], v, st, c, cbs);
      }
    }
  }

  lemma {:induction false} CBufferBindingsFit(e: Effect, st: nat, cbs: seq<CBufferDesc>, n: nat, sh: Shape)
    requires VarsAgree(e, cbs) && BuffersLaidOut(cbs) && n <= |cbs|
    requires sh.sizes == MirrorSizes(cbs)
    ensures BindsFit(CBufferBindings(e, st, cbs[..n]), sh)
    ensures forall b :: b in CBufferBindings(e, st, cbs[..n]) && b.writer.Some? ==> IsBufferWriter(b.writer.value)
    decreases n
  {
    if n > 0 {
      var pre := cbs[..n];
      assert pre[..n - 1] == cbs[..n - 1];
      CBufferBindingsFit(e, st, cbs, n - 1, sh);
      VarBindingsFit(e, st, cbs, n - 1, cbs[n - 1].vars, sh);
    }
  }

  lemma BindsFitConcat(a: seq<Binding>, b: seq<Binding>, sh: Shape)
    requires BindsFit(a, sh) && BindsFit(b, sh)
    ensures BindsFit(a + b, sh)
  {
    var ab := a + b;
    forall k | 0 <= k < |ab| && ab[k].writer.Some?
      ensures Fits(ab[k].writer.value, ab[k].handle, sh)
    {
      if k >= |a| {
        assert ab[k] == b[k - |a|];
      }
    }
  }

  /** When the reflection is laid out by HLSL's packing and agrees with the effect, every binding of the table fits the state
      `SetShader` builds for the stage. */
  lemma StageBindingsFit(e: Effect, st: nat, refl: ShaderReflection)
    requires Agrees(e, refl) && WellFormed(refl)
    ensures BindsFit(StageBindings(e, st, refl), ShapeOf(FreshStore(refl)))
  {
    var sh := ShapeOf(FreshStore(refl));
    assert sh.sizes == MirrorSizes(refl.cbuffers);
    assert refl.cbuffers[..|refl.cbuffers|] == refl.cbuffers;
    CBufferBindingsFit(e, st, refl.cbuffers, |refl.cbuffers|, sh);
    assert refl.resources[..|refl.resources|] == refl.resources;
    ResourceBindingsFit(e, st, refl.resources, |refl.resources|, sh);
    BindsFitConcat(CBufferBindings(e, st, refl.cbuffers), ResourceBindings(e, st, refl.resources), sh);
  }

  /** Every binding built against an effect reads a value of the shape its parameter holds. */
  lemma BindingsReadValues(e: Effect, bs: seq<Binding>, env: seq<Value>)
    requires EffectValues(e, env)
    requires forall k :: 0 <= k < |bs| ==>
      bs[k].param < |e.params| && bs[k] == GetBindFunc(e, bs[k].handle, bs[k].param)
    ensures EnvFits(env, bs)
  {
    forall k | 0 <= k < |bs| && bs[k].writer.Some?
      ensures ValueFits(bs[k].writer.value, env[bs[k].param])
    {
      var p := e.params[bs[k].param];
      SelectWriterReadsValue(p, bs[k].handle.svt, env[bs[k].param]);
    }
  }

  // ---------------------------------------------------------------------------------------
  // Mirrors and GPU buffers in step

  /** The invariant `Bind` relies on: a buffer whose flag is clear holds on the GPU exactly
      what its mirror holds. */
  predicate Synced(s: StageStore, gpu: seq<GpuBuffer>) {
    && Consistent(s) && |gpu| == |s.mirrors|
    && forall j :: 0 <= j < |gpu| && !s.dirty[j] ==> gpu[j].image == s.mirrors[j]
  }

  /** Whatever the writers do keeps a stage in step with its GPU buffers: a flag that is
      still clear guards a mirror that did not change. */
  lemma SyncedTracked(s: StageStore, r: StageStore, gpu: seq<GpuBuffer>)
    requires Synced(s, gpu) && Consistent(r) && |r.mirrors| == |s.mirrors| && ChangeTracked(s, r)
    ensures Synced(r, gpu)
  {
  }

  /** A freshly reflected stage is in step with its new, unwritten GPU buffers. */
  lemma FreshStoreSynced(refl: ShaderReflection)
    ensures Synced(FreshStore(refl), FreshBuffers(refl))
  {
  }

  /** As written, a fresh stage's clear flags claim that the new GPU buffers hold the
      zeroed mirrors; and a parameter whose value is zero then never marks its buffer, so
      the buffer is never uploaded. */
  lemma FreshStoreAsWrittenUnsynced(conv: Converter)
    requires conv(SrcFloat, SvtFloat, 0) == 0
    ensures var refl := ShaderReflection([CBufferDesc(16, [])], [], []);
      var s := FreshStoreAsWritten(refl);
      var h := ParamHandle(VertexStage, SvtFloat, 0, 0, 0, 0, 1);
      && !Synced(s, FreshBuffers(refl))
      && !Write(s, h, ScalarWriter(SrcFloat, SvtFloat), ScalarValue(0), conv).dirty[0]
  {
    var refl := ShaderReflection([CBufferDesc(16, [])], [], []);
    var s := FreshStoreAsWritten(refl);
    assert s.mirrors[0] == Zeros(4);
    assert s.mirrors[0][0..1] == [0];
  }

  // ---------------------------------------------------------------------------------------
  // The vertex input signature

  /** `boost::hash_range` over a semantic name and `boost::hash_combine(seed, value)`,
      treated as given functions. */
  datatype Hasher = Hasher(range: string -> nat, combine: (nat, nat) -> nat)

  /** The seed of one input parameter: the semantic name's hash combined with its seven
      numeric fields in declaration order. */
  function ParamSeed(hs: Hasher, p: SignatureParam): nat {
    var c := hs.combine;
    c(c(c(c(c(c(c(hs.range(p.semanticName), p.semanticIndex), p.register), p.systemValue),
      p.componentType), p.mask), p.readWriteMask), p.stream)
  }

  /** `vs_signature_`: starting from 0, each input parameter's seed combined in order. */
  function Signature(hs: Hasher, ps: seq<SignatureParam>): nat
    decreases |ps|
  {
    if ps == [] then 0 else hs.combine(Signature(hs, ps[..|ps| - 1]), ParamSeed(hs, ps[|ps| - 1]))
  }

  /** The fold continued from an arbitrary seed. */
  function SignatureFrom(hs: Hasher, seed: nat, ps: seq<SignatureParam>): nat
    decreases |ps|
  {
    if ps == [] then seed else hs.combine(SignatureFrom(hs, seed, ps[..|ps| - 1]), ParamSeed(hs, ps[|ps| - 1]))
  }

  /** The signature of a concatenation continues the signature of its first part. */
  lemma {:induction false} SignatureConcat(hs: Hasher, a: seq<SignatureParam>, b: seq<SignatureParam>)
    ensures Signature(hs, a + b) == SignatureFrom(hs, Signature(hs, a), b)
    decreases |b|
  {
    if b == [] {
      assert a + b == a;
    } else {
      var ab := a + b;
      assert ab[..|ab| - 1] == a + b[..|b| - 1];
      SignatureConcat(hs, a, b[..|b| - 1]);
    }
  }
}
