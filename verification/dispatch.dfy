/** `D3D11ShaderObject::GetBindFunc`: the choice of writer from the effect parameter's type,
    whether it is an array, and the shader variable type reflection reports. */
module Dispatch {
  import opened Common
  import opened Effects
  import opened Writers

  predicate IsScalarVarType(svt: VarType) {
    svt == SvtBool || svt == SvtUInt || svt == SvtInt || svt == SvtFloat
  }

  /** The writer the switch in `GetBindFunc` selects, exactly as written: `None` where it
      reaches `BOOST_ASSERT(false)` and leaves the function object empty. Append and consume
      structured buffers get a shader-resource-view writer. */
  function SelectWriterAsWritten(t: EffectType, isArray: bool, svt: VarType): (r: Option<Writer>)
    ensures r.Some? && IsResourceType(t) ==> r.value.SlotWriter?
  {
    match t
    case Bool | UInt | Int =>
      var src := if t == Bool then SrcBool else if t == UInt then SrcUInt else SrcInt;
      if !IsScalarVarType(svt) then None
      else if isArray then Some(ScalarArrayWriter(src, svt))
      else Some(ScalarWriter(src, svt))
    case Float => if isArray then Some(ScalarArrayWriter(SrcFloat, SvtFloat)) else Some(ScalarWriter(SrcFloat, SvtFloat))
    case UInt2 | UInt3 | UInt4 | Int2 | Int3 | Int4 | Float2 | Float3 | Float4 =>
      if isArray then Some(VectorArrayWriter(Components(t))) else Some(VectorWriter(Components(t)))
    case Float4x4 => if isArray then Some(MatrixArrayWriter) else Some(MatrixWriter)
    case Sampler => Some(SlotWriter(SamplerState))
    case Texture1D | Texture2D | Texture3D | TextureCube
       | Texture1DArray | Texture2DArray | Texture3DArray | TextureCubeArray => Some(SlotWriter(TextureSrv))
    case Buffer | StructuredBuffer | ConsumeStructuredBuffer | AppendStructuredBuffer
       | ByteAddressBuffer => Some(SlotWriter(BufferSrv))
    case RwTexture1D | RwTexture2D | RwTexture3D | RwTexture1DArray | RwTexture2DArray => Some(SlotWriter(TextureUav))
    case RwBuffer | RwStructuredBuffer | RwByteAddressBuffer => Some(SlotWriter(BufferUav))
    case OtherType => None
  }

  /** The selection the model uses: as written, except that append and consume structured
      buffers, which HLSL binds to u-registers, get an unordered-access-view writer. */
  function SelectWriter(t: EffectType, isArray: bool, svt: VarType): (r: Option<Writer>)
    ensures t != AppendStructuredBuffer && t != ConsumeStructuredBuffer ==> r == SelectWriterAsWritten(t, isArray, svt)
  {
    if t == AppendStructuredBuffer || t == ConsumeStructuredBuffer then Some(SlotWriter(BufferUav))
    else SelectWriterAsWritten(t, isArray, svt)
  }

  /** The function object is left empty exactly for a `bool`, `uint` or `int` parameter whose
      shader variable is not a scalar type, and for types the switch does not list. */
  lemma SelectWriterEmptyIff(t: EffectType, isArray: bool, svt: VarType)
    ensures SelectWriter(t, isArray, svt).None?
            <==> ((t == Bool || t == UInt || t == Int) && !IsScalarVarType(svt)) || t == OtherType
  {
  }

  /** A resource parameter's writer stores into the slot vector its HLSL register class
      names; constant-buffer parameters get a constant-buffer writer, an array writer
      exactly when the parameter is an array. */
  lemma SelectWriterTargets(t: EffectType, isArray: bool, svt: VarType)
    requires SelectWriter(t, isArray, svt).Some?
    ensures var w := SelectWriter(t, isArray, svt).value;
      && (w.SlotWriter? <==> IsResourceType(t))
      && (w.SlotWriter? ==> Some(SlotsOf(w.k)) == TypeCategory(t))
      && (!w.SlotWriter? ==> (isArray <==> (w.ScalarArrayWriter? || w.VectorArrayWriter? || w.MatrixArrayWriter?)))
  {
    if IsResourceType(t) {
      assert TypeCategory(t).Some?;
    } else if t == Bool || t == UInt || t == Int {
    } else {
      assert t != OtherType;
    }
  }

  /** The writer reads the parameter's value with the shape the parameter holds. */
  lemma SelectWriterReadsValue(p: EffectParam, svt: VarType, v: Value)
    requires HoldsValue(p, v)
    requires SelectWriter(p.kind, p.arraySize.Some?, svt).Some?
    ensures ValueFits(SelectWriter(p.kind, p.arraySize.Some?, svt).value, v)
  {
  }

  /** Scalar writers of `bool`, `uint` and `int` parameters convert to the type the shader
      declares; `float` parameters always write a float. */
  lemma SelectWriterConversion(t: EffectType, isArray: bool, svt: VarType)
    requires t == Bool || t == UInt || t == Int || t == Float
    requires SelectWriter(t, isArray, svt).Some?
    ensures var w := SelectWriter(t, isArray, svt).value;
      && (w.ScalarWriter? || w.ScalarArrayWriter?)
      && w.dst == (if t == Float then SvtFloat else svt)
      && w.src == (match t case Bool => SrcBool case UInt => SrcUInt case Int => SrcInt case _ => SrcFloat)
  {
  }

  /** As written, append and consume structured buffers are routed to the shader-resource
      views although their register class is the unordered-access views. */
  lemma AppendConsumeMisrouted(t: EffectType, isArray: bool, svt: VarType)
    requires t == AppendStructuredBuffer || t == ConsumeStructuredBuffer
    ensures SelectWriterAsWritten(t, isArray, svt) == Some(SlotWriter(BufferSrv))
    ensures SlotsOf(BufferSrv) == SrvSlots && TypeCategory(t) == Some(UavSlots)
  {
  }

  /** A compute shader whose only resource is an append buffer at `u0`: its stage has one
      UAV slot and no SRV slot, so the writer chosen as written indexes an empty vector,
      while the corrected one lands in the UAV slot. */
  lemma AppendBufferOutOfRange()
    ensures var h := ParamHandle(ComputeStage, SvtBuffer, 0, 0, 1, 0, 1);
      var sh := Shape([], 0, 0, 1);
      && !Fits(SelectWriterAsWritten(AppendStructuredBuffer, false, SvtBuffer).value, h, sh)
      && Fits(SelectWriter(AppendStructuredBuffer, false, SvtBuffer).value, h, sh)
  {
  }

  /** `GetBindFunc(p_handle, param)`: the binding record for an effect parameter. */
  function GetBindFunc(e: Effect, h: ParamHandle, param: nat): (b: Binding)
    requires param < |e.params|
    ensures b.handle == h && b.param == param && b.name == e.params[param].name
    ensures b.writer == SelectWriter(e.params[param].kind, e.params[param].arraySize.Some?, h.svt)
  {
    var p := e.params[param];
    Binding(h, param, p.name, SelectWriter(p.kind, p.arraySize.Some?, h.svt))
  }
}
