/** What the binding engine sees of a render effect: its parameters (type, name, array
    size), the current value of each parameter, and the pieces used to generate shader text.
    The effect owns all of this; the shader object only reads it. */
module Effects {
  import opened Common

  /** The effect's parameter types (`REDT_*`) that the engine distinguishes; every other
      type (strings, structs, other matrix shapes, shader handles) is `OtherType`. */
  datatype EffectType =
    | Bool | UInt | Int | Float
    | UInt2 | UInt3 | UInt4 | Int2 | Int3 | Int4 | Float2 | Float3 | Float4
    | Float4x4
    | Sampler
    | Texture1D | Texture2D | Texture3D | TextureCube
    | Texture1DArray | Texture2DArray | Texture3DArray | TextureCubeArray
    | Buffer | StructuredBuffer | ByteAddressBuffer
    | RwBuffer | RwStructuredBuffer
    | RwTexture1D | RwTexture2D | RwTexture3D | RwTexture1DArray | RwTexture2DArray
    | RwByteAddressBuffer
    | AppendStructuredBuffer | ConsumeStructuredBuffer
    | OtherType

  /** The three per-stage slot vectors: samplers, shader-resource views, unordered-access views. */
  datatype SlotKind = SamplerSlots | SrvSlots | UavSlots

  /** The types that name a GPU resource rather than a constant-buffer value. */
  predicate IsResourceType(t: EffectType) {
    match t
    case Bool | UInt | Int | Float | UInt2 | UInt3 | UInt4 | Int2 | Int3 | Int4
       | Float2 | Float3 | Float4 | Float4x4 | OtherType => false
    case _ => true
  }

  /** The slot vector a resource of this type occupies in HLSL: samplers use s-registers,
      read-only resources t-registers, and read-write, append and consume buffers u-registers. */
  function TypeCategory(t: EffectType): (k: Option<SlotKind>)
    ensures k.Some? <==> IsResourceType(t)
  {
    match t
    case Sampler => Some(SamplerSlots)
    case Texture1D | Texture2D | Texture3D | TextureCube
       | Texture1DArray | Texture2DArray | Texture3DArray | TextureCubeArray
       | Buffer | StructuredBuffer | ByteAddressBuffer => Some(SrvSlots)
    case RwBuffer | RwStructuredBuffer | RwTexture1D | RwTexture2D | RwTexture3D
       | RwTexture1DArray | RwTexture2DArray | RwByteAddressBuffer
       | AppendStructuredBuffer | ConsumeStructuredBuffer => Some(UavSlots)
    case _ => None
  }

  /** One effect parameter: its name, type, the effect's HLSL name for that type
      (`RenderEffect::TypeName`), its array size as written in the effect (absent for a
      non-array) and, for resources, the element type written between angle brackets. */
  datatype EffectParam = EffectParam(name: string, kind: EffectType, typeName: string,
                                     arraySize: Option<string>, elemType: string)

  /** A shader fragment of the effect: the stage it is for (`NumStages` means every stage),
      the shader model it needs, and its text. */
  datatype ShaderFragment = ShaderFragment(stage: nat, version: nat, text: string)

  datatype Effect = Effect(
    params: seq<EffectParam>,
    macros: seq<(string, string)>,
    cbuffers: seq<(string, seq<nat>)>,
    fragments: seq<ShaderFragment>)

  /** `RenderEffect::ParameterByName`: the first parameter with the given name, if any. */
  function ParameterByName(e: Effect, name: string): (r: Option<nat>)
    ensures r.Some? ==> r.value < |e.params| && e.params[r.value].name == name
    ensures r.Some? ==> forall j :: 0 <= j < r.value ==> e.params[j].name != name
    ensures r.None? ==> forall j :: 0 <= j < |e.params| ==> e.params[j].name != name
  {
    FindFrom(e.params, name, 0)
  }

  function FindFrom(ps: seq<EffectParam>, name: string, from: nat): (r: Option<nat>)
    requires from <= |ps|
    requires forall j :: 0 <= j < from ==> ps[j].name != name
    ensures r.Some? ==> from <= r.value < |ps| && ps[r.value].name == name
    ensures r.Some? ==> forall j :: 0 <= j < r.value ==> ps[j].name != name
    ensures r.None? ==> forall j :: 0 <= j < |ps| ==> ps[j].name != name
    decreases |ps| - from
  {
    if from == |ps| then None
    else if ps[from].name == name then Some(from)
    else FindFrom(ps, name, from + 1)
  }

  /** The views a texture or graphics buffer hands out (`D3DShaderResourceView`,
      `D3DUnorderedAccessView`). */
  datatype ResourceViews = ResourceViews(srv: View, uav: View)

  /** The current value of an effect parameter, as `RenderEffectParameter::Value` returns it.
      Vectors have 2, 3 or 4 components; matrices are 16 words in row-major order; a null
      sampler, texture or buffer handle is `None`. */
  datatype Value =
    | ScalarValue(w: Word)
    | VectorValue(ws: seq<Word>)
    | MatrixValue(ws: seq<Word>)
    | ScalarArrayValue(ws: seq<Word>)
    | VectorArrayValue(vs: seq<seq<Word>>)
    | MatrixArrayValue(ms: seq<seq<Word>>)
    | SamplerValue(state: Option<View>)
    | ResourceValue(views: Option<ResourceViews>)

  /** The number of components of a vector type, 0 for every other type. */
  function Components(t: EffectType): (n: nat)
    ensures n == 2 <==> t in {UInt2, Int2, Float2}
    ensures n == 3 <==> t in {UInt3, Int3, Float3}
    ensures n == 4 <==> t in {UInt4, Int4, Float4}
    ensures n == 0 <==> t !in {UInt2, Int2, Float2, UInt3, Int3, Float3, UInt4, Int4, Float4}
  {
    match t
    case UInt2 | Int2 | Float2 => 2
    case UInt3 | Int3 | Float3 => 3
    case UInt4 | Int4 | Float4 => 4
    case _ => 0
  }

  /** The value a parameter of this type holds: an array parameter holds a sequence of
      elements, any other a single one; samplers and resources hold a possibly-null object. */
  predicate HoldsValue(p: EffectParam, v: Value) {
    var isArray := p.arraySize.Some?;
    match p.kind
    case Bool | UInt | Int | Float => if isArray then v.ScalarArrayValue? else v.ScalarValue?
    case UInt2 | UInt3 | UInt4 | Int2 | Int3 | Int4 | Float2 | Float3 | Float4 =>
      if isArray then v.VectorArrayValue? && forall k :: 0 <= k < |v.vs| ==> |v.vs[k]| == Components(p.kind)
      else v.VectorValue? && |v.ws| == Components(p.kind)
    case Float4x4 =>
      if isArray then v.MatrixArrayValue? && forall k :: 0 <= k < |v.ms| ==> |v.ms[k]| == 16
      else v.MatrixValue? && |v.ws| == 16
    case Sampler => v.SamplerValue?
    case OtherType => true
    case _ => v.ResourceValue?
  }

  /** Every parameter of the effect holds a value of its type. */
  predicate EffectValues(e: Effect, env: seq<Value>) {
    |env| == |e.params| && forall i :: 0 <= i < |e.params| ==> HoldsValue(e.params[i], env[i])
  }
}
