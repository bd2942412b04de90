/** Vocabulary shared by every part of the D3D11 shader-object model. */
module Common {

  datatype Option<+T> = None | Some(value: T)

  /** One 32-bit constant-buffer cell. BOOL, uint32, int32 and float values are stored
      as their bit patterns; only equality of cells is ever observed. */
  type Word = bv32

  /** A value of the source's `uint32_t`. */
  type U32 = x: nat | x < 0x1_0000_0000

  /** Opaque handles of device objects: views, sampler states and compiled programs. */
  type View = nat
  type ProgramId = nat

  /** The six programmable stages, in the index order of `ShaderObject::ShaderType`. */
  const NumStages: nat := 6
  const VertexStage: nat := 0
  const PixelStage: nat := 1
  const GeometryStage: nat := 2
  const ComputeStage: nat := 3
  const HullStage: nat := 4
  const DomainStage: nat := 5

  function Min(a: nat, b: nat): nat {
    if a <= b then a else b
  }
}
