/** Per-stage bookkeeping in `SetShader`: shader-model gating with the "auto" profile
    substitution, the packed technique/pass word that marks a compiled shader description,
    and the overall validity flag. */
module Stages {
  import opened Common

  /** Outcome of the gating switch: whether the stage stays valid, and the profile it is
      compiled with. */
  datatype Gate = Gate(valid: bool, profile: string)

  /** "auto" replaced by the engine's profile for the stage. */
  function Resolve(st: nat, profile: string, autoProfiles: seq<string>): (p: string)
    requires st < NumStages && |autoProfiles| == NumStages
    ensures profile != "auto" ==> p == profile
  {
    if profile == "auto" then autoProfiles[st] else profile
  }

  /** The gating switch. Vertex and pixel stages always pass; geometry and compute stages
      need shader model 4 and hull and domain stages shader model 5; a compute stage whose
      profile is (or resolves to) "cs_5_0" also needs shader model 5. A stage that fails
      the check keeps its profile unresolved. */
  function GateStage(st: nat, profile: string, maxSM: nat, autoProfiles: seq<string>): (g: Gate)
    requires st < NumStages && |autoProfiles| == NumStages
    ensures g.valid ==> g.profile == Resolve(st, profile, autoProfiles)
  {
    var resolved := Resolve(st, profile, autoProfiles);
    if st == VertexStage || st == PixelStage then Gate(true, resolved)
    else if st == GeometryStage then (if maxSM < 4 then Gate(false, profile) else Gate(true, resolved))
    else if st == ComputeStage then
      (if maxSM < 4 then Gate(false, profile)
       else Gate(!(resolved == "cs_5_0" && maxSM < 5), resolved))
    else (if maxSM < 5 then Gate(false, profile) else Gate(true, resolved))
  }

  /** The shader-model requirement of each stage, stated once: 4 for geometry and compute, 5
      for hull, domain and a compute stage compiled for "cs_5_0", none otherwise. */
  function RequiredModel(st: nat, resolved: string): nat
    requires st < NumStages
  {
    if st == VertexStage || st == PixelStage then 0
    else if st == GeometryStage then 4
    else if st == ComputeStage then (if resolved == "cs_5_0" then 5 else 4)
    else 5
  }

  /** A stage passes the gate exactly when the device meets that stage's requirement. */
  lemma GateValidIff(st: nat, profile: string, maxSM: nat, autoProfiles: seq<string>)
    requires st < NumStages && |autoProfiles| == NumStages
    ensures GateStage(st, profile, maxSM, autoProfiles).valid
            <==> maxSM >= RequiredModel(st, Resolve(st, profile, autoProfiles))
  {
  }

  /** A more capable device never rejects a stage a less capable one accepts. */
  lemma GateMonotone(st: nat, profile: string, sm: nat, sm': nat, autoProfiles: seq<string>)
    requires st < NumStages && |autoProfiles| == NumStages && sm <= sm'
    requires GateStage(st, profile, sm, autoProfiles).valid
    ensures GateStage(st, profile, sm', autoProfiles).valid
  {
    GateValidIff(st, profile, sm, autoProfiles);
    GateValidIff(st, profile, sm', autoProfiles);
  }

  /** Below shader model 4 only the vertex and pixel stages pass; from shader model 5 every
      stage does. */
  lemma GateByModel(st: nat, profile: string, maxSM: nat, autoProfiles: seq<string>)
    requires st < NumStages && |autoProfiles| == NumStages
    ensures maxSM < 4 ==> (GateStage(st, profile, maxSM, autoProfiles).valid <==> st == VertexStage || st == PixelStage)
    ensures maxSM >= 5 ==> GateStage(st, profile, maxSM, autoProfiles).valid
  {
  }

  // ---------------------------------------------------------------------------------------
  // tech_pass

  const TwoTo16: nat := 0x1_0000
  const TwoTo32: nat := 0x1_0000_0000

  /** `shader_desc::tech_pass` before the shader description is compiled. */
  const NotCompiled: U32 := 0xFFFF_FFFF

  /** `(tech_index << 16) + pass_index` in 32-bit unsigned arithmetic. */
  function PackTechPass(tech: U32, pass: U32): (w: U32)
    ensures tech < TwoTo16 && pass < TwoTo16 ==> w == tech * TwoTo16 + pass
  {
    ((tech * TwoTo16) % TwoTo32 + pass) % TwoTo32
  }

  /** `tech_pass >> 16` and `tech_pass & 0xFFFF`. */
  function UnpackTechPass(w: U32): (r: (U32, U32))
    ensures r.0 < TwoTo16 && r.1 < TwoTo16
    ensures w == r.0 * TwoTo16 + r.1
  {
    (w / TwoTo16, w % TwoTo16)
  }

  /** Unpacking recovers the technique and pass whenever both are below 2^16. */
  lemma TechPassRoundTrip(tech: U32, pass: U32)
    requires tech < TwoTo16 && pass < TwoTo16
    ensures UnpackTechPass(PackTechPass(tech, pass)) == (tech, pass)
  {
    var w := PackTechPass(tech, pass);
    var r := UnpackTechPass(w);
    assert r.0 * TwoTo16 + r.1 == tech * TwoTo16 + pass;
  }

  /** Every packed word unpacks to a pair that packs back to it. */
  lemma TechPassUnpackRoundTrip(w: U32)
    ensures PackTechPass(UnpackTechPass(w).0, UnpackTechPass(w).1) == w
  {
  }

  /** A technique/pass pair packs to the "not compiled" marker only when both are 0xFFFF. */
  lemma NotCompiledOnlyAtMax(tech: U32, pass: U32)
    requires tech < TwoTo16 && pass < TwoTo16
    ensures PackTechPass(tech, pass) == NotCompiled <==> tech == 0xFFFF && pass == 0xFFFF
  {
    if PackTechPass(tech, pass) == NotCompiled {
      TechPassRoundTrip(tech, pass);
      assert UnpackTechPass(NotCompiled) == (0xFFFF, 0xFFFF);
    }
  }

  // ---------------------------------------------------------------------------------------
  // Overall validity

  /** `is_validate_` after the loop: true, then `&=` each stage's flag in turn. */
  function ValidAfter(flags: seq<bool>): (v: bool)
    decreases |flags|
  {
    if flags == [] then true else ValidAfter(flags[..|flags| - 1]) && flags[|flags| - 1]
  }

  /** The running AND is the conjunction of all the stage flags. */
  lemma {:induction false} ValidAfterAll(flags: seq<bool>)
    ensures ValidAfter(flags) <==> forall i :: 0 <= i < |flags| ==> flags[i]
    decreases |flags|
  {
    if flags != [] {
      var init := flags[..|flags| - 1];
      ValidAfterAll(init);
      assert forall i :: 0 <= i < |init| ==> init[i] == flags[i];
    }
  }
}
