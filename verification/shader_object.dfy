/** `D3D11ShaderObject`: the per-pass object that owns the six stages' programs, constant
    buffer mirrors, GPU buffers, slot vectors and binding tables. `SetShader` fills it once,
    either by compiling a stage or by sharing an earlier pass's stage; `Clone` copies it for
    another effect; `Bind` runs the writers, uploads what changed and attaches everything to
    the device; `Unbind` releases the compute stage's unordered-access views. */
module Objects {
  import opened Common
  import opened Effects
  import opened Cells
  import opened Writers
  import opened Dispatch
  import opened Device
  import opened Reflect
  import opened Stages
  import opened ShaderText

  // ---------------------------------------------------------------------------------------
  // The writers' loops

  /** The scalar-array writer's loop, over the elements the shader declares: each element,
      converted, is compared with the first cell of its register and written there, with the
      flag set, when it differs. */
  method ScalarArrayLoop(m: Mirror, at: nat, elements: nat, vs: seq<Word>,
                         src: ScalarType, dst: VarType, conv: Converter) returns (r: Mirror)
    requires Min(elements, |vs|) == 0 || at + 4 * (Min(elements, |vs|) - 1) < |m.cells|
    ensures r == ScalarArrayStore(m, at, ConvertAll(conv, src, dst, vs[..Min(elements, |vs|)]))
  {
    var n := Min(elements, |vs|);
    ghost var cs := ConvertAll(conv, src, dst, vs[..n]);
    r := m;
    var i := 0;
    while i < n
      invariant 0 <= i <= n && |r.cells| == |m.cells|
      invariant ScalarArrayStore(r, at + 4 * i, cs[i..]) == ScalarArrayStore(m, at, cs)
    {
      var x := conv(src, dst, vs[i]);
      assert cs[i..][0] == x && cs[i..][1..] == cs[i + 1..];
      if r.cells[at + 4 * i] != x {
        r := Mirror(r.cells[at + 4 * i := x], true);
      }
      i := i + 1;
    }
    assert cs[n..] == [];
  }

  /** The vector-array writer's `v4`: every element padded to four components, in order. */
  method PadVectors(vs: seq<seq<Word>>) returns (v4: seq<Word>)
    requires forall k :: 0 <= k < |vs| ==> |vs[k]| <= 4
    ensures v4 == Packed(vs)
  {
    v4 := [];
    var i := 0;
    while i < |vs|
      invariant 0 <= i <= |vs| && v4 == Packed(vs[..i])
    {
      assert vs[..i + 1][..i] == vs[..i];
      v4 := v4 + Pad4(vs[i]);
      i := i + 1;
    }
    assert vs[..i] == vs;
  }

  /** The matrix-array writer's loop, over the elements the shader declares: each matrix,
      transposed, has its first `rows` rows copied to `start`, which then advances by `rows`
      registers. */
  method MatrixArrayLoop(cells: seq<Word>, at: nat, rows: nat, elements: nat, ms: seq<seq<Word>>) returns (r: seq<Word>)
    requires rows <= 4 && forall k :: 0 <= k < |ms| ==> |ms[k]| == 16
    requires at + 4 * rows * elements <= |cells|
    ensures r == MatrixArrayStore(cells, at, rows, ms[..Min(elements, |ms|)])
  {
    var n := Min(elements, |ms|);
    MulMono(4 * rows, n, elements);
    ghost var todo := ms[..n];
    var s := 4 * rows;
    r := cells;
    var i := 0;
    var start := at;
    while i < n
      invariant 0 <= i <= n && |r| == |cells|
      invariant start + s * (n - i) == at + s * n
      invariant MatrixArrayStore(r, start, rows, todo[i..]) == MatrixArrayStore(cells, at, rows, todo)
    {
      assert todo[i..][0] == ms[i] && todo[i..][1..] == todo[i + 1..];
      assert s * (n - i) == s + s * (n - (i + 1));
      var t := Transpose(ms[i]);
      r := Splice(r, start, t[..s]);
      start := start + s;
      i := i + 1;
    }
    assert todo[n..] == [];
  }

  /** A constant-buffer writer's `operator()` on the mirror of its buffer. */
  method WriteBuffer(m: Mirror, h: ParamHandle, w: Writer, v: Value, conv: Converter) returns (r: Mirror)
    requires IsBufferWriter(w) && ValueFits(w, v)
    requires h.offset % 4 == 0 && h.offset / 4 + Extent(w, h) <= |m.cells|
    requires (w.MatrixWriter? || w.MatrixArrayWriter?) ==> h.rows <= 4
    requires (w.VectorArrayWriter?) ==> w.n <= 4
    ensures r == WriteMirror(m, h, w, v, conv)
  {
    var at := h.offset / 4;
    if w.ScalarWriter? {
      r := StoreIfChanged(m, at, [conv(w.src, w.dst, v.w)]);
    } else if w.VectorWriter? {
      r := StoreIfChanged(m, at, v.ws);
    } else if w.MatrixWriter? {
      r := MatrixStore(m, at, h.rows, v.ws);
    } else if w.ScalarArrayWriter? {
      r := ScalarArrayLoop(m, at, h.elements, v.ws, w.src, w.dst, conv);
    } else if w.VectorArrayWriter? {
      var n := Min(h.elements, |v.vs|);
      var cells := m.cells;
      if |v.vs| > 0 {
        var v4 := PadVectors(v.vs);
        PackedPrefix(v.vs, n);
        cells := Splice(cells, at, v4[..4 * n]);
      } else {
        assert v.vs[..n] == [];
      }
      r := Mirror(cells, true);
    } else {
      var cells := MatrixArrayLoop(m.cells, at, h.rows, h.elements, v.ms);
      r := Mirror(cells, true);
    }
  }

  // ---------------------------------------------------------------------------------------
  // Building a stage

  type CodeId = nat

  /** The part of `shader_desc` the object reads: the profile ("" for an unused stage,
      "auto" for the engine's choice), the entry point, whether a stream-output declaration
      is present, and `tech_pass`. */
  datatype ShaderDesc = ShaderDesc(profile: string, funcName: string, streamOut: bool, techPass: U32)

  /** What the render engine reports: the highest shader model, the profile substituted for
      "auto" at each stage, and whether the feature level is 9_3 or lower. */
  datatype EngineCaps = EngineCaps(maxSM: nat, autoProfiles: seq<string>, lowFeatureLevel: bool)

  predicate CapsOk(caps: EngineCaps) {
    |caps.autoProfiles| == NumStages
  }

  /** A `D3DCompile` call: the generated text, the macros, the entry point and the profile. */
  datatype CompileRequest = CompileRequest(stage: nat, text: string, macros: seq<(string, string)>,
                                           entry: string, profile: string)

  /** What compiling and creating a stage produced: the byte code (`None` when `D3DCompile`
      failed), the program the stage's create call returned (`None` when it failed), the
      stream-output geometry program created from a vertex shader's code, and the
      reflection of the byte code. */
  datatype CompileOutcome = CompileOutcome(code: Option<CodeId>, program: Option<ProgramId>,
                                           streamOutGeometry: Option<ProgramId>,
                                           reflection: Option<ShaderReflection>)

  /** `D3DCompile`, the device's create calls and `D3DReflect`, as one given function. */
  type Compiler = CompileRequest -> CompileOutcome

  /** The macros every stage is compiled with; BC5 is read as AG on feature level 9_3 and
      below. */
  function CompileMacros(low: bool): (ms: seq<(string, string)>)
    ensures ("CONSTANT_BUFFER", "1") in ms && ("KLAYGE_D3D11", "1") in ms
    ensures ("KLAYGE_BC5_AS_AG", "1") in ms <==> low
    ensures |ms| == if low then 3 else 2
  {
    [("CONSTANT_BUFFER", "1"), ("KLAYGE_D3D11", "1")] + (if low then [("KLAYGE_BC5_AS_AG", "1")] else [])
  }

  /** One compiled stage: its flag, the program assigned to its own field (`None`: not
      assigned), the geometry program a vertex stage with stream output assigns, the byte
      code kept for a vertex stage, and the reflection. */
  datatype StageBuild = StageBuild(valid: bool, program: Option<ProgramId>, geometry: Option<ProgramId>,
                                   code: Option<CodeId>, reflection: Option<ShaderReflection>)

  function Request(e: Effect, st: nat, d: ShaderDesc, caps: EngineCaps): (req: CompileRequest)
    requires st < NumStages && CapsOk(caps) && IndicesValid(e)
    ensures req.stage == st && req.entry == d.funcName
    ensures req.profile == Resolve(st, d.profile, caps.autoProfiles)
  {
    CompileRequest(st, GenShaderText(e, st, caps.maxSM), CompileMacros(caps.lowFeatureLevel), d.funcName,
                   Resolve(st, d.profile, caps.autoProfiles))
  }

  /** The compile branch of `SetShader` for one stage: gate, compile, create, reflect. A
      stage the gate rejects is not compiled. Without byte code the stage is invalid and
      nothing else happens. With byte code the create call decides the stage's flag (for a
      vertex shader with a stream-output declaration, the geometry program must be created
      too), a vertex stage keeps the code, and the reflection is read whatever the create
      call returned. */
  function BuildStage(e: Effect, st: nat, d: ShaderDesc, caps: EngineCaps, compile: Compiler): (b: StageBuild)
    requires st < NumStages && CapsOk(caps) && IndicesValid(e)
    ensures b.geometry.Some? ==> st == VertexStage && d.streamOut
    ensures b.code.Some? ==> st == VertexStage
    ensures b.reflection.Some? ==> GateStage(st, d.profile, caps.maxSM, caps.autoProfiles).valid
  {
    var g := GateStage(st, d.profile, caps.maxSM, caps.autoProfiles);
    if !g.valid then StageBuild(false, None, None, None, None)
    else
      var out := compile(Request(e, st, d, caps));
      if out.code.None? then StageBuild(false, None, None, None, None)
      else
        var streamOut := st == VertexStage && out.program.Some? && d.streamOut;
        StageBuild(out.program.Some? && (!streamOut || out.streamOutGeometry.Some?),
                   out.program,
                   if streamOut then out.streamOutGeometry else None,
                   if st == VertexStage then out.code else None,
                   out.reflection)
  }

  /** A compiled stage is valid exactly when the device supports its shader model, the
      compiler produced byte code, the create call succeeded and, for a vertex shader with
      stream output, the geometry program was created as well. */
  lemma BuildStageValidIff(e: Effect, st: nat, d: ShaderDesc, caps: EngineCaps, compile: Compiler)
    requires st < NumStages && CapsOk(caps) && IndicesValid(e)
    ensures var out := compile(Request(e, st, d, caps));
      BuildStage(e, st, d, caps, compile).valid
      <==> && caps.maxSM >= RequiredModel(st, Resolve(st, d.profile, caps.autoProfiles))
           && out.code.Some? && out.program.Some?
           && (st == VertexStage && d.streamOut ==> out.streamOutGeometry.Some?)
  {
    GateValidIff(st, d.profile, caps.maxSM, caps.autoProfiles);
  }

  // ---------------------------------------------------------------------------------------
  // What a stage holds after SetShader

  /** A stage's state after `SetShader`: its flag, its binding state, GPU buffers and
      binding table, the assignments it makes to program fields (`None`: no assignment),
      and, for the vertex stage, the byte code and the input signature. */
  datatype Outcome = Outcome(valid: bool, store: StageStore, gpu: seq<GpuBuffer>, binds: seq<Binding>,
                             program: Option<Option<ProgramId>>, geometry: Option<Option<ProgramId>>,
                             vsCode: Option<CodeId>, vsSignature: nat)

  function EmptyStore(): (s: StageStore)
    ensures Consistent(s)
  {
    StageStore([], [], [], [], [])
  }

  /** A stage with no profile that is not shared: untouched. */
  function SkippedOutcome(): (o: Outcome)
    ensures o.valid && o.program.None? && o.geometry.None?
  {
    Outcome(true, EmptyStore(), [], [], None, None, None, 0)
  }

  /** The assignment made to a field, if any. */
  function Apply(prev: Option<ProgramId>, a: Option<Option<ProgramId>>): (r: Option<ProgramId>)
    ensures a.None? ==> r == prev
    ensures a.Some? ==> r == a.value
  {
    if a.Some? then a.value else prev
  }

  function Assign(p: Option<ProgramId>): (a: Option<Option<ProgramId>>)
    ensures p.Some? <==> a == Some(p)
  {
    if p.Some? then Some(p) else None
  }

  /** A compiled stage: the reflection, when there is one, gives zeroed mirrors (all flagged,
      see the findings), new GPU buffers, null slot vectors and the binding table. */
  function CompiledOutcome(e: Effect, st: nat, d: ShaderDesc, caps: EngineCaps, compile: Compiler, hs: Hasher): (o: Outcome)
    requires st < NumStages && CapsOk(caps) && IndicesValid(e)
    ensures st != VertexStage ==> o.geometry.None?
  {
    var b := BuildStage(e, st, d, caps, compile);
    match b.reflection
    case None => Outcome(b.valid, EmptyStore(), [], [], Assign(b.program), Assign(b.geometry), b.code, 0)
    case Some(refl) =>
      Outcome(b.valid, FreshStore(refl), FreshBuffers(refl), StageBindings(e, st, refl),
              Assign(b.program), Assign(b.geometry), b.code,
              if st == VertexStage then Signature(hs, refl.inputs) else 0)
  }

  // ---------------------------------------------------------------------------------------
  // Sharing and cloning a stage

  /** The binding state of a shared or cloned stage: the source stage's mirrors, every flag
      set (the new GPU buffers hold nothing yet), null slot vectors of the same lengths. */
  function SharedStore(s: StageStore): (r: StageStore)
    requires Consistent(s)
    ensures Consistent(r) && ShapeOf(r) == ShapeOf(s) && r.mirrors == s.mirrors
    ensures forall j :: 0 <= j < |r.dirty| ==> r.dirty[j]
    ensures forall i :: 0 <= i < |r.samplers| ==> r.samplers[i].None?
    ensures forall i :: 0 <= i < |r.srvs| ==> r.srvs[i].None?
    ensures forall i :: 0 <= i < |r.uavs| ==> r.uavs[i].None?
  {
    StageStore(s.mirrors, seq(|s.dirty|, _ => true), Nulls(|s.samplers|), Nulls(|s.srvs|), Nulls(|s.uavs|))
  }

  /** As written, the flags are copied from the source stage. */
  function SharedStoreAsWritten(s: StageStore): (r: StageStore)
    requires Consistent(s)
    ensures Consistent(r) && r.dirty == s.dirty && r.mirrors == s.mirrors
  {
    StageStore(s.mirrors, s.dirty, Nulls(|s.samplers|), Nulls(|s.srvs|), Nulls(|s.uavs|))
  }

  /** The GPU buffers of a shared stage: `ByteWidth` is the mirror's size in bytes. */
  function SharedBuffers(mirrors: seq<seq<Word>>): (gs: seq<GpuBuffer>)
    ensures |gs| == |mirrors|
    ensures forall j :: 0 <= j < |gs| ==> gs[j] == NewBuffer(4 * |mirrors[j]|)
  {
    seq(|mirrors|, j requires 0 <= j < |mirrors| => NewBuffer(4 * |mirrors[j]|))
  }

  /** The GPU buffers of a cloned stage: the mirror's size rounded up to whole registers. */
  function ClonedBuffers(mirrors: seq<seq<Word>>): (gs: seq<GpuBuffer>)
    ensures |gs| == |mirrors|
    ensures forall j :: 0 <= j < |gs| ==> gs[j] == NewBuffer(BufferWidth(4 * |mirrors[j]|))
  {
    seq(|mirrors|, j requires 0 <= j < |mirrors| => NewBuffer(BufferWidth(4 * |mirrors[j]|)))
  }

  /** Every binding's parameter name is found in the effect. */
  predicate Resolvable(e: Effect, binds: seq<Binding>) {
    forall k :: 0 <= k < |binds| ==> ParameterByName(e, binds[k].name).Some?
  }

  /** `GetBindFunc(pb.p_handle, effect.ParameterByName(pb.param->Name()))` for every binding,
      in order: the same handles, against the other effect's parameters. */
  function Rebind(e: Effect, binds: seq<Binding>): (r: seq<Binding>)
    requires Resolvable(e, binds)
    ensures |r| == |binds|
    ensures forall k :: 0 <= k < |r| ==>
      r[k].handle == binds[k].handle && r[k].name == binds[k].name
      && Some(r[k].param) == ParameterByName(e, binds[k].name)
      && r[k] == GetBindFunc(e, r[k].handle, r[k].param)
    decreases |binds|
  {
    if binds == [] then []
    else
      var b := binds[|binds| - 1];
      Rebind(e, binds[..|binds| - 1]) + [GetBindFunc(e, b.handle, ParameterByName(e, b.name).value)]
  }

  /** A binding built against `e` from the first parameter of its name. */
  predicate ResolvedIn(e: Effect, b: Binding) {
    && ParameterByName(e, b.name) == Some(b.param)
    && b == GetBindFunc(e, b.handle, b.param)
  }

  /** Rebinding a table against the effect it was built for gives the same table back. */
  lemma RebindSameEffect(e: Effect, binds: seq<Binding>)
    requires forall k :: 0 <= k < |binds| ==> ResolvedIn(e, binds[k])
    ensures Resolvable(e, binds) && Rebind(e, binds) == binds
  {
  }

  /** The tables `SetShader` builds are resolved in their effect, so cloning against the same
      effect keeps them. */
  lemma StageBindingsResolved(e: Effect, st: nat, refl: ShaderReflection)
    ensures Resolvable(e, StageBindings(e, st, refl))
    ensures Rebind(e, StageBindings(e, st, refl)) == StageBindings(e, st, refl)
  {
    RebindSameEffect(e, StageBindings(e, st, refl));
  }

  /** The rebound table's writers still fit the copied state. */
  predicate RebindFits(e: Effect, binds: seq<Binding>, sh: Shape) {
    && Resolvable(e, binds)
    && forall k :: 0 <= k < |binds| ==>
         var b := GetBindFunc(e, binds[k].handle, ParameterByName(e, binds[k].name).value);
         b.writer.Some? ==> Fits(b.writer.value, b.handle, sh)
  }

  // ---------------------------------------------------------------------------------------
  // The loops of SetShader and Clone

  /** The constant-buffer loop of the compile branch: for each buffer a zeroed mirror of its
      size, the bindings of its variables, and a new GPU buffer of the rounded width. */
  method ReflectCBuffers(e: Effect, st: nat, refl: ShaderReflection)
    returns (mirrors: seq<seq<Word>>, gpu: seq<GpuBuffer>, binds: seq<Binding>)
    ensures mirrors == FreshStore(refl).mirrors && gpu == FreshBuffers(refl)
    ensures binds == CBufferBindings(e, st, refl.cbuffers)
  {
    var cbs := refl.cbuffers;
    mirrors, gpu, binds := [], [], [];
    var c := 0;
    while c < |cbs|
      invariant 0 <= c <= |cbs| && |mirrors| == c && |gpu| == c
      invariant forall k :: 0 <= k < c ==> mirrors[k] == Zeros(cbs[k].size / 4)
      invariant forall k :: 0 <= k < c ==> gpu[k] == NewBuffer(BufferWidth(cbs[k].size))
      invariant binds == CBufferBindings(e, st, cbs[..c])
    {
      mirrors := mirrors + [Zeros(cbs[c].size / 4)];
      var vbinds := VarBinds(e, st, c, cbs[c].vars);
      CBufferBindingsStep(e, st, cbs, c);
      binds := binds + vbinds;
      gpu := gpu + [NewBuffer(BufferWidth(cbs[c].size))];
      c := c + 1;
    }
    assert cbs[..c] == cbs;
    assert mirrors == FreshStoreAsWritten(refl).mirrors;
  }

  /** What the compile branch takes from a reflection: the stage's binding state, GPU buffers,
      binding table and, for a vertex stage, input signature. */
  method ReflectStage(e: Effect, st: nat, refl: ShaderReflection, hs: Hasher)
    returns (store: StageStore, gpu: seq<GpuBuffer>, binds: seq<Binding>, sig: nat)
    ensures store == FreshStore(refl) && gpu == FreshBuffers(refl) && binds == StageBindings(e, st, refl)
    ensures sig == if st == VertexStage then Signature(hs, refl.inputs) else 0
  {
    var mirrors, vbinds;
    mirrors, gpu, vbinds := ReflectCBuffers(e, st, refl);
    var ns, nv, nu := SlotSizes(refl.resources);
    var rbinds := ResourceBinds(e, st, refl.resources);
    sig := 0;
    if st == VertexStage {
      sig := SignatureOf(hs, refl.inputs);
    }
    store := StageStore(mirrors, seq(|mirrors|, _ => true), Nulls(ns), Nulls(nv), Nulls(nu));
    binds := vbinds + rbinds;
  }

  /** The variable loop of one constant buffer: a binding for each used variable whose name
      resolves. */
  method VarBinds(e: Effect, st: nat, c: nat, vars: seq<VarDesc>) returns (binds: seq<Binding>)
    ensures binds == VarBindings(e, st, c, vars)
  {
    binds := [];
    var v := 0;
    while v < |vars|
      invariant 0 <= v <= |vars| && binds == VarBindings(e, st, c, vars[..v])
    {
      var vd := vars[v];
      assert vars[..v + 1][..v] == vars[..v];
      if vd.used {
        var p := ParameterByName(e, vd.name);
        if p.Some? {
          binds := binds + [GetBindFunc(e, VarHandle(st, c, vd), p.value)];
        }
      }
      v := v + 1;
    }
    assert vars[..v] == vars;
  }

  /** The sizing loop: the largest bind point of each slot category, from -1, plus one. */
  method SlotSizes(rs: seq<BoundResource>) returns (ns: nat, nv: nat, nu: nat)
    ensures ns == SlotVectorLength(rs, SamplerSlots)
    ensures nv == SlotVectorLength(rs, SrvSlots)
    ensures nu == SlotVectorLength(rs, UavSlots)
  {
    var ms: int, mv: int, mu: int := -1, -1, -1;
    var i := 0;
    while i < |rs|
      invariant 0 <= i <= |rs|
      invariant ms == MaxBindPoint(rs[..i], SamplerSlots)
      invariant mv == MaxBindPoint(rs[..i], SrvSlots)
      invariant mu == MaxBindPoint(rs[..i], UavSlots)
    {
      var r := rs[i];
      assert rs[..i + 1][..i] == rs[..i];
      var cat := Category(r.kind);
      if cat == Some(SamplerSlots) {
        if r.bindPoint > ms { ms := r.bindPoint; }
      } else if cat == Some(SrvSlots) {
        if r.bindPoint > mv { mv := r.bindPoint; }
      } else if cat == Some(UavSlots) {
        if r.bindPoint > mu { mu := r.bindPoint; }
      }
      i := i + 1;
    }
    assert rs[..i] == rs;
    ns, nv, nu := ms + 1, mv + 1, mu + 1;
  }

  /** The resource loop: a binding for each slot-occupying resource whose name resolves. */
  method ResourceBinds(e: Effect, st: nat, rs: seq<BoundResource>) returns (binds: seq<Binding>)
    ensures binds == ResourceBindings(e, st, rs)
  {
    binds := [];
    var i := 0;
    while i < |rs|
      invariant 0 <= i <= |rs| && binds == ResourceBindings(e, st, rs[..i])
    {
      var r := rs[i];
      assert rs[..i + 1][..i] == rs[..i];
      if Category(r.kind).Some? {
        var p := ParameterByName(e, r.name);
        if p.Some? {
          binds := binds + [GetBindFunc(e, ResourceHandle(st, r), p.value)];
        }
      }
      i := i + 1;
    }
    assert rs[..i] == rs;
  }

  /** The signature loop of a vertex stage: each input parameter's seed folded into 0. */
  method SignatureOf(hs: Hasher, ps: seq<SignatureParam>) returns (sig: nat)
    ensures sig == Signature(hs, ps)
  {
    sig := 0;
    var i := 0;
    while i < |ps|
      invariant 0 <= i <= |ps| && sig == Signature(hs, ps[..i])
    {
      assert ps[..i + 1][..i] == ps[..i];
      sig := hs.combine(sig, ParamSeed(hs, ps[i]));
      i := i + 1;
    }
    assert ps[..i] == ps;
  }

  /** The buffer loop of the sharing branch (`rounded` false: the mirror's byte size) and of
      `Clone` (`rounded` true: rounded up to whole registers). */
  method CreateBuffers(mirrors: seq<seq<Word>>, rounded: bool) returns (gpu: seq<GpuBuffer>)
    ensures gpu == if rounded then ClonedBuffers(mirrors) else SharedBuffers(mirrors)
  {
    gpu := [];
    var j := 0;
    while j < |mirrors|
      invariant 0 <= j <= |mirrors| && |gpu| == j
      invariant forall k :: 0 <= k < j ==>
        gpu[k] == NewBuffer(if rounded then BufferWidth(4 * |mirrors[k]|) else 4 * |mirrors[k]|)
    {
      var width := if rounded then BufferWidth(4 * |mirrors[j]|) else 4 * |mirrors[j]|;
      gpu := gpu + [NewBuffer(width)];
      j := j + 1;
    }
  }

  /** The rebinding loop of the sharing branch and of `Clone`. */
  method RebindAll(e: Effect, binds: seq<Binding>) returns (out: seq<Binding>)
    requires Resolvable(e, binds)
    ensures out == Rebind(e, binds)
  {
    out := [];
    var i := 0;
    while i < |binds|
      invariant 0 <= i <= |binds| && Resolvable(e, binds[..i]) && out == Rebind(e, binds[..i])
    {
      var b := binds[i];
      assert binds[..i + 1][..i] == binds[..i];
      out := out + [GetBindFunc(e, b.handle, ParameterByName(e, b.name).value)];
      i := i + 1;
    }
    assert binds[..i] == binds;
  }

  // ---------------------------------------------------------------------------------------
  // The invariant of a stage

  /** Every GPU buffer is wide enough for its mirror. */
  predicate Roomy(mirrors: seq<seq<Word>>, gpu: seq<GpuBuffer>) {
    |gpu| == |mirrors| && forall j :: 0 <= j < |gpu| ==> 4 * |mirrors[j]| <= gpu[j].byteWidth
  }

  predicate OnStage(binds: seq<Binding>, st: nat) {
    forall k :: 0 <= k < |binds| ==> binds[k].handle.stage == st
  }

  /** What `Bind` relies on for one stage: the GPU buffers are in step with the mirrors and
      wide enough for them, and every writer of the stage's table stays inside the stage's
      state. */
  predicate StageOk(s: StageStore, gpu: seq<GpuBuffer>, binds: seq<Binding>, st: nat) {
    && Synced(s, gpu) && Roomy(s.mirrors, gpu) && BindsFit(binds, ShapeOf(s)) && OnStage(binds, st)
  }

  lemma CompiledOutcomeOk(e: Effect, st: nat, d: ShaderDesc, caps: EngineCaps, compile: Compiler, hs: Hasher)
    requires st < NumStages && CapsOk(caps) && IndicesValid(e)
    requires var refl := BuildStage(e, st, d, caps, compile).reflection;
      refl.Some? ==> Agrees(e, refl.value) && WellFormed(refl.value)
    ensures var o := CompiledOutcome(e, st, d, caps, compile, hs); StageOk(o.store, o.gpu, o.binds, st)
  {
    var b := BuildStage(e, st, d, caps, compile);
    if b.reflection.Some? {
      var refl := b.reflection.value;
      FreshStoreSynced(refl);
      FreshBuffersHoldMirrors(refl);
      StageBindingsFit(e, st, refl);
    }
  }

  /** A shared or cloned stage meets the stage invariant whatever the widths, provided each
      buffer holds its mirror. */
  lemma SharedOk(e: Effect, st: nat, s: StageStore, binds: seq<Binding>, gpu: seq<GpuBuffer>)
    requires Consistent(s) && RebindFits(e, binds, ShapeOf(s)) && OnStage(binds, st)
    requires Roomy(s.mirrors, gpu)
    ensures StageOk(SharedStore(s), gpu, Rebind(e, binds), st)
  {
    var r := Rebind(e, binds);
    forall k | 0 <= k < |r| && r[k].writer.Some?
      ensures Fits(r[k].writer.value, r[k].handle, ShapeOf(SharedStore(s)))
    {
      assert r[k] == GetBindFunc(e, binds[k].handle, ParameterByName(e, binds[k].name).value);
    }
  }

  /** As written, a stage shared from a pass whose buffer was uploaded and is clean claims
      the new, empty GPU buffer holds the mirror. */
  lemma SharedStoreAsWrittenUnsynced()
    ensures var s := StageStore([[1]], [false], [], [], []);
      && Synced(s, [GpuBuffer(4, [1])])
      && !Synced(SharedStoreAsWritten(s), SharedBuffers(s.mirrors))
      && Synced(SharedStore(s), SharedBuffers(s.mirrors))
  {
    var s := StageStore([[1]], [false], [], [], []);
    assert SharedBuffers(s.mirrors)[0].image == [];
  }

  /** What `SetShader` reads from the shader object of the pass a shared description names:
      its stage flags, per-stage binding state and tables, program fields and vertex-stage
      data. */
  datatype PassState = PassState(shaderValid: seq<bool>, stores: seq<StageStore>, paramBinds: seq<seq<Binding>>,
                                 programs: seq<Option<ProgramId>>, vsCode: Option<CodeId>, vsSignature: nat)

  /** A pass object's state as its own invariant leaves it. */
  predicate PassOk(p: PassState) {
    && |p.shaderValid| == NumStages && |p.stores| == NumStages && |p.paramBinds| == NumStages
    && |p.programs| == NumStages
    && forall st :: 0 <= st < NumStages ==> Consistent(p.stores[st]) && OnStage(p.paramBinds[st], st)
  }

  /** A stage shared from pass `p`: its flag, a shared copy of its binding state, buffers of
      the mirrors' sizes, its table rebound, its program field and, for a vertex stage, its
      geometry program, byte code and signature. */
  function SharedOutcomeOf(e: Effect, st: nat, p: PassState): (o: Outcome)
    requires st < NumStages && PassOk(p) && Resolvable(e, p.paramBinds[st])
    ensures st != VertexStage ==> o.geometry.None?
  {
    var s := p.stores[st];
    Outcome(p.shaderValid[st], SharedStore(s), SharedBuffers(s.mirrors), Rebind(e, p.paramBinds[st]),
            Some(p.programs[st]), if st == VertexStage then Some(p.programs[GeometryStage]) else None,
            if st == VertexStage then p.vsCode else None, if st == VertexStage then p.vsSignature else 0)
  }

  /** `sd.tech_pass` after `SetShader`: set to the current technique and pass when the stage
      was compiled, unchanged otherwise. */
  function NewTechPass(d: ShaderDesc, tech: U32, pass: U32): (w: U32)
    ensures d.techPass == NotCompiled && d.profile != "" ==> w == PackTechPass(tech, pass)
    ensures d.techPass != NotCompiled || d.profile == "" ==> w == d.techPass
  {
    if d.techPass == NotCompiled && d.profile != "" then PackTechPass(tech, pass) else d.techPass
  }

  /** The descriptions' `tech_pass` words after the first `n` passes of `SetShader`'s loop. */
  function NewTechPasses(descs: seq<ShaderDesc>, tech: U32, pass: U32, n: nat): (ws: seq<U32>)
    requires n <= |descs|
    ensures |ws| == n && forall s :: 0 <= s < n ==> ws[s] == NewTechPass(descs[s], tech, pass)
  {
    if n == 0 then [] else NewTechPasses(descs, tech, pass, n - 1) + [NewTechPass(descs[n - 1], tech, pass)]
  }

  /** A compiled description names a technique and pass below 2^16 that unpack back. */
  lemma NewTechPassUnpacks(d: ShaderDesc, tech: U32, pass: U32)
    requires tech < TwoTo16 && pass < TwoTo16
    requires d.techPass == NotCompiled && d.profile != ""
    ensures UnpackTechPass(NewTechPass(d, tech, pass)) == (tech, pass)
  {
    TechPassRoundTrip(tech, pass);
  }

  /** The compiler's reflections agree with the effect the text was generated from. */
  ghost predicate CompilerAgrees(e: Effect, compile: Compiler) {
    forall req: CompileRequest :: req.stage < NumStages && compile(req).reflection.Some? ==>
      Agrees(e, compile(req).reflection.value) && WellFormed(compile(req).reflection.value)
  }

  /** What `SetShader` reads besides the object: the effect, the six shader descriptions
      (by stage), the engine's capabilities, the compiler and the signature hash. */
  datatype Setup = Setup(e: Effect, descs: seq<ShaderDesc>, caps: EngineCaps, compile: Compiler, hs: Hasher)

  /** The pass a shared description names is known, and its table rebinds against this
      effect within the copied state. */
  predicate ShareReady(e: Effect, st: nat, d: ShaderDesc, passes: map<(U32, U32), PassState>)
    requires st < NumStages
  {
    var key := UnpackTechPass(d.techPass);
    && key in passes && PassOk(passes[key])
    && RebindFits(e, passes[key].paramBinds[st], ShapeOf(passes[key].stores[st]))
  }

  /** The setup is well formed and every shared description names a ready pass. */
  ghost predicate SetupOk(u: Setup, passes: map<(U32, U32), PassState>) {
    && |u.descs| == NumStages && CapsOk(u.caps) && IndicesValid(u.e) && CompilerAgrees(u.e, u.compile)
    && forall st {:trigger ShareReady(u.e, st, u.descs[st], passes)} ::
         0 <= st < NumStages && u.descs[st].techPass != NotCompiled ==> ShareReady(u.e, st, u.descs[st], passes)
  }

  /** What stage `st` holds after `SetShader`: shared from the pass its `tech_pass` names,
      compiled when it has a profile, untouched otherwise. */
  ghost function Expected(u: Setup, st: nat, passes: map<(U32, U32), PassState>): (o: Outcome)
    requires SetupOk(u, passes) && st < NumStages
    ensures st != VertexStage ==> o.geometry.None?
    ensures u.descs[st].techPass == NotCompiled && u.descs[st].profile == "" ==> o == SkippedOutcome()
  {
    var d := u.descs[st];
    if d.techPass != NotCompiled then
      assert ShareReady(u.e, st, d, passes);
      SharedOutcomeOf(u.e, st, passes[UnpackTechPass(d.techPass)])
    else if d.profile == "" then SkippedOutcome()
    else CompiledOutcome(u.e, st, d, u.caps, u.compile, u.hs)
  }

  /** Whatever a stage ends up with meets the stage invariant. */
  lemma ExpectedOk(u: Setup, st: nat, passes: map<(U32, U32), PassState>)
    requires SetupOk(u, passes) && st < NumStages
    ensures var o := Expected(u, st, passes); StageOk(o.store, o.gpu, o.binds, st)
  {
    var d := u.descs[st];
    if d.techPass != NotCompiled {
      assert ShareReady(u.e, st, d, passes);
      var p := passes[UnpackTechPass(d.techPass)];
      SharedOk(u.e, st, p.stores[st], p.paramBinds[st], SharedBuffers(p.stores[st].mirrors));
    } else if d.profile != "" {
      CompiledOutcomeOk(u.e, st, d, u.caps, u.compile, u.hs);
    }
  }

  /** `os` lists, stage by stage, what `SetShader` leaves in each stage. */
  ghost predicate Predicted(u: Setup, passes: map<(U32, U32), PassState>, os: seq<Outcome>) {
    && SetupOk(u, passes) && |os| == NumStages
    && forall st {:trigger Expected(u, st, passes)} :: 0 <= st < NumStages ==> os[st] == Expected(u, st, passes)
  }

  /** The six outcomes exist, each meets the stage invariant, and only the vertex stage
      assigns the geometry field on the side. */
  lemma Predict(u: Setup, passes: map<(U32, U32), PassState>) returns (os: seq<Outcome>)
    requires SetupOk(u, passes)
    ensures Predicted(u, passes, os) && OutcomesOk(os)
  {
    os := seq(NumStages, st requires 0 <= st < NumStages => Expected(u, st, passes));
    forall st | 0 <= st < NumStages
      ensures os[st] == Expected(u, st, passes)
      ensures StageOk(os[st].store, os[st].gpu, os[st].binds, st)
    {
      ExpectedOk(u, st, passes);
    }
  }

  /** Every predicted stage state is well formed, and only the vertex stage assigns the
      geometry field as a side effect. */
  predicate OutcomesOk(os: seq<Outcome>) {
    && |os| == NumStages && GeometryFromVertexOnly(os)
    && forall st :: 0 <= st < NumStages ==> StageOk(os[st].store, os[st].gpu, os[st].binds, st)
  }

  /** Only the vertex stage assigns the geometry field as a side effect. */
  predicate GeometryFromVertexOnly(os: seq<Outcome>) {
    forall st :: 0 <= st < |os| && st != VertexStage ==> os[st].geometry.None?
  }

  /** The program fields after the first `n` stages' assignments, in stage order. */
  function ProgramsAfter(os: seq<Outcome>, n: nat): (ps: seq<Option<ProgramId>>)
    requires n <= |os| <= NumStages
    ensures |ps| == NumStages
  {
    if n == 0 then seq(NumStages, _ => None)
    else ApplyOutcome(ProgramsAfter(os, n - 1), n - 1, os[n - 1])
  }

  /** Each program field ends up with its own stage's assignment, except that the geometry
      field takes the vertex stage's stream-output program first and the geometry stage's
      own program over it. */
  lemma {:induction false} ProgramsAfterStages(os: seq<Outcome>, n: nat)
    requires |os| == NumStages && n <= NumStages && GeometryFromVertexOnly(os)
    ensures forall st :: 0 <= st < NumStages && st != GeometryStage ==>
      ProgramsAfter(os, n)[st] == if st < n then Apply(None, os[st].program) else None
    ensures ProgramsAfter(os, n)[GeometryStage] ==
      if n == 0 then None
      else if n <= GeometryStage then Apply(None, os[VertexStage].geometry)
      else Apply(Apply(None, os[VertexStage].geometry), os[GeometryStage].program)
    decreases n
  {
    if n > 0 {
      ProgramsAfterStages(os, n - 1);
    }
  }

  /** The program fields after a stage's assignments. */
  function ApplyOutcome(ps: seq<Option<ProgramId>>, st: nat, o: Outcome): (r: seq<Option<ProgramId>>)
    requires |ps| == NumStages && st < NumStages
    ensures |r| == NumStages
  {
    var ps1 := ps[st := Apply(ps[st], o.program)];
    ps1[GeometryStage := Apply(ps1[GeometryStage], o.geometry)]
  }

  /** The five per-stage fields of the binding state: mirrors, flags, samplers, views and
      unordered-access views. */
  type Stores = (seq<seq<seq<Word>>>, seq<seq<bool>>, seq<seq<Option<View>>>, seq<seq<Option<View>>>, seq<seq<Option<View>>>)

  /** The binding state with stage `st`'s part cleared. */
  function Blank(a: Stores, st: nat): (r: Stores)
    ensures |r.0| == |a.0| && |r.1| == |a.1| && |r.2| == |a.2| && |r.3| == |a.3| && |r.4| == |a.4|
  {
    if st < |a.0| && st < |a.1| && st < |a.2| && st < |a.3| && st < |a.4|
    then (a.0[st := []], a.1[st := []], a.2[st := []], a.3[st := []], a.4[st := []])
    else a
  }

  /** Replacing an element and then clearing it is clearing it. */
  lemma UpdateBlank<T>(a: seq<T>, i: nat, x: T, blank: T)
    requires i < |a|
    ensures a[i := x][i := blank] == a[i := blank]
  {
  }

  /** Stage `st` of every store replaced by `s`'s component. */
  function Put(a: Stores, st: nat, s: StageStore): (r: Stores)
    requires st < |a.0| && st < |a.1| && st < |a.2| && st < |a.3| && st < |a.4|
    ensures |r.0| == |a.0| && |r.1| == |a.1| && |r.2| == |a.2| && |r.3| == |a.3| && |r.4| == |a.4|
  {
    (a.0[st := s.mirrors], a.1[st := s.dirty], a.2[st := s.samplers], a.3[st := s.srvs], a.4[st := s.uavs])
  }

  /** Replacing a stage leaves the other stages as they were. */
  lemma BlankPut(a: Stores, st: nat, s: StageStore)
    requires st < |a.0| && st < |a.1| && st < |a.2| && st < |a.3| && st < |a.4|
    ensures Blank(Put(a, st, s), st) == Blank(a, st)
  {
    UpdateBlank(a.0, st, s.mirrors, []);
    UpdateBlank(a.1, st, s.dirty, []);
    UpdateBlank(a.2, st, s.samplers, []);
    UpdateBlank(a.3, st, s.srvs, []);
    UpdateBlank(a.4, st, s.uavs, []);
  }

  /** States that agree once stage `st` is cleared agree on every other stage. */
  lemma BlankKeeps(a: Stores, b: Stores, st: nat, s: nat)
    requires st < NumStages && s < NumStages && s != st
    requires |a.0| == |a.1| == |a.2| == |a.3| == |a.4| == NumStages
    requires |b.0| == |b.1| == |b.2| == |b.3| == |b.4| == NumStages
    requires Blank(a, st) == Blank(b, st)
    ensures a.0[s] == b.0[s] && a.1[s] == b.1[s] && a.2[s] == b.2[s] && a.3[s] == b.3[s] && a.4[s] == b.4[s]
  {
    assert Blank(a, st).0[s] == a.0[s] && Blank(b, st).0[s] == b.0[s];
    assert Blank(a, st).1[s] == a.1[s] && Blank(b, st).1[s] == b.1[s];
    assert Blank(a, st).2[s] == a.2[s] && Blank(b, st).2[s] == b.2[s];
    assert Blank(a, st).3[s] == a.3[s] && Blank(b, st).3[s] == b.3[s];
    assert Blank(a, st).4[s] == a.4[s] && Blank(b, st).4[s] == b.4[s];
  }

  function EmptyStages<T>(): (s: seq<seq<T>>)
    ensures |s| == NumStages && forall st :: 0 <= st < NumStages ==> s[st] == []
  {
    seq(NumStages, _ => [])
  }

  // ---------------------------------------------------------------------------------------
  // The object

  class ShaderObject {
    var shaderValid: seq<bool>
    var valid: bool
    /** `vertex_shader_`, `pixel_shader_`, `geometry_shader_`, `compute_shader_`,
        `hull_shader_`, `domain_shader_`, by stage index. */
    var programs: seq<Option<ProgramId>>
    var vsCode: Option<CodeId>
    var vsSignature: nat
    var memCbufs: seq<seq<seq<Word>>>
    var dirty: seq<seq<bool>>
    var cbufs: seq<seq<GpuBuffer>>
    var samplers: seq<seq<Option<View>>>
    var srvs: seq<seq<Option<View>>>
    var uavs: seq<seq<Option<View>>>
    var paramBinds: seq<seq<Binding>>

    predicate Shaped()
      reads this
    {
      && |shaderValid| == NumStages && |programs| == NumStages
      && |memCbufs| == NumStages && |dirty| == NumStages && |cbufs| == NumStages
      && |samplers| == NumStages && |srvs| == NumStages && |uavs| == NumStages
      && |paramBinds| == NumStages
    }

    function Store(st: nat): (s: StageStore)
      reads this
      requires Shaped() && st < NumStages
    {
      StageStore(memCbufs[st], dirty[st], samplers[st], srvs[st], uavs[st])
    }

    predicate Valid()
      reads this
    {
      Shaped() && forall st :: 0 <= st < NumStages ==> StageOk(Store(st), cbufs[st], paramBinds[st], st)
    }

    /** Stage `st` holds what outcome `o` describes. */
    predicate Holds(st: nat, o: Outcome)
      reads this
      requires Shaped() && st < NumStages
    {
      shaderValid[st] == o.valid && Store(st) == o.store && cbufs[st] == o.gpu && paramBinds[st] == o.binds
    }

    /** The state another pass reads from this object when it shares a stage. */
    function Snapshot(): (p: PassState)
      reads this
      requires Valid()
      ensures PassOk(p) && forall st :: 0 <= st < NumStages ==> p.stores[st] == Store(st)
    {
      PassState(shaderValid, [Store(0), Store(1), Store(2), Store(3), Store(4), Store(5)], paramBinds,
                programs, vsCode, vsSignature)
    }

    /** As constructed: every stage flagged valid, nothing else. */
    predicate Pristine()
      reads this
    {
      && shaderValid == seq(NumStages, _ => true) && programs == seq(NumStages, _ => None)
      && vsCode == None && vsSignature == 0
      && memCbufs == EmptyStages() && dirty == EmptyStages() && cbufs == EmptyStages()
      && samplers == EmptyStages() && srvs == EmptyStages() && uavs == EmptyStages()
      && paramBinds == EmptyStages()
    }

    constructor ()
      ensures Pristine() && Valid()
    {
      shaderValid := seq(NumStages, _ => true);
      valid := false;
      programs := seq(NumStages, _ => None);
      vsCode := None;
      vsSignature := 0;
      memCbufs := EmptyStages();
      dirty := EmptyStages();
      cbufs := EmptyStages();
      samplers := EmptyStages();
      srvs := EmptyStages();
      uavs := EmptyStages();
      paramBinds := EmptyStages();
    }

    /** The binding state of every stage, field by field. */
    function AllStores(): (r: Stores)
      reads this
    {
      (memCbufs, dirty, samplers, srvs, uavs)
    }

    /** Only stage `st`'s binding state changed. */
    twostate predicate OnlyStoreOf(st: nat)
      reads this
      requires old(Shaped()) && st < NumStages
    {
      Shaped() && Blank(AllStores(), st) == Blank(old(AllStores()), st)
    }

    /** The programs, flags, vertex-stage data and binding tables did not change. */
    twostate predicate KeepsTables()
      reads this
    {
      && paramBinds == old(paramBinds) && programs == old(programs)
      && shaderValid == old(shaderValid) && valid == old(valid)
      && vsCode == old(vsCode) && vsSignature == old(vsSignature)
    }

    /** One writer call on stage `st`. */
    method RunWriter(st: nat, h: ParamHandle, w: Writer, v: Value, conv: Converter)
      requires Shaped() && st < NumStages && Consistent(Store(st))
      requires Fits(w, h, ShapeOf(Store(st))) && ValueFits(w, v)
      modifies this
      ensures Shaped() && OnlyStoreOf(st) && KeepsTables() && cbufs == old(cbufs)
      ensures Store(st) == Write(old(Store(st)), h, w, v, conv)
    {
      if w.SlotWriter? {
        RunSlotWriter(st, h, w, v, conv);
      } else {
        RunBufferWriter(st, h, w, v, conv);
      }
    }

    /** A sampler, texture or buffer writer: a non-null value goes to the writer's slot. */
    method RunSlotWriter(st: nat, h: ParamHandle, w: Writer, v: Value, conv: Converter)
      requires Shaped() && st < NumStages && Consistent(Store(st))
      requires Fits(w, h, ShapeOf(Store(st))) && ValueFits(w, v) && w.SlotWriter?
      modifies this
      ensures Shaped() && OnlyStoreOf(st) && KeepsTables() && cbufs == old(cbufs)
      ensures Store(st) == Write(old(Store(st)), h, w, v, conv)
    {
      match v {
        case SamplerValue(state) =>
          if state.Some? {
            UpdateBlank(samplers, st, samplers[st][h.offset := state], []);
            samplers := samplers[st := samplers[st][h.offset := state]];
          }
        case ResourceValue(rv) =>
          if rv.Some? {
            if w.k == TextureSrv || w.k == BufferSrv {
              UpdateBlank(srvs, st, srvs[st][h.offset := Some(rv.value.srv)], []);
              srvs := srvs[st := srvs[st][h.offset := Some(rv.value.srv)]];
            } else {
              UpdateBlank(uavs, st, uavs[st][h.offset := Some(rv.value.uav)], []);
              uavs := uavs[st := uavs[st][h.offset := Some(rv.value.uav)]];
            }
          }
        case _ =>
          assert false;
      }
    }

    /** A constant-buffer writer: its buffer's mirror and flag take the writer's result. */
    method RunBufferWriter(st: nat, h: ParamHandle, w: Writer, v: Value, conv: Converter)
      requires Shaped() && st < NumStages && Consistent(Store(st))
      requires Fits(w, h, ShapeOf(Store(st))) && ValueFits(w, v) && !w.SlotWriter?
      modifies this
      ensures Shaped() && OnlyStoreOf(st) && KeepsTables() && cbufs == old(cbufs)
      ensures Store(st) == Write(old(Store(st)), h, w, v, conv)
    {
      var c := h.cbuff;
      var r := WriteBuffer(Mirror(memCbufs[st][c], dirty[st][c]), h, w, v, conv);
      UpdateBlank(memCbufs, st, memCbufs[st][c := r.cells], []);
      UpdateBlank(dirty, st, dirty[st][c := r.dirty], []);
      memCbufs := memCbufs[st := memCbufs[st][c := r.cells]];
      dirty := dirty[st := dirty[st][c := r.dirty]];
    }

    /** `pb.func()` for every binding of stage `st`, in order; the run stops at a binding
        whose writer is empty. */
    method RunStageBindings(st: nat, env: seq<Value>, conv: Converter) returns (ok: bool)
      requires Valid() && st < NumStages && EnvFits(env, paramBinds[st])
      modifies this
      ensures Shaped() && OnlyStoreOf(st) && KeepsTables() && cbufs == old(cbufs)
      ensures StageOk(Store(st), cbufs[st], paramBinds[st], st)
      ensures (Store(st), ok) == RunStage(old(Store(st)), paramBinds[st], env, conv)
    {
      var binds := paramBinds[st];
      ghost var s0 := Store(st);
      ghost var sh := ShapeOf(s0);
      var i := 0;
      while i < |binds|
        invariant 0 <= i <= |binds| && Shaped() && OnlyStoreOf(st) && KeepsTables() && cbufs == old(cbufs)
        invariant Consistent(Store(st)) && ShapeOf(Store(st)) == sh
        invariant BindsFit(binds[..i], sh) && EnvFits(env, binds[..i])
        invariant RunStage(s0, binds[..i], env, conv) == (Store(st), true)
      {
        var b := binds[i];
        PrefixFits(binds, sh, env, i + 1);
        RunStageStep(s0, binds, env, conv, i);
        if b.writer.None? {
          RunStageStops(s0, binds, env, conv, i + 1);
          ok := false;
          StageStillOk(s0, Store(st), cbufs[st], binds, st);
          return;
        }
        RunWriter(st, b.handle, b.writer.value, env[b.param], conv);
        i := i + 1;
      }
      assert binds[..i] == binds;
      ok := true;
      StageStillOk(s0, Store(st), cbufs[st], binds, st);
    }

    /** A change confined to stage `st` that leaves that stage meeting its invariant keeps the
        object valid. */
    twostate lemma ValidAfterStage(st: nat)
      requires old(Valid()) && st < NumStages && OnlyStage(st)
      requires StageOk(Store(st), cbufs[st], paramBinds[st], st)
      ensures Valid()
    {
      forall s | 0 <= s < NumStages
        ensures StageOk(Store(s), cbufs[s], paramBinds[s], s)
      {
        if s != st {
          BlankKeeps(old(AllStores()), AllStores(), st, s);
          assert cbufs[st := []][s] == cbufs[s] && old(cbufs)[st := []][s] == old(cbufs)[s];
          assert paramBinds[st := []][s] == paramBinds[s] && old(paramBinds)[st := []][s] == old(paramBinds)[s];
        }
      }
    }

    /** Maps every flagged buffer of stage `st`, copies the mirror into it and clears the
        flag. */
    method UploadStage(st: nat)
      requires Valid() && st < NumStages
      modifies this
      ensures Shaped() && KeepsTables()
      ensures memCbufs == old(memCbufs) && samplers == old(samplers) && srvs == old(srvs) && uavs == old(uavs)
      ensures dirty == old(dirty)[st := dirty[st]] && cbufs == old(cbufs)[st := cbufs[st]]
      ensures |dirty[st]| == |old(dirty[st])| && forall j :: 0 <= j < |dirty[st]| ==> !dirty[st][j]
      ensures |cbufs[st]| == |old(cbufs[st])| == |memCbufs[st]|
      ensures forall j :: 0 <= j < |cbufs[st]| ==> cbufs[st][j] == GpuBuffer(old(cbufs[st][j]).byteWidth, memCbufs[st][j])
    {
      var ms := memCbufs[st];
      var d := dirty[st];
      var g := cbufs[st];
      var j := 0;
      while j < |g|
        invariant 0 <= j <= |g| && |g| == |ms| && |d| == |ms|
        invariant forall k :: 0 <= k < j ==> !d[k] && g[k] == GpuBuffer(cbufs[st][k].byteWidth, ms[k])
        invariant forall k :: j <= k < |g| ==> d[k] == dirty[st][k] && g[k] == cbufs[st][k]
      {
        if d[j] {
          g := g[j := GpuBuffer(g[j].byteWidth, ms[j])];
          d := d[j := false];
        } else {
          assert g[j].image == ms[j];
        }
        j := j + 1;
      }
      dirty := dirty[st := d];
      cbufs := cbufs[st := g];
    }

    /** The writer loop of `Bind`: every stage's bindings run, stage by stage, until a
        binding without a writer throws. */
    method RunAll(env: seq<Value>, conv: Converter) returns (ok: bool)
      requires Valid()
      requires forall st :: 0 <= st < NumStages ==> EnvFits(env, paramBinds[st])
      modifies this
      ensures Valid() && KeepsTables() && cbufs == old(cbufs)
      ensures ok <==> Reached(paramBinds, NumStages)
      ensures forall st :: 0 <= st < NumStages ==> Store(st) == AfterRun(old(Store(st)), paramBinds, st, env, conv)
    {
      var st := 0;
      while st < NumStages
        invariant 0 <= st <= NumStages && Valid() && KeepsTables() && cbufs == old(cbufs)
        invariant Reached(paramBinds, st)
        invariant forall s :: 0 <= s < st ==> Store(s) == RunStage(old(Store(s)), paramBinds[s], env, conv).0
        invariant forall s :: st <= s < NumStages ==> Store(s) == old(Store(s))
      {
        label before:
        ok := RunStageBindings(st, env, conv);
        ValidAfterStage@before(st);
        forall s | 0 <= s < NumStages && s != st
          ensures Store(s) == old@before(Store(s))
        {
          BlankKeeps(old@before(AllStores()), AllStores(), st, s);
        }
        if !ok {
          forall s | 0 <= s < NumStages
            ensures Store(s) == AfterRun(old(Store(s)), paramBinds, s, env, conv)
          {
            if s > st {
              assert !AllWriters(paramBinds[st]);
            }
          }
          return;
        }
        st := st + 1;
      }
      ok := true;
    }

    /** The upload loop of `Bind`: every flagged buffer of every stage is uploaded. */
    method UploadAll()
      requires Valid()
      modifies this
      ensures Valid() && KeepsTables()
      ensures memCbufs == old(memCbufs) && samplers == old(samplers) && srvs == old(srvs) && uavs == old(uavs)
      ensures forall st :: 0 <= st < NumStages ==> Uploaded(old(dirty[st]), dirty[st], old(cbufs[st]), cbufs[st], memCbufs[st])
    {
      var st := 0;
      while st < NumStages
        invariant 0 <= st <= NumStages && Valid() && KeepsTables()
        invariant memCbufs == old(memCbufs) && samplers == old(samplers) && srvs == old(srvs) && uavs == old(uavs)
        invariant forall s :: 0 <= s < st ==> Uploaded(old(dirty[s]), dirty[s], old(cbufs[s]), cbufs[s], memCbufs[s])
        invariant forall s :: st <= s < NumStages ==> dirty[s] == old(dirty[s]) && cbufs[s] == old(cbufs[s])
      {
        UploadStage(st);
        UploadedOk(Store(st), cbufs[st], paramBinds[st], st);
        st := st + 1;
      }
    }

    /** `Bind`: the six programs are set; every stage's bindings run, stage by stage; every
        flagged buffer is uploaded and its flag cleared; every stage's non-empty slot vectors
        and constant buffers are attached; the compute stage's unordered-access views are
        attached last. A binding without a writer throws: the calls made so far are the
        program calls, and the stages up to the failing one have run. */
    method Bind(env: seq<Value>, conv: Converter) returns (calls: seq<DeviceCall>, ok: bool)
      requires Valid()
      requires forall st :: 0 <= st < NumStages ==> EnvFits(env, paramBinds[st])
      modifies this
      ensures Valid() && KeepsTables()
      ensures ok <==> forall st :: 0 <= st < NumStages ==> AllWriters(paramBinds[st])
      ensures forall st :: 0 <= st < NumStages ==>
        var r := AfterRun(old(Store(st)), paramBinds, st, env, conv);
        && memCbufs[st] == r.mirrors && samplers[st] == r.samplers && srvs[st] == r.srvs && uavs[st] == r.uavs
        && (ok ==> Uploaded(r.dirty, dirty[st], old(cbufs[st]), cbufs[st], memCbufs[st]))
        && (!ok ==> dirty[st] == r.dirty)
      ensures !ok ==> cbufs == old(cbufs) && calls == ProgramCalls(programs)
      ensures ok ==> calls == ProgramCalls(programs) + Flatten(AttachPlan(srvs, samplers, cbufs)) + UavCalls(uavs[ComputeStage])
    {
      calls := ProgramCalls(programs);
      ok := RunAll(env, conv);
      if !ok {
        return;
      }
      UploadAll();
      ghost var plan := AttachPlan(srvs, samplers, cbufs);
      var attach := [];
      var st := 0;
      while st < NumStages
        invariant 0 <= st <= NumStages
        invariant attach == Flatten(plan[..st])
      {
        assert plan[..st + 1][..st] == plan[..st];
        attach := attach + StageAttachCalls(st, srvs[st], samplers[st], cbufs[st]);
        st := st + 1;
      }
      assert plan[..NumStages] == plan;
      calls := calls + attach + UavCalls(uavs[ComputeStage]);
    }

    /** Only stage `st`'s binding state, GPU buffers and table changed. */
    twostate predicate OnlyStage(st: nat)
      reads this
      requires old(Shaped()) && st < NumStages
    {
      && OnlyStoreOf(st)
      && cbufs[st := []] == old(cbufs)[st := []] && paramBinds[st := []] == old(paramBinds)[st := []]
    }

    /** The program fields and vertex-stage data took `o`'s assignments, stage `st`'s flag
        is `o`'s and is ANDed into the object's flag, and the other flags are unchanged. */
    twostate predicate Assigned(st: nat, o: Outcome)
      reads this
      requires old(Shaped()) && Shaped() && st < NumStages
    {
      && shaderValid == old(shaderValid)[st := o.valid] && valid == (old(valid) && o.valid)
      && programs == ApplyOutcome(old(programs), st, o)
      && vsCode == (if st == VertexStage then o.vsCode else old(vsCode))
      && vsSignature == (if st == VertexStage then o.vsSignature else old(vsSignature))
    }

    /** Installs stage `st`'s binding state, GPU buffers and table. */
    method PutStage(st: nat, s: StageStore, gpu: seq<GpuBuffer>, binds: seq<Binding>)
      requires Shaped() && st < NumStages
      modifies this
      ensures Shaped() && OnlyStage(st)
      ensures shaderValid == old(shaderValid) && valid == old(valid) && programs == old(programs)
      ensures vsCode == old(vsCode) && vsSignature == old(vsSignature)
      ensures Store(st) == s && cbufs[st] == gpu && paramBinds[st] == binds
    {
      BlankPut(AllStores(), st, s);
      UpdateBlank(cbufs, st, gpu, []);
      UpdateBlank(paramBinds, st, binds, []);
      memCbufs, dirty, samplers, srvs, uavs, cbufs, paramBinds :=
        memCbufs[st := s.mirrors], dirty[st := s.dirty], samplers[st := s.samplers], srvs[st := s.srvs],
        uavs[st := s.uavs], cbufs[st := gpu], paramBinds[st := binds];
      assert AllStores() == Put(old(AllStores()), st, s);
    }

    /** The sharing branch of `SetShader` for stage `st`, from pass object `so`: its flag, its
        program fields (for a vertex stage also its byte code, signature and geometry
        program), null slot vectors of its lengths, its mirrors, new GPU buffers of the
        mirrors' byte sizes, and its table rebound against `e`. */
    method ShareStage(e: Effect, st: nat, so: PassState)
      requires Shaped() && st < NumStages && PassOk(so)
      requires RebindFits(e, so.paramBinds[st], ShapeOf(so.stores[st]))
      modifies this
      ensures Shaped() && OnlyStage(st)
      ensures Holds(st, SharedOutcomeOf(e, st, so)) && Assigned(st, SharedOutcomeOf(e, st, so))
      ensures StageOk(Store(st), cbufs[st], paramBinds[st], st)
    {
      var s := so.stores[st];
      var gpu := CreateBuffers(s.mirrors, false);
      var binds := RebindAll(e, so.paramBinds[st]);
      SharedOk(e, st, s, so.paramBinds[st], gpu);
      var o := Outcome(so.shaderValid[st], SharedStore(s), gpu, binds, Some(so.programs[st]),
                       if st == VertexStage then Some(so.programs[GeometryStage]) else None,
                       if st == VertexStage then so.vsCode else None,
                       if st == VertexStage then so.vsSignature else 0);
      Install(st, o);
    }

    /** The compile branch of `SetShader` for stage `st`: the program fields and byte code
        from `BuildStage`, and, when there is a reflection, zeroed mirrors, new GPU buffers,
        null slot vectors sized by the largest bind points, the binding table and, for a
        vertex stage, the input signature. */
    method CompileStage(e: Effect, st: nat, d: ShaderDesc, caps: EngineCaps, compile: Compiler, hs: Hasher)
      requires Shaped() && st < NumStages && CapsOk(caps) && IndicesValid(e) && CompilerAgrees(e, compile)
      requires Holds(st, SkippedOutcome())
      requires st == VertexStage ==> vsCode.None? && vsSignature == 0
      modifies this
      ensures Shaped() && OnlyStage(st)
      ensures Holds(st, CompiledOutcome(e, st, d, caps, compile, hs))
      ensures Assigned(st, CompiledOutcome(e, st, d, caps, compile, hs))
      ensures StageOk(Store(st), cbufs[st], paramBinds[st], st)
    {
      var b := BuildStage(e, st, d, caps, compile);
      CompiledOutcomeOk(e, st, d, caps, compile, hs);
      var want := CompiledOutcome(e, st, d, caps, compile, hs);
      if b.reflection.Some? {
        var store, gpu, binds, sig := ReflectStage(e, st, b.reflection.value, hs);
        var o := Outcome(b.valid, store, gpu, binds, Assign(b.program), Assign(b.geometry), b.code, sig);
        assert o == want;
        Install(st, o);
      } else {
        AssignFields(st, want);
      }
    }

    /** Sets stage `st`'s flag and the program fields `o` assigns; a vertex stage also takes
        `o`'s byte code and signature. */
    method AssignFields(st: nat, o: Outcome)
      requires Shaped() && st < NumStages
      modifies this
      ensures Shaped() && Assigned(st, o)
      ensures AllStores() == old(AllStores()) && cbufs == old(cbufs) && paramBinds == old(paramBinds)
    {
      shaderValid := shaderValid[st := o.valid];
      valid := valid && o.valid;
      programs := ApplyOutcome(programs, st, o);
      if st == VertexStage {
        vsCode := o.vsCode;
        vsSignature := o.vsSignature;
      }
    }

    /** Assigns `o` to stage `st` in full: its flag, program fields and binding state. */
    method Install(st: nat, o: Outcome)
      requires Shaped() && st < NumStages
      modifies this
      ensures Shaped() && OnlyStage(st) && Holds(st, o) && Assigned(st, o)
    {
      AssignFields(st, o);
      PutStage(st, o.store, o.gpu, o.binds);
    }

    /** One pass of `SetShader`'s loop: stage `st` is shared, compiled or left alone, and the
        description's new `tech_pass` is returned. */
    method SetStage(u: Setup, st: nat, tech: U32, pass: U32, passes: map<(U32, U32), PassState>, ghost os: seq<Outcome>)
      returns (tp: U32)
      requires Shaped() && st < NumStages && Predicted(u, passes, os)
      requires Holds(st, SkippedOutcome())
      requires st == VertexStage ==> vsCode.None? && vsSignature == 0
      modifies this
      ensures Shaped() && OnlyStage(st)
      ensures tp == NewTechPass(u.descs[st], tech, pass)
      ensures Holds(st, os[st]) && Assigned(st, os[st])
      ensures forall s :: 0 <= s < NumStages && s != st ==>
        Store(s) == old(Store(s)) && cbufs[s] == old(cbufs[s]) && paramBinds[s] == old(paramBinds[s])
        && shaderValid[s] == old(shaderValid[s])
    {
      assert os[st] == Expected(u, st, passes);
      var d := u.descs[st];
      if d.techPass != NotCompiled {
        assert ShareReady(u.e, st, d, passes);
        ShareStage(u.e, st, passes[UnpackTechPass(d.techPass)]);
        tp := d.techPass;
      } else if d.profile != "" {
        CompileStage(u.e, st, d, u.caps, u.compile, u.hs);
        tp := PackTechPass(tech, pass);
      } else {
        tp := d.techPass;
      }
      forall s | 0 <= s < NumStages && s != st
        ensures Store(s) == old(Store(s)) && cbufs[s] == old(cbufs[s]) && paramBinds[s] == old(paramBinds[s])
        ensures shaderValid[s] == old(shaderValid[s])
      {
        BlankKeeps(old(AllStores()), AllStores(), st, s);
        assert cbufs[st := []][s] == cbufs[s] && paramBinds[st := []][s] == paramBinds[s];
      }
    }

    /** `SetShader` on a new object: each stage in index order is shared, compiled or left
        alone, and the object's flag is the AND of the stage flags. Returns the stages'
        `tech_pass` words afterwards. */
    method SetShader(u: Setup, tech: U32, pass: U32, passes: map<(U32, U32), PassState>)
      returns (techPasses: seq<U32>)
      requires Pristine() && SetupOk(u, passes)
      modifies this
      ensures Valid()
      ensures |techPasses| == NumStages
      ensures forall st :: 0 <= st < NumStages ==> techPasses[st] == NewTechPass(u.descs[st], tech, pass)
      ensures forall st :: 0 <= st < NumStages ==> Holds(st, Expected(u, st, passes))
      ensures forall st :: 0 <= st < NumStages && st != GeometryStage ==>
        programs[st] == Apply(None, Expected(u, st, passes).program)
      ensures programs[GeometryStage] ==
        Apply(Apply(None, Expected(u, VertexStage, passes).geometry), Expected(u, GeometryStage, passes).program)
      ensures vsCode == Expected(u, VertexStage, passes).vsCode
      ensures vsSignature == Expected(u, VertexStage, passes).vsSignature
      ensures valid <==> forall st :: 0 <= st < NumStages ==> shaderValid[st]
    {
      ghost var os := Predict(u, passes);
      techPasses := [];
      valid := true;
      Started(os);
      var st := 0;
      while st < NumStages
        invariant 0 <= st <= NumStages && SetUpTo(os, st)
        invariant techPasses == NewTechPasses(u.descs, tech, pass, st)
      {
        var tp := Step(u, st, tech, pass, passes, os);
        techPasses := techPasses + [tp];
        st := st + 1;
      }
      FinishedStages(u, passes, os, st);
      FinishedPrograms(u, passes, os, st);
    }

    /** A new object with its flag set is where `SetShader`'s loop starts. */
    lemma Started(os: seq<Outcome>)
      requires Pristine() && valid && |os| == NumStages
      ensures SetUpTo(os, 0)
    {
      forall s | 0 <= s < NumStages
        ensures Holds(s, SkippedOutcome())
      {
        assert shaderValid[s] && memCbufs[s] == [] && dirty[s] == [] && samplers[s] == [];
      }
    }

    /** The stages and the flag `SetShader`'s loop leaves behind, stated against the setup. */
    lemma FinishedStages(u: Setup, passes: map<(U32, U32), PassState>, os: seq<Outcome>, n: nat)
      requires Predicted(u, passes, os) && OutcomesOk(os) && n == NumStages && SetUpTo(os, n)
      ensures Valid()
      ensures forall st :: 0 <= st < NumStages ==> Holds(st, Expected(u, st, passes))
      ensures valid <==> forall st :: 0 <= st < NumStages ==> shaderValid[st]
    {
      assert shaderValid[..n] == shaderValid;
      ValidAfterAll(shaderValid);
      forall s | 0 <= s < NumStages
        ensures StageOk(Store(s), cbufs[s], paramBinds[s], s)
      {
        assert Holds(s, os[s]);
      }
    }

    /** The program fields and vertex-stage data `SetShader`'s loop leaves behind, stated
        against the setup. */
    lemma FinishedPrograms(u: Setup, passes: map<(U32, U32), PassState>, os: seq<Outcome>, n: nat)
      requires Predicted(u, passes, os) && OutcomesOk(os) && n == NumStages && SetUpTo(os, n)
      ensures forall st :: 0 <= st < NumStages && st != GeometryStage ==>
        programs[st] == Apply(None, Expected(u, st, passes).program)
      ensures programs[GeometryStage] ==
        Apply(Apply(None, Expected(u, VertexStage, passes).geometry), Expected(u, GeometryStage, passes).program)
      ensures vsCode == Expected(u, VertexStage, passes).vsCode
      ensures vsSignature == Expected(u, VertexStage, passes).vsSignature
    {
      ProgramsAfterStages(os, n);
    }

    /** The state after the first `st` passes of `SetShader`'s loop: those stages hold their
        outcomes, the rest are as constructed, the program fields carry the passes'
        assignments, and the flag is the AND of the stage flags so far. */
    ghost predicate SetUpTo(os: seq<Outcome>, st: nat)
      reads this
    {
      && Shaped() && st <= NumStages && |os| == NumStages
      && (forall s :: 0 <= s < st ==> Holds(s, os[s]))
      && (forall s :: st <= s < NumStages ==> Holds(s, SkippedOutcome()))
      && programs == ProgramsAfter(os, st)
      && vsCode == (if st == 0 then None else os[VertexStage].vsCode)
      && vsSignature == (if st == 0 then 0 else os[VertexStage].vsSignature)
      && valid == ValidAfter(shaderValid[..st])
    }

    /** One pass of the loop, including the `&=` into the object's flag. */
    method Step(u: Setup, st: nat, tech: U32, pass: U32, passes: map<(U32, U32), PassState>, ghost os: seq<Outcome>)
      returns (tp: U32)
      requires st < NumStages && Predicted(u, passes, os) && SetUpTo(os, st)
      modifies this
      ensures SetUpTo(os, st + 1) && tp == NewTechPass(u.descs[st], tech, pass)
    {
      tp := SetStage(u, st, tech, pass, passes, os);
      assert shaderValid[..st + 1][..st] == old(shaderValid)[..st];
      forall s | 0 <= s < NumStages
        ensures s < st ==> Holds(s, os[s])
        ensures s == st ==> Holds(s, os[s])
        ensures st < s ==> Holds(s, SkippedOutcome())
      {
        assert s != st ==> old(Holds(s, if s < st then os[s] else SkippedOutcome()));
      }
    }

    /** `Clone`: a new object with this one's flags, programs and vertex-stage data; per
        stage, null slot vectors of the same lengths, the mirrors (all flagged, see the
        findings), new GPU buffers of the rounded width, and the table rebound against `e`. */
    method Clone(e: Effect) returns (r: ShaderObject)
      requires Valid()
      requires forall st :: 0 <= st < NumStages ==> RebindFits(e, paramBinds[st], ShapeOf(Store(st)))
      ensures fresh(r) && r.Valid()
      ensures r.valid == valid && r.shaderValid == shaderValid && r.programs == programs
      ensures r.vsCode == vsCode && r.vsSignature == vsSignature
      ensures forall st :: 0 <= st < NumStages ==> r.Store(st) == SharedStore(Store(st))
      ensures forall st :: 0 <= st < NumStages ==> r.cbufs[st] == ClonedBuffers(memCbufs[st])
      ensures forall st :: 0 <= st < NumStages ==>
        Resolvable(e, paramBinds[st]) && r.paramBinds[st] == Rebind(e, paramBinds[st])
    {
      var p := Snapshot();
      r := new ShaderObject();
      r.valid := valid;
      r.shaderValid := shaderValid;
      r.programs := programs;
      r.vsCode := vsCode;
      r.vsSignature := vsSignature;
      var i := 0;
      while i < NumStages
        invariant 0 <= i <= NumStages && fresh(r) && r.Shaped()
        invariant r.valid == valid && r.shaderValid == shaderValid && r.programs == programs
        invariant r.vsCode == vsCode && r.vsSignature == vsSignature
        invariant r.ClonedUpTo(e, p, i)
      {
        r.CloneStage(e, i, p);
        i := i + 1;
      }
      forall st | 0 <= st < NumStages
        ensures r.Store(st) == SharedStore(Store(st)) && r.cbufs[st] == ClonedBuffers(memCbufs[st])
        ensures Resolvable(e, paramBinds[st]) && r.paramBinds[st] == Rebind(e, paramBinds[st])
        ensures StageOk(r.Store(st), r.cbufs[st], r.paramBinds[st], st)
      {
        assert r.ClonedStage(e, p, st) && p.stores[st] == Store(st);
      }
    }

    /** The first `n` stages are `p`'s as `Clone` copies them. */
    ghost predicate ClonedUpTo(e: Effect, p: PassState, n: nat)
      reads this
    {
      Shaped() && n <= NumStages && PassOk(p) && forall s :: 0 <= s < n ==> ClonedStage(e, p, s)
    }

    /** Stage `st` is `p`'s stage `st` as `Clone` copies it. */
    predicate ClonedStage(e: Effect, p: PassState, st: nat)
      reads this
      requires Shaped() && st < NumStages && PassOk(p)
    {
      && Store(st) == SharedStore(p.stores[st]) && cbufs[st] == ClonedBuffers(p.stores[st].mirrors)
      && Resolvable(e, p.paramBinds[st]) && paramBinds[st] == Rebind(e, p.paramBinds[st])
      && StageOk(Store(st), cbufs[st], paramBinds[st], st)
    }

    /** One pass of `Clone`'s loop, run on the new object: stage `st` takes `p`'s mirrors,
        all flagged, null slot vectors, GPU buffers of the rounded width and `p`'s table
        rebound against `e`; nothing else changes. */
    method CloneStage(e: Effect, st: nat, p: PassState)
      requires Shaped() && st < NumStages && PassOk(p)
      requires RebindFits(e, p.paramBinds[st], ShapeOf(p.stores[st])) && ClonedUpTo(e, p, st)
      modifies this
      ensures ClonedUpTo(e, p, st + 1)
      ensures valid == old(valid) && shaderValid == old(shaderValid) && programs == old(programs)
      ensures vsCode == old(vsCode) && vsSignature == old(vsSignature)
    {
      var s := p.stores[st];
      var gpu := CreateBuffers(s.mirrors, true);
      var binds := RebindAll(e, p.paramBinds[st]);
      SharedOk(e, st, s, p.paramBinds[st], gpu);
      PutStage(st, SharedStore(s), gpu, binds);
      forall k | 0 <= k < st
        ensures ClonedStage(e, p, k)
      {
        BlankKeeps(old(AllStores()), AllStores(), st, k);
        assert cbufs[st := []][k] == cbufs[k] && paramBinds[st := []][k] == paramBinds[k];
        assert old(ClonedStage(e, p, k));
      }
    }

    /** `Unbind`: a null vector as long as the compute stage's UAV vector, attached over
        all of it. */
    method Unbind() returns (calls: seq<DeviceCall>)
      requires Shaped()
      ensures |calls| <= 1 && (calls == [] <==> uavs[ComputeStage] == [])
      ensures forall bound: seq<Option<View>>, i :: 0 <= i < |bound| && i < |uavs[ComputeStage]| ==>
        DeviceUavs(bound, calls)[i].None?
    {
      calls := UnbindCalls(|uavs[ComputeStage]|);
      forall bound: seq<Option<View>>
        ensures forall i :: 0 <= i < |bound| && i < |uavs[ComputeStage]| ==> DeviceUavs(bound, calls)[i].None?
      {
        UnbindReleasesAll(bound, |uavs[ComputeStage]|);
      }
    }
  }

  /** Every stage before `st` ran to the end. */
  predicate Reached(binds: seq<seq<Binding>>, st: nat)
    requires st <= |binds|
  {
    forall t :: 0 <= t < st ==> AllWriters(binds[t])
  }

  /** A stage's binding state after the writer loop of `Bind`: run to the end, or to its
      first binding without a writer, when every earlier stage ran to the end; untouched
      otherwise. */
  function AfterRun(s: StageStore, binds: seq<seq<Binding>>, st: nat, env: seq<Value>, conv: Converter): (r: StageStore)
    requires st < |binds| && Consistent(s) && BindsFit(binds[st], ShapeOf(s)) && EnvFits(env, binds[st])
    ensures Consistent(r) && ShapeOf(r) == ShapeOf(s) && ChangeTracked(s, r)
    ensures !Reached(binds, st) ==> r == s
  {
    if Reached(binds, st) then RunStage(s, binds[st], env, conv).0 else s
  }

  /** One stage's upload: every flag clear afterwards, every buffer (whatever its flag was)
      holding its mirror, and widths unchanged. */
  predicate Uploaded(dirty: seq<bool>, dirty': seq<bool>, gpu: seq<GpuBuffer>, gpu': seq<GpuBuffer>, mirrors: seq<seq<Word>>) {
    && |dirty'| == |dirty| && (forall j :: 0 <= j < |dirty'| ==> !dirty'[j])
    && |gpu'| == |gpu| == |mirrors|
    && forall j :: 0 <= j < |gpu'| ==> gpu'[j] == GpuBuffer(gpu[j].byteWidth, mirrors[j])
  }

  /** Running a stage's bindings keeps the stage invariant. */
  lemma StageStillOk(s0: StageStore, s: StageStore, gpu: seq<GpuBuffer>, binds: seq<Binding>, st: nat)
    requires StageOk(s0, gpu, binds, st) && Consistent(s) && ShapeOf(s) == ShapeOf(s0) && ChangeTracked(s0, s)
    ensures StageOk(s, gpu, binds, st)
  {
    SyncedTracked(s0, s, gpu);
    assert |s.mirrors| == |ShapeOf(s).sizes| == |s0.mirrors|;
    forall j | 0 <= j < |gpu|
      ensures 4 * |s.mirrors[j]| <= gpu[j].byteWidth
    {
      assert |s.mirrors[j]| == ShapeOf(s).sizes[j] == |s0.mirrors[j]|;
    }
  }

  /** After an upload every buffer holds its mirror, so the stage invariant holds. */
  lemma UploadedOk(s: StageStore, gpu: seq<GpuBuffer>, binds: seq<Binding>, st: nat)
    requires Consistent(s) && Roomy(s.mirrors, gpu) && BindsFit(binds, ShapeOf(s)) && OnStage(binds, st)
    requires forall j :: 0 <= j < |gpu| ==> gpu[j].image == s.mirrors[j]
    ensures StageOk(s, gpu, binds, st)
  {
  }
}
