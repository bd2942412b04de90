# D3D11 shader object binding engine, modelled in Dafny

This project models `D3D11ShaderObject` from KlayGE's Direct3D 11 render plugin. That is the
part of the engine that turns an effect's parameters into the state the GPU pipeline reads at
each draw call:

- **Typed parameter writers** (`SetD3D11ShaderParameter<...>`). Each reads one effect
  parameter and writes it into a CPU-side mirror of a constant buffer or into a resource,
  sampler or UAV slot vector. Scalar, vector and matrix writers raise the buffer's dirty flag
  only when the stored value changes.
- **`GetBindFunc`**: the dispatch table that selects a writer from the effect parameter's type
  and the reflected variable type.
- **`SetShader`**: for each of the six stages (vertex, pixel, geometry, compute, hull, domain),
  one of three things happens:
  - a stage that another pass already compiled is shared from that pass;
  - a stage with a profile is compiled, after gating by the device's shader model, and its
    reflection builds the binding table, the zeroed mirrors, the slot vectors, the GPU constant
    buffers and, for the vertex stage, the input signature hash;
  - any other stage is left untouched.

  Each compiled stage records its packed technique/pass word. The object is valid exactly when
  every stage is.
- **`Clone`**: copies the programs, flags and mirrors, creates new GPU buffers and rebinds every
  table against another effect.
- **`Bind` / `Unbind`**:
  - `Bind` sets the six programs, runs every writer, uploads each dirty buffer and clears its
    flag, attaches the non-empty slot vectors stage by stage, and attaches the compute UAVs last.
  - `Unbind` detaches the compute UAVs.
- **`GenShaderText`** and the compile-error report, which prints the lines within two of the line
  the compiler's message names.

Modules:

| Module | File | Contents |
|---|---|---|
| `Common` | `common.dfy` | 32-bit cells, options, stage numbering, the "not compiled" marker |
| `Effects` | `effects.dfy` | effect parameters, their types and values, `ParameterByName` |
| `Cells` | `cells.dfy` | what each writer does to a mirror's cells |
| `Writers` | `writers.dfy` | writers, handles, per-stage binding state, running a stage's table |
| `Dispatch` | `dispatch.dfy` | `GetBindFunc` |
| `Reflect` | `reflection.dfy` | building tables, mirrors, slot vectors and buffers from reflection |
| `Device` | `device.dfy` | GPU buffers and the device calls `Bind` and `Unbind` issue, as a trace |
| `Stages` | `stages.dfy` | shader-model gating, `tech_pass` packing, the validity AND |
| `ShaderText` | `shader_text.dfy` | `GenShaderText` and the error-line window |
| `Objects` | `shader_object.dfy` | the class `ShaderObject` and its state-changing operations |

Values are modelled as follows:

- A constant-buffer mirror is a sequence of 32-bit cells, so byte offsets are divided by four.
  A stage's binding state is a value (`StageStore`) and the object keeps one per stage in its
  fields.
- The writers' `static_cast` conversions between bool, int, uint and float are a parameter
  `conv`.
- The boost hash functions are a parameter `Hasher`.
- The compiler, the device's create calls and the reflector are one given function
  (`Compiler`) from a compile request to its outcome.
- The device calls `Bind` and `Unbind` make are returned as a sequence of `DeviceCall`s.
- The other passes' shader objects that `SetShader` shares stages from are given as
  `PassState` snapshots, which `ShaderObject.Snapshot` produces.

The scalar-array writer compares each element and raises the flag only on a change, unlike the
vector- and matrix-array writers, which always raise it. The model keeps this asymmetry, and
`Cells.ScalarArrayStoreDirtyIffDiffers` states what the scalar-array writer does.

All source paths below are relative to the repository root; `D3D11ShaderObject.cpp` stands for
`KlayGE/Plugins/Src/Render/D3D11/D3D11ShaderObject.cpp`.

## Model

| member | source | states |
|---|---|---|
| Cells.Splice | KlayGE/Plugins/Src/Render/D3D11/D3D11ShaderObject.cpp:265 | a `memcpy` into the mirror: the copied cells hold the source, every other cell is unchanged, the length is kept |
| Cells.SpliceSlice | KlayGE/Plugins/Src/Render/D3D11/D3D11ShaderObject.cpp:265 | reading back the copied range gives exactly what was copied |
| Cells.StoreIfChanged | KlayGE/Plugins/Src/Render/D3D11/D3D11ShaderObject.cpp:78-88 | the compare-then-write of the scalar and vector writers: the target cells end up equal to the value, no other cell changes, the flag is set exactly when it was set or the old cells differed, and a clean result is the untouched mirror |
| Cells.StoreIfChangedIdempotent | KlayGE/Plugins/Src/Render/D3D11/D3D11ShaderObject.cpp:105-115 | applying the same value twice is the same as applying it once |
| Cells.StoreIfChangedAtMostOneUpload | KlayGE/Plugins/Src/Render/D3D11/D3D11ShaderObject.cpp:78-88 | after an upload clears the flag, re-applying the same value leaves the mirror clean, so an unchanged value is uploaded at most once |
| Cells.Transpose | KlayGE/Plugins/Src/Render/D3D11/D3D11ShaderObject.cpp:137 | `MathLib::transpose`: cell i of the result is the matrix entry at row i mod 4, column i div 4 |
| Cells.TransposeInvolution | KlayGE/Plugins/Src/Render/D3D11/D3D11ShaderObject.cpp:137 | transposing twice gives the matrix back, so the mirror loses no information |
| Cells.MatrixStore | KlayGE/Plugins/Src/Render/D3D11/D3D11ShaderObject.cpp:132-143 | the matrix writer keeps the mirror's length; its contents are stated by `Cells.MatrixStoreRows` |
| Cells.MatrixStoreRows | KlayGE/Plugins/Src/Render/D3D11/D3D11ShaderObject.cpp:127-143 | only the first `rows` registers are compared and written, and they receive the transposed matrix; cells outside are unchanged; the flag is set exactly when those rows differed |
| Cells.ScalarArrayStore | KlayGE/Plugins/Src/Render/D3D11/D3D11ShaderObject.cpp:161-174 | the scalar-array loop keeps the mirror's length; its contents are stated by `Cells.ScalarArrayStoreAt`, `Cells.ScalarArrayStoreElsewhere` and `Cells.ScalarArrayStoreDirtyIffDiffers` |
| Cells.ScalarArrayStoreElsewhere | KlayGE/Plugins/Src/Render/D3D11/D3D11ShaderObject.cpp:166-173 | cells the loop's stride of four does not visit keep their value |
| Cells.ScalarArrayStoreAt | KlayGE/Plugins/Src/Render/D3D11/D3D11ShaderObject.cpp:168-171 | element k ends up in the cell 4k after the variable's offset |
| Cells.ScalarArrayStoreDirty | KlayGE/Plugins/Src/Render/D3D11/D3D11ShaderObject.cpp:166-173 | the flag ends up set exactly when it was set or some cell changed |
| Cells.ScalarArrayStoreDirtyIffDiffers | KlayGE/Plugins/Src/Render/D3D11/D3D11ShaderObject.cpp:166-173 | the flag ends up set exactly when it was set or some element differed from its cell |
| Cells.ScalarArrayStoreCleanUnchanged | KlayGE/Plugins/Src/Render/D3D11/D3D11ShaderObject.cpp:166-173 | a clean result means the mirror is untouched |
| Cells.Pad4 | KlayGE/Plugins/Src/Render/D3D11/D3D11ShaderObject.cpp:202 | a 2- or 3-component vector widened to four components: its own components first, then zeros |
| Cells.Packed | KlayGE/Plugins/Src/Render/D3D11/D3D11ShaderObject.cpp:199-203 | the padded array `v4` has four cells per element |
| Cells.PackedAt | KlayGE/Plugins/Src/Render/D3D11/D3D11ShaderObject.cpp:199-203 | element k of the padded array occupies cells 4k to 4k+3, padded with zeros |
| Cells.PackedPrefix | KlayGE/Plugins/Src/Render/D3D11/D3D11ShaderObject.cpp:232-237 | padding a prefix of the elements gives the corresponding prefix of the padded array |
| Cells.VectorArrayStore | KlayGE/Plugins/Src/Render/D3D11/D3D11ShaderObject.cpp:197-206 | the vector-array writer keeps the mirror's length and always raises the flag, even for an empty value |
| Cells.VectorArrayStoreLayout | KlayGE/Plugins/Src/Render/D3D11/D3D11ShaderObject.cpp:204 | for the first min(elements, value length) elements, component i of element k lands at cell 4k+i, and the padding cells are zero |
| Cells.VectorArrayStoreElsewhere | KlayGE/Plugins/Src/Render/D3D11/D3D11ShaderObject.cpp:204 | the `std::min` bound: no cell beyond min(elements, value length) registers is written |
| Cells.MatrixArrayStore | KlayGE/Plugins/Src/Render/D3D11/D3D11ShaderObject.cpp:292-298 | the matrix-array loop keeps the mirror's length; its contents are stated by `Cells.MatrixArrayStoreAt` and `Cells.MatrixArrayStoreElsewhere` |
| Cells.MatrixArrayStoreElsewhere | KlayGE/Plugins/Src/Render/D3D11/D3D11ShaderObject.cpp:292-298 | cells outside the written matrices' registers keep their value |
| Cells.MatrixArrayStoreAt | KlayGE/Plugins/Src/Render/D3D11/D3D11ShaderObject.cpp:295-297 | matrix k's transposed rows occupy `rows` registers starting `rows·k` registers after the variable's offset |
| Writers.SlotsOf | KlayGE/Plugins/Src/Render/D3D11/D3D11ShaderObject.cpp:309-427 | the sampler writer targets the sampler vector and the two UAV writers the UAV vector; the other slot writers target the SRV vector |
| Writers.ShapeOf | KlayGE/Plugins/Src/Render/D3D11/D3D11ShaderObject.cpp:1071-1074 | a stage's shape lists each mirror's length and each slot vector's length |
| Writers.Slots | KlayGE/Plugins/Src/Render/D3D11/D3D11ShaderObject.cpp:1156-1158 | a slot vector has the length its shape records |
| Writers.ChangeTrackedTrans | KlayGE/Plugins/Src/Render/D3D11/D3D11ShaderObject.cpp:1641-1647 | "a clean flag guards an unchanged mirror" composes across consecutive writer calls |
| Writers.ConvertAll | KlayGE/Plugins/Src/Render/D3D11/D3D11ShaderObject.cpp:168-170 | each element is converted by the same `static_cast` |
| Writers.WithMirror | KlayGE/Plugins/Src/Render/D3D11/D3D11ShaderObject.cpp:86 | replacing one buffer's mirror of the same length keeps the stage's shape |
| Writers.WriteMirror | KlayGE/Plugins/Src/Render/D3D11/D3D11ShaderObject.cpp:78-307 | every constant-buffer writer keeps the mirror's length; what each writer stores is stated by the `Cells` lemmas and `Objects.WriteBuffer`, and what it leaves alone by `Writers.WriteMirrorInside` |
| Writers.Write | KlayGE/Plugins/Src/Render/D3D11/D3D11ShaderObject.cpp:69-427 | any writer call keeps the stage's shape: mirror lengths and slot-vector lengths |
| Writers.WriteFrame | KlayGE/Plugins/Src/Render/D3D11/D3D11ShaderObject.cpp:69-427 | a slot writer changes one slot of one vector and no mirror or flag; a buffer writer changes only its own buffer's mirror and flag and no slot |
| Writers.SlotWriteResult | KlayGE/Plugins/Src/Render/D3D11/D3D11ShaderObject.cpp:318-426 | a non-null sampler, texture or buffer goes into its slot as its SRV or UAV; a null one leaves the slot as it was |
| Writers.WriteChangeTracked | KlayGE/Plugins/Src/Render/D3D11/D3D11ShaderObject.cpp:78-307 | every writer raises the flag of any buffer whose mirror it changes |
| Writers.RewriteAfterUploadClean | KlayGE/Plugins/Src/Render/D3D11/D3D11ShaderObject.cpp:78-307 | after an upload, re-running a writer with the same value raises the flag again exactly for the vector-array and matrix-array writers |
| Writers.WriteMirrorInside | KlayGE/Plugins/Src/Render/D3D11/D3D11ShaderObject.cpp:78-307 | no cell outside the writer's `Extent` from the handle's offset changes, with the element count honoured; that extent is whole registers for the vector-array and matrix writers (see `Reflect.VectorArrayZeroesPackedNeighbour`) |
| Writers.ScalarArrayCellsAsWritten | KlayGE/Plugins/Src/Render/D3D11/D3D11ShaderObject.cpp:166-172 | as written, the loop visits cell offset+4i for every element i of the value, whatever the reflected count |
| Writers.ScalarArrayOverrunAsWritten | KlayGE/Plugins/Src/Render/D3D11/D3D11ShaderObject.cpp:161-174 | a one-element float array given a two-element value: as written, the loop's second cell is one past the end of the mirror; with the count honoured, nothing past the first cell is written |
| Writers.MatrixArrayCellsAsWritten | KlayGE/Plugins/Src/Render/D3D11/D3D11ShaderObject.cpp:292-298 | as written, the loop writes `rows` registers for every matrix of the value, whatever the reflected count |
| Writers.MatrixArrayOverrunAsWritten | KlayGE/Plugins/Src/Render/D3D11/D3D11ShaderObject.cpp:286-300 | a one-element matrix array given two matrices: as written, the second matrix starts at the end of the 16-cell mirror; with the count honoured, the mirror keeps its length |
| Writers.RunStage | KlayGE/Plugins/Src/Render/D3D11/D3D11ShaderObject.cpp:1643-1646 | running a stage's table keeps its shape and tracks changes; the run completes exactly when every binding has a writer |
| Writers.RunStageStep | KlayGE/Plugins/Src/Render/D3D11/D3D11ShaderObject.cpp:1643-1646 | one more binding either stops the run, when it has no writer, or applies its writer to the parameter's value |
| Writers.RunStageStops | KlayGE/Plugins/Src/Render/D3D11/D3D11ShaderObject.cpp:1643-1646 | once a run has stopped, the rest of the table changes nothing |
| Writers.RunStageSlotsOnly | KlayGE/Plugins/Src/Render/D3D11/D3D11ShaderObject.cpp:1159-1204 | a table of resource bindings only never touches a mirror or flag |
| Dispatch.SelectWriterAsWritten | KlayGE/Plugins/Src/Render/D3D11/D3D11ShaderObject.cpp:1296-1627 | the switch as written: every resource type gets a slot writer |
| Dispatch.SelectWriter | KlayGE/Plugins/Src/Render/D3D11/D3D11ShaderObject.cpp:1296-1627 | the switch with append and consume buffers routed to the UAV writer; every other type selects exactly what the source selects |
| Dispatch.SelectWriterEmptyIff | KlayGE/Plugins/Src/Render/D3D11/D3D11ShaderObject.cpp:1300-1623 | the function object is left empty exactly for bool, uint and int parameters whose reflected type is not a scalar type, and for types outside the switch |
| Dispatch.SelectWriterTargets | KlayGE/Plugins/Src/Render/D3D11/D3D11ShaderObject.cpp:1584-1619 | a slot writer is chosen exactly for resource types, into the slot vector the type's HLSL register class names; a buffer writer is an array writer exactly when the parameter is an array |
| Dispatch.SelectWriterReadsValue | KlayGE/Plugins/Src/Render/D3D11/D3D11ShaderObject.cpp:1296-1627 | the selected writer reads the parameter's value with the shape the parameter holds |
| Dispatch.SelectWriterConversion | KlayGE/Plugins/Src/Render/D3D11/D3D11ShaderObject.cpp:1304-1472 | bool, uint and int parameters convert to the reflected scalar type; float parameters always write floats |
| Dispatch.AppendConsumeMisrouted | KlayGE/Plugins/Src/Render/D3D11/D3D11ShaderObject.cpp:1599-1605 | as written, append and consume buffers get the buffer SRV writer, though they occupy UAV registers |
| Dispatch.AppendBufferOutOfRange | KlayGE/Plugins/Src/Render/D3D11/D3D11ShaderObject.cpp:1599-1605 | a compute stage whose only resource is an append buffer at u0: as written, the writer indexes an empty SRV vector; routed to the UAV writer, it fits |
| Dispatch.GetBindFunc | KlayGE/Plugins/Src/Render/D3D11/D3D11ShaderObject.cpp:1296-1627 | the binding record keeps the handle and the parameter, and its writer is the one the type switch selects |
| Effects.TypeCategory | KlayGE/Plugins/Src/Render/D3D11/D3D11ShaderObject.cpp:1584-1619 | exactly the resource types occupy a slot vector |
| Effects.ParameterByName | KlayGE/Plugins/Src/Render/D3D11/D3D11ShaderObject.cpp:1091 | the lookup finds the first parameter with the name, and reports none exactly when no parameter has it |
| Effects.FindFrom | KlayGE/Plugins/Src/Render/D3D11/D3D11ShaderObject.cpp:1091 | the search from a position finds the first match at or after it |
| Effects.Components | KlayGE/Plugins/Src/Render/D3D11/D3D11ShaderObject.cpp:1474-1571 | the component count of each vector type: 2 exactly for `uint2`, `int2`, `float2`, 3 for the `3` types, 4 for the `4` types, and 0 exactly for every non-vector type |
| Reflect.Category | KlayGE/Plugins/Src/Render/D3D11/D3D11ShaderObject.cpp:1131-1153 | samplers size the sampler vector; textures, structured and byte-address buffers the SRV vector; the five UAV kinds the UAV vector; no other input kind sizes any vector |
| Reflect.MaxBindPoint | KlayGE/Plugins/Src/Render/D3D11/D3D11ShaderObject.cpp:1123-1154 | the running maximum starts at -1 and never goes below it; that it covers every bind point and is one of them is stated by `Reflect.SlotVectorCovers` and `Reflect.SlotVectorTight` |
| Reflect.SlotVectorCovers | KlayGE/Plugins/Src/Render/D3D11/D3D11ShaderObject.cpp:1123-1158 | every resource's bind point is within its vector, so every slot write is in range |
| Reflect.SlotVectorTight | KlayGE/Plugins/Src/Render/D3D11/D3D11ShaderObject.cpp:1123-1158 | a vector is empty exactly when no resource of its category exists; otherwise its last slot is some resource's bind point |
| Reflect.VarHandle | KlayGE/Plugins/Src/Render/D3D11/D3D11ShaderObject.cpp:1097-1104 | a variable's handle records stage, buffer, offset, type and count; rows and columns are narrowed to 8 bits |
| Reflect.ResourceHandle | KlayGE/Plugins/Src/Render/D3D11/D3D11ShaderObject.cpp:1180-1201 | a resource's handle has its bind point as offset, and its type is sampler, buffer or texture by input kind and dimension |
| Reflect.VarBindings | KlayGE/Plugins/Src/Render/D3D11/D3D11ShaderObject.cpp:1083-1109 | every variable binding belongs to this stage and buffer, is `GetBindFunc` of its handle, and names the parameter the lookup found |
| Reflect.VarBindingsExactly | KlayGE/Plugins/Src/Render/D3D11/D3D11ShaderObject.cpp:1089-1107 | a variable gets a binding if and only if it is used and its name resolves |
| Reflect.CBufferBindings | KlayGE/Plugins/Src/Render/D3D11/D3D11ShaderObject.cpp:1075-1121 | every binding from the buffer loop names one of the stage's buffers and the parameter the lookup found |
| Reflect.CBufferBindingsStep | KlayGE/Plugins/Src/Render/D3D11/D3D11ShaderObject.cpp:1075-1121 | each buffer appends its variables' bindings, in buffer order |
| Reflect.ResourceBindings | KlayGE/Plugins/Src/Render/D3D11/D3D11ShaderObject.cpp:1160-1211 | every resource binding belongs to this stage, is `GetBindFunc` of its handle, and names the parameter the lookup found |
| Reflect.StageBindings | KlayGE/Plugins/Src/Render/D3D11/D3D11ShaderObject.cpp:1075-1211 | the stage's table, variables first, then resources, holds only resolved bindings of this stage |
| Reflect.Zeros | KlayGE/Plugins/Src/Render/D3D11/D3D11ShaderObject.cpp:1081 | a resized mirror holds zeros |
| Reflect.FreshStoreAsWritten | KlayGE/Plugins/Src/Render/D3D11/D3D11ShaderObject.cpp:1071-1081 | as written, the flags are resized along with the mirrors |
| Reflect.FreshStore | KlayGE/Plugins/Src/Render/D3D11/D3D11ShaderObject.cpp:1071-1158 | the same mirrors and slot vectors as written, with every flag raised so that the first `Bind` uploads every buffer |
| Reflect.FreshBuffers | KlayGE/Plugins/Src/Render/D3D11/D3D11ShaderObject.cpp:1111-1120 | one new, unwritten GPU buffer per reflected buffer, its size rounded up to 16 bytes |
| Reflect.FreshBuffersHoldMirrors | KlayGE/Plugins/Src/Render/D3D11/D3D11ShaderObject.cpp:1081-1112 | each GPU buffer is wide enough for its mirror |
| Reflect.MirrorSizes | KlayGE/Plugins/Src/Render/D3D11/D3D11ShaderObject.cpp:1081 | each mirror is the reflected size in 4-byte cells |
| Reflect.ResourceBindingFits | KlayGE/Plugins/Src/Render/D3D11/D3D11ShaderObject.cpp:1156-1203 | a resource's binding has a slot writer whose slot lies inside the vector sized from the resources |
| Reflect.ResourceBindingsFit | KlayGE/Plugins/Src/Render/D3D11/D3D11ShaderObject.cpp:1156-1211 | every resource binding fits the slot vectors and only writes slots |
| Reflect.VarBindingsFit | KlayGE/Plugins/Src/Render/D3D11/D3D11ShaderObject.cpp:1083-1109 | every variable binding's writer writes only its buffer's mirror and stays inside it, derived from the reflected layout (`BuffersLaidOut`) and the declared types (`VarsAgree`) through `Reflect.DeclaredVarFits` |
| Reflect.DeclaredVarFits | KlayGE/Plugins/Src/Render/D3D11/D3D11ShaderObject.cpp:1083-1109 | the writer `GetBindFunc` selects for a used variable declared with its parameter's type is a constant-buffer writer that fits the mirror of the buffer the variable lies in |
| Reflect.ExtentInside | KlayGE/Plugins/Src/Render/D3D11/D3D11ShaderObject.cpp:1083-1109 | the cells a writer touches end inside the buffer when the variable has the writer's shape, because arrays and matrices start on a register and the buffer is whole registers |
| Reflect.VectorArrayZeroesPackedNeighbour | KlayGE/Plugins/Src/Render/D3D11/D3D11ShaderObject.cpp:197-206 | in `float2 a[2]; float2 b;` the layout is well formed and writing `a` zeroes the cells of `b` that HLSL packs into `a`'s last register |
| Reflect.CBufferBindingsFit | KlayGE/Plugins/Src/Render/D3D11/D3D11ShaderObject.cpp:1075-1121 | every binding from the buffer loop fits its mirror and writes no slot, given a laid-out reflection whose variables are declared with their parameters' types |
| Reflect.StageBindingsFit | KlayGE/Plugins/Src/Render/D3D11/D3D11ShaderObject.cpp:1071-1211 | the whole table fits the state built from the same reflection, given the reflection is laid out by HLSL's packing and agrees with the effect's types |
| Reflect.BindingsReadValues | KlayGE/Plugins/Src/Render/D3D11/D3D11ShaderObject.cpp:1296-1627 | every binding built by `GetBindFunc` reads a value of the shape its parameter holds |
| Reflect.SyncedTracked | KlayGE/Plugins/Src/Render/D3D11/D3D11ShaderObject.cpp:1641-1663 | writers that track changes keep every clean buffer's GPU copy equal to its mirror |
| Reflect.FreshStoreSynced | KlayGE/Plugins/Src/Render/D3D11/D3D11ShaderObject.cpp:1071-1120 | a freshly reflected stage, with flags raised, is in step with its unwritten GPU buffers |
| Reflect.FreshStoreAsWrittenUnsynced | KlayGE/Plugins/Src/Render/D3D11/D3D11ShaderObject.cpp:1071-1081 | as written, a fresh stage is out of step with its GPU buffer, and a writer storing the zero already in the mirror leaves the flag clear, so the buffer is never uploaded |
| Reflect.SignatureConcat | KlayGE/Plugins/Src/Render/D3D11/D3D11ShaderObject.cpp:1213-1232 | the signature hash is a left fold: the hash of more input parameters continues the hash of the first ones |
| Device.BufferWidth | KlayGE/Plugins/Src/Render/D3D11/D3D11ShaderObject.cpp:1112 | `(Size + 15) / 16 * 16` is the least multiple of 16 not below the size |
| Device.BufferWidthExact | KlayGE/Plugins/Src/Render/D3D11/D3D11ShaderObject.cpp:1112 | rounding changes the size exactly when it is not a whole number of registers |
| Device.NewBuffer | KlayGE/Plugins/Src/Render/D3D11/D3D11ShaderObject.cpp:1117-1118 | a buffer created without initial data has the requested width and no contents |
| Device.ProgramCalls | KlayGE/Plugins/Src/Render/D3D11/D3D11ShaderObject.cpp:1634-1639 | `Bind` sets all six programs, each stage's own, a null one included |
| Device.StageAttachCalls | KlayGE/Plugins/Src/Render/D3D11/D3D11ShaderObject.cpp:1667-1680 | at most three attach calls per stage; which calls is stated by `Device.StageAttachCallsIff` |
| Device.StageAttachCallsIff | KlayGE/Plugins/Src/Render/D3D11/D3D11ShaderObject.cpp:1667-1680 | views, samplers and constant buffers are each attached exactly when that vector is non-empty |
| Device.AttachPlan | KlayGE/Plugins/Src/Render/D3D11/D3D11ShaderObject.cpp:1665-1681 | stage st's attach calls are made from stage st's own vectors |
| Device.CallsFor | KlayGE/Plugins/Src/Render/D3D11/D3D11ShaderObject.cpp:1665-1681 | selecting one stage's attach calls keeps no more calls than there are; which calls it keeps is stated by `Device.CallsForKeeps` |
| Device.CallsForKeeps | KlayGE/Plugins/Src/Render/D3D11/D3D11ShaderObject.cpp:1665-1681 | an attach call for a stage is in the trace exactly when it is among that stage's calls |
| Device.StageCallsFor | KlayGE/Plugins/Src/Render/D3D11/D3D11ShaderObject.cpp:1665-1681 | seen from one stage, another stage's attach calls are invisible |
| Device.FlattenFor | KlayGE/Plugins/Src/Render/D3D11/D3D11ShaderObject.cpp:1665-1681 | in the concatenated trace, a stage's attach calls are exactly its own plan |
| Device.AttachCallsFor | KlayGE/Plugins/Src/Render/D3D11/D3D11ShaderObject.cpp:1665-1681 | the attach calls the whole loop makes for a stage are exactly that stage's calls, in order |
| Device.AttachCallsNonEmpty | KlayGE/Plugins/Src/Render/D3D11/D3D11ShaderObject.cpp:1665-1681 | the loop's trace attaches a stage's views, samplers or buffers exactly when that vector is non-empty |
| Device.UavCalls | KlayGE/Plugins/Src/Render/D3D11/D3D11ShaderObject.cpp:1683-1687 | the compute UAVs are attached exactly when there are any |
| Device.UavCallsBind | KlayGE/Plugins/Src/Render/D3D11/D3D11ShaderObject.cpp:1683-1687 | after the call, each compute UAV slot from 0 holds the stage's view |
| Device.ApplyComputeUavs | KlayGE/Plugins/Src/Render/D3D11/D3D11ShaderObject.cpp:1685-1686 | `CSSetUnorderedAccessViews(start, count, views)` replaces slots start to start+count−1 and leaves the rest |
| Device.Nulls | KlayGE/Plugins/Src/Render/D3D11/D3D11ShaderObject.cpp:1697 | the null vector built in `Unbind` holds no view |
| Device.UnbindCallsAsWritten | KlayGE/Plugins/Src/Render/D3D11/D3D11ShaderObject.cpp:1695-1699 | as written, `Unbind` makes at most one call, with count 1 |
| Device.UnbindCalls | KlayGE/Plugins/Src/Render/D3D11/D3D11ShaderObject.cpp:1695-1699 | `Unbind` with the null vector's own length makes at most one call |
| Device.DeviceUavs | KlayGE/Plugins/Src/Render/D3D11/D3D11ShaderObject.cpp:1685-1698 | the device's compute UAV slots after a trace keep their number |
| Device.UnbindReleasesAll | KlayGE/Plugins/Src/Render/D3D11/D3D11ShaderObject.cpp:1690-1700 | after `Unbind`, no slot the compute UAV vector covers holds a view |
| Device.UnbindAsWrittenKeepsSecondUav | KlayGE/Plugins/Src/Render/D3D11/D3D11ShaderObject.cpp:1698 | with two UAVs bound, `Unbind` as written clears slot 0 and leaves slot 1 bound |
| Stages.Resolve | KlayGE/Plugins/Src/Render/D3D11/D3D11ShaderObject.cpp:789-869 | a profile other than "auto" is used as given |
| Stages.GateStage | KlayGE/Plugins/Src/Render/D3D11/D3D11ShaderObject.cpp:790-869 | a stage that passes the gate compiles with its resolved profile |
| Stages.GateValidIff | KlayGE/Plugins/Src/Render/D3D11/D3D11ShaderObject.cpp:790-869 | a stage passes exactly when the device's highest shader model reaches what the stage and its profile need |
| Stages.GateMonotone | KlayGE/Plugins/Src/Render/D3D11/D3D11ShaderObject.cpp:790-869 | a more capable device never rejects a stage a less capable one accepts |
| Stages.GateByModel | KlayGE/Plugins/Src/Render/D3D11/D3D11ShaderObject.cpp:790-869 | below shader model 4 only vertex and pixel stages compile; from model 5 every stage does |
| Stages.PackTechPass | KlayGE/Plugins/Src/Render/D3D11/D3D11ShaderObject.cpp:1238 | `(tech << 16) + pass` in 32-bit arithmetic is tech·2^16 + pass when both fit in 16 bits |
| Stages.UnpackTechPass | KlayGE/Plugins/Src/Render/D3D11/D3D11ShaderObject.cpp:714 | `>> 16` and `& 0xFFFF` give two halves below 2^16 that recompose the word |
| Stages.TechPassRoundTrip | KlayGE/Plugins/Src/Render/D3D11/D3D11ShaderObject.cpp:714-1238 | unpacking a packed pair recovers the technique and pass |
| Stages.TechPassUnpackRoundTrip | KlayGE/Plugins/Src/Render/D3D11/D3D11ShaderObject.cpp:714-1238 | packing an unpacked word gives the word back |
| Stages.NotCompiledOnlyAtMax | KlayGE/Plugins/Src/Render/D3D11/D3D11ShaderObject.cpp:712 | a packed pair equals the "not compiled" marker 0xFFFFFFFF only for technique and pass 0xFFFF |
| Stages.ValidAfterAll | KlayGE/Plugins/Src/Render/D3D11/D3D11ShaderObject.cpp:708-1242 | starting from true and `&=` each stage's flag gives the conjunction of all flags |
| ShaderText.MemberLine | KlayGE/Plugins/Src/Render/D3D11/D3D11ShaderObject.cpp:457-491 | a cbuffer member line is emitted exactly for non-resource parameters and ends with `;` and a line break |
| ShaderText.MemberLinesSkipResources | KlayGE/Plugins/Src/Render/D3D11/D3D11ShaderObject.cpp:454-492 | a buffer's body is empty exactly when all its members are resources |
| ShaderText.Templated | KlayGE/Plugins/Src/Render/D3D11/D3D11ShaderObject.cpp:504-510 | `Keyword<Elem> name;` ends with the parameter's name and `;` |
| ShaderText.Plain | KlayGE/Plugins/Src/Render/D3D11/D3D11ShaderObject.cpp:572-575 | `Keyword name;` ends with the parameter's name and `;` |
| ShaderText.ResourceDeclGating | KlayGE/Plugins/Src/Render/D3D11/D3D11ShaderObject.cpp:499-683 | a resource is declared exactly when the device reaches the shader model its type needs, and the declaration names the parameter |
| ShaderText.DeclaredTypes | KlayGE/Plugins/Src/Render/D3D11/D3D11ShaderObject.cpp:499-683 | every resource type but `Texture3DArray` has a declaration |
| ShaderText.Selected | KlayGE/Plugins/Src/Render/D3D11/D3D11ShaderObject.cpp:685-697 | fragment selection keeps at most the effect's fragments; which ones is stated by `ShaderText.SelectedIff` and their order by `ShaderText.SelectedAppend` |
| ShaderText.SelectedIff | KlayGE/Plugins/Src/Render/D3D11/D3D11ShaderObject.cpp:685-697 | a fragment is emitted exactly when it is for all stages or this one and the device reaches its version |
| ShaderText.SelectedAppend | KlayGE/Plugins/Src/Render/D3D11/D3D11ShaderObject.cpp:685-697 | selection preserves the effect's fragment order |
| ShaderText.GenShaderText | KlayGE/Plugins/Src/Render/D3D11/D3D11ShaderObject.cpp:438-699 | every stage's text starts with the macros, cbuffer blocks and resource declarations, and the rest is exactly the lines of the selected fragments |
| ShaderText.GenShaderTextAppend | KlayGE/Plugins/Src/Render/D3D11/D3D11ShaderObject.cpp:685-697 | one more effect fragment appends its text and a line break to a stage's text exactly when it is for that stage or all stages and the device reaches its shader model |
| ShaderText.SelectedLinesAppend | KlayGE/Plugins/Src/Render/D3D11/D3D11ShaderObject.cpp:685-697 | the fragments part grows by one fragment's line exactly when that fragment is included |
| ShaderText.StagesShareText | KlayGE/Plugins/Src/Render/D3D11/D3D11ShaderObject.cpp:438-699 | two stages that include the same fragments get the same text |
| ShaderText.SelectedSame | KlayGE/Plugins/Src/Render/D3D11/D3D11ShaderObject.cpp:685-697 | two stages that include the same fragments select the same list |
| ShaderText.Find | KlayGE/Plugins/Src/Render/D3D11/D3D11ShaderObject.cpp:898-903 | `std::string::find`: the first occurrence at or after the start, or none anywhere |
| ShaderText.RFind | KlayGE/Plugins/Src/Render/D3D11/D3D11ShaderObject.cpp:907 | `rfind` of a character: its last occurrence, or none |
| ShaderText.LeadingDigits | KlayGE/Plugins/Src/Render/D3D11/D3D11ShaderObject.cpp:909-911 | `iss >> err_line` reads the longest prefix of digits |
| ShaderText.DropSpaces | KlayGE/Plugins/Src/Render/D3D11/D3D11ShaderObject.cpp:909-911 | the stream skips leading white space before the number |
| ShaderText.NatToString | KlayGE/Plugins/Src/Render/D3D11/D3D11ShaderObject.cpp:896-928 | a line number's spelling is a non-empty run of digits |
| ShaderText.DigitsValueOfString | KlayGE/Plugins/Src/Render/D3D11/D3D11ShaderObject.cpp:909-911 | reading a spelled line number gives the number back |
| ShaderText.LeadingDigitsOf | KlayGE/Plugins/Src/Render/D3D11/D3D11ShaderObject.cpp:909-911 | the digits stop at the first non-digit |
| ShaderText.FindFirst | KlayGE/Plugins/Src/Render/D3D11/D3D11ShaderObject.cpp:898 | the search finds an occurrence before which no candidate starts |
| ShaderText.FindInMessage | KlayGE/Plugins/Src/Render/D3D11/D3D11ShaderObject.cpp:898 | in a compiler message `FILE(LINE,COL): error X...`, `"): error X"` is found right after the column |
| ShaderText.RFindInHead | KlayGE/Plugins/Src/Render/D3D11/D3D11ShaderObject.cpp:906-907 | in the head of the message, the last `(` is the one after the file name |
| ShaderText.ParseNumbers | KlayGE/Plugins/Src/Render/D3D11/D3D11ShaderObject.cpp:908-911 | parsing `LINE,COL` gives the line |
| ShaderText.ErrorLineRoundTrip | KlayGE/Plugins/Src/Render/D3D11/D3D11ShaderObject.cpp:896-911 | the line number is recovered from any compiler message whose file name and column hold no parentheses |
| ShaderText.Lines | KlayGE/Plugins/Src/Render/D3D11/D3D11ShaderObject.cpp:913-925 | `getline` splits the text into at least one line, none holding a line break |
| ShaderText.LinesJoin | KlayGE/Plugins/Src/Render/D3D11/D3D11ShaderObject.cpp:913-925 | joining the lines again gives the text back |
| ShaderText.WindowExact | KlayGE/Plugins/Src/Render/D3D11/D3D11ShaderObject.cpp:915-925 | line k (numbered from 1) is printed exactly when it is within two of the error line, with its own text |
| ShaderText.WindowSize | KlayGE/Plugins/Src/Render/D3D11/D3D11ShaderObject.cpp:915-925 | the window holds the lines from max(1, e−2) to min(count, e+2), at most five |
| ShaderText.ErrorWindow | KlayGE/Plugins/Src/Render/D3D11/D3D11ShaderObject.cpp:896-928 | no message pattern, nothing printed; otherwise at most five lines |
| Objects.ScalarArrayLoop | KlayGE/Plugins/Src/Render/D3D11/D3D11ShaderObject.cpp:161-174 | the loop over min(elements, value length) converted elements is the scalar-array store |
| Objects.PadVectors | KlayGE/Plugins/Src/Render/D3D11/D3D11ShaderObject.cpp:197-203 | the loop building `v4` produces the padded array |
| Objects.MatrixArrayLoop | KlayGE/Plugins/Src/Render/D3D11/D3D11ShaderObject.cpp:292-298 | the loop over min(elements, value length) matrices is the matrix-array store |
| Objects.WriteBuffer | KlayGE/Plugins/Src/Render/D3D11/D3D11ShaderObject.cpp:78-307 | each buffer writer's `operator()` computes exactly the writer's effect on its mirror |
| Objects.CompileMacros | KlayGE/Plugins/Src/Render/D3D11/D3D11ShaderObject.cpp:875-893 | every stage is compiled with `CONSTANT_BUFFER` and `KLAYGE_D3D11`, and with `KLAYGE_BC5_AS_AG` exactly on low feature levels |
| Objects.Request | KlayGE/Plugins/Src/Render/D3D11/D3D11ShaderObject.cpp:784-895 | a stage is compiled with its entry point and its resolved profile |
| Objects.BuildStage | KlayGE/Plugins/Src/Render/D3D11/D3D11ShaderObject.cpp:782-1066 | only a vertex stage keeps byte code or creates a stream-output geometry program, and only a stage that passed the gate is reflected |
| Objects.BuildStageValidIff | KlayGE/Plugins/Src/Render/D3D11/D3D11ShaderObject.cpp:786-1062 | a compiled stage is valid exactly when it passes the gate, compiles, its program is created and, for a stream-output vertex stage, the geometry program is created |
| Objects.SkippedOutcome | KlayGE/Plugins/Src/Render/D3D11/D3D11ShaderObject.cpp:432-436 | a stage with no profile keeps its flag true and assigns no program |
| Objects.Apply | KlayGE/Plugins/Src/Render/D3D11/D3D11ShaderObject.cpp:717-748 | a field keeps its value unless assigned |
| Objects.Assign | KlayGE/Plugins/Src/Render/D3D11/D3D11ShaderObject.cpp:942-1062 | a program field is assigned only when creation succeeded |
| Objects.CompiledOutcome | KlayGE/Plugins/Src/Render/D3D11/D3D11ShaderObject.cpp:782-1236 | only a compiled vertex stage assigns the geometry program on the side |
| Objects.SharedStore | KlayGE/Plugins/Src/Render/D3D11/D3D11ShaderObject.cpp:751-756 | a shared or cloned stage has the same mirrors and shape, null slot vectors of the same lengths, and every flag raised for its new buffers |
| Objects.SharedStoreAsWritten | KlayGE/Plugins/Src/Render/D3D11/D3D11ShaderObject.cpp:755-756 | as written, mirrors and flags are copied from the source stage |
| Objects.SharedBuffers | KlayGE/Plugins/Src/Render/D3D11/D3D11ShaderObject.cpp:758-771 | a shared stage's new buffers are exactly the mirror's size, without rounding |
| Objects.ClonedBuffers | KlayGE/Plugins/Src/Render/D3D11/D3D11ShaderObject.cpp:1270-1284 | a cloned stage's new buffers have the mirror's size rounded up to 16 bytes |
| Objects.Rebind | KlayGE/Plugins/Src/Render/D3D11/D3D11ShaderObject.cpp:773-777 | every binding keeps its handle and name, names the first parameter of that name in the other effect, and gets that parameter's writer |
| Objects.RebindSameEffect | KlayGE/Plugins/Src/Render/D3D11/D3D11ShaderObject.cpp:1286-1290 | rebinding a resolved table against its own effect gives it back |
| Objects.StageBindingsResolved | KlayGE/Plugins/Src/Render/D3D11/D3D11ShaderObject.cpp:1286-1290 | a table `SetShader` built can be rebound against its effect, and rebinding changes nothing |
| Objects.ReflectCBuffers | KlayGE/Plugins/Src/Render/D3D11/D3D11ShaderObject.cpp:1075-1121 | the buffer loop produces the fresh mirrors, the rounded GPU buffers and the variable bindings |
| Objects.ReflectStage | KlayGE/Plugins/Src/Render/D3D11/D3D11ShaderObject.cpp:1064-1232 | the reflection code produces the fresh stage, its buffers, its table and, for a vertex stage only, the signature hash |
| Objects.VarBinds | KlayGE/Plugins/Src/Render/D3D11/D3D11ShaderObject.cpp:1083-1109 | the variable loop produces exactly the variable bindings |
| Objects.SlotSizes | KlayGE/Plugins/Src/Render/D3D11/D3D11ShaderObject.cpp:1123-1158 | the sizing loop gives each vector one more than its category's largest bind point |
| Objects.ResourceBinds | KlayGE/Plugins/Src/Render/D3D11/D3D11ShaderObject.cpp:1160-1211 | the resource loop produces exactly the resource bindings |
| Objects.SignatureOf | KlayGE/Plugins/Src/Render/D3D11/D3D11ShaderObject.cpp:1213-1232 | the signature loop computes the fold of the input parameters' seeds from 0 |
| Objects.CreateBuffers | KlayGE/Plugins/Src/Render/D3D11/D3D11ShaderObject.cpp:758-771 | the buffer-creation loops give unrounded buffers when sharing and rounded ones when cloning |
| Objects.RebindAll | KlayGE/Plugins/Src/Render/D3D11/D3D11ShaderObject.cpp:773-777 | the rebinding loop produces the rebound table |
| Objects.CompiledOutcomeOk | KlayGE/Plugins/Src/Render/D3D11/D3D11ShaderObject.cpp:1064-1232 | a compiled stage's mirrors, buffers and table meet the stage invariant: clean buffers match their GPU copies, GPU buffers hold their mirrors, the table fits |
| Objects.SharedOk | KlayGE/Plugins/Src/Render/D3D11/D3D11ShaderObject.cpp:751-777 | a shared stage meets the stage invariant |
| Objects.SharedStoreAsWrittenUnsynced | KlayGE/Plugins/Src/Render/D3D11/D3D11ShaderObject.cpp:755-771 | a clean stage shared as written breaks the invariant, since its new buffer is unwritten; with flags raised it holds |
| Objects.SharedOutcomeOf | KlayGE/Plugins/Src/Render/D3D11/D3D11ShaderObject.cpp:716-777 | only a shared vertex stage also takes the geometry program |
| Objects.NewTechPass | KlayGE/Plugins/Src/Render/D3D11/D3D11ShaderObject.cpp:712-1238 | a stage compiled now records the packed technique and pass; a shared or skipped stage keeps its word |
| Objects.NewTechPasses | KlayGE/Plugins/Src/Render/D3D11/D3D11ShaderObject.cpp:709-1238 | after n passes of the loop, the first n descriptions' words are updated |
| Objects.NewTechPassUnpacks | KlayGE/Plugins/Src/Render/D3D11/D3D11ShaderObject.cpp:714-1238 | a later pass that shares this stage finds this technique and pass |
| Objects.Expected | KlayGE/Plugins/Src/Render/D3D11/D3D11ShaderObject.cpp:709-1240 | a stage neither shared nor with a profile is left untouched, and only the vertex stage sets the geometry program on the side |
| Objects.ExpectedOk | KlayGE/Plugins/Src/Render/D3D11/D3D11ShaderObject.cpp:709-1240 | whatever a stage ends up with meets the stage invariant |
| Objects.ProgramsAfter | KlayGE/Plugins/Src/Render/D3D11/D3D11ShaderObject.cpp:717-1062 | the six program fields after the stages' assignments |
| Objects.ProgramsAfterStages | KlayGE/Plugins/Src/Render/D3D11/D3D11ShaderObject.cpp:717-1062 | each field holds its own stage's program, except the geometry field, where the geometry stage's assignment overrides one made by a stream-output vertex stage |
| Objects.AfterRun | KlayGE/Plugins/Src/Render/D3D11/D3D11ShaderObject.cpp:1641-1647 | a stage the run never reached is unchanged; a reached stage keeps its shape and tracks changes |
| Objects.StageStillOk | KlayGE/Plugins/Src/Render/D3D11/D3D11ShaderObject.cpp:1641-1647 | running the writers keeps the stage invariant |
| Objects.UploadedOk | KlayGE/Plugins/Src/Render/D3D11/D3D11ShaderObject.cpp:1649-1663 | after an upload every buffer holds its mirror, so the invariant holds |
| Objects.ShaderObject.Snapshot | KlayGE/Plugins/Src/Render/D3D11/D3D11ShaderObject.cpp:714 | the state another pass reads from this object holds this object's binding state |
| Objects.ShaderObject.constructor | KlayGE/Plugins/Src/Render/D3D11/D3D11ShaderObject.cpp:432-436 | a new object has every stage flagged valid, no programs and empty stages |
| Objects.ShaderObject.RunWriter | KlayGE/Plugins/Src/Render/D3D11/D3D11ShaderObject.cpp:1645 | one writer call changes only its stage's binding state, to the writer's result |
| Objects.ShaderObject.RunSlotWriter | KlayGE/Plugins/Src/Render/D3D11/D3D11ShaderObject.cpp:318-426 | a slot writer changes only its stage's slot, to the writer's result |
| Objects.ShaderObject.RunBufferWriter | KlayGE/Plugins/Src/Render/D3D11/D3D11ShaderObject.cpp:78-307 | a buffer writer changes only its stage's mirror and flag, to the writer's result |
| Objects.ShaderObject.RunStageBindings | KlayGE/Plugins/Src/Render/D3D11/D3D11ShaderObject.cpp:1643-1646 | running a stage's table leaves the state and the completion the run computes, and keeps the stage invariant |
| Objects.ShaderObject.ValidAfterStage | KlayGE/Plugins/Src/Render/D3D11/D3D11ShaderObject.cpp:1641-1647 | changing one stage within its invariant keeps the object's invariant |
| Objects.ShaderObject.UploadStage | KlayGE/Plugins/Src/Render/D3D11/D3D11ShaderObject.cpp:1651-1662 | after one stage's upload every flag is clear and each GPU buffer holds its mirror at its width; other stages are unchanged |
| Objects.ShaderObject.RunAll | KlayGE/Plugins/Src/Render/D3D11/D3D11ShaderObject.cpp:1641-1647 | the writer loop leaves each stage in the state the run over all stages gives, and completes exactly when every stage did |
| Objects.ShaderObject.UploadAll | KlayGE/Plugins/Src/Render/D3D11/D3D11ShaderObject.cpp:1649-1663 | after the upload loop every flag is clear and every GPU buffer holds its mirror |
| Objects.ShaderObject.Bind | KlayGE/Plugins/Src/Render/D3D11/D3D11ShaderObject.cpp:1629-1688 | the six programs are set; every writer runs; every buffer is uploaded and clean; each stage's non-empty vectors are attached, and the compute UAVs last; a missing writer stops the draw after the programs are set |
| Objects.ShaderObject.PutStage | KlayGE/Plugins/Src/Render/D3D11/D3D11ShaderObject.cpp:751-771 | installing a stage's state changes that stage alone |
| Objects.ShaderObject.ShareStage | KlayGE/Plugins/Src/Render/D3D11/D3D11ShaderObject.cpp:716-777 | a shared stage takes the other pass's flag, programs, shared mirrors, new buffers and rebound table, and meets the stage invariant |
| Objects.ShaderObject.CompileStage | KlayGE/Plugins/Src/Render/D3D11/D3D11ShaderObject.cpp:782-1236 | a compiled stage holds what compilation, creation and reflection produced, and meets the stage invariant |
| Objects.ShaderObject.AssignFields | KlayGE/Plugins/Src/Render/D3D11/D3D11ShaderObject.cpp:716-1242 | assigns a stage's flag, program fields and vertex data, and ANDs the flag into the object's |
| Objects.ShaderObject.Install | KlayGE/Plugins/Src/Render/D3D11/D3D11ShaderObject.cpp:716-1242 | a stage takes all of an outcome: flag, programs and binding state |
| Objects.ShaderObject.SetStage | KlayGE/Plugins/Src/Render/D3D11/D3D11ShaderObject.cpp:711-1238 | one pass of the loop gives the stage what the setup predicts, leaves the others, and returns its new `tech_pass` word |
| Objects.ShaderObject.Step | KlayGE/Plugins/Src/Render/D3D11/D3D11ShaderObject.cpp:709-1242 | one pass of the loop with its `&=` extends the prefix of stages set as predicted |
| Objects.ShaderObject.Started | KlayGE/Plugins/Src/Render/D3D11/D3D11ShaderObject.cpp:708 | the loop starts from a new object with its flag set |
| Objects.ShaderObject.FinishedStages | KlayGE/Plugins/Src/Render/D3D11/D3D11ShaderObject.cpp:1242 | after the loop each stage holds what the setup predicts, and the object is valid exactly when every stage is |
| Objects.ShaderObject.FinishedPrograms | KlayGE/Plugins/Src/Render/D3D11/D3D11ShaderObject.cpp:717-1062 | after the loop each program field holds its stage's program, with the vertex stage's geometry program overridden by the geometry stage |
| Objects.ShaderObject.SetShader | KlayGE/Plugins/Src/Render/D3D11/D3D11ShaderObject.cpp:701-1244 | each stage is shared, compiled or untouched as its description says; the program fields, vertex code and signature follow; every description's `tech_pass` word is updated; the object is valid exactly when all six stages are |
| Objects.ShaderObject.CloneStage | KlayGE/Plugins/Src/Render/D3D11/D3D11ShaderObject.cpp:1261-1290 | one pass of the clone loop copies one more stage |
| Objects.ShaderObject.Clone | KlayGE/Plugins/Src/Render/D3D11/D3D11ShaderObject.cpp:1246-1294 | a fresh object with the same flags, programs, vertex code and signature; every stage has shared mirrors, null slots, new rounded buffers and a table rebound against the other effect |
| Objects.ShaderObject.Unbind | KlayGE/Plugins/Src/Render/D3D11/D3D11ShaderObject.cpp:1690-1700 | at most one call, made exactly when the compute stage has UAVs, after which none of its slots holds a view |

## Left out

- Diagnostic output to `std::cerr` is left out. The lines the error report prints are returned
  by `ShaderText.ErrorWindow` as numbered lines instead.
- Floating point is not modelled. Values are 32-bit cells, and the `static_cast` conversions
  are a parameter.
- The boost hash functions behind `vs_signature_` are a parameter. Their numeric results are
  not modelled.
- COM reference counting, `MakeCOMPtr`, `Release` and the exceptions `TIF` throws when buffer
  creation fails are not modelled.
- The geometry stage's stream-output creation passes `vs_code_`'s bytes with the geometry
  code's size (D3D11ShaderObject.cpp:998). This is part of the given compiler outcome and is
  not modelled separately.
- The initial-counts argument of `CSSetUnorderedAccessViews` is not modelled. The source passes
  the view array reinterpreted as counts.
- `D3DCompile`, the device's `Create*Shader` calls and `D3DReflect` are inputs. Each stage's
  outcome is given by the `Compiler` function. Which `Create*Shader` call is made
  (D3D11ShaderObject.cpp:942-1062) is not distinguished.
- Reflect.VarsAgree and Reflect.ResourcesAgree, required of every reflection through
  Objects.CompilerAgrees, are assumptions. The reflection is taken to declare each variable and
  resource whose name resolves with its effect parameter's type: array or not, scalar, vector
  of as many components, or matrix, and the parameter's register class. The shader text is
  generated from those parameters, but the compiler's type checking is not modelled.
- Reflect.WellFormed is an assumption about the reflector's layout. It follows HLSL's packing:
  - each variable's size is its type's packed size;
  - arrays and matrices start on a register;
  - every variable ends inside its buffer;
  - buffer sizes are whole registers.

  From these two assumptions the fit of every writer is proved (Reflect.DeclaredVarFits).
  Matrices are laid out one register per row, as the matrix writers copy `rows` registers.
  HLSL's default column-major layout, one register per column, is not modelled.
- Writers.WriteMirrorInside frames the writer's `Extent`, not the variable's reflected bytes.
  The vector-array and matrix writers copy whole registers. So they zero the unused components
  of the variable's last register, where HLSL can pack the next variable
  (Reflect.VectorArrayZeroesPackedNeighbour). That variable's binding comes later in the table
  and writes it again. The model does not prove that this repair always happens.
- Objects.ShaderObject.Clone, and sharing in Objects.ShaderObject.SetShader through
  Objects.ShareReady, require `RebindFits`. The other effect must hold every name of the table,
  with a type whose writer fits the copied state. The source (D3D11ShaderObject.cpp:773-777,
  1286-1290) uses `ParameterByName`'s result without a check, so a missing name is a null
  dereference there. The model does not describe that case.
- The constructor leaves `vs_signature_` and `is_validate_` uninitialised. The model starts
  them at 0 and false.
- Objects.ShaderObject.SetShader requires a newly constructed object. The source assigns over
  an object's previous contents without clearing them first.
- Objects.ShaderObject.SetShader reads the other passes' objects as value snapshots. Aliasing
  between this object and a pass it shares from is not modelled.
- Objects.ShaderObject.UploadStage does not model a failing `Map`. Every upload succeeds.
- Objects.ShaderObject.Bind stops the writer loop at a binding whose function object is empty.
  The source throws there. The model reports the rest of the draw as not reached.
- `iss >> err_line` is modelled with an optional sign and decimal digits. Overflow and the
  stream's fail state are not modelled.
- The text `GenShaderText` produces uses each parameter's type name as a given string
  (`RenderEffect::TypeName` is not part of this model).

## Findings

| source | as written | input that shows it | evidently intended | confidence | as-written member | corrected member |
|---|---|---|---|---|---|---|
| KlayGE/Plugins/Src/Render/D3D11/D3D11ShaderObject.cpp:1601-1604 | append and consume structured buffers get the buffer SRV writer | a compute shader whose only resource is an `AppendStructuredBuffer` at u0: the SRV vector is empty and the writer writes SRV slot 0 | route them to the buffer UAV writer, since the reflector reports them as UAV bind points | not executed | Dispatch.AppendBufferOutOfRange | Dispatch.SelectWriter |
| KlayGE/Plugins/Src/Render/D3D11/D3D11ShaderObject.cpp:166 | the scalar-array loop runs over the value's length and ignores `elements_` | a `float a[1]` in a 16-byte buffer whose parameter holds two values: cell 4 is written, one past the mirror | loop over min(elements, value length) | not executed | Writers.ScalarArrayOverrunAsWritten | Objects.ScalarArrayLoop |
| KlayGE/Plugins/Src/Render/D3D11/D3D11ShaderObject.cpp:292-298 | the matrix-array loop writes every matrix of the value and ignores the reflected count | a `float4x4 m[1]` in a 64-byte buffer whose parameter holds two matrices: the second is copied past the mirror | write at most the reflected count | not executed | Writers.MatrixArrayOverrunAsWritten | Objects.MatrixArrayLoop |
| KlayGE/Plugins/Src/Render/D3D11/D3D11ShaderObject.cpp:1698 | `Unbind` passes a count of 1 | a compute shader with two UAVs: slot 1 stays bound after `Unbind` | pass the null vector's length | not executed | Device.UnbindAsWrittenKeepsSecondUav | Device.UnbindReleasesAll |
| KlayGE/Plugins/Src/Render/D3D11/D3D11ShaderObject.cpp:1071 | new mirrors start clean although their GPU buffers are created without data; sharing (:756) and cloning (:1268) copy the flags onto new buffers | a 16-byte constant buffer whose float at offset 0 is set to 0: the flag stays clear, so the buffer is never uploaded | raise every flag of a newly created buffer | not executed | Reflect.FreshStoreAsWrittenUnsynced | Reflect.FreshStoreSynced |
