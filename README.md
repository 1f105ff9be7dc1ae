# FlexTensor hardware intrinsics, modelled in Dafny

FlexTensor's scheduler can replace a loop nest by a hand-written micro-kernel,
called an *intrinsic*, when the nest matches the kernel's fixed shape. This
project models the part of FlexTensor that defines and registers those kernels.
Each component has its own module:

- **`IntrinRegistry`** models the intrinsic registry.
  - `Intrinsic` records and their `"{category}_{name}_{target}"` key.
  - The table `INTRIN_TABLE`, a class whose map field is updated in place. Its key is either an integer or a string, because the Python dict is keyed by integer target embeddings but queried with strings.
  - `register_intrin` and `register` as the code is written, as methods of that class. A pure corrected registration, with the membership tests fixed, sits beside them (see Findings).
  - The three registrations made when the module loads.
- **`GemmCompute`** models the int8 GEMM compute definition the scratchpad-accelerator (Gemmini) intrinsic stands for.
- **`TileEdge`** holds the tile-edge arithmetic:
  - ceiling block counts;
  - padding up to the 16-wide systolic array;
  - the extent of the last, partial tile of a split axis.
- **`GemmIntrinsic`** models the Gemmini intrinsic.
  - It starts with the scratchpad and accumulator capacity guards.
  - It selects block counts and paddings per tile, using the same `if_then_else` conditions the code builds.
  - It emits three calls to the external procedures `matmul_reset`, `matmul_kernel` and `matmul_finalize`, recorded with their exact arguments. Their C prototypes are checked argument by argument.
  - `generate_intrinsic_gemm_int8_dim16` derives the last-tile extents and conditions.
- **`GemvIntrinsic`** models the 16 x 4 uint8 x int8 GEMV kernels for AVX-512 (Skylake) and AVX-512 VNNI (Cascade Lake).
  - The reductions are PMADDUBSW then PMADDWD, or one VPDPBUSD.
  - Their lane semantics are in `Avx512`, after the Intel SDM instruction entries. Byte reinterpretation and int32/int16 arithmetic are in `Machine`.
  - It covers the three phases, body, reset and update. Each phase is a vector store into a 16-lane output array.
  - It covers the generator wrappers and their `fM == 16 and fK == 4` assertion.
- **`OptGemvVnni`** models the GEMV example.
  - Its own copy of the Skylake kernel.
  - The blocked reference computation `gemv_uint8_int8`.
  - A proof that tensorizing the reference with the kernel computes it, provided no int16 pair sum saturates: reset, then one update per reduction block.
  - The `tile_axes` helper of its schedule, as a method with a loop.

The main results are these:

- On the VNNI path the kernel computes exactly the declared GEMV: `VnniMatchesCompute`.
- On the PMADDUBSW/PMADDWD path the kernel computes the declared GEMV lane by lane, provided no pair sum saturates int16: `PairQuadMatchesCompute`. An input where it does saturate is given: `PairQuadSaturates`.
- Reset followed by updates accumulates the reductions with int32 wrap-around: `UpdatesAccumulate`.
- Every tile of the GEMM gets block counts and padding that cover exactly the elements the tile really has: `GeneratedTileCoverage`.
- Zero padding does not change the GEMM's result: `PaddingPreservesResult`.
- In the registry as written, each registration replaces the target's list and the repeat warning never fires: `RegisterReplaces`. The corrected registry appends and warns: `AppendingKeepsEarlier` and `CorrectedWarnsOnRepeat`.

Some behaviours of the code are easy to misread. The model follows the code in each:

- The capacity guards run when the intrinsic is generated, not when it is registered.
- The `matmul_kernel` bias argument is always the sentinel `1`. No call passes a null sentinel.
- A repeated registration is not refused with a warning. As written, the warning never fires and the new intrinsic replaces the target's whole list (see Findings). Even the corrected registry appends after warning, as the code does: it does not keep the first entry alone.
- The two GEMV reductions agree whenever no int16 pair sum saturates (`PathsAgree`). When one does saturate they can differ (`PairQuadSaturates`).

## Model

| member | source | states |
|---|---|---|
| IntrinRegistry.MakeIntrinsic | flextensor/intrinsic.py:10-17 | An `Intrinsic` keeps func, args, intrin, target and category. Its key is the category, `_`, the name, `_` and the target, each at its exact position. |
| IntrinRegistry.KeyAmbiguous | flextensor/intrinsic.py:12 | Two different (category, name) pairs give the same key, so the key does not determine the name. |
| IntrinRegistry.RegisterStep | flextensor/intrinsic.py:20-26 | The warning fires exactly when the intrinsic's key is a table key and `override` is false. A `KeyError` for the target arises exactly when the target has no embedding. |
| IntrinRegistry.RegisterReplaces | flextensor/intrinsic.py:20-26 | On an integer-keyed table with a known target, there is no warning. The target's entry becomes the one new intrinsic and every other entry is unchanged. |
| IntrinRegistry.RegisterUnknownTarget | flextensor/intrinsic.py:23 | An unembedded target ends the call with `KeyError`. |
| IntrinRegistry.OverrideIrrelevant | flextensor/intrinsic.py:21-22 | `override` only silences the warning. The resulting table is the same either way. |
| IntrinRegistry.RegisterTwiceKeepsLast | flextensor/intrinsic.py:24-26 | After two registrations for the same target, the target's list holds only the second intrinsic. |
| IntrinRegistry.RepeatNotWarned | flextensor/intrinsic.py:21-22 | Registering the same intrinsic twice without `override` does not warn. |
| IntrinRegistry.AppendingKeepsEarlier | flextensor/intrinsic.py:24-26 | Corrected registration: the target's list gains the new intrinsic at its end, earlier ones kept in order, and no other entry changes. |
| IntrinRegistry.RegisterCorrected | flextensor/intrinsic.py:20-26 | Corrected registration: it warns exactly when an intrinsic with the same key is already registered for the target and `override` is false. The table is the appending one. |
| IntrinRegistry.CorrectedWarnsOnRepeat | flextensor/intrinsic.py:21-26 | Under the corrected registration, a second intrinsic with the same key warns exactly when `override` is false. Both intrinsics stay in the list, in order. |
| IntrinRegistry.FreshTargetAgrees | flextensor/intrinsic.py:24-26 | For a target with no entry yet, the registration as written and the corrected one give the same table. |
| IntrinRegistry.Registry.constructor | flextensor/intrinsic.py:4 | The table starts empty. |
| IntrinRegistry.Registry.RegisterIntrin | flextensor/intrinsic.py:20-26 | Updates the table in place exactly as `RegisterStep`, the code as written, prescribes, and reports its warning, which never fires. For an embedded target the target's entry becomes the one new intrinsic. On an error the table is unchanged. |
| IntrinRegistry.Registry.Register | flextensor/intrinsic.py:29-31 | Builds the `Intrinsic` and registers it as written, with the same effect on the table and no warning. |
| IntrinRegistry.Load | flextensor/intrinsic.py:308-335 | After the three load-time registrations, made with the registration as written, the table maps embeddings 0, 1 and 2 to the Gemmini GEMM, the AVX-512 GEMV and the VNNI GEMV, one intrinsic each. |
| IntrinRegistry.EmbeddingInjective | flextensor/intrinsic.py:7 | Exactly the three targets are embedded, and no two share an embedding. |
| IntrinRegistry.RegisterAppending | flextensor/intrinsic.py:20-26 | Corrected registration's table: it fails exactly for an unembedded target, with `UnknownTarget`. Its table is stated by `AppendingKeepsEarlier`. |
| IntrinRegistry.GemminiGemm | flextensor/intrinsic.py:308-315 | The Gemmini registration: the GEMM compute, args `(32, 32, 32)`, category `gemmini`, the dim-16 generator, and the embedded target `c -device=micro_dev`. |
| IntrinRegistry.Avx512Gemv | flextensor/intrinsic.py:318-325 | The AVX-512 registration: the GEMV compute, args `(16, 4)`, category `avx512`, the Skylake generator, and the embedded target `llvm -mcpu=skylake-avx512`. |
| IntrinRegistry.VnniGemv | flextensor/intrinsic.py:328-335 | The VNNI registration: the GEMV compute, args `(16, 4)`, category `avx512-vnni`, the Cascade Lake generator, and the embedded target `llvm -mcpu=cascadelake`. |
| IntrinRegistry.AppendingLoad | flextensor/intrinsic.py:308-335 | The three corrected registrations from an empty table give that loaded table. |
| IntrinRegistry.LoadedTableAgrees | flextensor/intrinsic.py:308-335 | The registration as written builds the same load-time table, and no registration warns. |
| GemmCompute.GemmInt8Compute | flextensor/intrinsic.py:34-41 | The result is an i x j matrix of int8 values. |
| GemmCompute.ExactWhenInRange | flextensor/intrinsic.py:38-39 | An entry whose exact sum of products fits in int8 is that sum. |
| GemmCompute.PaddingPreservesResult | flextensor/intrinsic.py:34-41 | Zero-padding both operands keeps every entry of the original i x j result, and the padded entries are zero. |
| GemmIntrinsic.CapacityCheck | flextensor/intrinsic.py:67-68 | Passes exactly when `i*k + k*j <= 256*1024` and `4*i*j <= 64*1024`. A scratchpad overflow is reported first. |
| GemmIntrinsic.IntrinsicGemmInt8 | flextensor/intrinsic.py:60-165 | Succeeds exactly when both guards pass and the block size is nonzero, and otherwise gives the matching error. The phases are no body, then reset, kernel and finalize calls. |
| GemmIntrinsic.EmitPhases | flextensor/intrinsic.py:113-163 | `(None, matmul_reset, matmul_kernel, matmul_finalize)`, with 6, 16 and 6 arguments. |
| GemmIntrinsic.CallsConform | flextensor/intrinsic.py:119-160 | Each call passes one argument of the right C type for every parameter of its prototype. |
| GemmIntrinsic.KernelPositions | flextensor/intrinsic.py:119-123 | The 16 kernel parameters sit at their prototype positions. |
| GemmIntrinsic.GemmBinds | flextensor/intrinsic.py:75-89 | A, B and C are bound as sub-blocks: a variable row stride, an inner stride of 1 and an offset factor of 1. |
| GemmIntrinsic.EmittedPointers | flextensor/intrinsic.py:129-133 | The kernel call reads A and B, reads and writes C, and passes bias address 1. |
| GemmIntrinsic.EmittedStridesAndFlags | flextensor/intrinsic.py:136-137 | The kernel call passes the row strides sA, sB, 0 and sC, with `no_bias` true and `repeating_bias` false. |
| GemmIntrinsic.EmittedTileArgs | flextensor/intrinsic.py:134-135 | The kernel call passes the block counts and paddings in I, J, K order. |
| GemmIntrinsic.RegionCallsAgree | flextensor/intrinsic.py:140-160 | Reset writes C and finalize reads and writes it. Both pass the same blocks, paddings and C stride as the kernel call. |
| GemmIntrinsic.SelectBlocks | flextensor/intrinsic.py:105-107 | At every tile the selected block count covers the selected extent: the last-tile extent where the condition holds, the regular one elsewhere. |
| GemmIntrinsic.SelectPad | flextensor/intrinsic.py:108-110 | At every tile the selected padding is below one block and is the padding of the selected extent. |
| GemmIntrinsic.SelectedTileArgs | flextensor/intrinsic.py:98-110 | At every tile, each block count and padding is the last-tile value exactly when that dimension's condition holds. |
| GemmIntrinsic.LastTile | flextensor/intrinsic.py:280-290 | The last extent is the remainder, or the factor when it divides. The condition holds exactly at the partial tile. |
| GemmIntrinsic.GenerateGemmDim16 | flextensor/intrinsic.py:279-295 | Succeeds exactly when every factor is nonzero and the guards pass on the factors. A zero factor is a division error. |
| GemmIntrinsic.GeneratedTileCoverage | flextensor/intrinsic.py:279-295 | At every tile, blocks times 16 equals the tile's true extent plus the padding, and the padding is below 16. |
| GemmIntrinsic.AxisCoverage | flextensor/intrinsic.py:280-293 | The same as `GeneratedTileCoverage`, for one axis. |
| TileEdge.Blocks | flextensor/intrinsic.py:91-93 | The count of blocks covers the extent, and one block fewer does not. |
| TileEdge.Pad | flextensor/intrinsic.py:94-96 | The padding is below one block. It is zero exactly for multiples, and otherwise tops the remainder up to a full block. |
| TileEdge.LastExtent | flextensor/intrinsic.py:280-282 | The last extent lies in `[1, f]` and has the same remainder modulo `f` as the extent. |
| TileEdge.BlocksAndPad | flextensor/intrinsic.py:91-96 | Blocks times the block size equals the extent plus the padding. The padding is below one block and is zero exactly for multiples. The count is the least covering one. |
| TileEdge.LastExtentRange | flextensor/intrinsic.py:280-282 | The last extent lies in `[1, f]` and equals `f` exactly when `f` divides the extent. |
| TileEdge.SelectedExtentIsTileExtent | flextensor/intrinsic.py:280-282 | Choosing the last extent exactly at the partial tile gives every tile its true extent. |
| TileEdge.BlocksExamples | flextensor/intrinsic.py:91-96 | 150 needs ten 16-blocks and 10 padding; 160 needs ten and none. |
| GemvIntrinsic.GemvCompute | flextensor/intrinsic.py:44-57 | M outputs, each the int32 value of the data's dot product with that kernel row. `RowDotFits` shows that at K = 4 the sum never wraps. |
| GemvIntrinsic.RowDotFits | flextensor/intrinsic.py:53-54 | For uint8 data and an int8 kernel row of 4, the dot product fits in int32 and is the declared output lane. |
| GemvIntrinsic.DataBuffer | flextensor/intrinsic.py:171-173 | A uint8 buffer of shape `[K]` bound as a sub-block. |
| GemvIntrinsic.KernelBuffer | flextensor/intrinsic.py:174-176 | An int8 buffer of shape `[M, K]` bound as a sub-block. |
| GemvIntrinsic.Phases | flextensor/intrinsic.py:215 | Phases of the given reduction in which reset zeroes, body stores and update accumulates. |
| GemvIntrinsic.IntrinsicGemvSkylake | flextensor/intrinsic.py:168-218 | Data of shape `[K]` and kernel of shape `[M, K]`, both sub-block bindings, reduced by PMADDUBSW/PMADDWD, with zeroing reset, storing body and accumulating update. |
| GemvIntrinsic.IntrinsicGemvCascadelake | flextensor/intrinsic.py:221-276 | The same bindings and phase kinds, reduced by VPDPBUSD exactly when the LLVM id is nonzero. With id 0 it is the Skylake intrinsic. |
| GemvIntrinsic.Reduce | flextensor/intrinsic.py:185-264 | 16 int32 lanes on either path. The lane values are stated by `ReduceLane`. |
| GemvIntrinsic.PairQuadDot | flextensor/intrinsic.py:185-206 | A fallback lane whose pair sums fit in int16 is the exact dot product of the data with the kernel row. |
| GemvIntrinsic.GemvBindings | flextensor/intrinsic.py:171-176 | Data has stride `[1]`, the kernel has `[ldw, 1]`, and both are sub-block bindings. |
| GemvIntrinsic.ContiguousKernelLoad | flextensor/intrinsic.py:174-191 | The 64-byte kernel load lines up with the `[ldw, 1]` layout exactly when `ldw == 4`. |
| GemvIntrinsic.Instr | flextensor/intrinsic.py:179-212 | Index 1 stores zeros, index 0 stores the reduction, and any other index adds the reduction to the output. |
| GemvIntrinsic.CascadelakeReduction | flextensor/intrinsic.py:243-264 | VPDPBUSD exactly when the probed LLVM id is nonzero. |
| GemvIntrinsic.GenerateGemvSkylake | flextensor/intrinsic.py:298-300 | Succeeds exactly when `fM == 16 and fK == 4`, with the PMADDUBSW/PMADDWD phases. |
| GemvIntrinsic.GenerateGemvCascadelake | flextensor/intrinsic.py:303-305 | Succeeds exactly when `fM == 16 and fK == 4`, with VNNI phases if the id is nonzero. |
| GemvIntrinsic.Apply | flextensor/intrinsic.py:181-211 | Each store leaves 16 lanes. |
| GemvIntrinsic.VStoreAll | flextensor/intrinsic.py:182 | The whole output becomes the stored vector. |
| GemvIntrinsic.VStoreAdd | flextensor/intrinsic.py:210-211 | Each lane becomes the int32 wrapped sum of the stored vector and the old lane. |
| GemvIntrinsic.Execute | flextensor/intrinsic.py:207-211 | Running a phase on the output array leaves `Apply` of the phase on its old contents. |
| GemvIntrinsic.PhaseEffects | flextensor/intrinsic.py:179-215 | Reset zeroes the output, body overwrites it with the reduction, and update adds the reduction lane by lane with int32 wrap-around. |
| GemvIntrinsic.UpdatesAccumulate | flextensor/intrinsic.py:207-215 | After reset and a sequence of updates, each lane is the int32-wrapped sum of that lane over all reductions, whatever the output held before. |
| GemvIntrinsic.OnesAccumulate | flextensor/intrinsic.py:179-215 | Data `[1,1,1,1]` against kernel rows `[1,0,0,0]` gives 16 ones after reset and one update, and 16 twos after a second update, on both paths. |
| GemvIntrinsic.OnesReduction | flextensor/intrinsic.py:185-206 | On both paths, that data and kernel reduce to sixteen ones. |
| GemvIntrinsic.PairQuadLane | flextensor/intrinsic.py:185-206 | Lane l of PMADDUBSW then PMADDWD with ones is the int32 sum of the two int16-saturated pair products of the data with kernel row l. |
| GemvIntrinsic.VnniLane | flextensor/intrinsic.py:238-253 | Lane l of VPDPBUSD from zero is the exact dot product of the data with kernel row l. |
| GemvIntrinsic.VnniMatchesCompute | flextensor/intrinsic.py:243-253 | The VNNI reduction equals the declared computation `C[i] = sum data[k] * kernel[i][k]` for all uint8 data and int8 kernels. |
| GemvIntrinsic.PairQuadMatchesCompute | flextensor/intrinsic.py:185-206 | The fallback reduction equals the declared computation in every lane whose two pair sums fit in int16. |
| GemvIntrinsic.ReduceLane | flextensor/intrinsic.py:185-264 | Either reduction gives the lane's dot product, under the int16 condition on the fallback path. |
| GemvIntrinsic.PathsAgree | flextensor/intrinsic.py:246-264 | The two Cascade Lake paths give the same vector when no pair sum saturates. |
| GemvIntrinsic.PairQuadSaturates | flextensor/intrinsic.py:193-206 | Data bytes 255 against kernel bytes 127 give 65534 on the fallback path, where the declared value is 129540. |
| GemvIntrinsic.ByteDotValue | flextensor/intrinsic.py:243-253 | The four unsigned-by-signed byte products sum to the dot product, which fits in int32. |
| GemvIntrinsic.DataWords | flextensor/intrinsic.py:185-188 | The data bytes read as one int32 and broadcast to 16 lanes, as again at lines 238-240. `DataWordByte` states that every lane carries the four bytes in order. |
| GemvIntrinsic.LaneByte | flextensor/intrinsic.py:189-190 | Lane `4l + t` of the int8 view of int32 lanes is byte `t` of lane `l`, read signed. |
| GemvIntrinsic.WordByte | flextensor/intrinsic.py:247 | Byte `t` of word `l` of the int32 view of int8 lanes, read signed, is lane `4l + t`. |
| GemvIntrinsic.ReinterpretRoundTrip | flextensor/intrinsic.py:247-255 | Reinterpreting int8 lanes as int32 words and back gives the same lanes. |
| GemvIntrinsic.KernelWordByte | flextensor/intrinsic.py:247 | Reinterpreting the 64 kernel bytes as int32 words keeps row l's bytes in word l. |
| GemvIntrinsic.DataWordByte | flextensor/intrinsic.py:185-188 | The broadcast data word carries the four data bytes, in order, in every lane. |
| Machine.BytesOfBitsToI32 | flextensor/intrinsic.py:185-187 | Reinterpreting four byte patterns as an int32 and reading its bytes back gives the same patterns. |
| Machine.BitsToI32 | flextensor/intrinsic.py:185-187 | Four byte patterns read as one int32, as again at line 239. The result is an int32, and `BytesOfBitsToI32` shows that its bytes are the input patterns. |
| Avx512.Broadcast | flextensor/intrinsic.py:188 | `astype("int32x16")` of a scalar, as again at line 240, and the vector constants at lines 182, 235 and 248: every lane holds the scalar. |
| Avx512.I32ToI8Lanes | flextensor/intrinsic.py:189-190 | The int8 view of int32 lanes, as again at line 255: four int8 lanes per word. Their values are stated by `GemvIntrinsic.LaneByte` and `GemvIntrinsic.ReinterpretRoundTrip`. |
| Avx512.I8ToI32Lanes | flextensor/intrinsic.py:247 | The int32 view of int8 lanes: one int32 per four lanes. Its words are stated by `GemvIntrinsic.WordByte` and `GemvIntrinsic.KernelWordByte`. |
| Avx512.AddI32 | flextensor/intrinsic.py:210-211 | The vector `+` of the update, as again at line 269: every lane is an int32, and it is the exact sum whenever that sum fits. `GemvIntrinsic.VStoreAdd` stores it in place. |
| Avx512.Pmaddubsw | flextensor/intrinsic.py:193-199 | 32 int16 lanes. The lane values are stated by `GemvIntrinsic.PairLane`. |
| Avx512.Pmaddwd | flextensor/intrinsic.py:200-206 | 16 int32 lanes. The sum of a lane pair is stated by `GemvIntrinsic.PairSum`. |
| Avx512.Vpdpbusd | flextensor/intrinsic.py:249-253 | 16 int32 lanes. The lane value is stated by `GemvIntrinsic.VnniRow`. |
| OptGemvVnni.IntrinsicGemvUint8Int8 | flextensor/examples/opt_gemv_vnni.py:20-70 | The example's kernel is the Skylake intrinsic: PMADDUBSW/PMADDWD, with body, reset and update stores. |
| OptGemvVnni.GemvUint8Int8 | flextensor/examples/opt_gemv_vnni.py:73-80 | An i x 16 result. |
| OptGemvVnni.RowsOfKernelBlock | flextensor/examples/opt_gemv_vnni.py:43 | Cutting a block's 64 loaded bytes back into rows gives the block's 16 rows of 4. |
| OptGemvVnni.BlockLane | flextensor/examples/opt_gemv_vnni.py:37-58 | Lane l of a block's reduction is that block's dot product for output lane l. |
| OptGemvVnni.BlockSums | flextensor/examples/opt_gemv_vnni.py:73-80 | Summing the per-block dot products over the first n blocks gives the reference's partial sum. |
| OptGemvVnni.TensorizedMatchesReference | flextensor/examples/opt_gemv_vnni.py:59-67 | Reset, then one update per reduction block, gives exactly output row ii of `gemv_uint8_int8`. With VNNI this always holds; with the example's PMADDUBSW/PMADDWD kernel it needs every pair sum to fit in int16. |
| OptGemvVnni.Tiles | flextensor/examples/opt_gemv_vnni.py:87-93 | There is one more tile axis than there are split factors. |
| OptGemvVnni.TileAxes | flextensor/examples/opt_gemv_vnni.py:87-93 | The loop returns the split axes outermost first. The result is `Tiles` of all factors but the last, with `len(factors)` axes (one when there are no splits). |
| OptGemvVnni.TilesCover | flextensor/examples/opt_gemv_vnni.py:87-93 | The tile axes' iteration counts multiply to at least the axis' own count. |
| OptGemvVnni.ScheduleSplit | flextensor/examples/opt_gemv_vnni.py:98 | `tile_axes(sch, c, i, [16, 2])` on 32 iterations gives an outer axis of 2 and an inner axis of 16. |

## Left out

- TVM itself is not modelled: placeholders, `decl_buffer`, `decl_tensor_intrin`, the IR builder and tensorization. A buffer is a record of its name, type, shape, strides and offset factor. An emitted statement is a call record or a vector store.
- The external C procedures `matmul_reset`, `matmul_kernel` and `matmul_finalize` are not part of this model. Only their argument lists are modelled and checked against their prototypes.
- `tvm.codegen.llvm_lookup_intrinsic_id` is a parameter, `llvmId`. Whether LLVM knows VPDPBUSD is outside the model.
- The `print` of the registry warning is the `warned` result. The warning text is not modelled.
- `Intrinsic.name` is not a separate field, because the source only folds it into the key.
- `schedule_gemv` beyond `tile_axes` is not modelled: the reorder, parallel, tensorize, lower/print and build of the example.
- GemmCompute.GemmInt8Compute: the int8 result is the wrapped exact sum. The Gemmini hardware accumulates in int32 and its output scaling is not modelled.
- GemvIntrinsic.ContiguousKernelLoad: the kernel load reads 64 contiguous bytes whatever `ldw` is. The model states where that matches the declared layout, at `ldw == 4`, and does not model strided loads.
- GemvIntrinsic.PathsAgree: requires that no pair sum saturates int16, because the fallback and fused paths do not agree over the whole input range. `PairQuadSaturates` exhibits an input where PMADDUBSW saturates.
- OptGemvVnni.TensorizedMatchesReference: for the PMADDUBSW/PMADDWD kernel, requires that no pair sum saturates int16, for the same reason.
- OptGemvVnni.GemvUint8Int8: fixes the `dtype` argument at its default, `"int32"`, and drops the unused `j` parameter. The example's only call uses the default.
- GemmIntrinsic.IntrinsicGemmInt8: does not model a null bias sentinel on later updates, because the code always passes `1`.

## Findings

| source | as written | input that shows it | evidently intended | confidence | as-written member | corrected member |
|---|---|---|---|---|---|---|
| flextensor/intrinsic.py:24 | `if intrin.target not in INTRIN_TABLE` tests the target string against a dict keyed by the integer embedding. The test is always true, so each registration resets the target's list to empty before appending. | Register two intrinsics for target `"llvm -mcpu=skylake-avx512"`: entry 1 holds only the second. | Test the embedded key (`key not in INTRIN_TABLE`), so a target's list accumulates its intrinsics in registration order. | not executed | IntrinRegistry.RegisterTwiceKeepsLast | IntrinRegistry.AppendingKeepsEarlier |
| flextensor/intrinsic.py:21 | `if intrin.key in INTRIN_TABLE` tests the intrinsic's key string against the same integer-keyed dict. The warning can never be printed. | Register the same intrinsic twice without `override`: no warning. | Warn when an intrinsic with the same key is already registered for the target. | not executed | IntrinRegistry.RepeatNotWarned | IntrinRegistry.CorrectedWarnsOnRepeat |

The `Registry` class and `Load` follow the code as written: each method's effect is `RegisterStep`'s. `RegisterCorrected` is the corrected registration, as a pure function. `IntrinRegistry.AppendingLoad` and `IntrinRegistry.LoadedTableAgrees` show that the load-time table is the same under both, because each target is registered only once at load.
