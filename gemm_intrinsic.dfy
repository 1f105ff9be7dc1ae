/** The scratchpad-accelerator GEMM intrinsic: capacity guards, per-dimension
    block counts and padding for regular and last tiles, and the three calls to
    the accelerator's external procedures (`matmul_reset`, `matmul_kernel`,
    `matmul_finalize`) it emits, as call records with their exact arguments. */
module GemmIntrinsic {
  import opened Wrappers
  import opened TileEdge
  import opened Buffers

  /** Operand elements the scratchpad holds. */
  const SCRATCHPAD_ELEMS: int := 256 * 1024
  /** Bytes the accumulator holds (four per int32 result). */
  const ACCUMULATOR_BYTES: int := 64 * 1024
  /** Block size of the accelerator's systolic array used by the generator. */
  const DIM16: nat := 16

  /** `input too large for scratchpad`, `input too large for accumulator`, and
      Python's ZeroDivisionError for a zero block size or split factor. */
  datatype GenError = ScratchpadOverflow | AccumulatorOverflow | ZeroDivision

  /** A boundary condition: a Python constant, or `axis == value` over a loop
      variable, resolved per tile when the program runs. */
  datatype Cond = Const(b: bool) | AxisEq(axis: string, value: int)

  /** An integer argument: a constant, or `if_then_else(c, t, e)`. */
  datatype IntExpr = Lit(n: int) | IfThenElse(c: Cond, t: int, e: int)

  datatype Access = Read | Write | ReadWrite

  /** An argument of an emitted call: a buffer's access pointer, an integer
      expression, a stride variable, or a boolean. */
  datatype Arg = Ptr(buffer: string, access: Access) | Int(e: IntExpr) | Var(name: string) | Bool(b: bool)

  datatype Call = CallExtern(retType: string, proc: string, args: seq<Arg>)

  /** The phases handed to tensorization: (body, reset, update, finalize). */
  datatype GemmPhases = GemmPhases(body: Option<Call>, reset: Call, update: Call, finalize: Call)

  datatype GemmIntrin = GemmIntrin(name: string, binds: seq<Buffer>, phases: GemmPhases)

  /** Value of each loop variable at the tile being computed. */
  type Env = string -> int

  function EvalCond(c: Cond, env: Env): bool
  {
    match c
    case Const(b) => b
    case AxisEq(axis, v) => env(axis) == v
  }

  function EvalInt(e: IntExpr, env: Env): int
  {
    match e
    case Lit(n) => n
    case IfThenElse(c, t, f) => if EvalCond(c, env) then t else f
  }

  /** The C parameter types of the accelerator procedures. */
  datatype CType = PtrT | I32T | BoolT

  /** Parameters of the accelerator procedures, named after their C prototypes:
      `A`, `B`, `D`, `C`, `I`, `J`, `K`, `pad_I`, `pad_J`, `pad_K`, `A_row_len`,
      `B_row_len`, `D_row_len`, `C_row_len`, `no_bias`, `repeating_bias`. */
  datatype Param =
    | MatA | MatB | BiasD | MatC | BlocksI | BlocksJ | BlocksK | PadI | PadJ | PadK
    | ARowLen | BRowLen | DRowLen | CRowLen | NoBias | RepeatingBias

  function TypeOf(p: Param): CType
  {
    match p
    case MatA | MatB | BiasD | MatC => PtrT
    case NoBias | RepeatingBias => BoolT
    case _ => I32T
  }

  /** `int32_t matmul_kernel(A, B, D, C, I, J, K, pad_I, pad_J, pad_K,
      A_row_len, B_row_len, D_row_len, C_row_len, no_bias, repeating_bias)`. */
  const KernelProto: seq<Param> := [
    MatA, MatB, BiasD, MatC, BlocksI, BlocksJ, BlocksK, PadI, PadJ, PadK,
    ARowLen, BRowLen, DRowLen, CRowLen, NoBias, RepeatingBias]

  /** `matmul_reset` and `matmul_finalize` both take `(C, I, J, pad_I, pad_J, C_row_len)`. */
  const RegionProto: seq<Param> := [MatC, BlocksI, BlocksJ, PadI, PadJ, CRowLen]

  /** An argument fits a parameter's C type; an integer constant passed for a
      pointer is a raw address (the dummy bias address 1). */
  predicate Fits(a: Arg, ty: CType)
  {
    match ty
    case PtrT => a.Ptr? || (a.Int? && a.e.Lit?)
    case I32T => a.Int? || a.Var?
    case BoolT => a.Bool?
  }

  /** A call passes one argument of the right C type per prototype parameter. */
  predicate Conforms(c: Call, proto: seq<Param>)
  {
    |c.args| == |proto| && forall q :: 0 <= q < |proto| ==> Fits(c.args[q], TypeOf(proto[q]))
  }

  /** Position of each parameter in `matmul_kernel`'s prototype. */
  function KernelPos(p: Param): (q: nat)
    ensures q < 16
  {
    match p
    case MatA => 0 case MatB => 1 case BiasD => 2 case MatC => 3
    case BlocksI => 4 case BlocksJ => 5 case BlocksK => 6
    case PadI => 7 case PadJ => 8 case PadK => 9
    case ARowLen => 10 case BRowLen => 11 case DRowLen => 12 case CRowLen => 13
    case NoBias => 14 case RepeatingBias => 15
  }

  /** Each parameter sits at its position in the prototype. */
  lemma KernelPositions()
    ensures |KernelProto| == 16
    ensures forall p :: KernelProto[KernelPos(p)] == p
  {
  }

  /** Position of a parameter in the reset/finalize prototype. */
  function RegionPos(p: Param): (q: nat)
    requires p in RegionProto
    ensures q < |RegionProto| && RegionProto[q] == p
  {
    match p
    case MatC => 0 case BlocksI => 1 case BlocksJ => 2 case PadI => 3 case PadJ => 4
    case CRowLen => 5
  }

  /** The argument a `matmul_kernel` call passes for parameter `p`. */
  function KernelArg(c: Call, p: Param): Arg
    requires |c.args| == |KernelProto|
  {
    c.args[KernelPos(p)]
  }

  /** The argument a `matmul_reset` or `matmul_finalize` call passes for `p`. */
  function RegionArg(c: Call, p: Param): Arg
    requires |c.args| == |RegionProto| && p in RegionProto
  {
    c.args[RegionPos(p)]
  }

  /** The capacity checks run before anything is generated. */
  function CapacityCheck(i: nat, j: nat, k: nat): (r: Option<GenError>)
    ensures r == None <==> i * k + k * j <= SCRATCHPAD_ELEMS && 4 * (i * j) <= ACCUMULATOR_BYTES
    ensures r == Some(ScratchpadOverflow) <==> i * k + k * j > SCRATCHPAD_ELEMS
  {
    if i * k + k * j > SCRATCHPAD_ELEMS then Some(ScratchpadOverflow)
    else if 4 * (i * j) > ACCUMULATOR_BYTES then Some(AccumulatorOverflow)
    else None
  }

  /** Block count for one dimension: the last-tile value where `c` holds, the
      regular one elsewhere. */
  function SelectBlocks(e: nat, el: nat, c: Cond, dim: nat): (r: IntExpr)
    requires dim > 0
    ensures forall env :: EvalInt(r, env) * dim >= (if EvalCond(c, env) then el else e)
    ensures forall env :: EvalInt(r, env) == Blocks(if EvalCond(c, env) then el else e, dim)
  {
    IfThenElse(c, Blocks(el, dim), Blocks(e, dim))
  }

  /** Padding for one dimension, selected by the same condition. */
  function SelectPad(e: nat, el: nat, c: Cond, dim: nat): (r: IntExpr)
    requires dim > 0
    ensures forall env :: 0 <= EvalInt(r, env) < dim
    ensures forall env :: EvalInt(r, env) == Pad(if EvalCond(c, env) then el else e, dim)
  {
    IfThenElse(c, Pad(el, dim), Pad(e, dim))
  }

  /** `intrinsic_gemm_int8(i, j, k, il, jl, kl, ic, jc, kc, dim)`: regular tile
      extents `i, j, k`, last-tile extents `il, jl, kl`, last-tile conditions
      `ic, jc, kc`. */
  function IntrinsicGemmInt8(i: nat, j: nat, k: nat, il: nat, jl: nat, kl: nat,
                             ic: Cond, jc: Cond, kc: Cond, dim: nat): (r: Result<GemmIntrin, GenError>)
    ensures r.Ok? <==> CapacityCheck(i, j, k) == None && dim > 0
    ensures r.Err? && CapacityCheck(i, j, k) != None ==> r.error == CapacityCheck(i, j, k).value
    ensures r.Err? && CapacityCheck(i, j, k) == None ==> r.error == ZeroDivision
    ensures r.Ok? ==> var ph := r.value.phases;
      && ph.body == None
      && ph.reset.proc == "matmul_reset" && ph.update.proc == "matmul_kernel" && ph.finalize.proc == "matmul_finalize"
  {
    match CapacityCheck(i, j, k)
    case Some(err) => Err(err)
    case None =>
      if dim == 0 then Err(ZeroDivision)
      else
        var II := SelectBlocks(i, il, ic, dim);
        var JJ := SelectBlocks(j, jl, jc, dim);
        var KK := SelectBlocks(k, kl, kc, dim);
        var padI := SelectPad(i, il, ic, dim);
        var padJ := SelectPad(j, jl, jc, dim);
        var padK := SelectPad(k, kl, kc, dim);
        Ok(GemmIntrin("sp_gemm", GemmBinds(i, j, k), EmitPhases(II, JJ, KK, padI, padJ, padK)))
  }

  /** The phases `intrin_func` returns, `(None, reset, update, finalize)`,
      for the selected block counts and paddings. */
  function EmitPhases(II: IntExpr, JJ: IntExpr, KK: IntExpr,
                      padI: IntExpr, padJ: IntExpr, padK: IntExpr): (ph: GemmPhases)
    ensures ph.body == None
    ensures ph.reset.proc == "matmul_reset" && ph.update.proc == "matmul_kernel" && ph.finalize.proc == "matmul_finalize"
    ensures |ph.reset.args| == |ph.finalize.args| == |RegionProto| && |ph.update.args| == |KernelProto|
  {
    var update := CallExtern("int32", "matmul_kernel",
      [Ptr("A", Read), Ptr("B", Read), Int(Lit(1)), Ptr("C", ReadWrite),
       Int(II), Int(JJ), Int(KK), Int(padI), Int(padJ), Int(padK),
       Var("sA"), Var("sB"), Int(Lit(0)), Var("sC"), Bool(true), Bool(false)]);
    var reset := CallExtern("int32", "matmul_reset",
      [Ptr("C", Write), Int(II), Int(JJ), Int(padI), Int(padJ), Var("sC")]);
    var finalize := CallExtern("int32", "matmul_finalize",
      [Ptr("C", ReadWrite), Int(II), Int(JJ), Int(padI), Int(padJ), Var("sC")]);
    GemmPhases(None, reset, update, finalize)
  }

  /** Every emitted call passes one argument of the right C type for each
      parameter of its procedure's prototype. */
  lemma CallsConform(II: IntExpr, JJ: IntExpr, KK: IntExpr, padI: IntExpr, padJ: IntExpr, padK: IntExpr)
    ensures var ph := EmitPhases(II, JJ, KK, padI, padJ, padK);
      Conforms(ph.reset, RegionProto) && Conforms(ph.update, KernelProto) && Conforms(ph.finalize, RegionProto)
  {
  }

  /** The operand buffers A (i x k), B (k x j) and C (i x j), each with a
      variable row stride. */
  function GemmBinds(i: nat, j: nat, k: nat): (bs: seq<Buffer>)
    ensures |bs| == 3 && forall b :: 0 <= b < 3 ==> SubBlockBinding(bs[b])
  {
    [Buffer("A", "int8", [i, k], [Symbolic("sA"), Fixed(1)], 1),
     Buffer("B", "int8", [k, j], [Symbolic("sB"), Fixed(1)], 1),
     Buffer("C", "int8", [i, j], [Symbolic("sC"), Fixed(1)], 1)]
  }

  /** Value of an integer or stride argument once every variable has a value. */
  function EvalArg(a: Arg, env: Env): int
    requires a.Int? || a.Var?
  {
    match a
    case Int(e) => EvalInt(e, env)
    case Var(name) => env(name)
  }

  /** What the update call says about one tile, once the loop variables have values. */
  datatype TileArgs = TileArgs(I: int, J: int, K: int, padI: int, padJ: int, padK: int)

  function EvalUpdate(c: Call, env: Env): TileArgs
    requires Conforms(c, KernelProto)
  {
    KernelPositions();
    assert forall p :: TypeOf(p) == I32T ==> Fits(KernelArg(c, p), I32T);
    TileArgs(EvalArg(KernelArg(c, BlocksI), env), EvalArg(KernelArg(c, BlocksJ), env),
             EvalArg(KernelArg(c, BlocksK), env), EvalArg(KernelArg(c, PadI), env),
             EvalArg(KernelArg(c, PadJ), env), EvalArg(KernelArg(c, PadK), env))
  }

  /** The update call passes A and B for reading, C for read-write and the
      dummy bias address 1. */
  lemma EmittedPointers(II: IntExpr, JJ: IntExpr, KK: IntExpr, padI: IntExpr, padJ: IntExpr, padK: IntExpr)
    ensures var up := EmitPhases(II, JJ, KK, padI, padJ, padK).update;
      && KernelArg(up, MatA) == Ptr("A", Read)
      && KernelArg(up, MatB) == Ptr("B", Read)
      && KernelArg(up, BiasD) == Int(Lit(1))
      && KernelArg(up, MatC) == Ptr("C", ReadWrite)
  {
  }

  /** The update call passes the row strides `sA`, `sB`, `sC`, a zero
      `D_row_len`, `no_bias` set and `repeating_bias` clear. */
  lemma EmittedStridesAndFlags(II: IntExpr, JJ: IntExpr, KK: IntExpr, padI: IntExpr, padJ: IntExpr, padK: IntExpr)
    ensures var up := EmitPhases(II, JJ, KK, padI, padJ, padK).update;
      && KernelArg(up, ARowLen) == Var("sA")
      && KernelArg(up, BRowLen) == Var("sB")
      && KernelArg(up, DRowLen) == Int(Lit(0))
      && KernelArg(up, CRowLen) == Var("sC")
      && KernelArg(up, NoBias) == Bool(true)
      && KernelArg(up, RepeatingBias) == Bool(false)
  {
  }

  /** The update call passes the block counts and paddings in the order
      I, J, K. */
  lemma EmittedTileArgs(II: IntExpr, JJ: IntExpr, KK: IntExpr, padI: IntExpr, padJ: IntExpr, padK: IntExpr)
    ensures var up := EmitPhases(II, JJ, KK, padI, padJ, padK).update;
      && KernelArg(up, BlocksI) == Int(II) && KernelArg(up, BlocksJ) == Int(JJ) && KernelArg(up, BlocksK) == Int(KK)
      && KernelArg(up, PadI) == Int(padI) && KernelArg(up, PadJ) == Int(padJ) && KernelArg(up, PadK) == Int(padK)
  {
  }

  /** Reset writes C and finalize reads and writes it, and both name the same
      region of C, with the same row stride, as the update call between them. */
  lemma RegionCallsAgree(II: IntExpr, JJ: IntExpr, KK: IntExpr, padI: IntExpr, padJ: IntExpr, padK: IntExpr)
    ensures var ph := EmitPhases(II, JJ, KK, padI, padJ, padK);
      var up, rs, fin := ph.update, ph.reset, ph.finalize;
      && RegionArg(rs, MatC) == Ptr("C", Write)
      && RegionArg(fin, MatC) == Ptr("C", ReadWrite)
      && RegionArg(rs, BlocksI) == RegionArg(fin, BlocksI) == KernelArg(up, BlocksI)
      && RegionArg(rs, BlocksJ) == RegionArg(fin, BlocksJ) == KernelArg(up, BlocksJ)
      && RegionArg(rs, PadI) == RegionArg(fin, PadI) == KernelArg(up, PadI)
      && RegionArg(rs, PadJ) == RegionArg(fin, PadJ) == KernelArg(up, PadJ)
      && RegionArg(rs, CRowLen) == RegionArg(fin, CRowLen) == KernelArg(up, CRowLen)
  {
  }

  /** At every tile, each block count and padding the update passes is the
      last-tile value exactly when that dimension's condition holds there. */
  lemma SelectedTileArgs(i: nat, j: nat, k: nat, il: nat, jl: nat, kl: nat,
                         ic: Cond, jc: Cond, kc: Cond, dim: nat, env: Env)
    requires CapacityCheck(i, j, k) == None && dim > 0
    ensures var t := EvalUpdate(IntrinsicGemmInt8(i, j, k, il, jl, kl, ic, jc, kc, dim).value.phases.update, env);
      && t.I == (if EvalCond(ic, env) then Blocks(il, dim) else Blocks(i, dim))
      && t.J == (if EvalCond(jc, env) then Blocks(jl, dim) else Blocks(j, dim))
      && t.K == (if EvalCond(kc, env) then Blocks(kl, dim) else Blocks(k, dim))
      && t.padI == (if EvalCond(ic, env) then Pad(il, dim) else Pad(i, dim))
      && t.padJ == (if EvalCond(jc, env) then Pad(jl, dim) else Pad(j, dim))
      && t.padK == (if EvalCond(kc, env) then Pad(kl, dim) else Pad(k, dim))
  {
  }

  /** `(E % f, E // f)` split into the last tile's extent and its condition,
      lines of `generate_intrinsic_gemm_int8_dim16` for one axis. */
  function LastTile(e: nat, f: nat, axis: string): (r: (nat, Cond))
    requires f > 0
    ensures r.0 == LastExtent(e, f)
    ensures r.1 == if e % f != 0 then AxisEq(axis, e / f) else Const(false)
    ensures forall env: Env :: EvalCond(r.1, env) <==> IsPartialTile(e, f, env(axis))
  {
    var last := e % f;
    var c := if last != 0 then AxisEq(axis, e / f) else Const(false);
    (if last != 0 then last else f, c)
  }

  /** `generate_intrinsic_gemm_int8_dim16(N, M, K, fN, fM, fK, axisN, axisM, axisK)`. */
  function GenerateGemmDim16(N: nat, M: nat, K: nat, fN: nat, fM: nat, fK: nat,
                             axisN: string, axisM: string, axisK: string): (r: Result<GemmIntrin, GenError>)
    ensures r.Ok? <==> fN > 0 && fM > 0 && fK > 0 && CapacityCheck(fN, fM, fK) == None
    ensures (fN == 0 || fM == 0 || fK == 0) ==> r == Err(ZeroDivision)
  {
    if fN == 0 || fK == 0 || fM == 0 then Err(ZeroDivision)
    else
      var (lastN, nc) := LastTile(N, fN, axisN);
      var (lastL, lc) := LastTile(K, fK, axisK);
      var (lastM, mc) := LastTile(M, fM, axisM);
      IntrinsicGemmInt8(fN, fM, fK, lastN, lastM, lastL, nc, mc, lc, DIM16)
  }

  /** At every tile of the N x M x K iteration space, the emitted update call
      covers exactly the elements the tile really has: blocks times 16 equals
      the tile's extent plus the padding, and the padding is under one block. */
  lemma GeneratedTileCoverage(N: nat, M: nat, K: nat, fN: nat, fM: nat, fK: nat,
                              axisN: string, axisM: string, axisK: string, env: Env)
    requires GenerateGemmDim16(N, M, K, fN, fM, fK, axisN, axisM, axisK).Ok?
    requires 0 <= env(axisN) < Blocks(N, fN)
    requires 0 <= env(axisM) < Blocks(M, fM)
    requires 0 <= env(axisK) < Blocks(K, fK)
    ensures var t := EvalUpdate(GenerateGemmDim16(N, M, K, fN, fM, fK, axisN, axisM, axisK).value.phases.update, env);
      && t.I * 16 == TileExtent(N, fN, env(axisN)) + t.padI && 0 <= t.padI < 16
      && t.J * 16 == TileExtent(M, fM, env(axisM)) + t.padJ && 0 <= t.padJ < 16
      && t.K * 16 == TileExtent(K, fK, env(axisK)) + t.padK && 0 <= t.padK < 16
  {
    var (lastN, nc) := LastTile(N, fN, axisN);
    var (lastL, lc) := LastTile(K, fK, axisK);
    var (lastM, mc) := LastTile(M, fM, axisM);
    SelectedTileArgs(fN, fM, fK, lastN, lastM, lastL, nc, mc, lc, DIM16, env);
    AxisCoverage(N, fN, axisN, env);
    AxisCoverage(M, fM, axisM, env);
    AxisCoverage(K, fK, axisK, env);
  }

  /** One axis of `GeneratedTileCoverage`. */
  lemma AxisCoverage(e: nat, f: nat, axis: string, env: Env)
    requires f > 0 && 0 <= env(axis) < Blocks(e, f)
    ensures var (last, c) := LastTile(e, f, axis);
      var ext := if EvalCond(c, env) then last else f;
      && ext == TileExtent(e, f, env(axis))
      && Blocks(ext, DIM16) * 16 == ext + Pad(ext, DIM16) && 0 <= Pad(ext, DIM16) < 16
  {
    var (last, c) := LastTile(e, f, axis);
    SelectedExtentIsTileExtent(e, f, env(axis));
    BlocksAndPad(if EvalCond(c, env) then last else f, DIM16);
  }
}
