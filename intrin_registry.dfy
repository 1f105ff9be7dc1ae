/** The intrinsic registry: `Intrinsic` records, the module-level table they are
    registered in, and the three registrations made when the module loads.

    The table is a Python dict whose keys are the integer embeddings of the
    targets, while both membership tests of `register_intrin` ask about
    strings (the intrinsic's key, then its target). A dict key is therefore
    modelled as an integer or a string, and the table as a map over them. */
module IntrinRegistry {
  import opened Wrappers

  datatype PyKey = IntKey(n: int) | StrKey(s: string)

  /** `target_embedding`. */
  const TargetEmbedding: map<string, int> :=
    map["c -device=micro_dev" := 0, "llvm -mcpu=skylake-avx512" := 1, "llvm -mcpu=cascadelake" := 2]

  /** The three targets have distinct embeddings, so each gets its own
      table entry. */
  lemma EmbeddingInjective()
    ensures TargetEmbedding.Keys == {"c -device=micro_dev", "llvm -mcpu=skylake-avx512", "llvm -mcpu=cascadelake"}
    ensures forall a, b :: a in TargetEmbedding && b in TargetEmbedding && TargetEmbedding[a] == TargetEmbedding[b] ==> a == b
  {
  }

  /** The compute definitions an intrinsic can name as its `func`. */
  datatype ComputeDef = GemmInt8Compute | GemvUint8Int8Compute

  /** The generators an intrinsic can name as its `intrin`. */
  datatype Generator = GemmInt8Dim16 | GemvUint8Int8Skylake | GemvUint8Int8Cascadelake

  /** An `Intrinsic` object; its `name` is kept only inside `key`. */
  datatype Intrinsic = Intrinsic(
    key: string, func: ComputeDef, args: seq<int>, intrin: Generator, target: string, category: string)

  /** `Intrinsic(category, name, func, args, intrin, target)`: the key is
      `"{category}_{name}_{target}"`. */
  function MakeIntrinsic(category: string, name: string, func: ComputeDef, args: seq<int>,
                         intrin: Generator, target: string): (r: Intrinsic)
    ensures r.func == func && r.args == args && r.intrin == intrin
    ensures r.target == target && r.category == category
    ensures |r.key| == |category| + |name| + |target| + 2
    ensures r.key[..|category|] == category && r.key[|category|] == '_'
    ensures r.key[|category| + 1 .. |category| + 1 + |name|] == name
    ensures r.key[|category| + 1 + |name|] == '_' && r.key[|r.key| - |target|..] == target
  {
    Intrinsic(category + "_" + name + "_" + target, func, args, intrin, target, category)
  }

  /** The key does not determine the name: an underscore may sit in the
      category or in the name. */
  lemma KeyAmbiguous()
    ensures MakeIntrinsic("gemmini", "gemm_size16", GemmInt8Compute, [], GemmInt8Dim16, "t").key
         == MakeIntrinsic("gemmini_gemm", "size16", GemmInt8Compute, [], GemmInt8Dim16, "t").key
  {
    assert "gemmini" + "_" + "gemm_size16" + "_" + "t" == "gemmini_gemm" + "_" + "size16" + "_" + "t";
  }

  type Table = map<PyKey, seq<Intrinsic>>

  /** Every key the registry ever stores is a target embedding. */
  predicate IntKeyed(t: Table)
  {
    forall k :: k in t ==> k.IntKey?
  }

  /** A `KeyError` from `target_embedding[...]` or from `INTRIN_TABLE[...]`. */
  datatype RegError = UnknownTarget(target: string) | MissingEntry(key: int)

  /** The outcome of one `register_intrin` call: whether the warning is
      printed, and the new table or the error that stops the call. */
  datatype Outcome = Outcome(warned: bool, result: Result<Table, RegError>)

  /** `register_intrin(intrin, override)` as written: the warning tests the
      intrinsic's key, the list reset tests its target. */
  function RegisterStep(t: Table, intrin: Intrinsic, override: bool): (o: Outcome)
    ensures o.warned <==> StrKey(intrin.key) in t && !override
    ensures o.result == Err(UnknownTarget(intrin.target)) <==> intrin.target !in TargetEmbedding
  {
    var warned := StrKey(intrin.key) in t && !override;
    if intrin.target !in TargetEmbedding then Outcome(warned, Err(UnknownTarget(intrin.target)))
    else
      var key := IntKey(TargetEmbedding[intrin.target]);
      var t1 := if StrKey(intrin.target) !in t then t[key := []] else t;
      if key !in t1 then Outcome(warned, Err(MissingEntry(key.n)))
      else Outcome(warned, Ok(t1[key := t1[key] + [intrin]]))
  }

  /** On a table the registry built, registering never warns, never fails for a
      known target, and replaces the target's list by the one new intrinsic;
      every other entry is kept and the table stays integer-keyed. */
  lemma RegisterReplaces(t: Table, intrin: Intrinsic, override: bool)
    requires IntKeyed(t) && intrin.target in TargetEmbedding
    ensures var o := RegisterStep(t, intrin, override);
      && !o.warned
      && o.result == Ok(t[IntKey(TargetEmbedding[intrin.target]) := [intrin]])
      && IntKeyed(o.result.value)
      && (forall k :: k in t && k != IntKey(TargetEmbedding[intrin.target]) ==> k in o.result.value && o.result.value[k] == t[k])
  {
    var key := IntKey(TargetEmbedding[intrin.target]);
    assert StrKey(intrin.target) !in t;
    var empty: seq<Intrinsic> := [];
    assert empty + [intrin] == [intrin];
    assert t[key := empty][key := empty + [intrin]] == t[key := [intrin]];
  }

  /** An unknown target raises `KeyError` and leaves the table as it was. */
  lemma RegisterUnknownTarget(t: Table, intrin: Intrinsic, override: bool)
    requires intrin.target !in TargetEmbedding
    ensures RegisterStep(t, intrin, override).result == Err(UnknownTarget(intrin.target))
  {
  }

  /** `override` only silences the warning: the resulting table never depends
      on it. */
  lemma OverrideIrrelevant(t: Table, intrin: Intrinsic)
    ensures RegisterStep(t, intrin, true).result == RegisterStep(t, intrin, false).result
    ensures !RegisterStep(t, intrin, true).warned
  {
  }

  /** Registering two intrinsics for the same target keeps only the second. */
  lemma RegisterTwiceKeepsLast(t: Table, first: Intrinsic, second: Intrinsic)
    requires IntKeyed(t) && first.target in TargetEmbedding && second.target == first.target
    ensures var o1 := RegisterStep(t, first, false);
      o1.result.Ok? &&
      var o2 := RegisterStep(o1.result.value, second, false);
      o2.result.Ok? && o2.result.value[IntKey(TargetEmbedding[first.target])] == [second]
  {
    RegisterReplaces(t, first, false);
    RegisterReplaces(RegisterStep(t, first, false).result.value, second, false);
  }

  /** Registering the same intrinsic twice, without `override`, never warns. */
  lemma RepeatNotWarned(t: Table, intrin: Intrinsic)
    requires IntKeyed(t) && intrin.target in TargetEmbedding
    ensures var o1 := RegisterStep(t, intrin, false);
      o1.result.Ok? && !RegisterStep(o1.result.value, intrin, false).warned
  {
    RegisterReplaces(t, intrin, false);
  }

  /** `register_intrin` with the list reset testing the embedded key, as the
      table's layout evidently intends: a known target's list grows by the new
      intrinsic. */
  function RegisterAppending(t: Table, intrin: Intrinsic): (r: Result<Table, RegError>)
    ensures r.Err? <==> intrin.target !in TargetEmbedding
    ensures r.Err? ==> r.error == UnknownTarget(intrin.target)
  {
    if intrin.target !in TargetEmbedding then Err(UnknownTarget(intrin.target))
    else
      var key := IntKey(TargetEmbedding[intrin.target]);
      var t1 := if key !in t then t[key := []] else t;
      Ok(t1[key := t1[key] + [intrin]])
  }

  /** The appending registry keeps every earlier intrinsic of the target, in
      order, with the new one last, and changes no other entry. */
  lemma AppendingKeepsEarlier(t: Table, intrin: Intrinsic)
    requires intrin.target in TargetEmbedding
    ensures var key := IntKey(TargetEmbedding[intrin.target]);
      var r := RegisterAppending(t, intrin);
      && r.Ok? && key in r.value
      && r.value[key] == (if key in t then t[key] else []) + [intrin]
      && (forall k :: k in t && k != key ==> k in r.value && r.value[k] == t[k])
  {
  }

  /** A registration into a target with no entry yet is the same under both
      readings of the list reset. */
  lemma FreshTargetAgrees(t: Table, intrin: Intrinsic, override: bool)
    requires IntKeyed(t) && intrin.target in TargetEmbedding
    requires IntKey(TargetEmbedding[intrin.target]) !in t
    ensures RegisterStep(t, intrin, override).result == RegisterAppending(t, intrin)
  {
    RegisterReplaces(t, intrin, override);
  }

  /** An intrinsic with the same key is already registered for the target. */
  predicate KeyRegistered(t: Table, intrin: Intrinsic)
  {
    && intrin.target in TargetEmbedding
    && IntKey(TargetEmbedding[intrin.target]) in t
    && exists x :: 0 <= x < |t[IntKey(TargetEmbedding[intrin.target])]|
                   && t[IntKey(TargetEmbedding[intrin.target])][x].key == intrin.key
  }

  /** `register_intrin` as the table's layout evidently intends: the warning
      asks whether the key is already registered for the target, and the list
      reset tests the embedded key. */
  function RegisterCorrected(t: Table, intrin: Intrinsic, override: bool): (o: Outcome)
    ensures o.warned <==> KeyRegistered(t, intrin) && !override
    ensures o.result == RegisterAppending(t, intrin)
  {
    Outcome(KeyRegistered(t, intrin) && !override, RegisterAppending(t, intrin))
  }

  /** Registering an intrinsic whose key is already registered for its target
      warns unless `override` is set, and the earlier intrinsic stays in the
      target's list. */
  lemma CorrectedWarnsOnRepeat(t: Table, first: Intrinsic, second: Intrinsic, override: bool)
    requires first.target in TargetEmbedding && second.target == first.target && second.key == first.key
    ensures var o1 := RegisterCorrected(t, first, false);
      o1.result.Ok? &&
      var o2 := RegisterCorrected(o1.result.value, second, override);
      && (o2.warned <==> !override)
      && o2.result.Ok?
      && var l := o2.result.value[IntKey(TargetEmbedding[first.target])];
         |l| >= 2 && l[|l| - 2] == first && l[|l| - 1] == second
  {
    var key := IntKey(TargetEmbedding[first.target]);
    AppendingKeepsEarlier(t, first);
    var t1 := RegisterAppending(t, first).value;
    var l1 := t1[key];
    assert l1[|l1| - 1] == first;
    assert KeyRegistered(t1, second);
    AppendingKeepsEarlier(t1, second);
  }

  /** The registry: `INTRIN_TABLE`, updated in place. */
  class Registry {
    var table: Table

    predicate Valid()
      reads this
    {
      IntKeyed(table)
    }

    /** `INTRIN_TABLE = {}`. */
    constructor()
      ensures table == map[] && Valid()
    {
      table := map[];
    }

    /** `register_intrin(intrin, override)`. On the integer-keyed table the
        registry keeps, no warning is printed and a known target's entry
        becomes the one new intrinsic. */
    method RegisterIntrin(intrin: Intrinsic, override: bool) returns (warned: bool, status: Result<(), RegError>)
      requires Valid()
      modifies this
      ensures Valid()
      ensures var o := RegisterStep(old(table), intrin, override);
        && warned == o.warned
        && (o.result.Ok? ==> status.Ok? && table == o.result.value)
        && (o.result.Err? ==> status == Err(o.result.error) && table == old(table))
      ensures !warned
      ensures intrin.target in TargetEmbedding ==>
        status.Ok? && table == old(table)[IntKey(TargetEmbedding[intrin.target]) := [intrin]]
    {
      if intrin.target in TargetEmbedding {
        RegisterReplaces(table, intrin, override);
      }
      warned := StrKey(intrin.key) in table && !override;
      if intrin.target !in TargetEmbedding {
        return warned, Err(UnknownTarget(intrin.target));
      }
      var key := IntKey(TargetEmbedding[intrin.target]);
      if StrKey(intrin.target) !in table {
        table := table[key := []];
      }
      table := table[key := table[key] + [intrin]];
      status := Ok(());
    }

    /** `register(func, args, category, name, intrin, target, override)`. */
    method Register(func: ComputeDef, args: seq<int>, category: string, name: string,
                    intrin: Generator, target: string, override: bool)
      returns (warned: bool, status: Result<(), RegError>)
      requires Valid()
      modifies this
      ensures Valid()
      ensures var o := RegisterStep(old(table), MakeIntrinsic(category, name, func, args, intrin, target), override);
        && warned == o.warned
        && (o.result.Ok? ==> status.Ok? && table == o.result.value)
        && (o.result.Err? ==> status == Err(o.result.error) && table == old(table))
      ensures !warned
      ensures target in TargetEmbedding ==>
        status.Ok? && table == old(table)[IntKey(TargetEmbedding[target]) := [MakeIntrinsic(category, name, func, args, intrin, target)]]
    {
      var intrinsic := MakeIntrinsic(category, name, func, args, intrin, target);
      warned, status := RegisterIntrin(intrinsic, override);
    }
  }

  /** The three intrinsics the module registers when it loads. */
  function GemminiGemm(): (r: Intrinsic)
    ensures r.func == GemmInt8Compute && r.args == [32, 32, 32] && r.intrin == GemmInt8Dim16
    ensures r.category == "gemmini" && r.target == "c -device=micro_dev" && r.target in TargetEmbedding
  {
    MakeIntrinsic("gemmini", "gemm_size16", GemmInt8Compute, [32, 32, 32], GemmInt8Dim16, "c -device=micro_dev")
  }

  function Avx512Gemv(): (r: Intrinsic)
    ensures r.func == GemvUint8Int8Compute && r.args == [16, 4] && r.intrin == GemvUint8Int8Skylake
    ensures r.category == "avx512" && r.target == "llvm -mcpu=skylake-avx512" && r.target in TargetEmbedding
  {
    MakeIntrinsic("avx512", "gemv", GemvUint8Int8Compute, [16, 4], GemvUint8Int8Skylake, "llvm -mcpu=skylake-avx512")
  }

  function VnniGemv(): (r: Intrinsic)
    ensures r.func == GemvUint8Int8Compute && r.args == [16, 4] && r.intrin == GemvUint8Int8Cascadelake
    ensures r.category == "avx512-vnni" && r.target == "llvm -mcpu=cascadelake" && r.target in TargetEmbedding
  {
    MakeIntrinsic("avx512-vnni", "vnni", GemvUint8Int8Compute, [16, 4], GemvUint8Int8Cascadelake, "llvm -mcpu=cascadelake")
  }

  /** The table after the module loads. */
  function LoadedTable(): Table
  {
    map[IntKey(0) := [GemminiGemm()], IntKey(1) := [Avx512Gemv()], IntKey(2) := [VnniGemv()]]
  }

  /** The module's load-time registrations, in source order: afterwards each
      target's entry holds its one intrinsic, and none of them warned. */
  method Load() returns (reg: Registry)
    ensures fresh(reg) && reg.Valid()
    ensures reg.table == LoadedTable()
  {
    reg := new Registry();
    var w, s := reg.Register(GemmInt8Compute, [32, 32, 32], "gemmini", "gemm_size16",
                             GemmInt8Dim16, "c -device=micro_dev", false);
    w, s := reg.Register(GemvUint8Int8Compute, [16, 4], "avx512", "gemv",
                         GemvUint8Int8Skylake, "llvm -mcpu=skylake-avx512", false);
    w, s := reg.Register(GemvUint8Int8Compute, [16, 4], "avx512-vnni", "vnni",
                         GemvUint8Int8Cascadelake, "llvm -mcpu=cascadelake", false);
    assert TargetEmbedding["c -device=micro_dev"] == 0;
    assert TargetEmbedding["llvm -mcpu=skylake-avx512"] == 1;
    assert TargetEmbedding["llvm -mcpu=cascadelake"] == 2;
  }

  /** The three load-time registrations, each appending to an empty entry,
      give the loaded table. */
  lemma AppendingLoad()
    ensures RegisterAppending(map[], GemminiGemm()).Ok?
    ensures var t1 := RegisterAppending(map[], GemminiGemm()).value;
      RegisterAppending(t1, Avx512Gemv()).Ok? &&
      var t2 := RegisterAppending(t1, Avx512Gemv()).value;
      RegisterAppending(t2, VnniGemv()).Ok? &&
      RegisterAppending(t2, VnniGemv()).value == LoadedTable()
  {
    assert GemminiGemm().target in TargetEmbedding && TargetEmbedding[GemminiGemm().target] == 0;
    assert Avx512Gemv().target in TargetEmbedding && TargetEmbedding[Avx512Gemv().target] == 1;
    assert VnniGemv().target in TargetEmbedding && TargetEmbedding[VnniGemv().target] == 2;
    var empty: seq<Intrinsic> := [];
    assert empty + [GemminiGemm()] == [GemminiGemm()];
    assert empty + [Avx512Gemv()] == [Avx512Gemv()];
    assert empty + [VnniGemv()] == [VnniGemv()];
    var t1 := RegisterAppending(map[], GemminiGemm()).value;
    assert t1 == map[IntKey(0) := [GemminiGemm()]];
    var t2 := RegisterAppending(t1, Avx512Gemv()).value;
    assert t2 == map[IntKey(0) := [GemminiGemm()], IntKey(1) := [Avx512Gemv()]];
  }

  /** Each target is registered once at load, so the registration as written
      builds the same table, without any warning. */
  lemma LoadedTableAgrees()
    ensures var o1 := RegisterStep(map[], GemminiGemm(), false);
      !o1.warned && o1.result.Ok? &&
      var o2 := RegisterStep(o1.result.value, Avx512Gemv(), false);
      !o2.warned && o2.result.Ok? &&
      var o3 := RegisterStep(o2.result.value, VnniGemv(), false);
      !o3.warned && o3.result == Ok(LoadedTable())
  {
    assert TargetEmbedding[GemminiGemm().target] == 0;
    assert TargetEmbedding[Avx512Gemv().target] == 1;
    assert TargetEmbedding[VnniGemv().target] == 2;
    RegisterReplaces(map[], GemminiGemm(), false);
    var t1 := RegisterStep(map[], GemminiGemm(), false).result.value;
    RegisterReplaces(t1, Avx512Gemv(), false);
    var t2 := RegisterStep(t1, Avx512Gemv(), false).result.value;
    RegisterReplaces(t2, VnniGemv(), false);
  }
}
