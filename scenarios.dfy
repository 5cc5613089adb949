/**
 * Concrete configurations: a flat struct with a default and two required
 * string fields under three environments, an int field given a value that
 * is no integer, and a struct field holding a scalar.
 */
module Scenarios {
  import opened Wrappers
  import opened Strconv
  import opened Errs
  import opened KeyMaps
  import opened StructWalk
  import opened Coercion
  import opened Resolve
  import opened Precedence

  /** A string field with a single declared key. */
  function StringField(key: string, options: map<string, string>): Field
  {
    Field([key], options, Scalar(String))
  }

  /** Fields VAR, MISSING_VAR (default "missing"), REQUIRED_VAR and REQUIRED_MISSING_VAR (both required). */
  const FlatFields: seq<Field> := [
    StringField("VAR", map[]),
    StringField("MISSING_VAR", map["default" := "missing"]),
    StringField("REQUIRED_VAR", map["required" := "true"]),
    StringField("REQUIRED_MISSING_VAR", map["required" := "true"])
  ]

  const FlatEntries: map<string, Entry> := map[
    "VAR" := Entry([0], Scalar(String), false, ""),
    "MISSING_VAR" := Entry([1], Scalar(String), false, "missing"),
    "REQUIRED_VAR" := Entry([2], Scalar(String), true, ""),
    "REQUIRED_MISSING_VAR" := Entry([3], Scalar(String), true, "")
  ]

  /** A scalar field with one key contributes exactly that key. */
  lemma OneKeyScalar(f: Field, id: FieldId)
    requires f.kind.Scalar? && |f.keys| == 1
    ensures FieldEntries(f, id, 1) == map[f.keys[0] := EntryOf(f, id)]
  {
    assert FieldEntries(f, id, 0) == map[];
    assert map[] + map[f.keys[0] := EntryOf(f, id)] == map[f.keys[0] := EntryOf(f, id)];
  }

  /** A last field that is a one-key scalar adds exactly its key to the walk of the fields before it. */
  lemma WalkLastScalar(fs: seq<Field>, base: FieldId)
    requires |fs| > 0 && fs[|fs| - 1].kind.Scalar? && |fs[|fs| - 1].keys| == 1
    ensures var n := |fs| - 1;
      Walk(fs, base) == Walk(fs[..n], base)[fs[n].keys[0] := EntryOf(fs[n], base + [n])]
  {
    var n := |fs| - 1;
    OneKeyScalar(fs[n], base + [n]);
  }

  /** A last field that is a one-key struct adds its own walk under that key. */
  lemma WalkLastStruct(fs: seq<Field>, base: FieldId)
    requires |fs| > 0 && fs[|fs| - 1].kind.Struct? && |fs[|fs| - 1].keys| == 1
    ensures var n := |fs| - 1;
      Walk(fs, base) == Walk(fs[..n], base) + Prefixed(fs[n].keys[0], Walk(fs[n].kind.fields, base + [n]))
  {
    var n := |fs| - 1;
    var p := Prefixed(fs[n].keys[0], Walk(fs[n].kind.fields, base + [n]));
    assert FieldEntries(fs[n], base + [n], 0) == map[];
    assert FieldEntries(fs[n], base + [n], 1) == map[] + p;
    assert map[] + p == p;
  }

  /** parseStruct registers each field once, under its key, with its tag options read. */
  lemma FlatWalk()
    ensures Walk(FlatFields, []) == FlatEntries
  {
    var fs := FlatFields;
    WalkLastScalar(fs[..1], []);
    assert fs[..1][..0] == [];
    WalkLastScalar(fs[..2], []);
    assert fs[..2][..1] == fs[..1];
    WalkLastScalar(fs[..3], []);
    assert fs[..3][..2] == fs[..2];
    WalkLastScalar(fs, []);
    assert [] + [0] == [0] && [] + [1] == [1] && [] + [2] == [2] && [] + [3] == [3];
    assert EntryOf(fs[0], [0]) == FlatEntries["VAR"];
    assert EntryOf(fs[1], [1]) == FlatEntries["MISSING_VAR"];
    assert EntryOf(fs[2], [2]) == FlatEntries["REQUIRED_VAR"];
    assert EntryOf(fs[3], [3]) == FlatEntries["REQUIRED_MISSING_VAR"];
  }

  /** The four bindings are distinct, one per key. */
  lemma FlatDistinct(k: string, k': string)
    requires k in FlatEntries && k' in FlatEntries && FlatEntries[k] == FlatEntries[k']
    ensures k == k'
  {
  }

  lemma FlatCoherent()
    ensures Coherent(FlatEntries)
  {
  }

  const DefaultEnv: map<string, string> := map["VAR" := "Something", "REQUIRED_VAR" := "Here", "REQUIRED_MISSING_VAR" := "All good"]

  /** Both required bindings have their key in DefaultEnv. */
  lemma RequiredKeysInDefaultEnv()
    ensures forall k :: k in FlatEntries && FlatEntries[k].isRequired ==> Alias(FlatEntries, FlatEntries[k], DefaultEnv)
  {
    forall k | k in FlatEntries && FlatEntries[k].isRequired
      ensures Alias(FlatEntries, FlatEntries[k], DefaultEnv)
    {
      assert k in DefaultEnv;
    }
  }

  /** With MISSING_VAR absent but both required keys present, the call succeeds. */
  lemma DefaultScenarioSucceeds(fc: FloatCodec, store0: map<FieldId, Value>, order1: seq<string>, order2: seq<string>)
    requires IsOrder(order1, FlatEntries) && IsOrder(order2, FlatEntries)
    ensures Resolution(FlatEntries, DefaultEnv, map[], fc, store0, order1, order2).err.None?
  {
    var cfg: map<string, string> := map[];
    FlatCoherent();
    StringBindingsFailOnlyOnRequired(FlatEntries, DefaultEnv, cfg, fc, store0, order1, order2);
    RequiredReported(FlatEntries, DefaultEnv, cfg, fc, store0, order1, order2);
    RequiredKeysInDefaultEnv();
  }

  /** Each key of the flat struct is the only key of its binding. */
  lemma FlatKeysUnique()
    ensures forall k, k' :: k in FlatEntries && k' in FlatEntries && FlatEntries[k'] == FlatEntries[k] ==> k' == k
  {
    forall k, k' | k in FlatEntries && k' in FlatEntries && FlatEntries[k'] == FlatEntries[k]
      ensures k' == k
    {
      FlatDistinct(k, k');
    }
  }

  /** ... MISSING_VAR gets its default ... */
  lemma DefaultApplied(fc: FloatCodec, store0: map<FieldId, Value>, order1: seq<string>, order2: seq<string>)
    requires IsOrder(order1, FlatEntries) && IsOrder(order2, FlatEntries)
    ensures var store := Resolution(FlatEntries, DefaultEnv, map[], fc, store0, order1, order2).state.store;
      [1] in store && store[[1]] == StringValue("missing")
  {
    var cfg: map<string, string> := map[];
    FlatCoherent();
    DefaultScenarioSucceeds(fc, store0, order1, order2);
    FlatKeysUnique();
    ResolvedValue(FlatEntries, DefaultEnv, cfg, fc, store0, order1, order2, "MISSING_VAR");
    assert !Alias(FlatEntries, FlatEntries["MISSING_VAR"], DefaultEnv);
    assert !Alias(FlatEntries, FlatEntries["MISSING_VAR"], cfg);
  }

  /** ... and the other fields get their env values. */
  lemma EnvValuesApplied(fc: FloatCodec, store0: map<FieldId, Value>, order1: seq<string>, order2: seq<string>)
    requires IsOrder(order1, FlatEntries) && IsOrder(order2, FlatEntries)
    ensures var store := Resolution(FlatEntries, DefaultEnv, map[], fc, store0, order1, order2).state.store;
      && [0] in store && store[[0]] == StringValue("Something")
      && [2] in store && store[[2]] == StringValue("Here")
      && [3] in store && store[[3]] == StringValue("All good")
  {
    var cfg: map<string, string> := map[];
    FlatCoherent();
    DefaultScenarioSucceeds(fc, store0, order1, order2);
    FlatKeysUnique();
    EnvValueWins(FlatEntries, DefaultEnv, cfg, fc, store0, order1, order2, "VAR");
    EnvValueWins(FlatEntries, DefaultEnv, cfg, fc, store0, order1, order2, "REQUIRED_VAR");
    EnvValueWins(FlatEntries, DefaultEnv, cfg, fc, store0, order1, order2, "REQUIRED_MISSING_VAR");
  }

  const AllEnv: map<string, string> :=
    map["VAR" := "Something", "MISSING_VAR" := "Not missing", "REQUIRED_VAR" := "Here", "REQUIRED_MISSING_VAR" := "All good"]

  /** Every binding has its key in AllEnv. */
  lemma KeysInAllEnv()
    ensures forall k :: k in FlatEntries ==> Alias(FlatEntries, FlatEntries[k], AllEnv)
  {
    forall k | k in FlatEntries
      ensures Alias(FlatEntries, FlatEntries[k], AllEnv)
    {
      assert k in AllEnv;
    }
  }

  /** With all four keys in env, the call succeeds. */
  lemma AllEnvSucceeds(fc: FloatCodec, store0: map<FieldId, Value>, order1: seq<string>, order2: seq<string>)
    requires IsOrder(order1, FlatEntries) && IsOrder(order2, FlatEntries)
    ensures Resolution(FlatEntries, AllEnv, map[], fc, store0, order1, order2).err.None?
  {
    var cfg: map<string, string> := map[];
    FlatCoherent();
    StringBindingsFailOnlyOnRequired(FlatEntries, AllEnv, cfg, fc, store0, order1, order2);
    RequiredReported(FlatEntries, AllEnv, cfg, fc, store0, order1, order2);
    KeysInAllEnv();
  }

  /** The field of a key of AllEnv holds that key's env value. */
  lemma AllEnvValue(fc: FloatCodec, store0: map<FieldId, Value>, order1: seq<string>, order2: seq<string>, k: string)
    requires IsOrder(order1, FlatEntries) && IsOrder(order2, FlatEntries)
    requires k in FlatEntries && k in AllEnv
    ensures var store := Resolution(FlatEntries, AllEnv, map[], fc, store0, order1, order2).state.store;
      FlatEntries[k].id in store && store[FlatEntries[k].id] == StringValue(AllEnv[k])
  {
    FlatCoherent();
    FlatKeysUnique();
    AllEnvSucceeds(fc, store0, order1, order2);
    EnvValueWins(FlatEntries, AllEnv, map[], fc, store0, order1, order2, k);
  }

  /** ... and every field holds its env value, MISSING_VAR's default unused. */
  lemma AllEnvApplied(fc: FloatCodec, store0: map<FieldId, Value>, order1: seq<string>, order2: seq<string>)
    requires IsOrder(order1, FlatEntries) && IsOrder(order2, FlatEntries)
    ensures var store := Resolution(FlatEntries, AllEnv, map[], fc, store0, order1, order2).state.store;
      && [0] in store && store[[0]] == StringValue("Something")
      && [1] in store && store[[1]] == StringValue("Not missing")
      && [2] in store && store[[2]] == StringValue("Here")
      && [3] in store && store[[3]] == StringValue("All good")
  {
    AllEnvValue(fc, store0, order1, order2, "VAR");
    AllEnvValue(fc, store0, order1, order2, "MISSING_VAR");
    AllEnvValue(fc, store0, order1, order2, "REQUIRED_VAR");
    AllEnvValue(fc, store0, order1, order2, "REQUIRED_MISSING_VAR");
  }

  const MissingEnv: map<string, string> := map["VAR" := "Something", "MISSING_VAR" := "Not missing", "REQUIRED_VAR" := "Here"]

  /** REQUIRED_MISSING_VAR is the one required binding without a key in MissingEnv. */
  lemma OnlyRequiredMissingUnaliased()
    ensures !Alias(FlatEntries, FlatEntries["REQUIRED_MISSING_VAR"], MissingEnv)
    ensures forall k :: (k in FlatEntries && FlatEntries[k].isRequired && !Alias(FlatEntries, FlatEntries[k], MissingEnv)
      ==> k == "REQUIRED_MISSING_VAR")
  {
    forall k' | k' in FlatEntries && FlatEntries[k'] == FlatEntries["REQUIRED_MISSING_VAR"]
      ensures k' !in MissingEnv
    {
      FlatDistinct("REQUIRED_MISSING_VAR", k');
    }
    forall k | k in FlatEntries && FlatEntries[k].isRequired && !Alias(FlatEntries, FlatEntries[k], MissingEnv)
      ensures k == "REQUIRED_MISSING_VAR"
    {
      assert k !in MissingEnv;
    }
  }

  /** A key of MissingEnv keeps its env value through the failing second pass. */
  lemma MissingEnvValueKept(fc: FloatCodec, store0: map<FieldId, Value>, order1: seq<string>, order2: seq<string>, k: string)
    requires IsOrder(order1, FlatEntries) && IsOrder(order2, FlatEntries)
    requires k in FlatEntries && k in MissingEnv
    ensures var store := Resolution(FlatEntries, MissingEnv, map[], fc, store0, order1, order2).state.store;
      FlatEntries[k].id in store && store[FlatEntries[k].id] == StringValue(MissingEnv[k])
  {
    var cfg: map<string, string> := map[];
    FlatCoherent();
    FlatKeysUnique();
    StringBindingsFailOnlyOnRequired(FlatEntries, MissingEnv, cfg, fc, store0, order1, order2);
    Pass1EnvValue(FlatEntries, MissingEnv, cfg, fc, store0, order1, k);
    var r1 := Pass1(FlatEntries, MissingEnv, cfg, fc, State(store0, map[]), order1);
    Pass2Keeps(FlatEntries, fc, r1.state, order2, k);
  }

  /** REQUIRED_MISSING_VAR, with no source, is left as it was. */
  lemma RequiredMissingUntouched(fc: FloatCodec, store0: map<FieldId, Value>, order1: seq<string>, order2: seq<string>)
    requires IsOrder(order1, FlatEntries) && IsOrder(order2, FlatEntries)
    ensures Kept(store0, Resolution(FlatEntries, MissingEnv, map[], fc, store0, order1, order2).state.store, [3])
  {
    var cfg: map<string, string> := map[];
    var k := "REQUIRED_MISSING_VAR";
    var e := FlatEntries[k];
    FlatCoherent();
    OnlyRequiredMissingUnaliased();
    assert !Alias(FlatEntries, e, cfg);
    StringBindingsFailOnlyOnRequired(FlatEntries, MissingEnv, cfg, fc, store0, order1, order2);
    Pass1Entry(FlatEntries, MissingEnv, cfg, fc, store0, order1, k);
    HitIsAlias(FlatEntries, order1, e, MissingEnv);
    HitIsAlias(FlatEntries, order1, e, cfg);
    var r1 := Pass1(FlatEntries, MissingEnv, cfg, fc, State(store0, map[]), order1);
    Pass2Keeps(FlatEntries, fc, r1.state, order2, k);
  }

  /** With REQUIRED_MISSING_VAR absent, the call reports exactly that key as missing. */
  lemma RequiredMissingReported(fc: FloatCodec, store0: map<FieldId, Value>, order1: seq<string>, order2: seq<string>)
    requires IsOrder(order1, FlatEntries) && IsOrder(order2, FlatEntries)
    ensures var r := Resolution(FlatEntries, MissingEnv, map[], fc, store0, order1, order2);
      && r.err == Some(RequiredKeyNotPresent(NewRequiredKeyNotPresentError(["REQUIRED_MISSING_VAR"])))
      && IsRequiredKeyNotPresentError(r.err)
  {
    var cfg: map<string, string> := map[];
    FlatCoherent();
    OnlyRequiredMissingUnaliased();
    assert !Alias(FlatEntries, FlatEntries["REQUIRED_MISSING_VAR"], cfg);
    StringBindingsFailOnlyOnRequired(FlatEntries, MissingEnv, cfg, fc, store0, order1, order2);
    RequiredReported(FlatEntries, MissingEnv, cfg, fc, store0, order1, order2);
  }

  /** ... and the struct holds what the first pass stored: {"Something", "Not missing", "Here", <as it was>}. */
  lemma RequiredMissingStore(fc: FloatCodec, store0: map<FieldId, Value>, order1: seq<string>, order2: seq<string>)
    requires IsOrder(order1, FlatEntries) && IsOrder(order2, FlatEntries)
    ensures var store := Resolution(FlatEntries, MissingEnv, map[], fc, store0, order1, order2).state.store;
      && [0] in store && store[[0]] == StringValue("Something")
      && [1] in store && store[[1]] == StringValue("Not missing")
      && [2] in store && store[[2]] == StringValue("Here")
      && Kept(store0, store, [3])
  {
    MissingEnvValueKept(fc, store0, order1, order2, "VAR");
    MissingEnvValueKept(fc, store0, order1, order2, "MISSING_VAR");
    MissingEnvValueKept(fc, store0, order1, order2, "REQUIRED_VAR");
    RequiredMissingUntouched(fc, store0, order1, order2);
  }

  /** The whole expected outcome of the REQUIRED_MISSING_VAR case. */
  lemma RequiredMissing(fc: FloatCodec, store0: map<FieldId, Value>, order1: seq<string>, order2: seq<string>)
    requires IsOrder(order1, FlatEntries) && IsOrder(order2, FlatEntries)
    ensures var r := Resolution(FlatEntries, MissingEnv, map[], fc, store0, order1, order2);
      && r.err == Some(RequiredKeyNotPresent(NewRequiredKeyNotPresentError(["REQUIRED_MISSING_VAR"])))
      && IsRequiredKeyNotPresentError(r.err)
      && [0] in r.state.store && r.state.store[[0]] == StringValue("Something")
      && [1] in r.state.store && r.state.store[[1]] == StringValue("Not missing")
      && [2] in r.state.store && r.state.store[[2]] == StringValue("Here")
      && Kept(store0, r.state.store, [3])
  {
    RequiredMissingReported(fc, store0, order1, order2);
    RequiredMissingStore(fc, store0, order1, order2);
  }

  /** Every key listed from a one-key map is that key. */
  lemma OneKeyListed<V>(order: seq<string>, k: string, v: V)
    requires forall i :: 0 <= i < |order| ==> order[i] in map[k := v]
    ensures |order| >= 2 ==> order[0] == k && order[1] == k
  {
    if |order| >= 2 {
      assert order[0] in map[k := v] && order[1] in map[k := v];
    }
  }

  /** A map with one key has exactly one iteration order. */
  lemma SingleKeyOrder<V>(order: seq<string>, k: string, v: V)
    requires IsOrder(order, map[k := v])
    ensures order == [k]
  {
    assert k in map[k := v];
    assert k in order;
    OneKeyListed(order, k, v);
    assert order[0] in map[k := v];
  }

  /** An int field N, bound by key "N". */
  const IntEntries: map<string, Entry> := map["N" := Entry([0], Scalar(Int), false, "")]

  const BadIntEnv: map<string, string> := map["N" := "not-a-number"]

  /** A value that is no integer, given to an int field, fails the call with exactly that coercion error. */
  lemma BadIntFails(fc: FloatCodec, store0: map<FieldId, Value>, order1: seq<string>, order2: seq<string>)
    requires IsOrder(order1, IntEntries) && IsOrder(order2, IntEntries)
    ensures Resolution(IntEntries, BadIntEnv, map[], fc, store0, order1, order2).err
         == Some(SettingValue(FromEnv, "N", NotAnInt("not-a-number")))
  {
    SingleKeyOrder(order1, "N", IntEntries["N"]);
    var e := IntEntries["N"];
    assert ParseInt("not-a-number") == None;
    assert Coerce(e.kind, "not-a-number", fc) == Failure(NotAnInt("not-a-number"));
    assert order1[..0] == [];
    assert Pass1(IntEntries, BadIntEnv, map[], fc, State(store0, map[]), order1).err
        == Some(SettingValue(FromEnv, "N", NotAnInt("not-a-number")));
  }

  /**
   * A struct field with one key `outer`, holding a single one-key scalar
   * `key`, registers just `outer_key`, bound to the inner field with
   * identity base + [0, 0].
   */
  lemma SingleScalarStruct(f: Field, base: FieldId)
    requires f.kind.Struct? && |f.keys| == 1 && |f.kind.fields| == 1
    requires f.kind.fields[0].kind.Scalar? && |f.kind.fields[0].keys| == 1
    ensures Walk([f], base) == map[Qualify(f.keys[0], f.kind.fields[0].keys[0]) := EntryOf(f.kind.fields[0], base + [0, 0])]
  {
    var g := f.kind.fields[0];
    var inner := base + [0, 0];
    var q := Qualify(f.keys[0], g.keys[0]);
    WalkLastScalar(f.kind.fields, base + [0]);
    assert f.kind.fields[..0] == [] && base + [0] + [0] == inner;
    assert Walk(f.kind.fields, base + [0]) == map[g.keys[0] := EntryOf(g, inner)];
    PrefixedSingleton(f.keys[0], g.keys[0], EntryOf(g, inner));
    WalkLastStruct([f], base);
    assert [f][..0] == [];
    assert Walk([f], base) == map[] + map[q := EntryOf(g, inner)];
    assert map[] + map[q := EntryOf(g, inner)] == map[q := EntryOf(g, inner)];
  }
}
