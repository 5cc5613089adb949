/**
 * prioUnmarshal and UnmarshalMap: the two-pass priority resolution of
 * environment values, file values and defaults into the target's fields.
 */
module Resolve {
  import opened Wrappers
  import opened Strconv
  import opened Errs
  import opened StructWalk
  import opened Coercion
  import opened Flatten

  /** The target's field storage and prioMap's marks (true: from env; false: from a file). */
  datatype State = State(store: map<FieldId, Value>, marks: map<Entry, bool>)

  /** Where a pass ended: the state then, and the error that stopped it, if any. */
  datatype Outcome = Outcome(state: State, err: Option<Error>)

  /** `order` lists every key of `m` exactly once: one iteration order of a Go map. */
  predicate IsOrder<V>(order: seq<string>, m: map<string, V>)
  {
    && (forall i :: 0 <= i < |order| ==> order[i] in m)
    && (forall k :: k in m ==> k in order)
    && (forall i, j :: 0 <= i < j < |order| ==> order[i] != order[j])
  }

  /** True when the binding is marked as satisfied from the environment. */
  predicate EnvMarked(marks: map<Entry, bool>, e: Entry)
  {
    e in marks && marks[e]
  }

  /** Stores a coerced value for `e`, or reports why it cannot, leaving the state as it was. */
  function Assign(st: State, e: Entry, raw: string, fc: FloatCodec, source: Source, k: string, mark: bool): Outcome
  {
    match Coerce(e.kind, raw, fc)
    case Failure(c) => Outcome(st, Some(SettingValue(source, k, c)))
    case Success(v) => Outcome(State(st.store[e.id := v], st.marks[e := mark]), None)
  }

  /** One iteration of the first loop: an env value wins; a file value only for a binding not yet env-marked. */
  function Pass1Step(entryMap: map<string, Entry>, env: map<string, string>, cfg: map<string, string>,
                     fc: FloatCodec, st: State, k: string): Outcome
    requires k in entryMap
  {
    var e := entryMap[k];
    if k in env then Assign(st, e, env[k], fc, FromEnv, k, true)
    else if k in cfg && !EnvMarked(st.marks, e) then Assign(st, e, cfg[k], fc, FromFile, k, false)
    else Outcome(st, None)
  }

  /** The first loop over the keys in `order`, stopping at the first error. */
  function Pass1(entryMap: map<string, Entry>, env: map<string, string>, cfg: map<string, string>,
                 fc: FloatCodec, st: State, order: seq<string>): Outcome
    requires forall i :: 0 <= i < |order| ==> order[i] in entryMap
  {
    if order == [] then Outcome(st, None)
    else
      var r := Pass1(entryMap, env, cfg, fc, st, order[..|order| - 1]);
      if r.err.Some? then r else Pass1Step(entryMap, env, cfg, fc, r.state, order[|order| - 1])
  }

  /** One iteration of the second loop: skip satisfied bindings, fail on a required one, else apply a non-empty default. */
  function Pass2Step(entryMap: map<string, Entry>, fc: FloatCodec, st: State, k: string): Outcome
    requires k in entryMap
  {
    var e := entryMap[k];
    if e in st.marks then Outcome(st, None)
    else if e.isRequired then Outcome(st, Some(RequiredKeyNotPresent(NewRequiredKeyNotPresentError([k]))))
    else if e.default == "" then Outcome(st, None)
    else Assign(st, e, e.default, fc, FromDefault, k, true)
  }

  /** The second loop over the keys in `order`, stopping at the first error. */
  function Pass2(entryMap: map<string, Entry>, fc: FloatCodec, st: State, order: seq<string>): Outcome
    requires forall i :: 0 <= i < |order| ==> order[i] in entryMap
  {
    if order == [] then Outcome(st, None)
    else
      var r := Pass2(entryMap, fc, st, order[..|order| - 1]);
      if r.err.Some? then r else Pass2Step(entryMap, fc, r.state, order[|order| - 1])
  }

  /** prioUnmarshal as a whole: pass 1 from empty marks, then pass 2 unless pass 1 failed. */
  function Resolution(entryMap: map<string, Entry>, env: map<string, string>, cfg: map<string, string>,
                      fc: FloatCodec, store: map<FieldId, Value>, order1: seq<string>, order2: seq<string>): Outcome
    requires forall i :: 0 <= i < |order1| ==> order1[i] in entryMap
    requires forall i :: 0 <= i < |order2| ==> order2[i] in entryMap
  {
    var r1 := Pass1(entryMap, env, cfg, fc, State(store, map[]), order1);
    if r1.err.Some? then r1 else Pass2(entryMap, fc, r1.state, order2)
  }

  /** UnmarshalMap's target check: a non-nil pointer to a struct, whose fields are returned. */
  datatype TargetType = TargetType(typeName: string, isPointer: bool, isNil: bool, elem: Kind)

  function CheckTarget(t: TargetType): (r: Result<seq<Field>, Error>)
    ensures r.Success? <==> t.isPointer && !t.isNil && t.elem.Struct?
    ensures r.Success? ==> r.value == t.elem.fields
    ensures r.Failure? ==> r.error == TargetNotPtrToStruct(t.typeName)
  {
    if !t.isPointer || t.isNil || !t.elem.Struct? then Failure(TargetNotPtrToStruct(t.typeName))
    else Success(t.elem.fields)
  }

  /** The configuration struct being filled, with the marks of the resolution in progress. */
  class Config {
    var store: map<FieldId, Value>
    var marks: map<Entry, bool>

    constructor(initial: map<FieldId, Value>)
      ensures store == initial && marks == map[]
    {
      store := initial;
      marks := map[];
    }

    /** setVal: coerce `raw` to the field's kind and store it; on failure nothing changes. */
    method SetVal(e: Entry, raw: string, fc: FloatCodec) returns (err: Option<CoercionError>)
      modifies this`store
      ensures match Coerce(e.kind, raw, fc)
        case Success(v) => err.None? && store == old(store)[e.id := v]
        case Failure(c) => err == Some(c) && store == old(store)
    {
      var r := Coerce(e.kind, raw, fc);
      match r {
        case Success(v) =>
          store := store[e.id := v];
          err := None;
        case Failure(c) =>
          err := Some(c);
      }
    }

    /** prioUnmarshal, ranging over the entry map in `order1`, then in `order2`. */
    method PrioUnmarshal(entryMap: map<string, Entry>, env: map<string, string>, cfg: map<string, string>,
                         fc: FloatCodec, order1: seq<string>, order2: seq<string>) returns (err: Option<Error>)
      requires IsOrder(order1, entryMap) && IsOrder(order2, entryMap)
      modifies this
      ensures var r := Resolution(entryMap, env, cfg, fc, old(store), order1, order2);
        store == r.state.store && marks == r.state.marks && err == r.err
    {
      marks := map[];
      err := EnvAndFilePass(entryMap, env, cfg, fc, order1);
      if err.Some? {
        return;
      }
      err := RequiredAndDefaultPass(entryMap, fc, order2);
    }

    /** The first loop of prioUnmarshal. */
    method EnvAndFilePass(entryMap: map<string, Entry>, env: map<string, string>, cfg: map<string, string>,
                          fc: FloatCodec, order: seq<string>) returns (err: Option<Error>)
      requires forall i :: 0 <= i < |order| ==> order[i] in entryMap
      modifies this
      ensures var r := Pass1(entryMap, env, cfg, fc, old(State(store, marks)), order);
        store == r.state.store && marks == r.state.marks && err == r.err
    {
      ghost var st0 := State(store, marks);
      for i := 0 to |order|
        invariant Pass1(entryMap, env, cfg, fc, st0, order[..i]) == Outcome(State(store, marks), None)
      {
        assert order[..i + 1][..i] == order[..i];
        err := EnvOrFile(entryMap, env, cfg, fc, order[i]);
        if err.Some? {
          Pass1Sticks(entryMap, env, cfg, fc, st0, order, i + 1);
          return;
        }
      }
      assert order[..|order|] == order;
      err := None;
    }

    /** One iteration of the first loop, for key `k`. */
    method EnvOrFile(entryMap: map<string, Entry>, env: map<string, string>, cfg: map<string, string>,
                     fc: FloatCodec, k: string) returns (err: Option<Error>)
      requires k in entryMap
      modifies this
      ensures Pass1Step(entryMap, env, cfg, fc, old(State(store, marks)), k) == Outcome(State(store, marks), err)
    {
      var entry := entryMap[k];
      if k in env {
        var e := SetVal(entry, env[k], fc);
        if e.Some? {
          return Some(SettingValue(FromEnv, k, e.value));
        }
        marks := marks[entry := true];
        return None;
      }
      if k in cfg && !(entry in marks && marks[entry]) {
        var e := SetVal(entry, cfg[k], fc);
        if e.Some? {
          return Some(SettingValue(FromFile, k, e.value));
        }
        marks := marks[entry := false];
      }
      err := None;
    }

    /** The second loop of prioUnmarshal. */
    method RequiredAndDefaultPass(entryMap: map<string, Entry>, fc: FloatCodec, order: seq<string>) returns (err: Option<Error>)
      requires forall i :: 0 <= i < |order| ==> order[i] in entryMap
      modifies this
      ensures var r := Pass2(entryMap, fc, old(State(store, marks)), order);
        store == r.state.store && marks == r.state.marks && err == r.err
    {
      ghost var st0 := State(store, marks);
      for i := 0 to |order|
        invariant Pass2(entryMap, fc, st0, order[..i]) == Outcome(State(store, marks), None)
      {
        assert order[..i + 1][..i] == order[..i];
        err := RequiredOrDefault(entryMap, fc, order[i]);
        if err.Some? {
          Pass2Sticks(entryMap, fc, st0, order, i + 1);
          return;
        }
      }
      assert order[..|order|] == order;
      err := None;
    }

    /** One iteration of the second loop, for key `k`. */
    method RequiredOrDefault(entryMap: map<string, Entry>, fc: FloatCodec, k: string) returns (err: Option<Error>)
      requires k in entryMap
      modifies this
      ensures Pass2Step(entryMap, fc, old(State(store, marks)), k) == Outcome(State(store, marks), err)
    {
      var entry := entryMap[k];
      if entry in marks {
        return None;
      }
      if entry.isRequired {
        return Some(RequiredKeyNotPresent(NewRequiredKeyNotPresentError([k])));
      }
      if entry.default == "" {
        return None;
      }
      var e := SetVal(entry, entry.default, fc);
      if e.Some? {
        return Some(SettingValue(FromDefault, k, e.value));
      }
      marks := marks[entry := true];
      err := None;
    }

    /**
     * UnmarshalMap: check the target, merge the configuration files, walk
     * the struct, resolve. `order1` and `order2` are the two iteration orders
     * of the walked entry map.
     */
    method UnmarshalMap(env: map<string, string>, target: TargetType, files: seq<CfgFile>, fc: FloatCodec,
                        order1: seq<string>, order2: seq<string>) returns (err: Option<Error>)
      requires CheckTarget(target).Success? ==>
        IsOrder(order1, Walk(target.elem.fields, [])) && IsOrder(order2, Walk(target.elem.fields, []))
      modifies this
      ensures CheckTarget(target).Failure? ==>
        err == Some(TargetNotPtrToStruct(target.typeName)) && store == old(store)
      ensures CheckTarget(target).Success? && MergeFiles(files, fc).Failure? ==>
        err == Some(MergeFiles(files, fc).error) && store == old(store)
      ensures CheckTarget(target).Success? && MergeFiles(files, fc).Success? ==>
        var r := Resolution(Walk(target.elem.fields, []), env, MergeFiles(files, fc).value, fc, old(store), order1, order2);
        store == r.state.store && err == r.err
    {
      var fields := CheckTarget(target);
      if fields.Failure? {
        return Some(fields.error);
      }
      var cfgMap := ParseCfgFiles(files, fc);
      if cfgMap.Failure? {
        return Some(cfgMap.error);
      }
      var entryMap := ParseStruct(fields.value, []);
      err := PrioUnmarshal(entryMap, env, cfgMap.value, fc, order1, order2);
    }
  }

  /** Once a prefix of pass 1 fails, the whole pass ends there. */
  lemma {:induction false} Pass1Sticks(entryMap: map<string, Entry>, env: map<string, string>, cfg: map<string, string>,
                                        fc: FloatCodec, st: State, order: seq<string>, n: nat)
    requires forall i :: 0 <= i < |order| ==> order[i] in entryMap
    requires n <= |order| && Pass1(entryMap, env, cfg, fc, st, order[..n]).err.Some?
    ensures Pass1(entryMap, env, cfg, fc, st, order) == Pass1(entryMap, env, cfg, fc, st, order[..n])
    decreases |order| - n
  {
    if n < |order| {
      assert order[..n + 1][..n] == order[..n];
      Pass1Sticks(entryMap, env, cfg, fc, st, order, n + 1);
    } else {
      assert order[..n] == order;
    }
  }

  /** Once a prefix of pass 2 fails, the whole pass ends there. */
  lemma {:induction false} Pass2Sticks(entryMap: map<string, Entry>, fc: FloatCodec, st: State, order: seq<string>, n: nat)
    requires forall i :: 0 <= i < |order| ==> order[i] in entryMap
    requires n <= |order| && Pass2(entryMap, fc, st, order[..n]).err.Some?
    ensures Pass2(entryMap, fc, st, order) == Pass2(entryMap, fc, st, order[..n])
    decreases |order| - n
  {
    if n < |order| {
      assert order[..n + 1][..n] == order[..n];
      Pass2Sticks(entryMap, fc, st, order, n + 1);
    } else {
      assert order[..n] == order;
    }
  }
}
