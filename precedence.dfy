/**
 * What prioUnmarshal guarantees for every iteration order of the entry map:
 * env beats file, file beats default, a required binding with no source
 * fails with exactly its key, and a satisfied binding keeps its value.
 */
module Precedence {
  import opened Wrappers
  import opened Errs
  import opened StructWalk
  import opened Coercion
  import opened Resolve

  /** Some key in `order` is an alias of `e` present in `src`. */
  ghost predicate Hit(entryMap: map<string, Entry>, order: seq<string>, e: Entry, src: map<string, string>)
  {
    exists j :: 0 <= j < |order| && order[j] in entryMap && entryMap[order[j]] == e && order[j] in src
  }

  /** Some key in `order` is an alias of `e` present in `src` whose value coerces to `v`. */
  ghost predicate SetFrom(entryMap: map<string, Entry>, order: seq<string>, e: Entry, src: map<string, string>,
                          fc: Strconv.FloatCodec, v: Value)
  {
    exists j :: 0 <= j < |order| && order[j] in entryMap && entryMap[order[j]] == e && order[j] in src
      && Coerce(e.kind, src[order[j]], fc) == Success(v)
  }

  /** Some key in `order` is an alias of `e`. */
  ghost predicate Seen(entryMap: map<string, Entry>, order: seq<string>, e: Entry)
  {
    exists j :: 0 <= j < |order| && order[j] in entryMap && entryMap[order[j]] == e
  }

  /** The field `id` holds the same thing (or nothing) in both stores. */
  predicate Kept(before: map<FieldId, Value>, after: map<FieldId, Value>, id: FieldId)
  {
    (id in before <==> id in after) && (id in before ==> after[id] == before[id])
  }

  lemma HitSnoc(entryMap: map<string, Entry>, order: seq<string>, e: Entry, src: map<string, string>)
    requires order != [] && forall i :: 0 <= i < |order| ==> order[i] in entryMap
    ensures var n := |order| - 1;
      Hit(entryMap, order, e, src) <==>
        Hit(entryMap, order[..n], e, src) || (entryMap[order[n]] == e && order[n] in src)
  {
    var n := |order| - 1;
    if Hit(entryMap, order, e, src) && !(entryMap[order[n]] == e && order[n] in src) {
      var j :| 0 <= j < |order| && order[j] in entryMap && entryMap[order[j]] == e && order[j] in src;
      assert order[..n][j] == order[j];
    }
    if Hit(entryMap, order[..n], e, src) {
      var j :| 0 <= j < n && order[..n][j] in entryMap && entryMap[order[..n][j]] == e && order[..n][j] in src;
      assert order[j] == order[..n][j];
    }
  }

  lemma SeenSnoc(entryMap: map<string, Entry>, order: seq<string>, e: Entry)
    requires order != [] && forall i :: 0 <= i < |order| ==> order[i] in entryMap
    ensures var n := |order| - 1;
      Seen(entryMap, order, e) <==> Seen(entryMap, order[..n], e) || entryMap[order[n]] == e
  {
    var n := |order| - 1;
    if Seen(entryMap, order, e) && entryMap[order[n]] != e {
      var j :| 0 <= j < |order| && order[j] in entryMap && entryMap[order[j]] == e;
      assert order[..n][j] == order[j];
    }
    if Seen(entryMap, order[..n], e) {
      var j :| 0 <= j < n && order[..n][j] in entryMap && entryMap[order[..n][j]] == e;
      assert order[j] == order[..n][j];
    }
  }

  lemma SetFromSnoc(entryMap: map<string, Entry>, order: seq<string>, e: Entry, src: map<string, string>,
                    fc: Strconv.FloatCodec, v: Value)
    requires order != [] && SetFrom(entryMap, order[..|order| - 1], e, src, fc, v)
    ensures SetFrom(entryMap, order, e, src, fc, v)
  {
    var n := |order| - 1;
    var j :| 0 <= j < n && order[..n][j] in entryMap && entryMap[order[..n][j]] == e && order[..n][j] in src
      && Coerce(e.kind, src[order[..n][j]], fc) == Success(v);
    assert order[j] == order[..n][j];
  }

  /** The state pass 1 leaves for one binding `e`. */
  ghost predicate Pass1Leaves(entryMap: map<string, Entry>, env: map<string, string>, cfg: map<string, string>,
                              fc: Strconv.FloatCodec, store0: map<FieldId, Value>, order: seq<string>, e: Entry, st: State)
  {
    var envHit := Hit(entryMap, order, e, env);
    var cfgHit := Hit(entryMap, order, e, cfg);
    && (EnvMarked(st.marks, e) <==> envHit)
    && (e in st.marks <==> envHit || cfgHit)
    && (envHit ==> e.id in st.store && SetFrom(entryMap, order, e, env, fc, st.store[e.id]))
    && (!envHit && cfgHit ==> e.id in st.store && SetFrom(entryMap, order, e, cfg, fc, st.store[e.id]))
    && (!envHit && !cfgHit ==> Kept(store0, st.store, e.id))
  }

  /**
   * After pass 1, in any order: a binding is env-marked iff one of its keys
   * is in env, and then holds the env value of one of those keys; otherwise
   * it is file-marked iff one of its keys is in the file map, and then holds
   * the file value of one of those; otherwise it is unmarked and untouched.
   */
  lemma {:induction false} Pass1Entry(entryMap: map<string, Entry>, env: map<string, string>, cfg: map<string, string>,
                                       fc: Strconv.FloatCodec, store0: map<FieldId, Value>, order: seq<string>, k0: string)
    requires forall i :: 0 <= i < |order| ==> order[i] in entryMap
    requires Coherent(entryMap) && k0 in entryMap
    ensures var r := Pass1(entryMap, env, cfg, fc, State(store0, map[]), order);
      r.err.None? ==> Pass1Leaves(entryMap, env, cfg, fc, store0, order, entryMap[k0], r.state)
  {
    var e := entryMap[k0];
    var r := Pass1(entryMap, env, cfg, fc, State(store0, map[]), order);
    if order != [] && r.err.None? {
      var n := |order| - 1;
      var init := order[..n];
      var r0 := Pass1(entryMap, env, cfg, fc, State(store0, map[]), init);
      Pass1Entry(entryMap, env, cfg, fc, store0, init, k0);
      assert r0.err.None?;
      var k := order[n];
      var e' := entryMap[k];
      HitSnoc(entryMap, order, e, env);
      HitSnoc(entryMap, order, e, cfg);
      assert r == Pass1Step(entryMap, env, cfg, fc, r0.state, k);
      if e' != e {
        assert e'.id != e.id;
        Pass1OtherEntry(entryMap, env, cfg, fc, store0, order, e);
      } else {
        Pass1SameEntry(entryMap, env, cfg, fc, store0, order, e);
      }
    }
  }

  /** The last step of pass 1 was for another binding: the facts about `e` carry over. */
  lemma Pass1OtherEntry(entryMap: map<string, Entry>, env: map<string, string>, cfg: map<string, string>,
                        fc: Strconv.FloatCodec, store0: map<FieldId, Value>, order: seq<string>, e: Entry)
    requires order != [] && forall i :: 0 <= i < |order| ==> order[i] in entryMap
    requires var k := order[|order| - 1]; entryMap[k] != e && entryMap[k].id != e.id
    requires var r0 := Pass1(entryMap, env, cfg, fc, State(store0, map[]), order[..|order| - 1]);
      r0.err.None? && Pass1Leaves(entryMap, env, cfg, fc, store0, order[..|order| - 1], e, r0.state)
    requires Pass1(entryMap, env, cfg, fc, State(store0, map[]), order).err.None?
    ensures Pass1Leaves(entryMap, env, cfg, fc, store0, order, e, Pass1(entryMap, env, cfg, fc, State(store0, map[]), order).state)
  {
    var n := |order| - 1;
    var init := order[..n];
    HitSnoc(entryMap, order, e, env);
    HitSnoc(entryMap, order, e, cfg);
    var r0 := Pass1(entryMap, env, cfg, fc, State(store0, map[]), init);
    var st := Pass1(entryMap, env, cfg, fc, State(store0, map[]), order).state;
    assert e in st.marks <==> e in r0.state.marks;
    assert EnvMarked(st.marks, e) <==> EnvMarked(r0.state.marks, e);
    assert Kept(r0.state.store, st.store, e.id);
    if Hit(entryMap, init, e, env) {
      SetFromSnoc(entryMap, order, e, env, fc, st.store[e.id]);
    }
    if Hit(entryMap, init, e, cfg) && !Hit(entryMap, init, e, env) {
      SetFromSnoc(entryMap, order, e, cfg, fc, st.store[e.id]);
    }
  }

  /** The last step of pass 1 was for `e` itself. */
  lemma Pass1SameEntry(entryMap: map<string, Entry>, env: map<string, string>, cfg: map<string, string>,
                       fc: Strconv.FloatCodec, store0: map<FieldId, Value>, order: seq<string>, e: Entry)
    requires order != [] && forall i :: 0 <= i < |order| ==> order[i] in entryMap
    requires entryMap[order[|order| - 1]] == e
    requires var r0 := Pass1(entryMap, env, cfg, fc, State(store0, map[]), order[..|order| - 1]);
      r0.err.None? && Pass1Leaves(entryMap, env, cfg, fc, store0, order[..|order| - 1], e, r0.state)
    requires Pass1(entryMap, env, cfg, fc, State(store0, map[]), order).err.None?
    ensures Pass1Leaves(entryMap, env, cfg, fc, store0, order, e, Pass1(entryMap, env, cfg, fc, State(store0, map[]), order).state)
  {
    var n := |order| - 1;
    var init := order[..n];
    var k := order[n];
    HitSnoc(entryMap, order, e, env);
    HitSnoc(entryMap, order, e, cfg);
    var r0 := Pass1(entryMap, env, cfg, fc, State(store0, map[]), init);
    var st := Pass1(entryMap, env, cfg, fc, State(store0, map[]), order).state;
    if k in env {
      var v := Coerce(e.kind, env[k], fc).value;
      assert st.store[e.id] == v && st.marks[e];
      assert SetFrom(entryMap, order, e, env, fc, v) by {
        assert order[n] in entryMap && entryMap[order[n]] == e && order[n] in env;
      }
    } else if k in cfg && !EnvMarked(r0.state.marks, e) {
      var v := Coerce(e.kind, cfg[k], fc).value;
      assert st.store[e.id] == v && !st.marks[e];
      assert SetFrom(entryMap, order, e, cfg, fc, v) by {
        assert order[n] in entryMap && entryMap[order[n]] == e && order[n] in cfg;
      }
    } else {
      assert st == r0.state;
      if Hit(entryMap, init, e, env) {
        SetFromSnoc(entryMap, order, e, env, fc, st.store[e.id]);
      }
      if Hit(entryMap, init, e, cfg) && !Hit(entryMap, init, e, env) {
        SetFromSnoc(entryMap, order, e, cfg, fc, st.store[e.id]);
      }
    }
  }

  /** The state pass 2 leaves for one binding `e`, starting from pass 1's state `st1`. */
  ghost predicate Pass2Leaves(entryMap: map<string, Entry>, fc: Strconv.FloatCodec, st1: State, order: seq<string>,
                              e: Entry, st: State)
  {
    && (e in st1.marks ==> e in st.marks && Kept(st1.store, st.store, e.id))
    && (e !in st1.marks && !Seen(entryMap, order, e) ==> e !in st.marks && Kept(st1.store, st.store, e.id))
    && (e !in st1.marks && Seen(entryMap, order, e) ==>
          && !e.isRequired
          && (e.default == "" ==> e !in st.marks && Kept(st1.store, st.store, e.id))
          && (e.default != "" ==>
                e in st.marks && e.id in st.store && Coerce(e.kind, e.default, fc) == Success(st.store[e.id])))
  }

  /**
   * After a successful pass 2, in any order: a binding satisfied in pass 1
   * is untouched; an unsatisfied one is not required, and holds its coerced
   * default if it has a non-empty one and is untouched otherwise.
   */
  lemma {:induction false} Pass2Entry(entryMap: map<string, Entry>, fc: Strconv.FloatCodec, st1: State,
                                       order: seq<string>, k0: string)
    requires forall i :: 0 <= i < |order| ==> order[i] in entryMap
    requires Coherent(entryMap) && k0 in entryMap
    ensures var r := Pass2(entryMap, fc, st1, order);
      r.err.None? ==> Pass2Leaves(entryMap, fc, st1, order, entryMap[k0], r.state)
  {
    var e := entryMap[k0];
    var r := Pass2(entryMap, fc, st1, order);
    if order != [] && r.err.None? {
      var n := |order| - 1;
      var init := order[..n];
      var r0 := Pass2(entryMap, fc, st1, init);
      Pass2Entry(entryMap, fc, st1, init, k0);
      assert r0.err.None?;
      var k := order[n];
      SeenSnoc(entryMap, order, e);
      assert r == Pass2Step(entryMap, fc, r0.state, k);
      if entryMap[k] != e {
        assert entryMap[k].id != e.id;
        assert e in r.state.marks <==> e in r0.state.marks;
        assert Kept(r0.state.store, r.state.store, e.id);
      } else if e !in r0.state.marks && e.default != "" {
        assert r.state.store[e.id] == Coerce(e.kind, e.default, fc).value;
      }
    }
  }

  /** Pass 2 only adds marks. */
  lemma {:induction false} Pass2MarksGrow(entryMap: map<string, Entry>, fc: Strconv.FloatCodec, st1: State, order: seq<string>)
    requires forall i :: 0 <= i < |order| ==> order[i] in entryMap
    ensures st1.marks.Keys <= Pass2(entryMap, fc, st1, order).state.marks.Keys
  {
    if order != [] {
      Pass2MarksGrow(entryMap, fc, st1, order[..|order| - 1]);
    }
  }

  /** A RequiredKeyNotPresentError from pass 2 names exactly one key, of a required binding pass 1 left unmarked. */
  lemma {:induction false} Pass2RequiredError(entryMap: map<string, Entry>, fc: Strconv.FloatCodec, st1: State, order: seq<string>)
    requires forall i :: 0 <= i < |order| ==> order[i] in entryMap
    ensures var r := Pass2(entryMap, fc, st1, order);
      r.err.Some? && r.err.value.RequiredKeyNotPresent? ==>
        exists k :: k in entryMap && r.err.value.missing.keys == [k] && entryMap[k].isRequired && entryMap[k] !in st1.marks
  {
    if order != [] {
      var init := order[..|order| - 1];
      Pass2RequiredError(entryMap, fc, st1, init);
      Pass2MarksGrow(entryMap, fc, st1, init);
    }
  }

  /**
   * A binding that pass 1 satisfied, that is required, or whose default is
   * empty keeps its pass-1 value through pass 2, including a pass 2 that
   * fails part-way.
   */
  lemma {:induction false} Pass2Keeps(entryMap: map<string, Entry>, fc: Strconv.FloatCodec, st1: State,
                                       order: seq<string>, k0: string)
    requires forall i :: 0 <= i < |order| ==> order[i] in entryMap
    requires Coherent(entryMap) && k0 in entryMap
    requires var e := entryMap[k0]; e in st1.marks || e.isRequired || e.default == ""
    ensures Kept(st1.store, Pass2(entryMap, fc, st1, order).state.store, entryMap[k0].id)
  {
    if order != [] {
      var e := entryMap[k0];
      var init := order[..|order| - 1];
      Pass2Keeps(entryMap, fc, st1, init, k0);
      Pass2MarksGrow(entryMap, fc, st1, init);
      var r0 := Pass2(entryMap, fc, st1, init);
      if r0.err.None? {
        var k := order[|order| - 1];
        if entryMap[k] != e {
          assert entryMap[k].id != e.id;
        }
      }
    }
  }

  /** No binding has identity `id`: an untagged field, a field of an unsupported kind, or one whose keys were all taken over. */
  predicate Unbound(entryMap: map<string, Entry>, id: FieldId)
  {
    forall k :: k in entryMap ==> entryMap[k].id != id
  }

  /** Pass 1 never touches a field that no binding names. */
  lemma {:induction false} Pass1Frame(entryMap: map<string, Entry>, env: map<string, string>, cfg: map<string, string>,
                                       fc: Strconv.FloatCodec, st: State, order: seq<string>, id: FieldId)
    requires forall i :: 0 <= i < |order| ==> order[i] in entryMap
    requires Unbound(entryMap, id)
    ensures Kept(st.store, Pass1(entryMap, env, cfg, fc, st, order).state.store, id)
  {
    if order != [] {
      Pass1Frame(entryMap, env, cfg, fc, st, order[..|order| - 1], id);
    }
  }

  /** Nor does pass 2. */
  lemma {:induction false} Pass2Frame(entryMap: map<string, Entry>, fc: Strconv.FloatCodec, st: State,
                                       order: seq<string>, id: FieldId)
    requires forall i :: 0 <= i < |order| ==> order[i] in entryMap
    requires Unbound(entryMap, id)
    ensures Kept(st.store, Pass2(entryMap, fc, st, order).state.store, id)
  {
    if order != [] {
      Pass2Frame(entryMap, fc, st, order[..|order| - 1], id);
    }
  }

  /** prioUnmarshal, whether it succeeds or fails, leaves every field no binding names as it was. */
  lemma ResolutionFrame(entryMap: map<string, Entry>, env: map<string, string>, cfg: map<string, string>,
                        fc: Strconv.FloatCodec, store0: map<FieldId, Value>, order1: seq<string>, order2: seq<string>, id: FieldId)
    requires forall i :: 0 <= i < |order1| ==> order1[i] in entryMap
    requires forall i :: 0 <= i < |order2| ==> order2[i] in entryMap
    requires Unbound(entryMap, id)
    ensures Kept(store0, Resolution(entryMap, env, cfg, fc, store0, order1, order2).state.store, id)
  {
    var r1 := Pass1(entryMap, env, cfg, fc, State(store0, map[]), order1);
    Pass1Frame(entryMap, env, cfg, fc, State(store0, map[]), order1, id);
    Pass2Frame(entryMap, fc, r1.state, order2, id);
  }

  /** Pass 1 fails only by a coercion error. */
  lemma {:induction false} Pass1ErrorIsCoercion(entryMap: map<string, Entry>, env: map<string, string>, cfg: map<string, string>,
                                                 fc: Strconv.FloatCodec, st: State, order: seq<string>)
    requires forall i :: 0 <= i < |order| ==> order[i] in entryMap
    ensures var r := Pass1(entryMap, env, cfg, fc, st, order);
      r.err.Some? ==> r.err.value.SettingValue? && r.err.value.source != FromDefault
  {
    if order != [] {
      Pass1ErrorIsCoercion(entryMap, env, cfg, fc, st, order[..|order| - 1]);
    }
  }

  /** Every step of a successful pass 1 succeeds, each from the state the keys before it left. */
  lemma {:induction false} Pass1StepsSucceed(entryMap: map<string, Entry>, env: map<string, string>, cfg: map<string, string>,
                                              fc: Strconv.FloatCodec, st: State, order: seq<string>, j: nat)
    requires forall i :: 0 <= i < |order| ==> order[i] in entryMap
    requires j < |order|
    ensures Pass1(entryMap, env, cfg, fc, st, order).err.None? ==>
      Pass1Step(entryMap, env, cfg, fc, Pass1(entryMap, env, cfg, fc, st, order[..j]).state, order[j]).err.None?
    decreases |order|
  {
    var n := |order| - 1;
    var init := order[..n];
    if j < n {
      Pass1StepsSucceed(entryMap, env, cfg, fc, st, init, j);
      assert init[..j] == order[..j] && init[j] == order[j];
    } else {
      assert order[..j] == init;
    }
  }

  /** A key of some prefix of `order` that is an alias of `e` present in `src` is an alias present in `src`. */
  lemma HitAlias(entryMap: map<string, Entry>, order: seq<string>, e: Entry, src: map<string, string>)
    ensures Hit(entryMap, order, e, src) ==> Alias(entryMap, e, src)
  {
    if Hit(entryMap, order, e, src) {
      var i :| 0 <= i < |order| && order[i] in entryMap && entryMap[order[i]] == e && order[i] in src;
      assert order[i] in entryMap && entryMap[order[i]] == e && order[i] in src;
    }
  }

  /** A successful pass 1 succeeds on every prefix of its order. */
  lemma Pass1PrefixSucceeds(entryMap: map<string, Entry>, env: map<string, string>, cfg: map<string, string>,
                            fc: Strconv.FloatCodec, st: State, order: seq<string>, j: nat)
    requires forall i :: 0 <= i < |order| ==> order[i] in entryMap
    requires j <= |order|
    ensures Pass1(entryMap, env, cfg, fc, st, order).err.None? ==> Pass1(entryMap, env, cfg, fc, st, order[..j]).err.None?
  {
    if Pass1(entryMap, env, cfg, fc, st, order[..j]).err.Some? {
      Pass1Sticks(entryMap, env, cfg, fc, st, order, j);
    }
  }

  /** When pass 1 succeeds, a binding with no key in env is not env-marked at any point of it. */
  lemma Pass1NeverEnvMarked(entryMap: map<string, Entry>, env: map<string, string>, cfg: map<string, string>,
                            fc: Strconv.FloatCodec, store0: map<FieldId, Value>, order: seq<string>, j: nat, k: string)
    requires IsOrder(order, entryMap) && Coherent(entryMap)
    requires j <= |order| && k in entryMap && !Alias(entryMap, entryMap[k], env)
    ensures Pass1(entryMap, env, cfg, fc, State(store0, map[]), order).err.None? ==>
      !EnvMarked(Pass1(entryMap, env, cfg, fc, State(store0, map[]), order[..j]).state.marks, entryMap[k])
  {
    var prefix := order[..j];
    Pass1PrefixSucceeds(entryMap, env, cfg, fc, State(store0, map[]), order, j);
    Pass1Entry(entryMap, env, cfg, fc, store0, prefix, k);
    HitAlias(entryMap, prefix, entryMap[k], env);
  }

  /**
   * A key in env whose value does not coerce to its field's kind makes
   * prioUnmarshal fail with a coercion error, whatever the iteration orders.
   */
  lemma EnvCoercionFailureFails(entryMap: map<string, Entry>, env: map<string, string>, cfg: map<string, string>,
                                fc: Strconv.FloatCodec, store0: map<FieldId, Value>, order1: seq<string>, order2: seq<string>, k: string)
    requires IsOrder(order1, entryMap) && IsOrder(order2, entryMap)
    requires k in entryMap && k in env && Coerce(entryMap[k].kind, env[k], fc).Failure?
    ensures var r := Resolution(entryMap, env, cfg, fc, store0, order1, order2);
      r.err.Some? && r.err.value.SettingValue? && r.err.value.source != FromDefault
  {
    var j :| 0 <= j < |order1| && order1[j] == k;
    var st := State(store0, map[]);
    Pass1StepsSucceed(entryMap, env, cfg, fc, st, order1, j);
    assert Pass1Step(entryMap, env, cfg, fc, Pass1(entryMap, env, cfg, fc, st, order1[..j]).state, k).err.Some?;
    Pass1ErrorIsCoercion(entryMap, env, cfg, fc, st, order1);
  }

  /**
   * A key in the file map whose binding has no key in env, and whose file
   * value does not coerce, makes prioUnmarshal fail with a coercion error.
   */
  lemma FileCoercionFailureFails(entryMap: map<string, Entry>, env: map<string, string>, cfg: map<string, string>,
                                 fc: Strconv.FloatCodec, store0: map<FieldId, Value>, order1: seq<string>, order2: seq<string>, k: string)
    requires IsOrder(order1, entryMap) && IsOrder(order2, entryMap) && Coherent(entryMap)
    requires k in entryMap && k in cfg && !Alias(entryMap, entryMap[k], env)
    requires Coerce(entryMap[k].kind, cfg[k], fc).Failure?
    ensures var r := Resolution(entryMap, env, cfg, fc, store0, order1, order2);
      r.err.Some? && r.err.value.SettingValue? && r.err.value.source != FromDefault
  {
    var j :| 0 <= j < |order1| && order1[j] == k;
    var st := State(store0, map[]);
    assert k !in env;
    Pass1StepsSucceed(entryMap, env, cfg, fc, st, order1, j);
    Pass1NeverEnvMarked(entryMap, env, cfg, fc, store0, order1, j, k);
    Pass1ErrorIsCoercion(entryMap, env, cfg, fc, st, order1);
  }

  /**
   * A binding with no key in env or the file map, not required, whose
   * non-empty default does not coerce, makes prioUnmarshal fail.
   */
  lemma DefaultCoercionFailureFails(entryMap: map<string, Entry>, env: map<string, string>, cfg: map<string, string>,
                                    fc: Strconv.FloatCodec, store0: map<FieldId, Value>, order1: seq<string>, order2: seq<string>, k: string)
    requires IsOrder(order1, entryMap) && IsOrder(order2, entryMap) && Coherent(entryMap)
    requires k in entryMap && !Alias(entryMap, entryMap[k], env) && !Alias(entryMap, entryMap[k], cfg)
    requires var e := entryMap[k]; !e.isRequired && e.default != "" && Coerce(e.kind, e.default, fc).Failure?
    ensures Resolution(entryMap, env, cfg, fc, store0, order1, order2).err.Some?
  {
    var e := entryMap[k];
    var r1 := Pass1(entryMap, env, cfg, fc, State(store0, map[]), order1);
    if r1.err.None? {
      Pass1Entry(entryMap, env, cfg, fc, store0, order1, k);
      HitIsAlias(entryMap, order1, e, env);
      HitIsAlias(entryMap, order1, e, cfg);
      Pass2Entry(entryMap, fc, r1.state, order2, k);
      var j :| 0 <= j < |order2| && order2[j] == k;
      assert Seen(entryMap, order2, e);
    }
  }

  /** Some key of binding `e` is present in `src`. */
  ghost predicate Alias(entryMap: map<string, Entry>, e: Entry, src: map<string, string>)
  {
    exists k :: k in entryMap && entryMap[k] == e && k in src
  }

  /** Some key of binding `e` is present in `src` with a value that coerces to `v`. */
  ghost predicate ValueFrom(entryMap: map<string, Entry>, e: Entry, src: map<string, string>, fc: Strconv.FloatCodec, v: Value)
  {
    exists k :: k in entryMap && entryMap[k] == e && k in src && Coerce(e.kind, src[k], fc) == Success(v)
  }

  lemma HitIsAlias(entryMap: map<string, Entry>, order: seq<string>, e: Entry, src: map<string, string>)
    requires IsOrder(order, entryMap)
    ensures Hit(entryMap, order, e, src) <==> Alias(entryMap, e, src)
  {
    if Alias(entryMap, e, src) {
      var k :| k in entryMap && entryMap[k] == e && k in src;
      var j :| 0 <= j < |order| && order[j] == k;
    }
  }

  lemma SetFromIsValueFrom(entryMap: map<string, Entry>, order: seq<string>, e: Entry, src: map<string, string>,
                           fc: Strconv.FloatCodec, v: Value)
    requires SetFrom(entryMap, order, e, src, fc, v)
    ensures ValueFrom(entryMap, e, src, fc, v)
  {
    var j :| 0 <= j < |order| && order[j] in entryMap && entryMap[order[j]] == e && order[j] in src
      && Coerce(e.kind, src[order[j]], fc) == Success(v);
    assert ValueFrom(entryMap, e, src, fc, v) by {
      var k := order[j];
      assert k in entryMap && entryMap[k] == e && k in src && Coerce(e.kind, src[k], fc) == Success(v);
    }
  }

  /**
   * The outcome of a successful prioUnmarshal for the binding of key `k0`,
   * whatever the two iteration orders: the env value of one of its keys if
   * any is in env; else the file value of one of its keys if any is in the
   * file map; else it is not required, and holds its coerced default when
   * the default is non-empty and is untouched when it is empty.
   */
  lemma ResolvedValue(entryMap: map<string, Entry>, env: map<string, string>, cfg: map<string, string>,
                      fc: Strconv.FloatCodec, store0: map<FieldId, Value>, order1: seq<string>, order2: seq<string>, k0: string)
    requires IsOrder(order1, entryMap) && IsOrder(order2, entryMap)
    requires Coherent(entryMap) && k0 in entryMap
    ensures var r := Resolution(entryMap, env, cfg, fc, store0, order1, order2);
      var e := entryMap[k0];
      var store := r.state.store;
      r.err.None? ==>
        && (Alias(entryMap, e, env) ==> e.id in store && ValueFrom(entryMap, e, env, fc, store[e.id]))
        && (!Alias(entryMap, e, env) && Alias(entryMap, e, cfg) ==>
              e.id in store && ValueFrom(entryMap, e, cfg, fc, store[e.id]))
        && (!Alias(entryMap, e, env) && !Alias(entryMap, e, cfg) ==>
              && !e.isRequired
              && (e.default != "" ==> e.id in store && Coerce(e.kind, e.default, fc) == Success(store[e.id]))
              && (e.default == "" ==> Kept(store0, store, e.id)))
  {
    var e := entryMap[k0];
    var r1 := Pass1(entryMap, env, cfg, fc, State(store0, map[]), order1);
    var r := Resolution(entryMap, env, cfg, fc, store0, order1, order2);
    if r.err.None? {
      assert r1.err.None?;
      Pass1Entry(entryMap, env, cfg, fc, store0, order1, k0);
      Pass2Entry(entryMap, fc, r1.state, order2, k0);
      HitIsAlias(entryMap, order1, e, env);
      HitIsAlias(entryMap, order1, e, cfg);
      var j :| 0 <= j < |order2| && order2[j] == k0;
      assert Seen(entryMap, order2, e);
      var st1 := r1.state;
      if Alias(entryMap, e, env) {
        SetFromIsValueFrom(entryMap, order1, e, env, fc, st1.store[e.id]);
      } else if Alias(entryMap, e, cfg) {
        SetFromIsValueFrom(entryMap, order1, e, cfg, fc, st1.store[e.id]);
      }
    }
  }

  /**
   * prioUnmarshal reports a missing required key exactly when it should:
   * such an error names one key, of a required binding none of whose keys
   * is in env or the file map; and if such a binding exists, the call fails.
   */
  lemma RequiredReported(entryMap: map<string, Entry>, env: map<string, string>, cfg: map<string, string>,
                         fc: Strconv.FloatCodec, store0: map<FieldId, Value>, order1: seq<string>, order2: seq<string>)
    requires IsOrder(order1, entryMap) && IsOrder(order2, entryMap) && Coherent(entryMap)
    ensures var r := Resolution(entryMap, env, cfg, fc, store0, order1, order2);
      r.err.Some? && r.err.value.RequiredKeyNotPresent? ==>
        exists k :: k in entryMap && r.err.value.missing.keys == [k] && entryMap[k].isRequired
          && !Alias(entryMap, entryMap[k], env) && !Alias(entryMap, entryMap[k], cfg)
    ensures (exists k :: k in entryMap && entryMap[k].isRequired
               && !Alias(entryMap, entryMap[k], env) && !Alias(entryMap, entryMap[k], cfg))
      ==> Resolution(entryMap, env, cfg, fc, store0, order1, order2).err.Some?
  {
    var r1 := Pass1(entryMap, env, cfg, fc, State(store0, map[]), order1);
    var r := Resolution(entryMap, env, cfg, fc, store0, order1, order2);
    Pass1ErrorIsCoercion(entryMap, env, cfg, fc, State(store0, map[]), order1);
    if r.err.Some? && r.err.value.RequiredKeyNotPresent? {
      assert r1.err.None?;
      Pass2RequiredError(entryMap, fc, r1.state, order2);
      var k :| k in entryMap && r.err.value.missing.keys == [k] && entryMap[k].isRequired && entryMap[k] !in r1.state.marks;
      Pass1Entry(entryMap, env, cfg, fc, store0, order1, k);
      HitIsAlias(entryMap, order1, entryMap[k], env);
      HitIsAlias(entryMap, order1, entryMap[k], cfg);
    }
    if k :| (k in entryMap && entryMap[k].isRequired
             && !Alias(entryMap, entryMap[k], env) && !Alias(entryMap, entryMap[k], cfg)) {
      ResolvedValue(entryMap, env, cfg, fc, store0, order1, order2, k);
    }
  }

  /**
   * A key present in env whose binding has no other key in env ends up
   * holding that env value, whatever the file map or the default says.
   */
  lemma EnvValueWins(entryMap: map<string, Entry>, env: map<string, string>, cfg: map<string, string>,
                     fc: Strconv.FloatCodec, store0: map<FieldId, Value>, order1: seq<string>, order2: seq<string>, k: string)
    requires IsOrder(order1, entryMap) && IsOrder(order2, entryMap) && Coherent(entryMap)
    requires k in entryMap && k in env
    requires forall k' :: k' in entryMap && k' in env && entryMap[k'] == entryMap[k] ==> k' == k
    ensures var r := Resolution(entryMap, env, cfg, fc, store0, order1, order2);
      r.err.None? ==>
        entryMap[k].id in r.state.store && Coerce(entryMap[k].kind, env[k], fc) == Success(r.state.store[entryMap[k].id])
  {
    ResolvedValue(entryMap, env, cfg, fc, store0, order1, order2, k);
  }

  /**
   * A key present in env whose binding has no other key in env leaves pass 1,
   * when pass 1 succeeds, env-marked and holding that env value.
   */
  lemma Pass1EnvValue(entryMap: map<string, Entry>, env: map<string, string>, cfg: map<string, string>,
                      fc: Strconv.FloatCodec, store0: map<FieldId, Value>, order1: seq<string>, k: string)
    requires IsOrder(order1, entryMap) && Coherent(entryMap)
    requires k in entryMap && k in env
    requires forall k' :: k' in entryMap && k' in env && entryMap[k'] == entryMap[k] ==> k' == k
    ensures var r1 := Pass1(entryMap, env, cfg, fc, State(store0, map[]), order1);
      var e := entryMap[k];
      r1.err.None? ==>
        EnvMarked(r1.state.marks, e) && e.id in r1.state.store && Coerce(e.kind, env[k], fc) == Success(r1.state.store[e.id])
  {
    var e := entryMap[k];
    var r1 := Pass1(entryMap, env, cfg, fc, State(store0, map[]), order1);
    if r1.err.None? {
      Pass1Entry(entryMap, env, cfg, fc, store0, order1, k);
      HitIsAlias(entryMap, order1, e, env);
      SetFromIsValueFrom(entryMap, order1, e, env, fc, r1.state.store[e.id]);
    }
  }

  /** Pass 1 over `order` ended with `r` by failing at key `order[n]`, having run through `order[..n]` cleanly. */
  predicate Pass1StoppedAt(entryMap: map<string, Entry>, env: map<string, string>, cfg: map<string, string>,
                           fc: Strconv.FloatCodec, st: State, order: seq<string>, r: Outcome, n: int)
    requires forall i :: 0 <= i < |order| ==> order[i] in entryMap
  {
    && 0 <= n < |order|
    && Pass1(entryMap, env, cfg, fc, st, order[..n]) == Outcome(r.state, None)
    && r == Pass1Step(entryMap, env, cfg, fc, r.state, order[n])
  }

  /**
   * A failing pass 1 stops at the first key whose step fails: the state it
   * returns is the one reached after the keys before it, with every value
   * already assigned still in place.
   */
  lemma {:induction false} Pass1StopsAtFirstError(entryMap: map<string, Entry>, env: map<string, string>, cfg: map<string, string>,
                                                   fc: Strconv.FloatCodec, st: State, order: seq<string>)
    requires forall i :: 0 <= i < |order| ==> order[i] in entryMap
    ensures var r := Pass1(entryMap, env, cfg, fc, st, order);
      r.err.Some? ==> exists n :: Pass1StoppedAt(entryMap, env, cfg, fc, st, order, r, n)
  {
    var r := Pass1(entryMap, env, cfg, fc, st, order);
    if r.err.Some? {
      var n := |order| - 1;
      var init := order[..n];
      var r0 := Pass1(entryMap, env, cfg, fc, st, init);
      if r0.err.Some? {
        Pass1StopsAtFirstError(entryMap, env, cfg, fc, st, init);
        var m :| Pass1StoppedAt(entryMap, env, cfg, fc, st, init, r0, m);
        assert init[..m] == order[..m];
        assert Pass1StoppedAt(entryMap, env, cfg, fc, st, order, r, m);
      } else {
        assert Pass1StoppedAt(entryMap, env, cfg, fc, st, order, r, n);
      }
    }
  }

  /** The same for pass 2. */
  predicate Pass2StoppedAt(entryMap: map<string, Entry>, fc: Strconv.FloatCodec, st: State, order: seq<string>, r: Outcome, n: int)
    requires forall i :: 0 <= i < |order| ==> order[i] in entryMap
  {
    && 0 <= n < |order|
    && Pass2(entryMap, fc, st, order[..n]) == Outcome(r.state, None)
    && r == Pass2Step(entryMap, fc, r.state, order[n])
  }

  /** Pass 2 stops at the first required binding it finds unmarked, or the first default that fails to coerce. */
  lemma {:induction false} Pass2StopsAtFirstError(entryMap: map<string, Entry>, fc: Strconv.FloatCodec, st: State, order: seq<string>)
    requires forall i :: 0 <= i < |order| ==> order[i] in entryMap
    ensures var r := Pass2(entryMap, fc, st, order);
      r.err.Some? ==> exists n :: Pass2StoppedAt(entryMap, fc, st, order, r, n)
  {
    var r := Pass2(entryMap, fc, st, order);
    if r.err.Some? {
      var n := |order| - 1;
      var init := order[..n];
      var r0 := Pass2(entryMap, fc, st, init);
      if r0.err.Some? {
        Pass2StopsAtFirstError(entryMap, fc, st, init);
        var m :| Pass2StoppedAt(entryMap, fc, st, init, r0, m);
        assert init[..m] == order[..m];
        assert Pass2StoppedAt(entryMap, fc, st, order, r, m);
      } else {
        assert Pass2StoppedAt(entryMap, fc, st, order, r, n);
      }
    }
  }

  /**
   * Coercing into a string field never fails, so when every binding is a
   * string the only error prioUnmarshal can return is a missing required key.
   */
  lemma StringBindingsFailOnlyOnRequired(entryMap: map<string, Entry>, env: map<string, string>, cfg: map<string, string>,
                                         fc: Strconv.FloatCodec, store0: map<FieldId, Value>, order1: seq<string>, order2: seq<string>)
    requires forall i :: 0 <= i < |order1| ==> order1[i] in entryMap
    requires forall i :: 0 <= i < |order2| ==> order2[i] in entryMap
    requires forall k :: k in entryMap ==> entryMap[k].kind == Scalar(String)
    ensures var r := Resolution(entryMap, env, cfg, fc, store0, order1, order2);
      Pass1(entryMap, env, cfg, fc, State(store0, map[]), order1).err.None?
      && (r.err.Some? ==> r.err.value.RequiredKeyNotPresent?)
  {
    Pass1OverStrings(entryMap, env, cfg, fc, State(store0, map[]), order1);
    var r1 := Pass1(entryMap, env, cfg, fc, State(store0, map[]), order1);
    Pass2OverStrings(entryMap, fc, r1.state, order2);
  }

  lemma {:induction false} Pass1OverStrings(entryMap: map<string, Entry>, env: map<string, string>, cfg: map<string, string>,
                                             fc: Strconv.FloatCodec, st: State, order: seq<string>)
    requires forall i :: 0 <= i < |order| ==> order[i] in entryMap
    requires forall k :: k in entryMap ==> entryMap[k].kind == Scalar(String)
    ensures Pass1(entryMap, env, cfg, fc, st, order).err.None?
  {
    if order != [] {
      Pass1OverStrings(entryMap, env, cfg, fc, st, order[..|order| - 1]);
    }
  }

  lemma {:induction false} Pass2OverStrings(entryMap: map<string, Entry>, fc: Strconv.FloatCodec, st: State, order: seq<string>)
    requires forall i :: 0 <= i < |order| ==> order[i] in entryMap
    requires forall k :: k in entryMap ==> entryMap[k].kind == Scalar(String)
    ensures var r := Pass2(entryMap, fc, st, order);
      r.err.Some? ==> r.err.value.RequiredKeyNotPresent?
  {
    if order != [] {
      Pass2OverStrings(entryMap, fc, st, order[..|order| - 1]);
    }
  }
}
