/**
 * parseStruct: walks a configuration struct, given as a descriptor of its
 * fields, and maps every qualified key to the binding of the scalar field it
 * names.
 */
module StructWalk {
  import opened Wrappers
  import opened KeyMaps

  /** The scalar kinds a binding may have (ints and floats of any width). */
  datatype Scalar = Bool | Int | Float | String

  /** A field's type, by its reflect kind. */
  datatype Kind =
    | Scalar(scalar: Scalar)
    | Struct(typeName: string, fields: seq<Field>)
    | Other(typeName: string)

  /** A struct field: the keys and options its `env` tag declares, and its type. */
  datatype Field = Field(keys: seq<string>, options: map<string, string>, kind: Kind)

  /** A field's identity: the field indices leading to it from the root struct. */
  type FieldId = seq<nat>

  /** envEntry: the field's storage (by identity and kind), its required flag and its default. */
  datatype Entry = Entry(id: FieldId, kind: Kind, isRequired: bool, default: string)

  const OptionRequired := "required"
  const OptionDefault := "default"

  /** A tag option, or "" when absent (Go's zero value for a missing map key). */
  function TagOption(options: map<string, string>, name: string): string
  {
    if name in options then options[name] else ""
  }

  /** The binding registered for field `f` with identity `id`. */
  function EntryOf(f: Field, id: FieldId): (e: Entry)
    ensures e.id == id && e.kind == f.kind
    ensures e.isRequired <==> OptionRequired in f.options && f.options[OptionRequired] == "true"
    ensures e.default == (if OptionDefault in f.options then f.options[OptionDefault] else "")
  {
    Entry(id, f.kind, TagOption(f.options, OptionRequired) == "true", TagOption(f.options, OptionDefault))
  }

  /** What one declared key `k` of field `f` contributes. */
  function KeyEntries(f: Field, id: FieldId, k: string): map<string, Entry>
    decreases f, 0
  {
    match f.kind
    case Struct(_, sub) => Prefixed(k, Walk(sub, id))
    case Scalar(_) => map[k := EntryOf(f, id)]
    case Other(_) => map[]
  }

  /** What the first `n` declared keys of field `f` contribute, in order. */
  function FieldEntries(f: Field, id: FieldId, n: nat): map<string, Entry>
    requires n <= |f.keys|
    decreases f, 1, n
  {
    if n == 0 then map[]
    else FieldEntries(f, id, n - 1) + KeyEntries(f, id, f.keys[n - 1])
  }

  /** The map parseStruct builds for the fields `fs` of a struct with identity `base`. */
  function Walk(fs: seq<Field>, base: FieldId): map<string, Entry>
    decreases fs
  {
    if fs == [] then map[]
    else
      var n := |fs| - 1;
      Walk(fs[..n], base) + FieldEntries(fs[n], base + [n], |fs[n].keys|)
  }

  /** parseStruct */
  method ParseStruct(fs: seq<Field>, base: FieldId) returns (result: map<string, Entry>)
    ensures result == Walk(fs, base)
    decreases fs, 2
  {
    result := map[];
    for i := 0 to |fs|
      invariant result == Walk(fs[..i], base)
    {
      assert fs[..i + 1][..i] == fs[..i];
      result := AddField(result, fs[i], base + [i]);
    }
    assert fs[..|fs|] == fs;
  }

  /** One iteration of parseStruct's field loop: every declared key of field `f`. */
  method AddField(acc: map<string, Entry>, f: Field, id: FieldId) returns (result: map<string, Entry>)
    ensures result == acc + FieldEntries(f, id, |f.keys|)
    decreases f, 1
  {
    result := acc;
    for j := 0 to |f.keys|
      invariant result == acc + FieldEntries(f, id, j)
    {
      MapUnionAssoc(acc, FieldEntries(f, id, j), KeyEntries(f, id, f.keys[j]));
      result := AddKey(result, f, id, f.keys[j]);
    }
  }

  /** One iteration of the key loop: a struct field's sub-entries under `k`, or the scalar's binding. */
  method AddKey(acc: map<string, Entry>, f: Field, id: FieldId, k: string) returns (result: map<string, Entry>)
    ensures result == acc + KeyEntries(f, id, k)
    decreases f, 0
  {
    var isRequired := TagOption(f.options, OptionRequired) == "true";
    var defaultVal := TagOption(f.options, OptionDefault);
    match f.kind {
      case Struct(_, sub) =>
        var m := ParseStruct(sub, id);
        result := CopyPrefixed(acc, k, m);
      case Scalar(_) =>
        result := acc[k := Entry(id, f.kind, isRequired, defaultVal)];
        assert result == acc + map[k := EntryOf(f, id)];
      case Other(_) =>
        result := acc;
        assert acc + map[] == acc;
    }
  }

  lemma MapUnionAssoc<K, V>(a: map<K, V>, b: map<K, V>, c: map<K, V>)
    ensures a + (b + c) == (a + b) + c
  {
  }

  /** Field `f` (identity `id`) binds qualified key `k` to entry `e`. */
  ghost predicate FieldReaches(f: Field, id: FieldId, k: string, e: Entry)
    decreases f
  {
    match f.kind
    case Scalar(_) => k in f.keys && e == EntryOf(f, id)
    case Struct(_, sub) => exists key, subK :: key in f.keys && k == Qualify(key, subK) && Reaches(sub, id, subK, e)
    case Other(_) => false
  }

  /** Some field of `fs` binds qualified key `k` to entry `e`. */
  ghost predicate Reaches(fs: seq<Field>, base: FieldId, k: string, e: Entry)
    decreases fs
  {
    exists i :: 0 <= i < |fs| && FieldReaches(fs[i], base + [i], k, e)
  }

  /** Every registered key is a declared key of a scalar field, prefixed by declared keys of the structs around it. */
  lemma {:induction false} WalkSound(fs: seq<Field>, base: FieldId, k: string)
    requires k in Walk(fs, base)
    ensures Reaches(fs, base, k, Walk(fs, base)[k])
    decreases fs
  {
    var n := |fs| - 1;
    var e := Walk(fs, base)[k];
    if k in FieldEntries(fs[n], base + [n], |fs[n].keys|) {
      FieldEntriesSound(fs[n], base + [n], |fs[n].keys|, k);
    } else {
      var init := fs[..n];
      WalkSound(init, base, k);
      var i :| 0 <= i < n && FieldReaches(init[i], base + [i], k, e);
      assert fs[i] == init[i];
    }
  }

  lemma {:induction false} FieldEntriesSound(f: Field, id: FieldId, n: nat, k: string)
    requires n <= |f.keys| && k in FieldEntries(f, id, n)
    ensures FieldReaches(f, id, k, FieldEntries(f, id, n)[k])
    decreases f, 1, n
  {
    var key := f.keys[n - 1];
    var m := FieldEntries(f, id, n);
    assert m == FieldEntries(f, id, n - 1) + KeyEntries(f, id, key);
    if k in KeyEntries(f, id, key) {
      assert m[k] == KeyEntries(f, id, key)[k];
      KeyEntriesSound(f, id, key, k);
    } else {
      assert m[k] == FieldEntries(f, id, n - 1)[k];
      FieldEntriesSound(f, id, n - 1, k);
    }
  }

  lemma {:induction false} KeyEntriesSound(f: Field, id: FieldId, key: string, k: string)
    requires key in f.keys && k in KeyEntries(f, id, key)
    ensures FieldReaches(f, id, k, KeyEntries(f, id, key)[k])
    decreases f, 0
  {
    match f.kind
    case Struct(_, sub) =>
      var subK :| subK in Walk(sub, id) && k == Qualify(key, subK);
      WalkSound(sub, id, subK);
    case Scalar(_) =>
    case Other(_) =>
  }

  /** Every scalar field is registered under each of its qualified keys. */
  lemma {:induction false} WalkComplete(fs: seq<Field>, base: FieldId, k: string, e: Entry)
    requires Reaches(fs, base, k, e)
    ensures k in Walk(fs, base)
    decreases fs
  {
    var i :| 0 <= i < |fs| && FieldReaches(fs[i], base + [i], k, e);
    var n := |fs| - 1;
    if i == n {
      FieldEntriesComplete(fs[n], base + [n], |fs[n].keys|, k, e);
    } else {
      assert fs[..n][i] == fs[i];
      WalkComplete(fs[..n], base, k, e);
    }
  }

  lemma {:induction false} FieldEntriesComplete(f: Field, id: FieldId, n: nat, k: string, e: Entry)
    requires n <= |f.keys| && FieldReaches(f, id, k, e)
    requires match f.kind
      case Scalar(_) => k in f.keys[..n]
      case Struct(_, sub) => exists key, subK :: key in f.keys[..n] && k == Qualify(key, subK) && Reaches(sub, id, subK, e)
      case Other(_) => false
    ensures k in FieldEntries(f, id, n)
    decreases f, 1, n
  {
    var last := f.keys[n - 1];
    assert f.keys[..n] == f.keys[..n - 1] + [last];
    match f.kind
    case Scalar(_) =>
      if k != last {
        FieldEntriesComplete(f, id, n - 1, k, e);
      }
    case Struct(_, sub) =>
      var key, subK :| key in f.keys[..n] && k == Qualify(key, subK) && Reaches(sub, id, subK, e);
      if key == last {
        WalkComplete(sub, id, subK, e);
      } else {
        FieldEntriesComplete(f, id, n - 1, k, e);
      }
  }

  /** The field a path of field indices leads to, through nested structs. */
  function FieldAt(fs: seq<Field>, path: FieldId): Option<Field>
    decreases |path|
  {
    if path == [] || path[0] >= |fs| then None
    else if |path| == 1 then Some(fs[path[0]])
    else match fs[path[0]].kind
      case Struct(_, sub) => FieldAt(sub, path[1..])
      case _ => None
  }

  /** A reached entry is the binding of the scalar field its identity leads to. */
  lemma {:induction false} ReachedEntryIsField(fs: seq<Field>, base: FieldId, k: string, e: Entry)
    requires Reaches(fs, base, k, e)
    ensures |e.id| > |base| && e.id[..|base|] == base
    ensures var f := FieldAt(fs, e.id[|base|..]);
      f.Some? && f.value.kind.Scalar? && e == EntryOf(f.value, e.id)
    decreases fs
  {
    var i :| 0 <= i < |fs| && FieldReaches(fs[i], base + [i], k, e);
    match fs[i].kind
    case Scalar(_) =>
      assert e.id[|base|..] == [i];
    case Struct(_, sub) =>
      var key, subK :| key in fs[i].keys && k == Qualify(key, subK) && Reaches(sub, base + [i], subK, e);
      ReachedEntryIsField(sub, base + [i], subK, e);
      var rel := e.id[|base| + 1..];
      assert e.id[|base|..] == [i] + rel;
      assert ([i] + rel)[1..] == rel;
  }

  /** All entries with one identity are one binding. */
  ghost predicate Coherent(m: map<string, Entry>)
  {
    forall k1, k2 :: k1 in m && k2 in m && m[k1].id == m[k2].id ==> m[k1] == m[k2]
  }

  /** Every entry a walk produces is the binding of a scalar field, and aliases of a field share one binding. */
  lemma WalkBindsScalars(fs: seq<Field>)
    ensures Coherent(Walk(fs, []))
    ensures forall k :: k in Walk(fs, []) ==> Walk(fs, [])[k].kind.Scalar?
  {
    var m := Walk(fs, []);
    forall k | k in m
      ensures m[k].kind.Scalar? && FieldAt(fs, m[k].id).Some? && m[k] == EntryOf(FieldAt(fs, m[k].id).value, m[k].id)
    {
      WalkSound(fs, [], k);
      ReachedEntryIsField(fs, [], k, m[k]);
      assert m[k].id[0..] == m[k].id;
    }
  }

  /** A scalar field declared last wins each of its keys. */
  lemma LastScalarFieldWins(fs: seq<Field>, base: FieldId, f: Field, k: string)
    requires f.kind.Scalar? && k in f.keys
    ensures k in Walk(fs + [f], base) && Walk(fs + [f], base)[k] == EntryOf(f, base + [|fs|])
  {
    var all := fs + [f];
    assert all[..|fs|] == fs;
    FieldEntriesLastKey(f, base + [|fs|], |f.keys|, k);
  }

  lemma {:induction false} FieldEntriesLastKey(f: Field, id: FieldId, n: nat, k: string)
    requires f.kind.Scalar? && n <= |f.keys| && k in f.keys[..n]
    ensures k in FieldEntries(f, id, n) && FieldEntries(f, id, n)[k] == EntryOf(f, id)
  {
    assert f.keys[..n] == f.keys[..n - 1] + [f.keys[n - 1]];
    if k != f.keys[n - 1] {
      FieldEntriesLastKey(f, id, n - 1, k);
    }
  }
}
