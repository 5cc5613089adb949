/**
 * flattenMap and parseCfgFiles: decoded JSON configuration files become one
 * flat map from `_`-joined key to string.
 */
module Flatten {
  import opened Wrappers
  import opened Strconv
  import opened KeyMaps
  import opened Errs

  /**
   * A value as encoding/json leaves it in a map[string]interface{}. An
   * object is given by its members in one iteration order; every property
   * below holds for every order.
   */
  datatype Json =
    | JNull
    | JBool(b: bool)
    | JInt(i: int)
    | JFloat(f: Float64)
    | JString(s: string)
    | JArray(items: seq<Json>)
    | JObject(members: seq<Member>)

  /** One `key: value` pair of an object. */
  datatype Member = Member(key: string, value: Json)

  /** What one member `k: v` of an object contributes to the flat map. */
  function MemberEntries(k: string, v: Json, fc: FloatCodec): map<string, string>
    decreases v
  {
    match v
    case JObject(sub) => Prefixed(k, FlatMap(sub, fc))
    case JArray(_) => map[]
    case JBool(b) => map[k := FormatBool(b)]
    case JInt(i) => map[k := FormatInt(i)]
    case JFloat(f) => map[k := fc.formatG(f)]
    case JString(s) => map[k := s]
    case JNull => map[]
  }

  /** The map flattenMap builds: members in iteration order, later ones overwriting. */
  function FlatMap(members: seq<Member>, fc: FloatCodec): map<string, string>
    decreases members
  {
    if members == [] then map[]
    else
      var last := members[|members| - 1];
      FlatMap(members[..|members| - 1], fc) + MemberEntries(last.key, last.value, fc)
  }

  /** flattenMap */
  method FlattenMap(members: seq<Member>, fc: FloatCodec) returns (flat: map<string, string>)
    ensures flat == FlatMap(members, fc)
    decreases members
  {
    flat := map[];
    for i := 0 to |members|
      invariant flat == FlatMap(members[..i], fc)
    {
      assert members[..i + 1][..i] == members[..i];
      assert FlatMap(members[..i + 1], fc) == flat + MemberEntries(members[i].key, members[i].value, fc);
      flat := AddMember(flat, members[i].key, members[i].value, fc);
    }
    assert members[..|members|] == members;
  }

  /** One iteration of flattenMap's loop: member `k: v` by the kind of `v`. */
  method AddMember(flat: map<string, string>, k: string, v: Json, fc: FloatCodec) returns (r: map<string, string>)
    ensures r == flat + MemberEntries(k, v, fc)
    decreases v
  {
    match v {
      case JObject(sub) =>
        var flatSub := FlattenMap(sub, fc);
        r := CopyPrefixed(flat, k, flatSub);
      case JArray(_) =>
        r := flat;
        assert flat + map[] == flat;
      case JBool(b) =>
        r := flat[k := FormatBool(b)];
      case JInt(n) =>
        r := flat[k := FormatInt(n)];
      case JFloat(f) =>
        r := flat[k := fc.formatG(f)];
      case JString(s) =>
        r := flat[k := s];
      case JNull =>
        r := flat;
        assert flat + map[] == flat;
    }
  }

  /** Member `k: v` yields the flat entry (key, s). */
  ghost predicate MemberYields(k: string, v: Json, fc: FloatCodec, key: string, s: string)
    decreases v
  {
    match v
    case JObject(sub) => exists subK :: key == Qualify(k, subK) && Yields(sub, fc, subK, s)
    case JArray(_) => false
    case JBool(b) => key == k && s == FormatBool(b)
    case JInt(i) => key == k && s == FormatInt(i)
    case JFloat(f) => key == k && s == fc.formatG(f)
    case JString(t) => key == k && s == t
    case JNull => false
  }

  /** Some member of the object yields the flat entry (key, s). */
  ghost predicate Yields(members: seq<Member>, fc: FloatCodec, key: string, s: string)
    decreases members
  {
    exists i :: 0 <= i < |members| && MemberYields(members[i].key, members[i].value, fc, key, s)
  }

  /** Every flat entry comes from some scalar reached by `_`-joined keys. */
  lemma {:induction false} FlatMapSound(members: seq<Member>, fc: FloatCodec, key: string)
    requires key in FlatMap(members, fc)
    ensures Yields(members, fc, key, FlatMap(members, fc)[key])
    decreases members
  {
    var n := |members| - 1;
    var init := members[..n];
    var k, v := members[n].key, members[n].value;
    var s := FlatMap(members, fc)[key];
    if key in MemberEntries(k, v, fc) {
      MemberEntriesSound(k, v, fc, key);
      assert MemberYields(members[n].key, members[n].value, fc, key, s);
    } else {
      FlatMapSound(init, fc, key);
      var i :| 0 <= i < n && MemberYields(init[i].key, init[i].value, fc, key, s);
      assert members[i] == init[i];
    }
  }

  lemma {:induction false} MemberEntriesSound(k: string, v: Json, fc: FloatCodec, key: string)
    requires key in MemberEntries(k, v, fc)
    ensures MemberYields(k, v, fc, key, MemberEntries(k, v, fc)[key])
    decreases v
  {
    match v
    case JObject(sub) =>
      var subK :| subK in FlatMap(sub, fc) && key == Qualify(k, subK);
      FlatMapSound(sub, fc, subK);
    case _ =>
  }

  /** Every scalar reached by `_`-joined keys has its key in the flat map. */
  lemma {:induction false} FlatMapComplete(members: seq<Member>, fc: FloatCodec, key: string, s: string)
    requires Yields(members, fc, key, s)
    ensures key in FlatMap(members, fc)
    decreases members
  {
    var i :| 0 <= i < |members| && MemberYields(members[i].key, members[i].value, fc, key, s);
    var n := |members| - 1;
    if i == n {
      MemberEntriesComplete(members[n].key, members[n].value, fc, key, s);
    } else {
      var init := members[..n];
      assert init[i] == members[i];
      FlatMapComplete(init, fc, key, s);
    }
  }

  lemma {:induction false} MemberEntriesComplete(k: string, v: Json, fc: FloatCodec, key: string, s: string)
    requires MemberYields(k, v, fc, key, s)
    ensures key in MemberEntries(k, v, fc)
    decreases v
  {
    match v
    case JObject(sub) =>
      var subK :| key == Qualify(k, subK) && Yields(sub, fc, subK, s);
      FlatMapComplete(sub, fc, subK, s);
    case _ =>
  }

  /** Without a colliding key, the flat value is exactly the one its scalar yields. */
  lemma FlatMapExact(members: seq<Member>, fc: FloatCodec, key: string, s: string)
    requires Yields(members, fc, key, s)
    requires forall t :: Yields(members, fc, key, t) ==> t == s
    ensures key in FlatMap(members, fc) && FlatMap(members, fc)[key] == s
  {
    FlatMapComplete(members, fc, key, s);
    FlatMapSound(members, fc, key);
  }

  /** An object with one member flattens to that member's entries. */
  lemma FlatMapSingle(m: Member, fc: FloatCodec)
    ensures FlatMap([m], fc) == MemberEntries(m.key, m.value, fc)
  {
    assert [m][..0] == [];
  }

  /** {"a": {"b": 5, "c": [1, 2]}} flattens to {"a_b": "5"}: the array is dropped. */
  lemma FlatMapExample(fc: FloatCodec, five: Float64, one: Float64, two: Float64)
    requires fc.formatG(five) == "5"
    ensures FlatMap([Member("a", JObject([Member("b", JFloat(five)), Member("c", JArray([JFloat(one), JFloat(two)]))]))], fc)
         == map["a_b" := "5"]
  {
    var b := Member("b", JFloat(five));
    var inner := [b, Member("c", JArray([JFloat(one), JFloat(two)]))];
    FlatMapSingle(b, fc);
    assert inner[..1] == [b];
    assert FlatMap(inner, fc) == map["b" := "5"];
    FlatMapSingle(Member("a", JObject(inner)), fc);
    PrefixedSingleton("a", "b", "5");
    assert Qualify("a", "b") == "a_b";
  }

  /** A decoded configuration file, or one that could not be read or decoded. */
  datatype CfgFile = Decoded(path: string, members: seq<Member>) | Unreadable(path: string)

  /** The merge parseCfgFiles computes: files in order, later keys overwriting, first failure aborting. */
  function MergeFiles(files: seq<CfgFile>, fc: FloatCodec): Result<map<string, string>, Error>
  {
    if files == [] then Success(map[])
    else
      match MergeFiles(files[..|files| - 1], fc)
      case Failure(e) => Failure(e)
      case Success(m) =>
        match files[|files| - 1]
        case Unreadable(path) => Failure(ConfigFile(path))
        case Decoded(_, members) => Success(m + FlatMap(members, fc))
  }

  /** parseCfgFiles */
  method ParseCfgFiles(files: seq<CfgFile>, fc: FloatCodec) returns (r: Result<map<string, string>, Error>)
    ensures r == MergeFiles(files, fc)
  {
    var result := map[];
    for i := 0 to |files|
      invariant MergeFiles(files[..i], fc) == Success(result)
    {
      assert files[..i + 1][..i] == files[..i];
      match files[i] {
        case Unreadable(path) =>
          assert MergeFiles(files[..i + 1], fc) == Failure(ConfigFile(path));
          MergeFailureSticks(files, fc, i + 1);
          return Failure(ConfigFile(path));
        case Decoded(_, members) =>
          var m := FlattenMap(members, fc);
          result := CopyAll(result, m);
      }
    }
    assert files[..|files|] == files;
    return Success(result);
  }

  /** Once a prefix of the files fails, the whole merge fails the same way. */
  lemma {:induction false} MergeFailureSticks(files: seq<CfgFile>, fc: FloatCodec, n: nat)
    requires n <= |files| && MergeFiles(files[..n], fc).Failure?
    ensures MergeFiles(files, fc) == MergeFiles(files[..n], fc)
    decreases |files| - n
  {
    if n < |files| {
      assert files[..n + 1][..n] == files[..n];
      MergeFailureSticks(files, fc, n + 1);
    } else {
      assert files[..n] == files;
    }
  }

  /** The merge fails exactly when some file is unreadable, and then with the first one. */
  lemma {:induction false} MergeFilesFirstError(files: seq<CfgFile>, fc: FloatCodec)
    ensures MergeFiles(files, fc).Success? <==> forall i :: 0 <= i < |files| ==> files[i].Decoded?
    ensures MergeFiles(files, fc).Failure? ==>
      exists i :: 0 <= i < |files| && files[i].Unreadable?
        && (forall j :: 0 <= j < i ==> files[j].Decoded?)
        && MergeFiles(files, fc).error == ConfigFile(files[i].path)
  {
    if files != [] {
      var init := files[..|files| - 1];
      MergeFilesFirstError(init, fc);
      assert forall j :: 0 <= j < |init| ==> init[j] == files[j];
    }
  }

  /** True when file `f` defines flat key `key`. */
  predicate Defines(f: CfgFile, fc: FloatCodec, key: string)
  {
    f.Decoded? && key in FlatMap(f.members, fc)
  }

  /** On success a key takes its value from the last file that defines it. */
  lemma {:induction false} MergeFilesLastWins(files: seq<CfgFile>, fc: FloatCodec, key: string)
    requires MergeFiles(files, fc).Success?
    ensures key in MergeFiles(files, fc).value <==> exists i :: 0 <= i < |files| && Defines(files[i], fc, key)
    ensures forall i ::
      (0 <= i < |files| && Defines(files[i], fc, key) &&
       forall j :: i < j < |files| ==> !Defines(files[j], fc, key))
      ==> MergeFiles(files, fc).value[key] == FlatMap(files[i].members, fc)[key]
  {
    if files != [] {
      var init := files[..|files| - 1];
      MergeFilesLastWins(init, fc, key);
      assert forall j :: 0 <= j < |init| ==> init[j] == files[j];
    }
  }
}
