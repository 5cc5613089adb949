/** environToMap: `NAME=value` strings to a map from name to value. */
module Environ {
  import opened Wrappers

  /** The position of the first '=' in `s`, where strings.SplitN(s, "=", 2) cuts. */
  function FirstEquals(s: string): (r: Option<nat>)
    ensures r.Some? ==> r.value < |s| && s[r.value] == '=' && forall j :: 0 <= j < r.value ==> s[j] != '='
    ensures r.None? ==> forall j :: 0 <= j < |s| ==> s[j] != '='
  {
    if s == [] then None
    else if s[0] == '=' then Some(0)
    else match FirstEquals(s[1..])
      case None => None
      case Some(i) => Some(i + 1)
  }

  /** The (name, value) pair an entry contributes, if any. */
  function SplitEntry(e: string): Option<(string, string)>
  {
    match FirstEquals(e)
    case None => None
    case Some(i) => if i == 0 then None else Some((e[..i], e[i + 1..]))
  }

  /** True when entry `e` sets variable `name`. */
  predicate Names(e: string, name: string)
  {
    SplitEntry(e).Some? && SplitEntry(e).value.0 == name
  }

  /**
   * An entry is skipped exactly when it has no '=' or nothing before its
   * first '='; otherwise it is cut at the first '=' only, so the name holds
   * no '=' and the value may.
   */
  lemma SplitEntryCutsAtFirstEquals(e: string)
    ensures SplitEntry(e).None? <==> (forall j :: 0 <= j < |e| ==> e[j] != '=') || e[0] == '='
    ensures SplitEntry(e).Some? ==>
      var (name, value) := SplitEntry(e).value;
      && name != ""
      && (forall j :: 0 <= j < |name| ==> name[j] != '=')
      && e == name + "=" + value
  {
    match FirstEquals(e)
    case None =>
    case Some(i) =>
      if i != 0 {
        assert e == e[..i] + "=" + e[i + 1..];
      }
  }

  /** The map environToMap builds: entries in order, later ones overwriting. */
  function EnvironMap(environ: seq<string>): map<string, string>
  {
    if environ == [] then map[]
    else
      var m := EnvironMap(environ[..|environ| - 1]);
      match SplitEntry(environ[|environ| - 1])
      case None => m
      case Some(kv) => m[kv.0 := kv.1]
  }

  method EnvironToMap(environ: seq<string>) returns (m: map<string, string>)
    ensures m == EnvironMap(environ)
  {
    m := map[];
    for i := 0 to |environ|
      invariant m == EnvironMap(environ[..i])
    {
      assert environ[..i + 1][..i] == environ[..i];
      var parts := SplitEntry(environ[i]);
      if parts.None? {
        continue;
      }
      m := m[parts.value.0 := parts.value.1];
    }
    assert environ[..|environ|] == environ;
  }

  /** A name is in the map exactly when some entry sets it. */
  lemma {:induction false} EnvironMapKeys(environ: seq<string>, name: string)
    ensures name in EnvironMap(environ) <==> exists i :: 0 <= i < |environ| && Names(environ[i], name)
  {
    if environ != [] {
      var init := environ[..|environ| - 1];
      EnvironMapKeys(init, name);
      if name in EnvironMap(init) {
        var i :| 0 <= i < |init| && Names(init[i], name);
        assert environ[i] == init[i];
      }
      if i :| 0 <= i < |environ| && Names(environ[i], name) {
        if i < |init| {
          assert init[i] == environ[i];
        }
      }
    }
  }

  /** The value of a name is the one given by the last entry that sets it. */
  lemma {:induction false} EnvironMapLastWins(environ: seq<string>, i: nat)
    requires i < |environ| && SplitEntry(environ[i]).Some?
    requires forall j :: i < j < |environ| ==> !Names(environ[j], SplitEntry(environ[i]).value.0)
    ensures var (name, value) := SplitEntry(environ[i]).value;
      name in EnvironMap(environ) && EnvironMap(environ)[name] == value
  {
    if i < |environ| - 1 {
      var init := environ[..|environ| - 1];
      assert init[i] == environ[i];
      forall j | i < j < |init|
        ensures !Names(init[j], SplitEntry(init[i]).value.0)
      {
        assert init[j] == environ[j];
      }
      EnvironMapLastWins(init, i);
    }
  }
}
