/**
 * The error values the package returns. RequiredKeyNotPresentError carries
 * the missing key(s) and renders a fixed message; the other kinds are plain
 * constructors.
 */
module Errs {
  import opened Wrappers

  /** Where a raw value being coerced came from, for diagnostics. */
  datatype Source = FromEnv | FromFile | FromDefault

  /** Why a raw string could not be stored in a field. */
  datatype CoercionError =
    | NotABool(input: string)
    | NotAnInt(input: string)
    | NotAFloat(input: string)
    /** UnsupportedFieldTypeError, naming the field's type. */
    | UnsupportedFieldType(typeName: string)

  /** The keys a required binding could have been satisfied under. */
  datatype RequiredKeyNotPresentError = RequiredKeyNotPresentError(keys: seq<string>)
  {
    /** Error(): the message, built key by key as a string builder would. */
    method Error() returns (msg: string)
      ensures msg == MessageOf(keys)
    {
      if |keys| == 1 {
        return SingleKeyPrefix + keys[0] + SingleKeySuffix;
      }
      var sb := "";
      for i := 0 to |keys|
        invariant sb == Join(keys[..i]) + (if 0 < i < |keys| then Separator else "")
      {
        if i > 0 {
          JoinSnoc(keys[..i], keys[i]);
          assert keys[..i + 1] == keys[..i] + [keys[i]];
        }
        sb := sb + keys[i];
        if i != |keys| - 1 {
          sb := sb + Separator;
        }
      }
      assert keys[..|keys|] == keys;
      msg := ManyKeysPrefix + sb + ManyKeysSuffix;
    }
  }

  /** Every error the model of the package can return. */
  datatype Error =
    | RequiredKeyNotPresent(missing: RequiredKeyNotPresentError)
    /** TargetNotPtrToStructError, naming the target's type. */
    | TargetNotPtrToStruct(typeName: string)
    /** A coercion failure while setting `key` from `source`. */
    | SettingValue(source: Source, key: string, cause: CoercionError)
    /** A configuration file that could not be read or decoded. */
    | ConfigFile(path: string)

  const SingleKeyPrefix := "required env key missing; "
  const SingleKeySuffix := " must be provided"
  const ManyKeysPrefix := "required env key missing; one of the following keys must be provided ["
  const ManyKeysSuffix := "]"
  const Separator := ", "

  /** The keys in order with ", " between neighbours and nothing after the last. */
  function Join(keys: seq<string>): string
  {
    if |keys| == 0 then ""
    else if |keys| == 1 then keys[0]
    else keys[0] + Separator + Join(keys[1..])
  }

  /** The message a RequiredKeyNotPresentError renders. */
  function MessageOf(keys: seq<string>): string
  {
    if |keys| == 1 then SingleKeyPrefix + keys[0] + SingleKeySuffix
    else ManyKeysPrefix + Join(keys) + ManyKeysSuffix
  }

  /** NewRequiredKeyNotPresentError keeps the keys it is given, in order. */
  function NewRequiredKeyNotPresentError(keys: seq<string>): (e: RequiredKeyNotPresentError)
    ensures e.keys == keys
  {
    RequiredKeyNotPresentError(keys)
  }

  /** IsRequiredKeyNotPresentError: false for no error, true exactly for this kind. */
  function IsRequiredKeyNotPresentError(err: Option<Error>): (r: bool)
    ensures err.None? ==> !r
    ensures r <==> err.Some? && err.value.RequiredKeyNotPresent?
  {
    match err
    case None => false
    case Some(e) => e.RequiredKeyNotPresent?
  }

  /** Appending a key to a non-empty list appends one separator and the key. */
  lemma {:induction false} JoinSnoc(keys: seq<string>, k: string)
    requires |keys| > 0
    ensures Join(keys + [k]) == Join(keys) + Separator + k
  {
    if |keys| > 1 {
      assert (keys + [k])[1..] == keys[1..] + [k];
      JoinSnoc(keys[1..], k);
    }
  }

  /** Splits a string at every ", ", the inverse of Join for keys without commas. */
  function SplitKeys(s: string): (parts: seq<string>)
    ensures |parts| >= 1
    decreases |s|
  {
    if s == [] then [""]
    else if |s| >= 2 && s[0] == ',' && s[1] == ' ' then [""] + SplitKeys(s[2..])
    else
      var rest := SplitKeys(s[1..]);
      [[s[0]] + rest[0]] + rest[1..]
  }

  predicate NoComma(k: string)
  {
    forall i :: 0 <= i < |k| ==> k[i] != ','
  }

  lemma {:induction false} SplitKeysAfterKey(k: string, t: string)
    requires NoComma(k)
    ensures SplitKeys(k + t) == [k + SplitKeys(t)[0]] + SplitKeys(t)[1..]
  {
    if k != [] {
      assert (k + t)[1..] == k[1..] + t;
      SplitKeysAfterKey(k[1..], t);
      assert [k[0]] + (k[1..] + SplitKeys(t)[0]) == k + SplitKeys(t)[0];
    } else {
      assert k + t == t;
      assert k + SplitKeys(t)[0] == SplitKeys(t)[0];
      assert [k + SplitKeys(t)[0]] + SplitKeys(t)[1..] == SplitKeys(t);
    }
  }

  /** Join loses nothing: the keys come back, in order, when none holds a comma. */
  lemma {:induction false} JoinSplitKeys(keys: seq<string>)
    requires |keys| >= 1
    requires forall i :: 0 <= i < |keys| ==> NoComma(keys[i])
    ensures SplitKeys(Join(keys)) == keys
  {
    if |keys| == 1 {
      SplitKeysAfterKey(keys[0], "");
      assert keys[0] + "" == keys[0];
    } else {
      var rest := Join(keys[1..]);
      JoinSplitKeys(keys[1..]);
      assert (Separator + rest)[2..] == rest;
      assert SplitKeys(Separator + rest) == [""] + keys[1..];
      assert keys[0] + Separator + rest == keys[0] + (Separator + rest);
      SplitKeysAfterKey(keys[0], Separator + rest);
      assert keys[0] + "" == keys[0];
    }
  }

  /** A message for several keys (or none) is the wrapped join, from which the keys can be read back. */
  lemma MessageListsKeys(keys: seq<string>)
    requires |keys| != 1
    ensures var m := MessageOf(keys);
      && |m| == |ManyKeysPrefix| + |Join(keys)| + 1
      && m[..|ManyKeysPrefix|] == ManyKeysPrefix
      && m[|m| - 1] == ']'
      && (keys == [] ==> m == ManyKeysPrefix + "]")
      && (keys != [] && (forall i :: 0 <= i < |keys| ==> NoComma(keys[i])) ==>
            SplitKeys(m[|ManyKeysPrefix|..|m| - 1]) == keys)
  {
    var m := MessageOf(keys);
    assert m[|ManyKeysPrefix|..|m| - 1] == Join(keys);
    if keys != [] && forall i :: 0 <= i < |keys| ==> NoComma(keys[i]) {
      JoinSplitKeys(keys);
    }
  }
}
