/**
 * Resolution of an API key by name (utils/BenjaminUtils.js): first the
 * process environment under three spellings of the name, then, optionally,
 * the local key file utils/api_keys.json.
 *
 * The environment is passed in as a map and the key file as the outcome of
 * reading and parsing it, so every operation here is a pure function.
 */
module ApiKeys {
  import opened Wrappers
  import Decimal

  /** A JSON value as `JSON.parse` yields it (numbers restricted to integers). */
  datatype Json =
    | JNull
    | JBool(b: bool)
    | JNumber(n: int)
    | JString(s: string)
    | JArray(items: seq<Json>)
    | JObject(members: map<string, Json>)

  /** JavaScript truthiness of a parsed value. */
  predicate Truthy(v: Json) {
    match v
    case JNull => false
    case JBool(b) => b
    case JNumber(n) => n != 0
    case JString(s) => s != ""
    case JArray(_) => true
    case JObject(_) => true
  }

  /** Values on which the `in` operator is defined; on any other value it throws. */
  predicate IsObject(v: Json) {
    v.JArray? || v.JObject?
  }

  /** What reading utils/api_keys.json can find. */
  datatype KeyFile =
    | Missing            // the file does not exist
    | Empty              // it exists and its text is ""
    | Unparseable        // `JSON.parse` throws on its text
    | Parsed(value: Json)

  /** `loadLocalKeys`: the parsed value, or an empty object on any failure; it never throws. */
  function LoadLocalKeys(file: KeyFile): (keys: Json)
    ensures file.Parsed? ==> keys == file.value
    ensures file.Missing? || file.Empty? || file.Unparseable? ==> keys == JObject(map[])
  {
    match file
    case Parsed(v) => v
    case _ => JObject(map[])
  }

  /** The index an array-index key stands for: a canonical decimal numeral. */
  function ArrayIndex(key: string): (r: Option<nat>)
    ensures r.Some? ==> Decimal.Render(r.value) == key
  {
    if Decimal.IsCanonical(key) then
      Decimal.CanonicalRoundTrip(key);
      Some(Decimal.DigitsValue(key))
    else None
  }

  /**
   * `key in v` followed by `v[key]`, on an object or array, for the value's
   * own properties: `None` when the key is not present.
   */
  function OwnProperty(v: Json, key: string): (r: Option<Json>)
    requires IsObject(v)
    ensures v.JObject? ==> (r.Some? <==> key in v.members)
    ensures v.JObject? && key in v.members ==> r == Some(v.members[key])
  {
    match v
    case JObject(m) => if key in m then Some(m[key]) else None
    case JArray(items) =>
      if key == "length" then Some(JNumber(|items|))
      else
        var index := ArrayIndex(key);
        if index.Some? && index.value < |items| then Some(items[index.value]) else None
  }

  /** Every position of an array is present under the key `String(i)`. */
  lemma ArrayElementPresent(items: seq<Json>, i: nat)
    requires i < |items|
    ensures OwnProperty(JArray(items), Decimal.Render(i)) == Some(items[i])
  {
    var key := Decimal.Render(i);
    Decimal.RenderValue(i);
    assert key != "length" by {
      assert key[0] == 'l' ==> !Decimal.IsDigit(key[0]);
    }
  }

  /** `toUpperCase` on ASCII letters; other characters are left as they are. */
  function UpperChar(c: char): char {
    if 'a' <= c <= 'z' then (c as int - 32) as char else c
  }

  function Upper(s: string): (u: string)
    ensures |u| == |s|
    ensures forall i :: 0 <= i < |u| ==> !('a' <= u[i] <= 'z')
    ensures forall i :: 0 <= i < |s| && !('a' <= s[i] <= 'z') ==> u[i] == s[i]
    ensures forall i :: 0 <= i < |s| && 'a' <= s[i] <= 'z' ==> u[i] as int == s[i] as int - 32
  {
    seq(|s|, i requires 0 <= i < |s| => UpperChar(s[i]))
  }

  /** Upper-casing twice is upper-casing once: an upper-case name is its own second candidate. */
  lemma UpperIdempotent(s: string)
    ensures Upper(Upper(s)) == Upper(s)
  {
  }

  /** The environment names tried for `name`, in order. */
  function Candidates(name: string): seq<string> {
    [name, Upper(name), "API_" + Upper(name)]
  }

  /** `process.env[v]` is truthy: present and not the empty string. */
  predicate EnvTruthy(env: map<string, string>, v: string) {
    v in env && env[v] != ""
  }

  /** The position of the first candidate whose environment value is truthy. */
  function FirstEnvHit(env: map<string, string>, names: seq<string>): (r: Option<nat>)
    ensures r.Some? ==> r.value < |names| && EnvTruthy(env, names[r.value])
    ensures r.Some? ==> forall j :: 0 <= j < r.value ==> !EnvTruthy(env, names[j])
    ensures r.None? ==> forall j :: 0 <= j < |names| ==> !EnvTruthy(env, names[j])
  {
    if names == [] then None
    else if EnvTruthy(env, names[0]) then Some(0)
    else
      var rest := FirstEnvHit(env, names[1..]);
      if rest.Some? then Some(rest.value + 1) else None
  }

  /** The `for` loop over the candidates: the first truthy environment value. */
  function EnvLookup(env: map<string, string>, names: seq<string>): (r: Option<string>)
  {
    var hit := FirstEnvHit(env, names);
    if hit.Some? then Some(env[names[hit.value]]) else None
  }

  /**
   * `options` of `getApiKey`: `None` when the argument is omitted (the default
   * `{ fallbackToFile: true }`), otherwise the truthiness of
   * `options && options.fallbackToFile`.
   */
  function FallbackToFile(options: Option<bool>): bool {
    options.None? || options.value
  }

  /** The two `in` tests on the key map: the exact name, then its upper-case form. */
  function FileLookup(keys: Json, name: string): (r: Option<Json>)
  {
    if !IsObject(keys) then None
    else if OwnProperty(keys, name).Some? then OwnProperty(keys, name)
    else OwnProperty(keys, Upper(name))
  }

  /**
   * `getApiKey(name, options)`, with `name` absent as `None`. The result `None`
   * is "no key found", the final `return null`; a key file that stores null
   * under a present key gives `Some(JNull)`, which JavaScript sees as null too.
   * Environment values are strings; a key-file value is any parsed value. A key file whose top-level value is a truthy number, string
   * or boolean is treated as holding no keys (see GetApiKeyAsWritten).
   */
  function GetApiKey(env: map<string, string>, name: Option<string>, options: Option<bool>, file: KeyFile): (r: Option<Json>)
  {
    if name.None? || name.value == "" then None
    else
      var fromEnv := EnvLookup(env, Candidates(name.value));
      if fromEnv.Some? then Some(JString(fromEnv.value))
      else if FallbackToFile(options) then FileLookup(LoadLocalKeys(file), name.value)
      else None
  }

  // ---------------------------------------------------------------------
  // Properties of the resolution chain

  /** A falsy or absent name yields null, whatever the environment and the file. */
  lemma AbsentNameIsNull(env: map<string, string>, options: Option<bool>, file: KeyFile)
    ensures GetApiKey(env, None, options, file) == None
    ensures GetApiKey(env, Some(""), options, file) == None
  {
  }

  /**
   * The candidates are tried in the order name, Upper(name), "API_" + Upper(name):
   * the result is the value of the first one that is truthy.
   */
  lemma EnvCandidateOrder(env: map<string, string>, name: string, options: Option<bool>, file: KeyFile, i: nat)
    requires name != "" && i < 3
    requires EnvTruthy(env, Candidates(name)[i])
    requires forall j :: 0 <= j < i ==> !EnvTruthy(env, Candidates(name)[j])
    ensures GetApiKey(env, Some(name), options, file) == Some(JString(env[Candidates(name)[i]]))
  {
    var hit := FirstEnvHit(env, Candidates(name));
    assert hit.Some?;
    assert hit.value == i;
  }

  /** A result read from the environment is the value of the first truthy candidate. */
  lemma EnvResultIsFirstTruthy(env: map<string, string>, name: string, options: Option<bool>, file: KeyFile)
    requires name != ""
    requires EnvTruthy(env, name) || EnvTruthy(env, Upper(name)) || EnvTruthy(env, "API_" + Upper(name))
    ensures EnvTruthy(env, name) ==>
              GetApiKey(env, Some(name), options, file) == Some(JString(env[name]))
    ensures !EnvTruthy(env, name) && EnvTruthy(env, Upper(name)) ==>
              GetApiKey(env, Some(name), options, file) == Some(JString(env[Upper(name)]))
    ensures !EnvTruthy(env, name) && !EnvTruthy(env, Upper(name)) ==>
              GetApiKey(env, Some(name), options, file) == Some(JString(env["API_" + Upper(name)]))
  {
    var c := Candidates(name);
    if EnvTruthy(env, name) {
      EnvCandidateOrder(env, name, options, file, 0);
    } else if EnvTruthy(env, Upper(name)) {
      EnvCandidateOrder(env, name, options, file, 1);
    } else {
      EnvCandidateOrder(env, name, options, file, 2);
    }
  }

  /** Two environments that agree on which candidates are truthy, and on their values, resolve alike. */
  lemma {:induction false} EnvLookupAgrees(e1: map<string, string>, e2: map<string, string>, names: seq<string>)
    requires forall j :: 0 <= j < |names| ==> EnvTruthy(e1, names[j]) == EnvTruthy(e2, names[j])
    requires forall j :: 0 <= j < |names| && EnvTruthy(e1, names[j]) && EnvTruthy(e2, names[j]) ==>
               e1[names[j]] == e2[names[j]]
    ensures FirstEnvHit(e1, names) == FirstEnvHit(e2, names)
    ensures EnvLookup(e1, names) == EnvLookup(e2, names)
  {
    if names != [] {
      EnvLookupAgrees(e1, e2, names[1..]);
    }
  }

  /** An environment variable set to the empty string is skipped exactly as if it were unset. */
  lemma EmptyEnvValueIsAbsent(env: map<string, string>, v: string, name: Option<string>, options: Option<bool>, file: KeyFile)
    ensures GetApiKey(env[v := ""], name, options, file) == GetApiKey(env - {v}, name, options, file)
  {
    if name.Some? {
      EnvLookupAgrees(env[v := ""], env - {v}, Candidates(name.value));
    }
  }

  /** A truthy environment hit wins over the key file, which is then not consulted at all. */
  lemma EnvHitIgnoresFile(env: map<string, string>, name: string, o1: Option<bool>, f1: KeyFile, o2: Option<bool>, f2: KeyFile)
    requires name != ""
    requires EnvTruthy(env, name) || EnvTruthy(env, Upper(name)) || EnvTruthy(env, "API_" + Upper(name))
    ensures GetApiKey(env, Some(name), o1, f1) == GetApiKey(env, Some(name), o2, f2)
    ensures GetApiKey(env, Some(name), o1, f1).Some? && GetApiKey(env, Some(name), o1, f1).value.JString?
  {
    EnvResultIsFirstTruthy(env, name, o1, f1);
    EnvResultIsFirstTruthy(env, name, o2, f2);
  }

  /** With `fallbackToFile` off the key file is never consulted. */
  lemma NoFallbackIgnoresFile(env: map<string, string>, name: Option<string>, f1: KeyFile, f2: KeyFile)
    ensures GetApiKey(env, name, Some(false), f1) == GetApiKey(env, name, Some(false), f2)
    ensures GetApiKey(env, name, Some(false), f1).Some? ==> GetApiKey(env, name, Some(false), f1).value.JString?
  {
  }

  /** Omitting `options` is the same as `{ fallbackToFile: true }`. */
  lemma DefaultOptionsUseFile(env: map<string, string>, name: Option<string>, file: KeyFile)
    ensures GetApiKey(env, name, None, file) == GetApiKey(env, name, Some(true), file)
  {
  }

  /**
   * Without an environment hit and with the fallback on, an exact key in the
   * file wins over the upper-case key; presence is what counts, so a falsy
   * stored value (null, false, 0, "") is returned as it is.
   */
  lemma FileExactKeyFirst(env: map<string, string>, name: string, options: Option<bool>, keys: map<string, Json>)
    requires name != "" && FallbackToFile(options)
    requires !EnvTruthy(env, name) && !EnvTruthy(env, Upper(name)) && !EnvTruthy(env, "API_" + Upper(name))
    ensures name in keys ==>
              GetApiKey(env, Some(name), options, Parsed(JObject(keys))) == Some(keys[name])
    ensures name !in keys && Upper(name) in keys ==>
              GetApiKey(env, Some(name), options, Parsed(JObject(keys))) == Some(keys[Upper(name)])
    ensures name !in keys && Upper(name) !in keys ==>
              GetApiKey(env, Some(name), options, Parsed(JObject(keys))) == None
  {
    assert FirstEnvHit(env, Candidates(name)).None?;
  }

  /** An unreadable key file (missing, empty or not JSON) contributes no keys. */
  lemma UnreadableFileHasNoKeys(env: map<string, string>, name: Option<string>, options: Option<bool>)
    ensures GetApiKey(env, name, options, Empty) == GetApiKey(env, name, options, Missing)
    ensures GetApiKey(env, name, options, Unparseable) == GetApiKey(env, name, options, Missing)
    ensures GetApiKey(env, name, options, Missing).Some? ==> GetApiKey(env, name, options, Missing).value.JString?
  {
    if name.Some? && name.value != "" {
      var n := name.value;
      assert OwnProperty(JObject(map[]), n).None?;
      assert OwnProperty(JObject(map[]), Upper(n)).None?;
    }
  }

  /** A present file key whose stored value is null is returned as that value, not as "no key found". */
  lemma StoredNullIsReturned()
    ensures GetApiKey(map[], Some("k"), None, Parsed(JObject(map["k" := JNull]))) == Some(JNull)
  {
    FileExactKeyFirst(map[], "k", None, map["k" := JNull]);
  }

  /** No key is found exactly when nothing matches in the environment or the file. */
  lemma NullIffNothingMatches(env: map<string, string>, name: string, options: Option<bool>, file: KeyFile)
    requires name != ""
    ensures GetApiKey(env, Some(name), options, file).None? <==>
              && !EnvTruthy(env, name) && !EnvTruthy(env, Upper(name)) && !EnvTruthy(env, "API_" + Upper(name))
              && (FallbackToFile(options) && IsObject(LoadLocalKeys(file)) ==>
                    OwnProperty(LoadLocalKeys(file), name).None? && OwnProperty(LoadLocalKeys(file), Upper(name)).None?)
  {
    if EnvTruthy(env, name) || EnvTruthy(env, Upper(name)) || EnvTruthy(env, "API_" + Upper(name)) {
      EnvHitIgnoresFile(env, name, options, file, options, file);
    } else {
      assert FirstEnvHit(env, Candidates(name)).None?;
    }
  }

  /** tests/utils.test.js, test 3: `API_CUSTOM_KEY` is found for the name `custom_key`. */
  lemma ScenarioApiPrefix()
    ensures GetApiKey(map["API_CUSTOM_KEY" := "found-value"], Some("custom_key"), Some(false), Missing)
              == Some(JString("found-value"))
  {
    var env := map["API_CUSTOM_KEY" := "found-value"];
    assert Upper("custom_key") == "CUSTOM_KEY";
    assert "API_" + Upper("custom_key") == "API_CUSTOM_KEY";
    EnvCandidateOrder(env, "custom_key", Some(false), Missing, 2);
  }

  /** tests/utils.test.js, tests 5 and 6: the exact file key, then the upper-case one. */
  lemma ScenarioFileKeys()
    ensures GetApiKey(map[], Some("my_key"), None, Parsed(JObject(map["my_key" := JString("file-value")])))
              == Some(JString("file-value"))
    ensures GetApiKey(map[], Some("my_key"), None, Parsed(JObject(map["MY_KEY" := JString("upper-file-value")])))
              == Some(JString("upper-file-value"))
  {
    assert Upper("my_key") == "MY_KEY";
    FileExactKeyFirst(map[], "my_key", None, map["my_key" := JString("file-value")]);
    FileExactKeyFirst(map[], "my_key", None, map["MY_KEY" := JString("upper-file-value")]);
  }

  /** tests/utils.test.js, test 7: a file without the key gives null. */
  lemma ScenarioMissingEverywhere()
    ensures GetApiKey(map[], Some("missing_key"), None, Parsed(JObject(map["OTHER_KEY" := JString("something")])))
              == None
  {
    assert Upper("missing_key") == "MISSING_KEY";
    FileExactKeyFirst(map[], "missing_key", None, map["OTHER_KEY" := JString("something")]);
  }

  // ---------------------------------------------------------------------
  // The source as written: `in` on a truthy primitive throws

  /** What `getApiKey` does as written: return a value (or null), or throw. */
  datatype Outcome = Returned(key: Option<Json>) | ThrewTypeError

  /**
   * Lines 42-43 as written: `keys && (keyName in keys)`. A falsy parsed value
   * skips both tests; a truthy number, string or boolean makes `in` throw.
   */
  function FileLookupAsWritten(keys: Json, name: string): (r: Outcome)
  {
    if !Truthy(keys) then Returned(None)
    else if !IsObject(keys) then ThrewTypeError
    else Returned(FileLookup(keys, name))
  }

  function GetApiKeyAsWritten(env: map<string, string>, name: Option<string>, options: Option<bool>, file: KeyFile): (r: Outcome)
  {
    if name.None? || name.value == "" then Returned(None)
    else
      var fromEnv := EnvLookup(env, Candidates(name.value));
      if fromEnv.Some? then Returned(Some(JString(fromEnv.value)))
      else if FallbackToFile(options) then FileLookupAsWritten(LoadLocalKeys(file), name.value)
      else Returned(None)
  }

  /** A key file holding just `1` makes the lookup of an unset name throw. */
  lemma PrimitiveKeyFileThrows()
    ensures GetApiKeyAsWritten(map[], Some("k"), None, Parsed(JNumber(1))) == ThrewTypeError
    ensures GetApiKey(map[], Some("k"), None, Parsed(JNumber(1))) == None
  {
    assert EnvLookup(map[], Candidates("k")).None?;
  }

  /**
   * The code as written throws exactly when the file is reached and holds a
   * truthy primitive; otherwise it returns what GetApiKey returns.
   */
  lemma AsWrittenAgreesUnlessThrows(env: map<string, string>, name: Option<string>, options: Option<bool>, file: KeyFile)
    ensures GetApiKeyAsWritten(env, name, options, file) == ThrewTypeError <==>
              && name.Some? && name.value != ""
              && EnvLookup(env, Candidates(name.value)).None?
              && FallbackToFile(options)
              && file.Parsed? && Truthy(file.value) && !IsObject(file.value)
    ensures GetApiKeyAsWritten(env, name, options, file).Returned? ==>
              GetApiKeyAsWritten(env, name, options, file).key == GetApiKey(env, name, options, file)
  {
  }

  /** The corrected lookup treats a key file holding a primitive like a missing one. */
  lemma PrimitiveKeyFileIsMissing(env: map<string, string>, name: Option<string>, options: Option<bool>, v: Json)
    requires !IsObject(v)
    ensures GetApiKey(env, name, options, Parsed(v)) == GetApiKey(env, name, options, Missing)
  {
    UnreadableFileHasNoKeys(env, name, options);
    if name.Some? && name.value != "" {
      var n := name.value;
      assert OwnProperty(JObject(map[]), n).None?;
      assert OwnProperty(JObject(map[]), Upper(n)).None?;
    }
  }
}
