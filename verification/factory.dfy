/**
 The factory that turns the configured list of disallowed calls into rule records
 (`DisallowedCallFactory::createFromConfig`). Each item names a call by `function` or
 `method`, gets its lists normalized and its parameter maps built, and is filed under
 its normalized name; a later item with the same name replaces the earlier record but
 keeps its place. An item without a usable name aborts the whole translation.
 */
module DisallowedCallFactory {
  import opened Wrappers
  import opened OrderedMap
  import opened CallName
  import opened Params

  /** One configuration item. `None` stands for a key that is absent or set to `null`. */
  datatype ConfigEntry = ConfigEntry(
    functionName: Option<string>,  // key `function`
    methodName: Option<string>,    // key `method`
    message: Option<string>,
    allowIn: Option<seq<string>>,
    allowInFunctions: Option<seq<string>>,
    allowInMethods: Option<seq<string>>,
    allowParamsInAllowed: Option<seq<(ParamId, Scalar)>>,
    allowParamsInAllowedAnyValue: Option<seq<ParamId>>,
    allowParamsAnywhere: Option<seq<(ParamId, Scalar)>>,
    allowParamsAnywhereAnyValue: Option<seq<ParamId>>,
    allowExceptParams: Option<seq<(ParamId, Scalar)>>,
    allowExceptCaseInsensitiveParams: Option<seq<(ParamId, Scalar)>>)

  /** The item with no key set. */
  const EmptyEntry := ConfigEntry(None, None, None, None, None, None, None, None, None, None, None, None)

  /** One rule record, as handed to the host engine. */
  datatype DisallowedCall = DisallowedCall(
    call: string,
    message: Option<string>,
    allowIn: seq<string>,
    allowInCalls: seq<string>,
    allowParamsInAllowed: ParamMap,
    allowParamsAnywhere: ParamMap,
    allowExceptParams: ParamMap)

  /** The one configuration error: an item that names no call, with the exception's message. */
  datatype ConfigError = MissingCallName(message: string)

  const MissingCallNameMessage := "Either 'method' or 'function' must be set in configuration items"

  /** PHP truthiness of a string: only `""` and `"0"` are false. */
  predicate IsTruthy(s: string) {
    s != "" && s != "0"
  }

  /**
   Only the two false strings fail the `!$call` test. Strings that merely look false
   (`"00"`, `"0.0"`, `" "`, `"false"`) are true.
   */
  lemma StringFalsiness(s: string)
    ensures !IsTruthy(s) <==> |s| == 0 || (|s| == 1 && s[0] == '0')
    ensures IsTruthy("00") && IsTruthy("0.0") && IsTruthy(" ") && IsTruthy("false")
  {
    if |s| == 1 && s[0] == '0' {
      assert s == "0";
    }
  }

  /** `$item['function'] ?? $item['method'] ?? null`. */
  function ChosenName(e: ConfigEntry): Option<string> {
    e.functionName.OrElse(e.methodName)
  }

  predicate HasCallName(e: ConfigEntry) {
    ChosenName(e).Some? && IsTruthy(ChosenName(e).value)
  }

  /** The key an item is filed under: its normalized call name. */
  function CallKey(e: ConfigEntry): string
    requires HasCallName(e)
  {
    NormalizeCall(ChosenName(e).value)
  }

  /**
   The call name of an item, or the configuration error. `function` is used whenever it
   is set, even to a false string and even when `method` is set too; `method` is used
   only when `function` is absent; a chosen name of `""` or `"0"`, or no name, is an error.
   */
  function SelectCallName(e: ConfigEntry): (r: Result<string, ConfigError>)
    ensures e.functionName.Some? ==> (r.Success? <==> IsTruthy(e.functionName.value))
    ensures e.functionName.Some? && r.Success? ==> r.value == e.functionName.value
    ensures e.functionName.None? ==> (r.Success? <==> e.methodName.Some? && IsTruthy(e.methodName.value))
    ensures e.functionName.None? && r.Success? ==> r.value == e.methodName.value
    ensures r.Failure? ==> r.error == MissingCallName(MissingCallNameMessage)
  {
    var call := ChosenName(e);
    if call.None? || !IsTruthy(call.value) then Failure(MissingCallName(MissingCallNameMessage)) else Success(call.value)
  }

  /** Every name of `calls` normalized, in the same order. */
  function NormalizeCalls(calls: seq<string>): (r: seq<string>)
    ensures |r| == |calls|
    ensures forall i :: 0 <= i < |calls| ==> r[i] == NormalizeCall(calls[i])
  {
    seq(|calls|, i requires 0 <= i < |calls| => NormalizeCall(calls[i]))
  }

  /**
   `allowInCalls`: the normalized `allowInFunctions` when that key is set (even to an
   empty list), otherwise the normalized `allowInMethods`, otherwise empty.
   */
  function AllowInCalls(e: ConfigEntry): (r: seq<string>)
    ensures e.allowInFunctions.Some? ==>
              |r| == |e.allowInFunctions.value|
              && forall i :: 0 <= i < |r| ==> r[i] == NormalizeCall(e.allowInFunctions.value[i])
    ensures e.allowInFunctions.None? && e.allowInMethods.Some? ==>
              |r| == |e.allowInMethods.value|
              && forall i :: 0 <= i < |r| ==> r[i] == NormalizeCall(e.allowInMethods.value[i])
    ensures e.allowInFunctions.None? && e.allowInMethods.None? ==> r == []
  {
    NormalizeCalls(e.allowInFunctions.OrElse(e.allowInMethods).GetOr([]))
  }

  /**
   The record for one item, or the configuration error. The record is filed under the
   normalized chosen name; `message` is passed through (absent stays absent), `allowIn`
   defaults to empty, and the parameter maps are built exact values first.
   */
  function BuildCall(e: ConfigEntry): (r: Result<DisallowedCall, ConfigError>)
    ensures r.Success? <==> HasCallName(e)
    ensures r.Failure? ==> r.error == MissingCallName(MissingCallNameMessage)
    ensures r.Success? ==> r.value.call == NormalizeCall(SelectCallName(e).value) == CallKey(e)
    ensures r.Success? ==> r.value.message == e.message
    ensures r.Success? ==> r.value.allowIn == (if e.allowIn.Some? then e.allowIn.value else [])
    ensures r.Success? ==> r.value.allowInCalls == AllowInCalls(e)
    ensures r.Success? ==>
              r.value.allowParamsInAllowed == ExactThenAnyValue(e.allowParamsInAllowed.GetOr([]), e.allowParamsInAllowedAnyValue.GetOr([]))
    ensures r.Success? ==>
              r.value.allowParamsAnywhere == ExactThenAnyValue(e.allowParamsAnywhere.GetOr([]), e.allowParamsAnywhereAnyValue.GetOr([]))
    ensures r.Success? ==>
              r.value.allowExceptParams == ExactThenCaseInsensitive(e.allowExceptParams.GetOr([]), e.allowExceptCaseInsensitiveParams.GetOr([]))
  {
    match SelectCallName(e)
    case Failure(err) => Failure(err)
    case Success(call) =>
      Success(DisallowedCall(
        NormalizeCall(call),
        e.message,
        e.allowIn.GetOr([]),
        AllowInCalls(e),
        ExactThenAnyValue(e.allowParamsInAllowed.GetOr([]), e.allowParamsInAllowedAnyValue.GetOr([])),
        ExactThenAnyValue(e.allowParamsAnywhere.GetOr([]), e.allowParamsAnywhereAnyValue.GetOr([])),
        ExactThenCaseInsensitive(e.allowExceptParams.GetOr([]), e.allowExceptCaseInsensitiveParams.GetOr([]))))
  }

  /** The names the records are filed under, in order. */
  function Calls(rs: seq<DisallowedCall>): (ks: seq<string>)
    ensures |ks| == |rs|
    ensures forall i :: 0 <= i < |rs| ==> ks[i] == rs[i].call
  {
    seq(|rs|, i requires 0 <= i < |rs| => rs[i].call)
  }

  /** `$calls[$call->getKey()] = $call` for each record, as writes into the keyed array. */
  function KeyedByCall(rs: seq<DisallowedCall>): (ps: seq<(string, DisallowedCall)>)
    ensures |ps| == |rs|
    ensures forall i :: 0 <= i < |rs| ==> ps[i] == (rs[i].call, rs[i])
  {
    seq(|rs|, i requires 0 <= i < |rs| => (rs[i].call, rs[i]))
  }

  /**
   The keyed accumulation followed by `array_values`. There is one record per distinct
   name, so no more records than went in; the names sit in the order of their first
   occurrence; and each record is the last one that went in under its name.
   */
  function Dedup(rs: seq<DisallowedCall>): (out: seq<DisallowedCall>)
    ensures |out| <= |rs|
    ensures forall a, b :: 0 <= a < b < |out| ==> out[a].call != out[b].call
    ensures forall i :: 0 <= i < |rs| ==> rs[i].call in Calls(out)
    ensures forall j :: 0 <= j < |out| ==>
              exists i :: 0 <= i < |rs| && out[j] == rs[i] && rs[i].call !in Calls(rs[i + 1..])
    ensures InFirstOccurrenceOrder(Calls(out), Calls(rs))
  {
    DedupShape(rs);
    DedupLastWins(rs);
    Values(PutAll([], KeyedByCall(rs)))
  }

  lemma KeysOfKeyedByCall(rs: seq<DisallowedCall>)
    ensures Keys(KeyedByCall(rs)) == Calls(rs)
  {
  }

  lemma DedupShape(rs: seq<DisallowedCall>)
    ensures var out := Values(PutAll([], KeyedByCall(rs)));
      && |out| <= |rs|
      && (forall a, b :: 0 <= a < b < |out| ==> out[a].call != out[b].call)
      && (forall i :: 0 <= i < |rs| ==> rs[i].call in Calls(out))
      && InFirstOccurrenceOrder(Calls(out), Calls(rs))
  {
    var ps := KeyedByCall(rs);
    var m := PutAll([], ps);
    forall j | 0 <= j < |m|
      ensures m[j].0 == m[j].1.call
    {
      assert m[j] in ps;
    }
    assert Calls(Values(m)) == Keys(m);
    KeysOfKeyedByCall(rs);
    forall i | 0 <= i < |rs|
      ensures rs[i].call in Keys(m)
    {
      PutAllKeys([], ps, rs[i].call);
    }
    PutAllKeepsFirstWriteOrder(ps);
  }

  lemma DedupLastWins(rs: seq<DisallowedCall>)
    ensures var out := Values(PutAll([], KeyedByCall(rs)));
      forall j :: 0 <= j < |out| ==>
        exists i :: 0 <= i < |rs| && out[j] == rs[i] && rs[i].call !in Calls(rs[i + 1..])
  {
    var out := Values(PutAll([], KeyedByCall(rs)));
    forall j | 0 <= j < |out|
      ensures exists i :: 0 <= i < |rs| && out[j] == rs[i] && rs[i].call !in Calls(rs[i + 1..])
    {
      var i := DedupLastWinsAt(rs, j);
    }
  }

  lemma DedupLastWinsAt(rs: seq<DisallowedCall>, j: nat) returns (i: nat)
    requires j < |PutAll([], KeyedByCall(rs))|
    ensures i < |rs| && Values(PutAll([], KeyedByCall(rs)))[j] == rs[i]
    ensures rs[i].call !in Calls(rs[i + 1..])
  {
    var ps := KeyedByCall(rs);
    var m := PutAll([], ps);
    var k := m[j].0;
    GetOfDistinct(m, j);
    PutAllGet([], ps, k);
    assert LastWrite(ps, k) == Some(m[j].1);
    i :| 0 <= i < |ps| && ps[i] == (k, m[j].1) && k !in Keys(ps[i + 1..]);
    KeyedSuffix(rs, i);
  }

  lemma KeyedSuffix(rs: seq<DisallowedCall>, i: nat)
    requires i < |rs|
    ensures Keys(KeyedByCall(rs)[i + 1..]) == Calls(rs[i + 1..])
  {
    assert KeyedByCall(rs)[i + 1..] == KeyedByCall(rs[i + 1..]);
    KeysOfKeyedByCall(rs[i + 1..]);
  }

  /** The names every item is filed under, in item order. */
  function CallKeys(config: seq<ConfigEntry>): (ks: seq<string>)
    requires forall i :: 0 <= i < |config| ==> HasCallName(config[i])
    ensures |ks| == |config|
    ensures forall i :: 0 <= i < |config| ==> ks[i] == CallKey(config[i])
  {
    seq(|config|, i requires 0 <= i < |config| && HasCallName(config[i]) => CallKey(config[i]))
  }

  /**
   `createFromConfig` as a whole. It fails exactly when some item names no call, and
   then yields nothing else. Otherwise it yields at most one record per item and never
   two records under one name.
   */
  function Translate(config: seq<ConfigEntry>): (r: Result<seq<DisallowedCall>, ConfigError>)
    ensures r.Failure? <==> exists i :: 0 <= i < |config| && !HasCallName(config[i])
    ensures r.Failure? ==> r.error == MissingCallName(MissingCallNameMessage)
    ensures r.Success? ==> |r.value| <= |config|
    ensures r.Success? ==> forall a, b :: 0 <= a < b < |r.value| ==> r.value[a].call != r.value[b].call
  {
    match MapAll(config, BuildCall)
    case Failure(err) => Failure(err)
    case Success(rs) => Success(Dedup(rs))
  }

  /** The records built for a config in which every item names a call. */
  lemma BuiltRecords(config: seq<ConfigEntry>) returns (rs: seq<DisallowedCall>)
    requires forall i :: 0 <= i < |config| ==> HasCallName(config[i])
    ensures MapAll(config, BuildCall) == Success(rs)
    ensures Translate(config) == Success(Dedup(rs))
    ensures |rs| == |config|
    ensures forall i :: 0 <= i < |config| ==> BuildCall(config[i]) == Success(rs[i])
    ensures Calls(rs) == CallKeys(config)
  {
    rs := MapAll(config, BuildCall).value;
  }

  /** Every item's name has a record in the result. */
  lemma TranslateCoversEveryItem(config: seq<ConfigEntry>)
    requires forall i :: 0 <= i < |config| ==> HasCallName(config[i])
    ensures Translate(config).Success?
    ensures forall i :: 0 <= i < |config| ==> CallKey(config[i]) in Calls(Translate(config).value)
  {
    var rs := BuiltRecords(config);
  }

  /** The records sit in the order in which their names first occur among the items. */
  lemma TranslateFirstOccurrenceOrder(config: seq<ConfigEntry>)
    requires forall i :: 0 <= i < |config| ==> HasCallName(config[i])
    ensures Translate(config).Success?
    ensures InFirstOccurrenceOrder(Calls(Translate(config).value), CallKeys(config))
  {
    var rs := BuiltRecords(config);
  }

  /** Each record is the one built from the last item with its name. */
  lemma TranslateLastItemWins(config: seq<ConfigEntry>, j: nat)
    requires forall i :: 0 <= i < |config| ==> HasCallName(config[i])
    requires j < |Translate(config).value|
    ensures exists i :: 0 <= i < |config| && BuildCall(config[i]) == Success(Translate(config).value[j])
                        && forall i' :: i < i' < |config| ==> CallKey(config[i']) != CallKey(config[i])
  {
    var rs := BuiltRecords(config);
    var i := DedupSource(rs, j);
    LaterKeysDiffer(config, rs, i);
  }

  lemma LaterKeysDiffer(config: seq<ConfigEntry>, rs: seq<DisallowedCall>, i: nat)
    requires forall i :: 0 <= i < |config| ==> HasCallName(config[i])
    requires |rs| == |config| && Calls(rs) == CallKeys(config)
    requires i < |rs| && rs[i].call !in Calls(rs[i + 1..])
    ensures forall i' :: i < i' < |config| ==> CallKey(config[i']) != CallKey(config[i])
  {
    forall i' | i < i' < |config|
      ensures CallKey(config[i']) != CallKey(config[i])
    {
      assert Calls(rs)[i'] == CallKeys(config)[i'];
      assert Calls(rs)[i] == CallKeys(config)[i];
      assert Calls(rs[i + 1..])[i' - i - 1] == rs[i'].call;
    }
  }

  /** The position of the input record that ended up at position `j` of `Dedup(rs)`. */
  lemma DedupSource(rs: seq<DisallowedCall>, j: nat) returns (i: nat)
    requires j < |Dedup(rs)|
    ensures i < |rs| && Dedup(rs)[j] == rs[i] && rs[i].call !in Calls(rs[i + 1..])
  {
    var out := Dedup(rs);
    i :| 0 <= i < |rs| && out[j] == rs[i] && rs[i].call !in Calls(rs[i + 1..]);
  }

  /**
   Items that all carry the same name collapse into one record: the one built from the
   last item.
   */
  lemma TranslateAllSameName(config: seq<ConfigEntry>)
    requires |config| > 0
    requires forall i :: 0 <= i < |config| ==> HasCallName(config[i])
    requires forall i :: 0 <= i < |config| ==> CallKey(config[i]) == CallKey(config[0])
    ensures Translate(config) == Success([BuildCall(config[|config| - 1]).value])
  {
    var rs := BuiltRecords(config);
    SameKeysSameCalls(config, rs);
    DedupAllSame(rs, CallKey(config[0]));
    assert BuildCall(config[|config| - 1]) == Success(rs[|rs| - 1]);
  }

  lemma SameKeysSameCalls(config: seq<ConfigEntry>, rs: seq<DisallowedCall>)
    requires |config| > 0
    requires forall i :: 0 <= i < |config| ==> HasCallName(config[i])
    requires forall i :: 0 <= i < |config| ==> CallKey(config[i]) == CallKey(config[0])
    requires Calls(rs) == CallKeys(config)
    ensures forall i :: 0 <= i < |rs| ==> rs[i].call == CallKey(config[0])
  {
    forall i | 0 <= i < |rs|
      ensures rs[i].call == CallKey(config[0])
    {
      assert Calls(rs)[i] == CallKeys(config)[i];
    }
  }

  /** Records all filed under one name deduplicate to the last of them. */
  lemma DedupAllSame(rs: seq<DisallowedCall>, name: string)
    requires |rs| > 0 && forall i :: 0 <= i < |rs| ==> rs[i].call == name
    ensures Dedup(rs) == [rs[|rs| - 1]]
  {
    DedupOneName(rs, name);
    var i := DedupSource(rs, 0);
    LastCallInSuffix(rs, i);
  }

  lemma LastCallInSuffix(rs: seq<DisallowedCall>, i: nat)
    requires i < |rs|
    ensures i < |rs| - 1 ==> rs[|rs| - 1].call in Calls(rs[i + 1..])
  {
    if i < |rs| - 1 {
      assert Calls(rs[i + 1..])[|rs| - i - 2] == rs[|rs| - 1].call;
    }
  }

  lemma SameAtFirstTwo(ks: seq<string>, name: string)
    requires forall x :: x in ks ==> x == name
    ensures |ks| > 1 ==> ks[0] == ks[1]
  {
    if |ks| > 1 {
      assert ks[0] in ks && ks[1] in ks;
    }
  }

  /** Records all filed under one name collapse into one. */
  lemma DedupOneName(rs: seq<DisallowedCall>, name: string)
    requires |rs| > 0 && forall i :: 0 <= i < |rs| ==> rs[i].call == name
    ensures |Dedup(rs)| == 1
  {
    var out := Dedup(rs);
    assert rs[0].call in Calls(out);
    forall x | x in Calls(rs)
      ensures x == name
    {
      var k :| 0 <= k < |rs| && Calls(rs)[k] == x;
    }
    forall x | x in Calls(out)
      ensures x == name
    {
    }
    SameAtFirstTwo(Calls(out), name);
  }

  /**
   The loop of `createFromConfig`: build each item's record in order, return the error
   as soon as one item names no call, otherwise file the record under its name.
   */
  method CreateFromConfig(config: seq<ConfigEntry>) returns (r: Result<seq<DisallowedCall>, ConfigError>)
    ensures r == Translate(config)
  {
    var calls: OMap<string, DisallowedCall> := [];
    ghost var built: seq<DisallowedCall> := [];
    for i := 0 to |config|
      invariant MapAll(config[..i], BuildCall) == Success(built)
      invariant calls == PutAll([], KeyedByCall(built))
    {
      var call := BuildCall(config[i]);
      if call.Failure? {
        TranslateFailsAt(config, i);
        return Failure(call.error);
      }
      LoopStep(config, i, built, call.value);
      calls := Put(calls, call.value.call, call.value);
      built := built + [call.value];
    }
    TranslateOfAccumulated(config, built);
    return Success(Values(calls));
  }

  lemma TranslateFailsAt(config: seq<ConfigEntry>, i: nat)
    requires i < |config| && BuildCall(config[i]).Failure?
    ensures Translate(config) == Failure(BuildCall(config[i]).error)
  {
    assert !HasCallName(config[i]);
  }

  lemma TranslateOfAccumulated(config: seq<ConfigEntry>, built: seq<DisallowedCall>)
    requires MapAll(config[..|config|], BuildCall) == Success(built)
    ensures Translate(config) == Success(Values(PutAll([], KeyedByCall(built))))
  {
    assert config[..|config|] == config;
  }

  /** One turn of the loop: one more record built, and filed under its name. */
  lemma LoopStep(config: seq<ConfigEntry>, i: nat, built: seq<DisallowedCall>, c: DisallowedCall)
    requires i < |config| && MapAll(config[..i], BuildCall) == Success(built)
    requires BuildCall(config[i]) == Success(c)
    ensures MapAll(config[..i + 1], BuildCall) == Success(built + [c])
    ensures PutAll([], KeyedByCall(built + [c])) == Put(PutAll([], KeyedByCall(built)), c.call, c)
  {
    MapAllExtend(config, BuildCall, i);
    KeyedByCallExtend(built, c);
  }

  lemma KeyedByCallExtend(rs: seq<DisallowedCall>, c: DisallowedCall)
    ensures PutAll([], KeyedByCall(rs + [c])) == Put(PutAll([], KeyedByCall(rs)), c.call, c)
  {
    var ps := KeyedByCall(rs + [c]);
    assert ps[..|rs|] == KeyedByCall(rs);
    assert ps[|rs|] == (c.call, c);
    assert PutAll([], ps) == Put(PutAll([], ps[..|rs|]), ps[|rs|].0, ps[|rs|].1);
  }
}
