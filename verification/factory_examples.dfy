/** Concrete configurations and what the factory makes of them. */
module FactoryExamples {
  import opened Wrappers
  import opened OrderedMap
  import opened CallName
  import opened Params
  import opened DisallowedCallFactory

  /**
   A name set under `function` is used even when it is false as a string, so the item
   fails although `method` holds a usable name; an item with no name fails too.
   */
  lemma FalseNamesFail()
    ensures Translate([EmptyEntry.(functionName := Some(""), methodName := Some("x"))]).Failure?
    ensures Translate([EmptyEntry.(functionName := Some("0"))]).Failure?
    ensures Translate([EmptyEntry]).Failure?
  {
    assert !HasCallName(EmptyEntry.(functionName := Some(""), methodName := Some("x")));
    assert !HasCallName(EmptyEntry.(functionName := Some("0")));
    assert !HasCallName(EmptyEntry);
  }

  /** `function` is preferred to `method`; `method` is consulted only when `function` is absent. */
  lemma FunctionKeyShadowsMethod()
    ensures SelectCallName(EmptyEntry.(functionName := Some("f"), methodName := Some("m"))) == Success("f")
    ensures SelectCallName(EmptyEntry.(methodName := Some("m"))) == Success("m")
  {
  }

  /** A bad item after good ones still fails the whole translation. */
  lemma LateBadItemFailsAll()
    ensures Translate([EmptyEntry.(functionName := Some("eval")), EmptyEntry]).Failure?
  {
    assert !HasCallName([EmptyEntry.(functionName := Some("eval")), EmptyEntry][1]);
  }

  /**
   Two items that normalize to `eval` collapse into one record, which is the second
   one: its absent message replaces whatever message the first item carried.
   */
  lemma LaterItemReplacesEarlier(msg: string)
    ensures var config := [EmptyEntry.(functionName := Some("eval"), message := Some(msg)),
                           EmptyEntry.(functionName := Some("\\eval()"))];
      && Translate(config).Success?
      && |Translate(config).value| == 1
      && Translate(config).value[0].call == "eval"
      && Translate(config).value[0].message == None
  {
    var e0 := EmptyEntry.(functionName := Some("eval"), message := Some(msg));
    var e1 := EmptyEntry.(functionName := Some("\\eval()"));
    EvalKeys(e0, e1);
    TwoItemsSameName(e0, e1);
    var r := BuildCall(e1).value;
    assert r.call == "eval" && r.message == None;
  }

  lemma TwoItemsSameName(e0: ConfigEntry, e1: ConfigEntry)
    requires HasCallName(e0) && HasCallName(e1) && CallKey(e0) == CallKey(e1)
    ensures Translate([e0, e1]) == Success([BuildCall(e1).value])
  {
    var config := [e0, e1];
    assert forall i :: 0 <= i < |config| ==> HasCallName(config[i]);
    assert forall i :: 0 <= i < |config| ==> CallKey(config[i]) == CallKey(config[0]);
    TranslateAllSameName(config);
  }

  lemma EvalKeys(e0: ConfigEntry, e1: ConfigEntry)
    requires e0.functionName == Some("eval") && e1.functionName == Some("\\eval()")
    ensures HasCallName(e0) && CallKey(e0) == "eval"
    ensures HasCallName(e1) && CallKey(e1) == "eval"
  {
    assert !EndsWithParens("eval") && TrimLeadingBackslashes("eval") == "eval";
    assert EndsWithParens("\\eval()") && StripParens("\\eval()") == "\\eval";
    assert TrimLeadingBackslashes("\\eval") == TrimLeadingBackslashes("eval") == "eval";
  }

  /** An id listed as any-value overrides an exact value for the same parameter. */
  lemma AnyValueOverridesExact(v: Scalar)
    ensures var e := EmptyEntry.(methodName := Some("setProperty"),
                                 allowParamsAnywhere := Some([(Position(0), v)]),
                                 allowParamsAnywhereAnyValue := Some([Position(0)]));
      && BuildCall(e).Success?
      && Get(BuildCall(e).value.allowParamsAnywhere, Position(0)) == Some(AnyValue)
      && Get(BuildCall(e).value.allowParamsAnywhere, Position(1)) == None
  {
    var e := EmptyEntry.(methodName := Some("setProperty"),
                         allowParamsAnywhere := Some([(Position(0), v)]),
                         allowParamsAnywhereAnyValue := Some([Position(0)]));
    assert HasCallName(e);
    AnyValueWins(v, BuildCall(e).value.allowParamsAnywhere);
  }

  lemma AnyValueWins(v: Scalar, m: ParamMap)
    requires m == ExactThenAnyValue([(Position(0), v)], [Position(0)])
    ensures Get(m, Position(0)) == Some(AnyValue)
    ensures Get(m, Position(1)) == None
  {
    var exact := [(Position(0), v)];
    assert Keys(exact) == [Position(0)];
    assert Position(1) !in [Position(0)];
  }

  /** A case-insensitive value overrides an exact value for the same parameter. */
  lemma CaseInsensitiveOverridesExact(a: Scalar, b: Scalar, c: Scalar)
    ensures var e := EmptyEntry.(functionName := Some("header"),
                                 allowExceptParams := Some([(Position(0), a), (Name("b"), b)]),
                                 allowExceptCaseInsensitiveParams := Some([(Position(0), c)]));
      && BuildCall(e).Success?
      && Get(BuildCall(e).value.allowExceptParams, Position(0)) == Some(CaseInsensitive(c))
      && Get(BuildCall(e).value.allowExceptParams, Name("b")) == Some(Exact(b))
  {
    var e := EmptyEntry.(functionName := Some("header"),
                         allowExceptParams := Some([(Position(0), a), (Name("b"), b)]),
                         allowExceptCaseInsensitiveParams := Some([(Position(0), c)]));
    assert HasCallName(e);
    CaseInsensitiveWins(a, b, c, BuildCall(e).value.allowExceptParams);
  }

  lemma CaseInsensitiveWins(a: Scalar, b: Scalar, c: Scalar, m: ParamMap)
    requires m == ExactThenCaseInsensitive([(Position(0), a), (Name("b"), b)], [(Position(0), c)])
    ensures Get(m, Position(0)) == Some(CaseInsensitive(c))
    ensures Get(m, Name("b")) == Some(Exact(b))
  {
    var exact := [(Position(0), a), (Name("b"), b)];
    var ci := [(Position(0), c)];
    assert Keys(ci) == [Position(0)];
    LastWriteOfSingle(ci);
    assert Keys(exact) == [Position(0), Name("b")];
    LastWriteOfLast(exact);
  }

  lemma LastWriteOfSingle(ps: seq<(ParamId, Scalar)>)
    requires |ps| == 1
    ensures LastWrite(ps, ps[0].0) == Some(ps[0].1)
  {
  }

  lemma LastWriteOfLast(ps: seq<(ParamId, Scalar)>)
    requires |ps| == 2
    ensures LastWrite(ps, ps[1].0) == Some(ps[1].1)
  {
  }

  /** `allowInFunctions` wins whenever it is set, even to an empty list. */
  lemma AllowInFunctionsWinsWhenEmpty()
    ensures AllowInCalls(EmptyEntry.(allowInFunctions := Some([]), allowInMethods := Some(["\\f()"]))) == []
    ensures AllowInCalls(EmptyEntry.(allowInMethods := Some(["\\f()"]))) == ["f"]
  {
    assert NormalizeCall("\\f()") == "f" by {
      assert EndsWithParens("\\f()") && StripParens("\\f()") == "\\f";
      assert TrimLeadingBackslashes("\\f") == TrimLeadingBackslashes("f") == "f";
    }
  }

  /** A name that passes the emptiness test can still normalize to the empty name. */
  lemma AcceptedNameMayNormalizeToEmpty()
    ensures var e := EmptyEntry.(functionName := Some("()"));
      HasCallName(e) && CallKey(e) == ""
  {
    NormalizeCallMayBeEmpty();
  }
}
