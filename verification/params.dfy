/**
 Parameter matchers and the three per-rule parameter maps the factory builds. Each map
 is filled by two `foreach` loops writing into one PHP array, so a key written by the
 second loop replaces what the first loop wrote for it.
 */
module Params {
  import opened Wrappers
  import opened OrderedMap

  /** A call parameter, addressed by its position or by its name. */
  datatype ParamId = Position(index: int) | Name(name: string)

  /** A scalar configuration value a parameter can be compared against. */
  datatype Scalar = IntValue(i: int) | StringValue(s: string) | BoolValue(b: bool) | NullValue

  /**
   What a parameter has to look like: any value, exactly a value, or a value compared
   without regard to case. Only the tag and its value are modelled, not the matching.
   */
  datatype ParamMatcher = AnyValue | Exact(value: Scalar) | CaseInsensitive(value: Scalar)

  type ParamMap = OMap<ParamId, ParamMatcher>

  /** The writes of `foreach ($values as $param => $value) $m[$param] = tag($value)`. */
  function Tagged(values: seq<(ParamId, Scalar)>, tag: Scalar -> ParamMatcher): (ps: seq<(ParamId, ParamMatcher)>)
    ensures |ps| == |values|
    ensures forall i :: 0 <= i < |values| ==> ps[i] == (values[i].0, tag(values[i].1))
  {
    seq(|values|, i requires 0 <= i < |values| => (values[i].0, tag(values[i].1)))
  }

  /** The writes of `foreach ($params as $param) $m[$param] = new ...AnyValue()`. */
  function AnyValueWrites(params: seq<ParamId>): (ps: seq<(ParamId, ParamMatcher)>)
    ensures Keys(ps) == params
    ensures forall i :: 0 <= i < |ps| ==> ps[i].1 == AnyValue
  {
    seq(|params|, i requires 0 <= i < |params| => (params[i], AnyValue))
  }

  lemma {:induction false} LastWriteTagged(values: seq<(ParamId, Scalar)>, tag: Scalar -> ParamMatcher, p: ParamId)
    ensures p in Keys(values) ==> LastWrite(Tagged(values, tag), p) == Some(tag(LastWrite(values, p).value))
    ensures p !in Keys(values) ==> LastWrite(Tagged(values, tag), p) == None
  {
    if |values| > 0 {
      var n := |values| - 1;
      assert Tagged(values, tag)[..n] == Tagged(values[..n], tag);
      LastWriteTagged(values[..n], tag, p);
      KeysOfPrefix(values);
    }
  }

  lemma LastWriteAnyValue(params: seq<ParamId>, p: ParamId)
    ensures LastWrite(AnyValueWrites(params), p) == if p in params then Some(AnyValue) else None
  {
  }

  function ExactTag(v: Scalar): ParamMatcher { Exact(v) }

  function CaseInsensitiveTag(v: Scalar): ParamMatcher { CaseInsensitive(v) }

  /**
   `allowParamsInAllowed` and `allowParamsAnywhere`: exact values first, then any-value
   ids. An id listed as any-value maps to `AnyValue` whatever the exact values said;
   every other id of the exact values maps to its value; no other id is present.
   */
  function ExactThenAnyValue(exact: seq<(ParamId, Scalar)>, anyValue: seq<ParamId>): (r: ParamMap)
    ensures DistinctKeys(r)
    ensures forall p ::
             Get(r, p) == (if p in anyValue then Some(AnyValue)
                           else if p in Keys(exact) then Some(Exact(LastWrite(exact, p).value))
                           else None)
  {
    var r := PutAll(PutAll([], Tagged(exact, ExactTag)), AnyValueWrites(anyValue));
    assert forall p ::
             Get(r, p) == (if p in anyValue then Some(AnyValue)
                           else if p in Keys(exact) then Some(Exact(LastWrite(exact, p).value))
                           else None)
    by {
      forall p
        ensures Get(r, p) == (
          if p in anyValue then Some(AnyValue)
          else if p in Keys(exact) then Some(Exact(LastWrite(exact, p).value))
          else None)
      {
        ExactThenAnyValueAt(exact, anyValue, p);
      }
    }
    r
  }

  lemma ExactThenAnyValueAt(exact: seq<(ParamId, Scalar)>, anyValue: seq<ParamId>, p: ParamId)
    ensures Get(PutAll(PutAll([], Tagged(exact, ExactTag)), AnyValueWrites(anyValue)), p) == (
      if p in anyValue then Some(AnyValue)
      else if p in Keys(exact) then Some(Exact(LastWrite(exact, p).value))
      else None)
  {
    var m := PutAll([], Tagged(exact, ExactTag));
    PutAllGet(m, AnyValueWrites(anyValue), p);
    LastWriteAnyValue(anyValue, p);
    PutAllGet([], Tagged(exact, ExactTag), p);
    LastWriteTagged(exact, ExactTag, p);
  }

  /**
   `allowExceptParams`: exact values first, then case-insensitive values. An id with a
   case-insensitive value maps to it whatever the exact values said; every other id of
   the exact values maps to its exact value; no other id is present.
   */
  function ExactThenCaseInsensitive(exact: seq<(ParamId, Scalar)>, caseInsensitive: seq<(ParamId, Scalar)>): (r: ParamMap)
    ensures DistinctKeys(r)
    ensures forall p ::
             Get(r, p) == (if p in Keys(caseInsensitive) then Some(CaseInsensitive(LastWrite(caseInsensitive, p).value))
                           else if p in Keys(exact) then Some(Exact(LastWrite(exact, p).value))
                           else None)
  {
    var r := PutAll(PutAll([], Tagged(exact, ExactTag)), Tagged(caseInsensitive, CaseInsensitiveTag));
    assert forall p ::
             Get(r, p) == (if p in Keys(caseInsensitive) then Some(CaseInsensitive(LastWrite(caseInsensitive, p).value))
                           else if p in Keys(exact) then Some(Exact(LastWrite(exact, p).value))
                           else None)
    by {
      forall p
        ensures Get(r, p) == (
          if p in Keys(caseInsensitive) then Some(CaseInsensitive(LastWrite(caseInsensitive, p).value))
          else if p in Keys(exact) then Some(Exact(LastWrite(exact, p).value))
          else None)
      {
        ExactThenCaseInsensitiveAt(exact, caseInsensitive, p);
      }
    }
    r
  }

  lemma ExactThenCaseInsensitiveAt(exact: seq<(ParamId, Scalar)>, caseInsensitive: seq<(ParamId, Scalar)>, p: ParamId)
    ensures Get(PutAll(PutAll([], Tagged(exact, ExactTag)), Tagged(caseInsensitive, CaseInsensitiveTag)), p) == (
      if p in Keys(caseInsensitive) then Some(CaseInsensitive(LastWrite(caseInsensitive, p).value))
      else if p in Keys(exact) then Some(Exact(LastWrite(exact, p).value))
      else None)
  {
    var m := PutAll([], Tagged(exact, ExactTag));
    PutAllGet(m, Tagged(caseInsensitive, CaseInsensitiveTag), p);
    LastWriteTagged(caseInsensitive, CaseInsensitiveTag, p);
    PutAllGet([], Tagged(exact, ExactTag), p);
    LastWriteTagged(exact, ExactTag, p);
  }
}
