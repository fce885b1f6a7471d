/**
  The specification codec of amun/api_v1.py: `_parse_specification` prepares a specification
  for the workflow template engine (quotes escaped, integer fields as strings, `build` and
  `run` present) and `_unparse_specification` reads it back.
 */
module SpecCodec {
  import opened Wrappers
  import opened Document
  import opened Builtins
  import Quotes
  import Walk

  /** The fields the template engine carries as strings. */
  const CastFields: seq<string> := ["allowed_failures", "batch_size", "parallelism"]

  // ---------------------------------------------------------------------------------------
  // Parse

  /** For each of `keys` present in `source`, in order, set that key of `target` to `str()` of
      the value `source` holds for it; keys absent from `source` are skipped. */
  function CastToStrings(target: Dict, source: Dict, keys: seq<string>, reprOf: Json -> string): (r: Dict)
    ensures forall k {:trigger Get(r, k)} ::
      Get(r, k) == if k in keys && Get(source, k).Some? then Some(Str(ToStr(Get(source, k).value, reprOf)))
                   else Get(target, k)
    ensures (forall i :: 0 <= i < |keys| && keys[i] in Keys(source) ==> keys[i] in Keys(target))
      ==> Keys(r) == Keys(target)
    decreases |keys|
  {
    if |keys| == 0 then target
    else
      var v := Get(source, keys[0]);
      var next := if v.Some? then Set(target, keys[0], Str(ToStr(v.value, reprOf))) else target;
      assert forall k :: k in keys <==> k == keys[0] || k in keys[1..];
      CastToStrings(next, source, keys[1..], reprOf)
  }

  /** What the parsed specification holds under key `k`, stated key by key. */
  function ParsedValue(spec: Dict, k: string, reprOf: Json -> string): Option<Json> {
    match Get(spec, k)
    case Some(v) => Some(if k in CastFields then Str(ToStr(v, reprOf)) else Walk.EscapeJson(v))
    case None => if k == "build" || k == "run" then Some(Object([])) else None
  }

  /** The keys of `d` followed by whichever of `build` and `run` it lacks. */
  function KeysWithDefaults(d: Dict): seq<string> {
    Keys(d) + (if "build" in Keys(d) then [] else ["build"]) + (if "run" in Keys(d) then [] else ["run"])
  }

  /** Add an empty `build` and then an empty `run` where missing; every other key is untouched. */
  function AddDefaults(d: Dict): (r: Dict)
    ensures forall k {:trigger Get(r, k)} ::
      Get(r, k) == if (k == "build" || k == "run") && k !in Keys(d) then Some(Object([])) else Get(d, k)
    ensures Keys(r) == KeysWithDefaults(d)
  {
    var withBuild := AddDefault(d, "build");
    assert "run" in Keys(withBuild) <==> "run" in Keys(d);
    AddDefault(withBuild, "run")
  }

  /** `if k not in d: d[k] = {}`. */
  function AddDefault(d: Dict, k: string): (r: Dict)
    ensures Get(r, k) == if k in Keys(d) then Get(d, k) else Some(Object([]))
    ensures forall k' {:trigger Get(r, k')} :: k' != k ==> Get(r, k') == Get(d, k')
    ensures Keys(r) == Keys(d) + if k in Keys(d) then [] else [k]
  {
    if k in Keys(d) then d else Set(d, k, Object([]))
  }

  /** Adding the defaults keeps a dict's keys distinct. */
  lemma {:induction false} AddDefaultsKeepsDistinct(d: Dict)
    requires DistinctKeys(d)
    ensures DistinctKeys(AddDefaults(d))
  {
    var withBuild := AddDefault(d, "build");
    if "build" !in Keys(d) { SetKeepsDistinct(d, "build", Object([])); }
    if "run" !in Keys(withBuild) { SetKeepsDistinct(withBuild, "run", Object([])); }
  }

  /** The integer fields as text, over the escaped copy: lines 119-126 of `_parse_specification`. */
  function EscapeAndCast(spec: Dict, reprOf: Json -> string): (r: Dict)
    ensures Keys(r) == Keys(spec)
    ensures forall k {:trigger Get(r, k)} ::
      Get(r, k) == if k in CastFields && Get(spec, k).Some? then Some(Str(ToStr(Get(spec, k).value, reprOf)))
                   else Walk.MapOption(Get(spec, k), Quotes.Escape)
  {
    var escaped := Walk.MapDict(spec, Quotes.Escape);
    assert Keys(escaped) == Keys(spec);
    CastToStrings(escaped, spec, CastFields, reprOf)
  }

  lemma {:induction false} EscapeAndCastGet(spec: Dict, reprOf: Json -> string, k: string)
    ensures Keys(EscapeAndCast(spec, reprOf)) == Keys(spec)
    ensures Get(AddDefaults(EscapeAndCast(spec, reprOf)), k) == ParsedValue(spec, k, reprOf)
  {
  }

  /** `_parse_specification`: escape every string, write the integer fields as text taken from the
      ORIGINAL values, and add an empty `build` and `run` where missing. */
  function Parse(spec: Dict, reprOf: Json -> string): (r: Dict)
    ensures forall k {:trigger Get(r, k)} :: Get(r, k) == ParsedValue(spec, k, reprOf)
    ensures Keys(r) == KeysWithDefaults(spec)
  {
    var cast := EscapeAndCast(spec, reprOf);
    assert forall k :: Get(AddDefaults(cast), k) == ParsedValue(spec, k, reprOf) by {
      forall k ensures Get(AddDefaults(cast), k) == ParsedValue(spec, k, reprOf) {
        EscapeAndCastGet(spec, reprOf, k);
      }
    }
    EscapeAndCastGet(spec, reprOf, "");
    AddDefaults(cast)
  }

  // ---------------------------------------------------------------------------------------
  // Unparse

  /** `int()` accepts the value `source` holds under each of the first `n` of `keys` it has. */
  predicate ConvertsBefore(source: Dict, keys: seq<string>, n: nat)
    requires n <= |keys|
  {
    forall j :: 0 <= j < n && Get(source, keys[j]).Some? ==> ToInt(Get(source, keys[j]).value).Success?
  }

  /** For each of `keys` present in `target`, in order, set it to `int()` of the value `source`
      holds for it, stopping at the first value `int()` rejects. `target` is the unescaped copy
      of `source`, so the two have the same keys. */
  function CastToInts(target: Dict, source: Dict, keys: seq<string>): (r: Result<Dict, PyError>)
    requires Keys(target) == Keys(source)
    ensures r.Success? <==> ConvertsBefore(source, keys, |keys|)
    ensures r.Success? ==> Keys(r.value) == Keys(target)
    ensures r.Success? ==> forall k {:trigger Get(r.value, k)} ::
      Get(r.value, k) == if k in keys && Get(source, k).Some? then Some(Int(ToInt(Get(source, k).value).value))
                         else Get(target, k)
    ensures r.Failure? ==> exists i :: (0 <= i < |keys| && Get(source, keys[i]).Some? &&
      ToInt(Get(source, keys[i]).value) == Failure(r.error) && ConvertsBefore(source, keys, i))
    decreases |keys|
  {
    if |keys| == 0 then Success(target)
    else
      var key := keys[0];
      assert forall k :: k in keys <==> k == key || k in keys[1..];
      assert forall i :: 0 < i < |keys| ==> keys[i] == keys[1..][i - 1];
      if key !in Keys(target) then
        var r := CastToInts(target, source, keys[1..]);
        ConvertsBeforeStep(source, keys);
        r
      else
        match ToInt(Get(source, key).value)
        case Failure(e) =>
          assert ConvertsBefore(source, keys, 0);
          Failure(e)
        case Success(n) =>
          var r := CastToInts(Set(target, key, Int(n)), source, keys[1..]);
          ConvertsBeforeStep(source, keys);
          r
  }

  /** When the first key converts or is absent, the keys before position `i + 1` convert exactly
      when those of the rest before position `i` do. */
  lemma {:induction false} ConvertsBeforeStep(source: Dict, keys: seq<string>)
    requires |keys| > 0
    requires Get(source, keys[0]).Some? ==> ToInt(Get(source, keys[0]).value).Success?
    ensures forall i :: 0 <= i <= |keys| - 1 ==>
      (ConvertsBefore(source, keys, i + 1) <==> ConvertsBefore(source, keys[1..], i))
  {
    forall i | 0 <= i <= |keys| - 1
      ensures ConvertsBefore(source, keys, i + 1) <==> ConvertsBefore(source, keys[1..], i)
    {
      assert forall j :: 0 <= j < i ==> keys[1..][j] == keys[j + 1];
      if ConvertsBefore(source, keys[1..], i) {
        forall j | 0 <= j < i + 1 && Get(source, keys[j]).Some?
          ensures ToInt(Get(source, keys[j]).value).Success?
        {
          if j > 0 {
            assert keys[j] == keys[1..][j - 1];
          }
        }
      }
    }
  }

  /** `int()` accepts the value `parsed` holds under every integer field it has. */
  predicate CastFieldsConvert(parsed: Dict) {
    ConvertsBefore(parsed, CastFields, |CastFields|)
  }

  /** What a successfully unparsed specification holds under key `k`, stated key by key. */
  function UnparsedValue(parsed: Dict, k: string): Option<Json>
    requires CastFieldsConvert(parsed)
  {
    match Get(parsed, k)
    case Some(v) => Some(if k in CastFields then Int(ToInt(v).value) else Walk.UnescapeJson(v))
    case None => None
  }

  /** `_unparse_specification`: unescape every string and turn the integer fields back into
      integers, reading them from the value before unescaping; fails when `int()` would raise. */
  function Unparse(parsed: Dict): (r: Result<Dict, PyError>)
    ensures r.Success? <==> CastFieldsConvert(parsed)
    ensures r.Success? ==> Keys(r.value) == Keys(parsed)
    ensures r.Success? ==> forall k {:trigger Get(r.value, k)} :: Get(r.value, k) == UnparsedValue(parsed, k)
    ensures r.Failure? ==> exists i :: (0 <= i < |CastFields| && Get(parsed, CastFields[i]).Some? &&
      ToInt(Get(parsed, CastFields[i]).value) == Failure(r.error) && ConvertsBefore(parsed, CastFields, i))
  {
    var unescaped := Walk.MapDict(parsed, Quotes.Unescape);
    CastToInts(unescaped, parsed, CastFields)
  }

  /** The error of unparsing is the one `int()` raises on the first rejected integer field. */
  lemma {:induction false} UnparseFirstError(parsed: Dict, i: nat)
    requires i < |CastFields| && ConvertsBefore(parsed, CastFields, i)
    requires Get(parsed, CastFields[i]).Some? && ToInt(Get(parsed, CastFields[i]).value).Failure?
    ensures Unparse(parsed) == Failure(ToInt(Get(parsed, CastFields[i]).value).error)
  {
    var r := Unparse(parsed);
    assert !CastFieldsConvert(parsed);
    var i' :| 0 <= i' < |CastFields| && Get(parsed, CastFields[i']).Some? &&
      ToInt(Get(parsed, CastFields[i']).value) == Failure(r.error) && ConvertsBefore(parsed, CastFields, i');
    // a rejected field before i contradicts ConvertsBefore(parsed, CastFields, i), one after i
    // contradicts ConvertsBefore(parsed, CastFields, i'), so i' == i
    assert i' == i;
  }

  // ---------------------------------------------------------------------------------------
  // The round trip

  /** Every integer field `spec` has holds an integer. */
  predicate CastFieldsAreInts(spec: Dict) {
    forall i :: 0 <= i < |CastFields| && Get(spec, CastFields[i]).Some? ==> Get(spec, CastFields[i]).value.Int?
  }

  /** Every string anywhere in `spec` satisfies `p`. */
  predicate DictStrings(spec: Dict, p: string -> bool) {
    forall i :: 0 <= i < |spec| ==> Walk.AllStrings(spec[i].value, p)
  }

  lemma {:induction false} GetStrings(spec: Dict, k: string, p: string -> bool)
    requires DictStrings(spec, p)
    requires Get(spec, k).Some?
    ensures Walk.AllStrings(Get(spec, k).value, p)
  {
    if spec[0].key != k {
      assert DictStrings(spec[1..], p) by {
        forall i | 0 <= i < |spec[1..]| ensures Walk.AllStrings(spec[1..][i].value, p) {
          assert spec[1..][i] == spec[i + 1];
        }
      }
      GetStrings(spec[1..], k, p);
    }
  }

  /** The round trip on one integer field, given what parsing wrote under it. */
  lemma {:induction false} RoundTripCastKey(spec: Dict, parsed: Dict, reprOf: Json -> string, k: string)
    requires CastFieldsAreInts(spec)
    requires CastFieldsConvert(parsed)
    requires k in CastFields && Get(spec, k).Some?
    requires Get(parsed, k) == ParsedValue(spec, k, reprOf)
    ensures UnparsedValue(parsed, k) == Get(AddDefaults(spec), k)
  {
    var v := Get(spec, k).value;
    var i :| 0 <= i < |CastFields| && CastFields[i] == k;
    assert v.Int?;
    assert Get(parsed, k) == Some(Str(ToStr(v, reprOf)));
    IntFieldRoundTrip(v.n, reprOf);
    assert k != "build" && k != "run";
    assert Get(AddDefaults(spec), k) == Some(v);
  }

  /** The round trip on one key of `spec` other than the integer fields. */
  lemma {:induction false} RoundTripOtherKey(spec: Dict, parsed: Dict, reprOf: Json -> string, k: string)
    requires DictStrings(spec, Quotes.NoTripleQuote)
    requires CastFieldsConvert(parsed)
    requires k !in CastFields && Get(spec, k).Some?
    requires Get(parsed, k) == ParsedValue(spec, k, reprOf)
    ensures UnparsedValue(parsed, k) == Get(AddDefaults(spec), k)
  {
    var v := Get(spec, k).value;
    assert Get(parsed, k) == Some(Walk.EscapeJson(v));
    GetStrings(spec, k, Quotes.NoTripleQuote);
    Walk.JsonRoundTrip(v);
    assert UnparsedValue(parsed, k) == Some(v);
  }

  /** The round trip on a key `spec` lacks: only `build` and `run` appear, as empty dicts. */
  lemma {:induction false} RoundTripAbsentKey(spec: Dict, parsed: Dict, reprOf: Json -> string, k: string)
    requires CastFieldsConvert(parsed)
    requires Get(spec, k).None?
    requires Get(parsed, k) == ParsedValue(spec, k, reprOf)
    ensures UnparsedValue(parsed, k) == Get(AddDefaults(spec), k)
  {
    if k == "build" || k == "run" {
      assert k !in CastFields;
      assert Walk.UnescapeJson(Object([])) == Object([]);
    }
  }

  /** Parsing writes integer fields that `int()` reads back. */
  lemma {:induction false} ParsedIntsConvert(spec: Dict, reprOf: Json -> string)
    requires CastFieldsAreInts(spec)
    ensures CastFieldsConvert(Parse(spec, reprOf))
  {
    var parsed := Parse(spec, reprOf);
    forall i | 0 <= i < |CastFields| && Get(parsed, CastFields[i]).Some?
      ensures ToInt(Get(parsed, CastFields[i]).value).Success?
    {
      ParsedIntConverts(spec, parsed, reprOf, i);
    }
  }

  lemma {:induction false} ParsedIntConverts(spec: Dict, parsed: Dict, reprOf: Json -> string, i: nat)
    requires CastFieldsAreInts(spec)
    requires i < |CastFields| && Get(parsed, CastFields[i]).Some?
    requires Get(parsed, CastFields[i]) == ParsedValue(spec, CastFields[i], reprOf)
    ensures ToInt(Get(parsed, CastFields[i]).value).Success?
  {
    var k := CastFields[i];
    assert k in CastFields && k != "build" && k != "run";
    var v := Get(spec, k).value;
    assert Get(parsed, k) == Some(Str(ToStr(v, reprOf)));
    IntFieldRoundTrip(v.n, reprOf);
  }

  /** Unparsing a parsed specification gives the original back, plus the empty `build` and `run`
      that parsing added, whenever its integer fields hold integers and none of its strings has a
      run of three quotes. */
  lemma {:induction false} SpecRoundTrip(spec: Dict, reprOf: Json -> string)
    requires DistinctKeys(spec)
    requires CastFieldsAreInts(spec)
    requires DictStrings(spec, Quotes.NoTripleQuote)
    ensures Unparse(Parse(spec, reprOf)) == Success(AddDefaults(spec))
  {
    var parsed := Parse(spec, reprOf);
    ParsedIntsConvert(spec, reprOf);
    RoundTripDict(spec, parsed, Unparse(parsed).value, reprOf);
  }

  /** The round trip assembled key by key: `r` agrees with the defaults-extended `spec` everywhere. */
  lemma {:induction false} RoundTripDict(spec: Dict, parsed: Dict, r: Dict, reprOf: Json -> string)
    requires DistinctKeys(spec)
    requires CastFieldsAreInts(spec)
    requires DictStrings(spec, Quotes.NoTripleQuote)
    requires CastFieldsConvert(parsed)
    requires forall k {:trigger Get(parsed, k)} :: Get(parsed, k) == ParsedValue(spec, k, reprOf)
    requires forall k {:trigger Get(r, k)} :: Get(r, k) == UnparsedValue(parsed, k)
    requires Keys(r) == KeysWithDefaults(spec)
    ensures r == AddDefaults(spec)
  {
    forall k
      ensures Get(r, k) == Get(AddDefaults(spec), k)
    {
      if Get(spec, k).None? {
        RoundTripAbsentKey(spec, parsed, reprOf, k);
      } else if k in CastFields {
        RoundTripCastKey(spec, parsed, reprOf, k);
      } else {
        RoundTripOtherKey(spec, parsed, reprOf, k);
      }
    }
    AddDefaultsKeepsDistinct(spec);
    DictExtensionality(AddDefaults(spec), r);
  }
}
