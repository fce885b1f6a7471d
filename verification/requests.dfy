/**
  Resource requests of a build or run section (amun/api_v1.py): the default CPU and memory
  requests, and the hardware template parameters derived from `requests.hardware`.
 */
module Requests {
  import opened Wrappers
  import opened Document
  import opened Builtins

  /** `_DEFAULT_REQUESTS`. */
  const DefaultRequests: Dict := [Entry("cpu", Str("500m")), Entry("memory", Str("256Mi"))]

  lemma {:induction false} DefaultRequestValues()
    ensures Get(DefaultRequests, "cpu") == Some(Str("500m"))
    ensures Get(DefaultRequests, "memory") == Some(Str("256Mi"))
  {
    assert DefaultRequests[1..] == [Entry("memory", Str("256Mi"))];
  }

  /** `req[name] = req.get(name) or default`: keep a truthy value, otherwise store `default`. */
  function FillDefault(req: Dict, name: string, default: Json): (r: Dict)
    ensures Get(r, name) == Some(if name in Keys(req) && Truthy(Get(req, name).value) then Get(req, name).value else default)
    ensures forall k {:trigger Get(r, k)} :: k != name ==> Get(r, k) == Get(req, k)
    ensures Keys(r) == Keys(req) + (if name in Keys(req) then [] else [name])
  {
    Set(req, name, OrDefault(Get(req, name), default))
  }

  /** The `requests` dict of a section before adjustment: empty when the key is missing. */
  function RequestsBefore(d: Dict): Json {
    if "requests" in Keys(d) then Get(d, "requests").value else Object([])
  }

  /** `_adjust_default_requests`: make sure `requests` exists and that its `cpu` and `memory`
      hold a truthy value, falling back to the defaults. Fails with `AttributeError` when
      `requests` holds something other than a dict. */
  function AdjustDefaultRequests(d: Dict): (r: Result<Dict, PyError>)
    ensures r.Success? <==> RequestsBefore(d).Object?
    ensures r.Failure? ==> r.error == AttributeError
    ensures r.Success? ==> Keys(r.value) == Keys(d) + (if "requests" in Keys(d) then [] else ["requests"])
    ensures r.Success? ==> forall k {:trigger Get(r.value, k)} :: k != "requests" ==> Get(r.value, k) == Get(d, k)
    ensures r.Success? ==> Get(r.value, "requests") == Some(Object(AdjustedRequests(RequestsBefore(d).fields)))
  {
    var d1 := EnsureRequests(d);
    match Get(d1, "requests").value
    case Object(req) =>
      Success(Set(d1, "requests", Object(AdjustedRequests(req))))
    case _ => Failure(AttributeError)
  }

  /** `if "requests" not in dict_: dict_["requests"] = {}`. */
  function EnsureRequests(d: Dict): (r: Dict)
    ensures Get(r, "requests") == Some(RequestsBefore(d))
    ensures Keys(r) == Keys(d) + (if "requests" in Keys(d) then [] else ["requests"])
    ensures forall k {:trigger Get(r, k)} :: k != "requests" ==> Get(r, k) == Get(d, k)
  {
    if "requests" in Keys(d) then d else Set(d, "requests", Object([]))
  }

  /** The two assignments of `_adjust_default_requests` on the `requests` dict itself. */
  function AdjustedRequests(req: Dict): (r: Dict)
    ensures Get(r, "cpu") == Some(
      if "cpu" in Keys(req) && Truthy(Get(req, "cpu").value) then Get(req, "cpu").value else Str("500m"))
    ensures Get(r, "memory") == Some(
      if "memory" in Keys(req) && Truthy(Get(req, "memory").value) then Get(req, "memory").value else Str("256Mi"))
    ensures forall k {:trigger Get(r, k)} :: k != "cpu" && k != "memory" ==> Get(r, k) == Get(req, k)
    ensures Keys(r) == Keys(req) + (if "cpu" in Keys(req) then [] else ["cpu"])
      + (if "memory" in Keys(req) then [] else ["memory"])
  {
    DefaultRequestValues();
    var withCpu := FillDefault(req, "cpu", Get(DefaultRequests, "cpu").value);
    assert "memory" in Keys(withCpu) <==> "memory" in Keys(req);
    FillDefault(withCpu, "memory", Get(DefaultRequests, "memory").value)
  }

  // ---------------------------------------------------------------------------------------
  // Hardware template parameters

  /** Which field of `requests.hardware` feeds which template parameter. */
  const HardwareParameters: seq<(string, string)> := [
    ("cpu_family", "CPU_FAMILY"),
    ("cpu_model", "CPU_MODEL"),
    ("physical_cpus", "PHYSICAL_CPUS"),
    ("processor", "PROCESSOR")
  ]

  /** The hardware field a template parameter is read from, if it is one of them. */
  function SourceField(names: seq<(string, string)>, parameter: string): (r: Option<string>)
    ensures r.Some? <==> exists i :: 0 <= i < |names| && names[i].1 == parameter
  {
    if |names| == 0 then None
    else if names[0].1 == parameter then Some(names[0].0)
    else SourceField(names[1..], parameter)
  }

  /** No template parameter is named twice. */
  predicate DistinctParameters(names: seq<(string, string)>) {
    forall i, j :: 0 <= i < j < |names| ==> names[i].1 != names[j].1
  }

  /** For each `(field, parameter)` in order: when `field in hw`, set `parameter` to `hw[field]`.
      On a dict `hw` this copies exactly the fields present. */
  function CopyHardware(hw: Json, names: seq<(string, string)>, acc: Dict): (r: Result<Dict, PyError>)
    requires DistinctParameters(names)
    ensures hw.Object? ==> r.Success?
    ensures hw.Object? ==> forall p {:trigger Get(r.value, p)} :: (Get(r.value, p) ==
      match SourceField(names, p)
      case Some(field) => if field in Keys(hw.fields) then Get(hw.fields, field) else Get(acc, p)
      case None => Get(acc, p))
    ensures hw.Null? || hw.Bool? || hw.Int? ==> |names| > 0 ==> r == Failure(TypeError)
    ensures hw.Str? || hw.List? ==>
      (r.Failure? <==> exists i :: 0 <= i < |names| && In(names[i].0, hw) == Success(true))
    ensures hw.Str? || hw.List? ==> r.Success? ==> r.value == acc
    ensures hw.Str? || hw.List? ==> r.Failure? ==> r.error == TypeError
    decreases |names|
  {
    if |names| == 0 then Success(acc)
    else
      var (field, parameter) := names[0];
      assert forall i :: 0 < i < |names| ==> names[i] == names[1..][i - 1];
      assert SourceField(names[1..], parameter).None? by {
        forall i | 0 <= i < |names[1..]| ensures names[1..][i].1 != parameter {
          assert names[1..][i] == names[i + 1];
        }
      }
      assert DistinctParameters(names[1..]) by {
        forall i, j | 0 <= i < j < |names[1..]| ensures names[1..][i].1 != names[1..][j].1 {
          assert names[1..][i] == names[i + 1] && names[1..][j] == names[j + 1];
        }
      }
      var present :- In(field, hw);
      if !present then CopyHardware(hw, names[1..], acc)
      else
        var value :- GetItem(hw, field);
        CopyHardware(hw, names[1..], Set(acc, parameter, value))
  }

  /** `_construct_parameters_dict`: the template parameters taken from `requests.hardware`, and
      whether the hardware template is to be used. */
  function ConstructParameters(spec: Dict): (r: Result<(Dict, bool), PyError>)
    ensures
      var requests := Get(spec, "requests").GetOr(Object([]));
      && (r.Success? ==> (r.value.1 <==> requests.Object? && "hardware" in Keys(requests.fields)))
      && (requests.Object? && "hardware" !in Keys(requests.fields) ==> r == Success(([], false)))
      && (requests.Null? || requests.Bool? || requests.Int? ==> r == Failure(TypeError))
      && (requests.Str? ==>
            r == if IsSubstring("hardware", requests.s) then Failure(AttributeError) else Success(([], false)))
      && (requests.List? ==>
            r == if Str("hardware") in requests.items then Failure(AttributeError) else Success(([], false)))
    ensures
      var requests := Get(spec, "requests").GetOr(Object([]));
      requests.Object? && "hardware" in Keys(requests.fields) && Get(requests.fields, "hardware").value.Object? ==>
        var hw := Get(requests.fields, "hardware").value.fields;
        && r.Success?
        && forall p {:trigger Get(r.value.0, p)} :: Get(r.value.0, p) ==
             match SourceField(HardwareParameters, p)
             case Some(field) => Get(hw, field)
             case None => None
    ensures
      var requests := Get(spec, "requests").GetOr(Object([]));
      requests.Object? && "hardware" in Keys(requests.fields) && !Get(requests.fields, "hardware").value.Object? ==>
        var hw := Get(requests.fields, "hardware").value;
        && (hw.Null? || hw.Bool? || hw.Int? ==> r == Failure(TypeError))
        && (hw.Str? || hw.List? ==>
              && (r.Failure? <==> exists i :: 0 <= i < |HardwareParameters| && In(HardwareParameters[i].0, hw) == Success(true))
              && (r.Success? ==> r.value == ([], true))
              && (r.Failure? ==> r.error == TypeError))
  {
    var requests := Get(spec, "requests").GetOr(Object([]));
    var useHardware :- In("hardware", requests);
    if !useHardware then Success(([], false))
    else if !requests.Object? then Failure(AttributeError)
    else
      var parameters :- HardwareTemplateParameters(Get(requests.fields, "hardware").value);
      Success((parameters, true))
  }

  /** The four conditional assignments of `_construct_parameters_dict`, starting from `{}`. */
  function HardwareTemplateParameters(hw: Json): (r: Result<Dict, PyError>)
    ensures hw.Object? ==> r.Success? && forall p {:trigger Get(r.value, p)} :: (Get(r.value, p) ==
      match SourceField(HardwareParameters, p)
      case Some(field) => Get(hw.fields, field)
      case None => None)
    ensures hw.Null? || hw.Bool? || hw.Int? ==> r == Failure(TypeError)
    ensures hw.Str? || hw.List? ==>
      && (r.Failure? <==> exists i :: 0 <= i < |HardwareParameters| && In(HardwareParameters[i].0, hw) == Success(true))
      && (r.Success? ==> r.value == [])
      && (r.Failure? ==> r.error == TypeError)
  {
    assert DistinctParameters(HardwareParameters);
    CopyHardware(hw, HardwareParameters, [])
  }
}
