/**
  The Python built-in operations the specification helpers rely on, over `Json` values:
  truthiness, `in`, subscription, `str()` and `int()`.
 */
module Builtins {
  import opened Wrappers
  import opened Document
  import Decimal

  /** The exceptions the modelled helpers can raise. */
  datatype PyError =
    | TypeError               // an operation applied to a value of the wrong type
    | AttributeError          // `.get` called on a value that is not a dict
    | ValueError(text: string) // `int()` of a string that is not an integer literal
    | KeyError                // `d[key]` for a dict `d` that lacks `key`

  /** Python's truth value: `None`, `False`, `0` and empty strings, lists and dicts are false. */
  predicate Truthy(v: Json) {
    match v
    case Null => false
    case Bool(b) => b
    case Int(n) => n != 0
    case Str(s) => |s| > 0
    case List(xs) => |xs| > 0
    case Object(fs) => |fs| > 0
  }

  /** `x or default`, where `x` is the result of a `dict.get` (missing reads as `None`). */
  function OrDefault(x: Option<Json>, default: Json): Json {
    if x.Some? && Truthy(x.value) then x.value else default
  }

  predicate IsPrefix(p: string, s: string) {
    |p| <= |s| && s[..|p|] == p
  }

  /** `p in s` on two strings, searched from the front: `p` is a prefix of `s` or of one of its
      suffixes. */
  predicate IsSubstring(p: string, s: string) {
    IsPrefix(p, s) || (|s| > 0 && IsSubstring(p, s[1..]))
  }

  /** `p` occurs in `s` starting at index `i`. */
  predicate OccursAt(p: string, s: string, i: nat) {
    i + |p| <= |s| && s[i..i + |p|] == p
  }

  /** The search finds `p` exactly when `p` occurs at some index of `s`. */
  lemma {:induction false} SubstringOccurs(p: string, s: string)
    ensures IsSubstring(p, s) <==> exists i: nat :: OccursAt(p, s, i)
  {
    if IsPrefix(p, s) {
      assert OccursAt(p, s, 0);
    } else if |s| > 0 {
      SubstringOccurs(p, s[1..]);
      if IsSubstring(p, s[1..]) {
        var i: nat :| OccursAt(p, s[1..], i);
        assert s[1..][i..i + |p|] == s[i + 1..i + 1 + |p|];
        assert OccursAt(p, s, i + 1);
      }
      if i: nat :| OccursAt(p, s, i) {
        assert i != 0;
        assert s[i..i + |p|] == s[1..][i - 1..i - 1 + |p|];
        assert OccursAt(p, s[1..], i - 1);
      }
    }
  }

  /** `key in container` for a string `key`: key membership for a dict, substring search for a
      string, element membership for a list, and a `TypeError` for anything else. */
  function In(key: string, container: Json): (r: Result<bool, PyError>)
    ensures r.Success? <==> container.Object? || container.Str? || container.List?
    ensures container.Object? ==> (r == Success(true) <==> Get(container.fields, key).Some?)
    ensures container.Str? ==> (r == Success(true) <==> exists i: nat :: OccursAt(key, container.s, i))
    ensures container.List? ==>
      (r == Success(true) <==> exists i :: 0 <= i < |container.items| && container.items[i] == Str(key))
    ensures r.Failure? ==> r.error == TypeError
  {
    match container
    case Object(fs) => Success(key in Keys(fs))
    case Str(s) => SubstringOccurs(key, s); Success(IsSubstring(key, s))
    case List(xs) => Success(Str(key) in xs)
    case _ => Failure(TypeError)
  }

  /** `container[key]` for a string `key`: the value of a dict, a `KeyError` when the dict lacks
      the key; a string or list cannot be indexed by a string, and neither can any other scalar. */
  function GetItem(container: Json, key: string): (r: Result<Json, PyError>)
    ensures r.Success? <==> container.Object? && In(key, container) == Success(true)
    ensures r.Success? ==> Get(container.fields, key) == Some(r.value)
    ensures r.Failure? ==> r.error == if container.Object? then KeyError else TypeError
  {
    match container
    case Object(fs) =>
      (match Get(fs, key)
       case Some(v) => Success(v)
       case None => Failure(KeyError))
    case _ => Failure(TypeError)
  }

  /** `str(v)`. Python renders a list or dict with `repr`, which this model takes as `reprOf`. */
  function ToStr(v: Json, reprOf: Json -> string): (r: string)
    ensures v.Str? ==> r == v.s
    ensures v.Int? ==> Decimal.IsCanonical(r)
    ensures v.Null? || v.Bool? ==> !Decimal.IsIntLiteral(r)
  {
    match v
    case Null => "None"
    case Bool(b) => if b then "True" else "False"
    case Int(n) => Decimal.IntToStringRoundTrip(n); Decimal.IntToString(n)
    case Str(s) => s
    case _ => reprOf(v)
  }

  /** `int(v)`: integers pass, booleans become 0 or 1, strings are parsed, the rest is a
      `TypeError`. */
  function ToInt(v: Json): (r: Result<int, PyError>)
    ensures r.Success? <==> v.Int? || v.Bool? || (v.Str? && Decimal.IsIntLiteral(v.s))
    ensures v.Int? ==> r == Success(v.n)
    ensures v.Str? && Decimal.IsCanonical(v.s) ==> r.Success? && Decimal.IntToString(r.value) == v.s
    ensures r.Failure? ==> r.error == if v.Str? then ValueError(v.s) else TypeError
  {
    match v
    case Int(n) => Success(n)
    case Bool(b) => Success(if b then 1 else 0)
    case Str(s) =>
      (match Decimal.ParseInt(s)
       case Some(n) => Decimal.IntToStringExactly(n, s); Success(n)
       case None => Failure(ValueError(s)))
    case _ => Failure(TypeError)
  }

  /** `int(str(v)) == v` for every integer field value. */
  lemma {:induction false} IntFieldRoundTrip(n: int, reprOf: Json -> string)
    ensures ToInt(Str(ToStr(Int(n), reprOf))) == Success(n)
  {
    Decimal.IntToStringRoundTrip(n);
  }
}
