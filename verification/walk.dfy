/**
  The recursive walk of `_escape_single_quotes` / `_unescape_single_quotes` (amun/api_v1.py):
  descend through mappings and lists, rewrite every string leaf, leave keys and every other
  scalar alone.
 */
module Walk {
  import opened Wrappers
  import opened Document
  import Quotes

  /** `a` and `b` are the same document up to the text of their string leaves. */
  predicate SameShape(a: Json, b: Json)
    decreases a
  {
    match a
    case Str(_) => b.Str?
    case List(xs) =>
      && b.List? && |b.items| == |xs|
      && forall i :: 0 <= i < |xs| ==> SameShape(xs[i], b.items[i])
    case Object(fs) =>
      && b.Object? && |b.fields| == |fs|
      && forall i :: 0 <= i < |fs| ==> fs[i].key == b.fields[i].key && SameShape(fs[i].value, b.fields[i].value)
    case _ => b == a
  }

  /** Every string leaf of `j` satisfies `p`. */
  predicate AllStrings(j: Json, p: string -> bool)
    decreases j
  {
    match j
    case Str(s) => p(s)
    case List(xs) => forall i :: 0 <= i < |xs| ==> AllStrings(xs[i], p)
    case Object(fs) => forall i :: 0 <= i < |fs| ==> AllStrings(fs[i].value, p)
    case _ => true
  }

  /** Rewrite every string leaf of `j` with `f`. */
  function MapStrings(j: Json, f: string -> string): (r: Json)
    ensures SameShape(j, r)
    decreases j
  {
    match j
    case Str(s) => Str(f(s))
    case List(xs) =>
      List(seq(|xs|, i requires 0 <= i < |xs| => MapStrings(xs[i], f)))
    case Object(fs) =>
      Object(seq(|fs|, i requires 0 <= i < |fs| => Entry(fs[i].key, MapStrings(fs[i].value, f))))
    case _ => j
  }

  /** The walk applied to a top-level dict: same keys, each value walked. */
  function MapDict(d: Dict, f: string -> string): (r: Dict)
    ensures Keys(r) == Keys(d)
    ensures forall k {:trigger Get(r, k)} :: Get(r, k) == MapOption(Get(d, k), f)
  {
    var r := MapStrings(Object(d), f).fields;
    MapDictGet(d, r, f);
    r
  }

  /** The walk applied to a value read from a dict, if there is one. */
  function MapOption(v: Option<Json>, f: string -> string): Option<Json> {
    match v
    case Some(x) => Some(MapStrings(x, f))
    case None => None
  }

  lemma {:induction false} MapDictGet(d: Dict, r: Dict, f: string -> string)
    requires |r| == |d|
    requires forall i :: 0 <= i < |d| ==> r[i] == Entry(d[i].key, MapStrings(d[i].value, f))
    ensures Keys(r) == Keys(d)
    ensures forall k :: Get(r, k) == MapOption(Get(d, k), f)
  {
    if |d| > 0 {
      MapDictGet(d[1..], r[1..], f);
      assert Keys(r) == [r[0].key] + Keys(r[1..]);
    }
  }

  /** Escape every string leaf (`_escape_single_quotes`). */
  function EscapeJson(j: Json): (r: Json)
    ensures SameShape(j, r)
    ensures j.Str? ==> r == Str(Quotes.Escape(j.s))
  {
    MapStrings(j, Quotes.Escape)
  }

  /** Unescape every string leaf (`_unescape_single_quotes`). */
  function UnescapeJson(j: Json): (r: Json)
    ensures SameShape(j, r)
    ensures j.Str? ==> r == Str(Quotes.Unescape(j.s))
  {
    MapStrings(j, Quotes.Unescape)
  }

  /** Unescaping undoes escaping on every document whose strings have no run of three quotes. */
  lemma {:induction false} JsonRoundTrip(j: Json)
    requires AllStrings(j, Quotes.NoTripleQuote)
    ensures UnescapeJson(EscapeJson(j)) == j
    decreases j
  {
    match j
    case Str(s) =>
      Quotes.EscapeRoundTrip(s);
    case List(xs) =>
      var ys := UnescapeJson(EscapeJson(j)).items;
      forall i | 0 <= i < |xs|
        ensures ys[i] == xs[i]
      {
        JsonRoundTrip(xs[i]);
      }
    case Object(fs) =>
      var gs := UnescapeJson(EscapeJson(j)).fields;
      forall i | 0 <= i < |fs|
        ensures gs[i] == fs[i]
      {
        JsonRoundTrip(fs[i].value);
      }
    case _ =>
  }

  /** A document whose strings hold no quote escapes to itself. */
  lemma {:induction false} EscapeJsonNoQuote(j: Json)
    requires AllStrings(j, Quotes.NoQuote)
    ensures EscapeJson(j) == j
    decreases j
  {
    match j
    case Str(s) =>
      Quotes.EscapeNoQuote(s);
    case List(xs) =>
      var ys := EscapeJson(j).items;
      forall i | 0 <= i < |xs|
        ensures ys[i] == xs[i]
      {
        EscapeJsonNoQuote(xs[i]);
      }
    case Object(fs) =>
      var gs := EscapeJson(j).fields;
      forall i | 0 <= i < |fs|
        ensures gs[i] == fs[i]
      {
        EscapeJsonNoQuote(fs[i].value);
      }
    case _ =>
  }

  /** After escaping, no string leaf anywhere in the document holds a lone quote. */
  lemma {:induction false} EscapeJsonNoLoneQuote(j: Json)
    ensures AllStrings(EscapeJson(j), Quotes.NoLoneQuote)
    decreases j
  {
    match j
    case Str(s) =>
      Quotes.EscapeLeavesNoLoneQuote(s);
    case List(xs) =>
      var ys := EscapeJson(j).items;
      forall i | 0 <= i < |xs|
        ensures AllStrings(ys[i], Quotes.NoLoneQuote)
      {
        EscapeJsonNoLoneQuote(xs[i]);
      }
    case Object(fs) =>
      var gs := EscapeJson(j).fields;
      forall i | 0 <= i < |fs|
        ensures AllStrings(gs[i].value, Quotes.NoLoneQuote)
      {
        EscapeJsonNoLoneQuote(fs[i].value);
      }
    case _ =>
  }
}
