/** Worked instances of the specification codec on small documents. */
module Examples {
  import opened Wrappers
  import opened Document
  import opened Builtins
  import Quotes
  import Walk
  import SpecCodec

  /** A lone quote is doubled, and the doubled one unescapes back. */
  lemma {:induction false} ApostropheExample()
    ensures Quotes.Escape("it's") == "it''s"
    ensures Quotes.Unescape("it''s") == "it's"
  {
    assert "it's"[1..] == "t's" && "t's"[1..] == "'s" && "'s"[1..] == "s" && "s"[1..] == "";
    assert Quotes.Escape("s") == "s";
    assert Quotes.Escape("'s") == "''s";
    assert Quotes.Escape("t's") == "t''s";
    assert "it''s"[1..] == "t''s" && "t''s"[1..] == "''s" && "''s"[2..] == "s";
    assert Quotes.Unescape("s") == "s";
    assert Quotes.Unescape("''s") == "'s";
    assert Quotes.Unescape("t''s") == "t's";
  }

  /** Three quotes escape to four, which unescape to two: the round trip needs no `'''`. */
  lemma {:induction false} TripleQuoteCounterexample()
    ensures Quotes.Escape("'''") == "''''"
    ensures Quotes.Unescape(Quotes.Escape("'''")) == "''"
    ensures !Quotes.NoTripleQuote("'''")
  {
    assert "'''"[1..] == "''" && "''"[1..] == "'";
    assert Quotes.Escape("'") == "''";
    assert Quotes.Escape("''") == "'''";
    assert "''''"[2..] == "''";
    assert Quotes.Unescape("''") == "'";
  }

  /** Escaping is not idempotent: escaping twice turns a lone quote into three. */
  lemma {:induction false} EscapeTwice()
    ensures Quotes.Escape(Quotes.Escape("'")) == "'''"
  {
    assert Quotes.Escape("'") == "''";
    assert "''"[1..] == "'";
  }

  /** The value `_parse_specification` leaves under each key of `{"note": "it's"}`. */
  lemma {:induction false} ParseNoteValue(reprOf: Json -> string, k: string)
    ensures SpecCodec.ParsedValue([Entry("note", Str("it's"))], k, reprOf)
      == Get([Entry("note", Str("it''s")), Entry("build", Object([])), Entry("run", Object([]))], k)
  {
    var spec := [Entry("note", Str("it's"))];
    if k == "note" {
      assert Get(spec, k) == Some(Str("it's"));
      assert "note" !in SpecCodec.CastFields;
      ApostropheExample();
      assert Walk.EscapeJson(Str("it's")) == Str("it''s");
    } else {
      assert Get(spec[1..], k) == None;
    }
  }

  /** `{"note": "it's"}` parses to `{"note": "it''s", "build": {}, "run": {}}`. */
  lemma {:induction false} ParseNoteExample(reprOf: Json -> string)
    ensures SpecCodec.Parse([Entry("note", Str("it's"))], reprOf)
      == [Entry("note", Str("it''s")), Entry("build", Object([])), Entry("run", Object([]))]
  {
    var spec := [Entry("note", Str("it's"))];
    var expected := [Entry("note", Str("it''s")), Entry("build", Object([])), Entry("run", Object([]))];
    assert Keys(spec) == ["note"];
    assert Keys(expected) == ["note", "build", "run"];
    forall k ensures SpecCodec.ParsedValue(spec, k, reprOf) == Get(expected, k) {
      ParseNoteValue(reprOf, k);
    }
    ParseIs(spec, expected, reprOf);
  }

  /** A dict with distinct keys that holds, key by key and in order, what parsing promises is the
      parsed specification. */
  lemma {:induction false} ParseIs(spec: Dict, expected: Dict, reprOf: Json -> string)
    requires DistinctKeys(expected)
    requires Keys(expected) == SpecCodec.KeysWithDefaults(spec)
    requires forall k {:trigger Get(expected, k)} :: SpecCodec.ParsedValue(spec, k, reprOf) == Get(expected, k)
    ensures SpecCodec.Parse(spec, reprOf) == expected
  {
    DictExtensionality(expected, SpecCodec.Parse(spec, reprOf));
  }

  /** `{"note": "it''s"}` unparses to `{"note": "it's"}`. */
  lemma {:induction false} UnparseNoteExample()
    ensures SpecCodec.Unparse([Entry("note", Str("it''s"))]) == Success([Entry("note", Str("it's"))])
  {
    var parsed := [Entry("note", Str("it''s"))];
    var expected := [Entry("note", Str("it's"))];
    assert Keys(parsed) == ["note"];
    assert SpecCodec.CastFieldsConvert(parsed) by {
      forall i | 0 <= i < |SpecCodec.CastFields| ensures Get(parsed, SpecCodec.CastFields[i]) == None {
        assert Get(parsed[1..], SpecCodec.CastFields[i]) == None;
      }
    }
    var r := SpecCodec.Unparse(parsed).value;
    forall k ensures Get(expected, k) == Get(r, k) {
      assert Get(r, k) == SpecCodec.UnparsedValue(parsed, k);
      if k == "note" {
        assert "note" !in SpecCodec.CastFields;
        ApostropheExample();
        assert Walk.UnescapeJson(Str("it''s")) == Str("it's");
      } else {
        assert Get(parsed[1..], k) == None;
      }
    }
    DictExtensionality(expected, r);
  }

  /** With two rejected integer fields, unparsing raises the error of the first in field order. */
  lemma {:induction false} UnparseReportsFirstRejectedField()
    ensures SpecCodec.Unparse([Entry("batch_size", Null), Entry("allowed_failures", Str("abc"))])
      == Failure(ValueError("abc"))
  {
    var parsed := [Entry("batch_size", Null), Entry("allowed_failures", Str("abc"))];
    assert Get(parsed, SpecCodec.CastFields[0]) == Some(Str("abc"));
    SpecCodec.UnparseFirstError(parsed, 0);
  }

  /** `{"allowed_failures": "abc"}` cannot be unparsed: `int("abc")` raises `ValueError`. */
  lemma {:induction false} UnparseRejectsNonNumeric()
    ensures SpecCodec.Unparse([Entry("allowed_failures", Str("abc"))]) == Failure(ValueError("abc"))
  {
  }
}
