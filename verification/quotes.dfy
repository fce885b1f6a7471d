/**
  Single-quote escaping of string leaves (amun/api_v1.py, `_escape_single_quotes` and
  `_unescape_single_quotes`).

  Escaping is the regular-expression substitution `'(?!')` -> `''`: a quote is doubled exactly
  when the character after it in the ORIGINAL string is not a quote. The lookahead consumes
  nothing, so each position is decided on its own, and a run of k quotes becomes k + 1 quotes.
  Unescaping replaces `''` by `'`, scanning left to right without overlaps, so a run of m
  quotes becomes ceil(m / 2) quotes. The two undo each other exactly on the strings that have
  no run of three or more quotes.
 */
module Quotes {

  const Quote: char := '\''

  /** `re.sub(r"'(?!')", "''", s)`. */
  function Escape(s: string): (r: string)
    ensures |s| <= |r| <= 2 * |s|
    ensures |s| > 0 ==> r[0] == s[0]
  {
    if |s| == 0 then []
    else if s[0] == Quote && (|s| == 1 || s[1] != Quote) then [Quote, Quote] + Escape(s[1..])
    else [s[0]] + Escape(s[1..])
  }

  /** `re.sub(r"''", "'", s)`. */
  function Unescape(s: string): (r: string)
    ensures |r| <= |s|
  {
    if |s| == 0 then []
    else if |s| >= 2 && s[0] == Quote && s[1] == Quote then [Quote] + Unescape(s[2..])
    else [s[0]] + Unescape(s[1..])
  }

  /** `s` holds no quote at all. */
  predicate NoQuote(s: string) {
    forall i :: 0 <= i < |s| ==> s[i] != Quote
  }

  /** `s` has no substring `'''`, i.e. every run of quotes in it is one or two long. */
  predicate NoTripleQuote(s: string) {
    |s| < 3 || (!(s[0] == Quote && s[1] == Quote && s[2] == Quote) && NoTripleQuote(s[1..]))
  }

  /** The quote at position `i` of `s` has no quote on either side. */
  predicate LoneQuoteAt(s: string, i: nat)
    requires i < |s|
  {
    s[i] == Quote && (i == 0 || s[i - 1] != Quote) && (i + 1 == |s| || s[i + 1] != Quote)
  }

  /** Every maximal run of quotes in `s` is at least two long. */
  predicate NoLoneQuote(s: string) {
    forall i :: 0 <= i < |s| ==> !LoneQuoteAt(s, i)
  }

  /** `s` with its quotes deleted: the part of a string neither direction touches. */
  function WithoutQuotes(s: string): (r: string)
    ensures NoQuote(r)
    ensures |r| <= |s|
  {
    if |s| == 0 then []
    else if s[0] == Quote then WithoutQuotes(s[1..])
    else [s[0]] + WithoutQuotes(s[1..])
  }

  // ---------------------------------------------------------------------------------------
  // Escape, position by position

  /** What the substitution writes for position `i` of the original string `s`. */
  function Replacement(s: string, i: nat): string
    requires i < |s|
  {
    if s[i] == Quote && (i + 1 == |s| || s[i + 1] != Quote) then [Quote, Quote] else [s[i]]
  }

  /** The replacements for positions `i`, `i + 1`, ..., `|s| - 1`, concatenated. */
  function Replacements(s: string, i: nat): string
    requires i <= |s|
    decreases |s| - i
  {
    if i == |s| then [] else Replacement(s, i) + Replacements(s, i + 1)
  }

  /** Escape rewrites every position independently, looking only at the original next character. */
  lemma {:induction false} EscapeIsPositionwise(s: string)
    ensures Escape(s) == Replacements(s, 0)
  {
    EscapeSuffix(s, 0);
    assert s[0..] == s;
  }

  lemma {:induction false} EscapeSuffix(s: string, i: nat)
    requires i <= |s|
    ensures Escape(s[i..]) == Replacements(s, i)
    decreases |s| - i
  {
    if i < |s| {
      EscapeSuffix(s, i + 1);
      assert s[i..][1..] == s[i + 1..];
      assert s[i..][0] == s[i];
      if i + 1 < |s| {
        assert s[i..][1] == s[i + 1];
      }
    }
  }

  /** A string without quotes escapes to itself. */
  lemma {:induction false} EscapeNoQuote(s: string)
    requires NoQuote(s)
    ensures Escape(s) == s
  {
    if |s| > 0 {
      assert NoQuote(s[1..]) by {
        forall i | 0 <= i < |s[1..]| ensures s[1..][i] != Quote {
          assert s[1..][i] == s[i + 1];
        }
      }
      EscapeNoQuote(s[1..]);
    }
  }

  /** Escaping only inserts quotes: every other character survives, in order. */
  lemma {:induction false} EscapeKeepsOtherCharacters(s: string)
    ensures WithoutQuotes(Escape(s)) == WithoutQuotes(s)
  {
    if |s| > 0 {
      EscapeKeepsOtherCharacters(s[1..]);
      var r := Escape(s);
      if s[0] == Quote && (|s| == 1 || s[1] != Quote) {
        assert r[1..] == [Quote] + Escape(s[1..]);
        assert r[1..][1..] == Escape(s[1..]);
      } else {
        assert r[1..] == Escape(s[1..]);
      }
    }
  }

  /** Escaped text never holds a lone quote, so every run of quotes in it is at least two long. */
  lemma {:induction false} EscapeLeavesNoLoneQuote(s: string)
    ensures NoLoneQuote(Escape(s))
  {
    if |s| > 0 {
      EscapeLeavesNoLoneQuote(s[1..]);
      var t := Escape(s[1..]);
      var r := Escape(s);
      assert |s| > 1 ==> t[0] == s[1];
      forall i | 0 <= i < |r|
        ensures !LoneQuoteAt(r, i)
      {
        if s[0] == Quote && (|s| == 1 || s[1] != Quote) {
          assert r == [Quote, Quote] + t;
          if i >= 2 {
            assert r[i] == t[i - 2];
            assert i + 1 < |r| ==> r[i + 1] == t[i - 1];
            if i > 2 {
              assert r[i - 1] == t[i - 3];
              assert !LoneQuoteAt(t, i - 2);
            } else {
              assert r[1] == Quote;
            }
          }
        } else {
          assert r == [s[0]] + t;
          if i >= 1 {
            assert r[i] == t[i - 1];
            assert i + 1 < |r| ==> r[i + 1] == t[i];
            if i > 1 {
              assert r[i - 1] == t[i - 2];
              assert !LoneQuoteAt(t, i - 1);
            } else if r[1] == Quote {
              if s[0] != Quote {
                assert t[0] == Quote;
                assert !LoneQuoteAt(t, 0);
                assert |t| > 1 && t[1] == Quote;
              }
            }
          } else if s[0] == Quote {
            assert r[1] == t[0] == s[1] == Quote;
          }
        }
      }
    }
  }

  // ---------------------------------------------------------------------------------------
  // Unescape

  /** A string without quotes unescapes to itself. */
  lemma {:induction false} UnescapeNoQuote(s: string)
    requires NoQuote(s)
    ensures Unescape(s) == s
  {
    if |s| > 0 {
      assert NoQuote(s[1..]) by {
        forall i | 0 <= i < |s[1..]| ensures s[1..][i] != Quote {
          assert s[1..][i] == s[i + 1];
        }
      }
      UnescapeNoQuote(s[1..]);
    }
  }

  /** Unescaping only deletes quotes: every other character survives, in order. */
  lemma {:induction false} UnescapeKeepsOtherCharacters(s: string)
    ensures WithoutQuotes(Unescape(s)) == WithoutQuotes(s)
  {
    if |s| >= 2 && s[0] == Quote && s[1] == Quote {
      UnescapeKeepsOtherCharacters(s[2..]);
      assert s[1..][1..] == s[2..];
      assert ([Quote] + Unescape(s[2..]))[1..] == Unescape(s[2..]);
    } else if |s| > 0 {
      UnescapeKeepsOtherCharacters(s[1..]);
      assert ([s[0]] + Unescape(s[1..]))[1..] == Unescape(s[1..]);
    }
  }

  // ---------------------------------------------------------------------------------------
  // Runs of quotes

  /** `n` quotes in a row. */
  function QuoteRun(n: nat): (r: string)
    ensures |r| == n
    ensures forall i :: 0 <= i < n ==> r[i] == Quote
  {
    if n == 0 then [] else [Quote] + QuoteRun(n - 1)
  }

  /** Escaping lengthens a run of quotes by exactly one: only its last quote is doubled. */
  lemma {:induction false} EscapeQuoteRun(n: nat)
    requires n > 0
    ensures Escape(QuoteRun(n)) == QuoteRun(n + 1)
  {
    var s := QuoteRun(n);
    assert s[1..] == QuoteRun(n - 1);
    if n > 1 {
      EscapeQuoteRun(n - 1);
    }
  }

  /** Unescaping halves a run of quotes, rounding up. */
  lemma {:induction false} UnescapeQuoteRun(m: nat)
    ensures Unescape(QuoteRun(m)) == QuoteRun((m + 1) / 2)
  {
    var s := QuoteRun(m);
    if m == 1 {
      assert s[1..] == [];
    } else if m >= 2 {
      assert s[1..][1..] == s[2..] == QuoteRun(m - 2);
      UnescapeQuoteRun(m - 2);
    }
  }

  /** A run of quotes at the start of a string unescapes on its own, when the text after the run
      does not start with a quote. */
  lemma {:induction false} UnescapeQuoteRunPrefix(m: nat, b: string)
    requires |b| == 0 || b[0] != Quote
    ensures Unescape(QuoteRun(m) + b) == QuoteRun((m + 1) / 2) + Unescape(b)
  {
    if m == 1 {
      assert QuoteRun(m) + b == [Quote] + b;
      UnescapeAfterQuote(b);
    } else if m >= 2 {
      UnescapeQuoteRunPrefix(m - 2, b);
      QuoteRunPrefixStep(m, b);
    } else {
      assert QuoteRun(m) + b == b;
    }
  }

  /** The step of `UnescapeQuoteRunPrefix`: the leading pair becomes one quote. */
  lemma {:induction false} QuoteRunPrefixStep(m: nat, b: string)
    requires m >= 2
    requires Unescape(QuoteRun(m - 2) + b) == QuoteRun((m - 1) / 2) + Unescape(b)
    ensures Unescape(QuoteRun(m) + b) == QuoteRun((m + 1) / 2) + Unescape(b)
  {
    var rest := QuoteRun(m - 2);
    assert QuoteRun(m) == [Quote] + QuoteRun(m - 1);
    assert QuoteRun(m - 1) == [Quote] + rest;
    assert QuoteRun(m) + b == [Quote, Quote] + (rest + b);
    PairThenRest(rest, QuoteRun((m - 1) / 2), b);
    assert QuoteRun((m + 1) / 2) == [Quote] + QuoteRun((m - 1) / 2);
  }

  /** A pair of quotes in front of text that unescapes to `y` followed by `Unescape(b)`. */
  lemma {:induction false} PairThenRest(x: string, y: string, b: string)
    requires Unescape(x + b) == y + Unescape(b)
    ensures Unescape([Quote, Quote] + (x + b)) == [Quote] + y + Unescape(b)
  {
    UnescapePair(x + b);
  }

  /** A leading pair of quotes unescapes to one quote. */
  lemma {:induction false} UnescapePair(rest: string)
    ensures Unescape([Quote, Quote] + rest) == [Quote] + Unescape(rest)
  {
    assert ([Quote, Quote] + rest)[2..] == rest;
  }

  /** A leading character that does not start a pair of quotes is kept as it is. */
  lemma {:induction false} UnescapeHead(c: char, rest: string)
    requires c != Quote || |rest| == 0 || rest[0] != Quote
    ensures Unescape([c] + rest) == [c] + Unescape(rest)
  {
    assert ([c] + rest)[1..] == rest;
  }

  /** No `''` pair straddles a boundary whose left side ends in a character other than a quote,
      so text up to such a boundary unescapes on its own. */
  lemma {:induction false} UnescapeConcat(a: string, t: string)
    requires |a| == 0 || a[|a| - 1] != Quote
    ensures Unescape(a + t) == Unescape(a) + Unescape(t)
  {
    if |a| >= 2 && a[0] == Quote && a[1] == Quote {
      var rest := a[2..];
      assert rest[|a| - 3] == a[|a| - 1];
      assert a == [Quote, Quote] + rest;
      assert a + t == [Quote, Quote] + (rest + t);
      UnescapeConcat(rest, t);
      UnescapeConcatPaired(rest, t);
    } else if |a| > 0 {
      var rest := a[1..];
      assert |a| == 1 || rest[|a| - 2] == a[|a| - 1];
      assert a == [a[0]] + rest;
      assert a + t == [a[0]] + (rest + t);
      UnescapeConcat(rest, t);
      UnescapeConcatOther(a[0], rest, t);
    } else {
      assert a + t == t;
    }
  }

  /** The step of `UnescapeConcat` past a leading pair of quotes. */
  lemma {:induction false} UnescapeConcatPaired(rest: string, t: string)
    requires Unescape(rest + t) == Unescape(rest) + Unescape(t)
    ensures Unescape([Quote, Quote] + (rest + t)) == Unescape([Quote, Quote] + rest) + Unescape(t)
  {
    UnescapePair(rest + t);
    UnescapePair(rest);
  }

  /** The step of `UnescapeConcat` past a leading character that does not start a pair. */
  lemma {:induction false} UnescapeConcatOther(c: char, rest: string, t: string)
    requires c != Quote || (|rest| > 0 && rest[0] != Quote)
    requires Unescape(rest + t) == Unescape(rest) + Unescape(t)
    ensures Unescape([c] + (rest + t)) == Unescape([c] + rest) + Unescape(t)
  {
    assert |rest| > 0 ==> (rest + t)[0] == rest[0];
    UnescapeHead(c, rest + t);
    UnescapeHead(c, rest);
  }

  // ---------------------------------------------------------------------------------------
  // The round trip

  /** After a pending quote, text that does not start with a quote unescapes character by character. */
  lemma {:induction false} UnescapeAfterQuote(e: string)
    requires |e| == 0 || e[0] != Quote
    ensures Unescape([Quote] + e) == [Quote] + Unescape(e)
  {
    assert ([Quote] + e)[1..] == e;
  }

  /** Unescape undoes Escape on every string without a run of three quotes. */
  lemma {:induction false} EscapeRoundTrip(s: string)
    requires NoTripleQuote(s)
    ensures Unescape(Escape(s)) == s
  {
    if |s| == 0 {
    } else {
      NoTripleQuoteTail(s);
      if s[0] != Quote {
        RoundTripStepOther(s);
        EscapeRoundTrip(s[1..]);
      } else if |s| == 1 || s[1] != Quote {
        RoundTripStepLone(s);
        EscapeRoundTrip(s[1..]);
      } else {
        // s starts with exactly two quotes, so after them comes something else or nothing
        NoTripleQuoteTail(s[1..]);
        assert s[1..][1..] == s[2..];
        EscapeRoundTrip(s[2..]);
        RoundTripPairedCase(s);
      }
    }
  }

  /** The round trip on a string that starts with exactly two quotes, given it on the rest. */
  lemma {:induction false} RoundTripPairedCase(s: string)
    requires |s| > 1 && s[0] == Quote && s[1] == Quote && (|s| == 2 || s[2] != Quote)
    requires Unescape(Escape(s[2..])) == s[2..]
    ensures Unescape(Escape(s)) == s
  {
    var rest := s[2..];
    assert s[1..][1..] == rest;
    RoundTripStepPaired(s);
    RoundTripStepLone(s[1..]);
    assert Escape(rest) == [] || Escape(rest)[0] == rest[0];
    UnescapeAfterQuote(Escape(rest));
    assert s == [Quote, Quote] + rest;
  }

  lemma {:induction false} NoTripleQuoteTail(s: string)
    requires NoTripleQuote(s)
    requires |s| > 0
    ensures NoTripleQuote(s[1..])
  {
  }

  /** How the round trip unfolds on a string starting with a character other than a quote. */
  lemma {:induction false} RoundTripStepOther(t: string)
    requires |t| > 0 && t[0] != Quote
    ensures Unescape(Escape(t)) == [t[0]] + Unescape(Escape(t[1..]))
    ensures Unescape([Quote] + Escape(t)) == [Quote, t[0]] + Unescape(Escape(t[1..]))
  {
    var e' := Escape(t[1..]);
    var a := [t[0]] + e';
    assert Escape(t) == a;
    assert a[1..] == e';
    assert Unescape(a) == [t[0]] + Unescape(e');
    var b := [Quote] + a;
    assert b[1..] == a;
    assert Unescape(b) == [Quote] + Unescape(a);
  }

  /** How the round trip unfolds on a string starting with a quote that escaping doubles. */
  lemma {:induction false} RoundTripStepLone(t: string)
    requires |t| > 0 && t[0] == Quote && (|t| == 1 || t[1] != Quote)
    ensures Unescape(Escape(t)) == [Quote] + Unescape(Escape(t[1..]))
    ensures Unescape([Quote] + Escape(t)) == [Quote] + Unescape([Quote] + Escape(t[1..]))
  {
    var e' := Escape(t[1..]);
    var a := [Quote, Quote] + e';
    assert Escape(t) == a;
    assert a[2..] == e';
    assert Unescape(a) == [Quote] + Unescape(e');
    var b := [Quote] + a;
    assert b[2..] == [Quote] + e';
    assert Unescape(b) == [Quote] + Unescape([Quote] + e');
  }

  /** How the round trip unfolds on a string starting with a quote that escaping keeps. */
  lemma {:induction false} RoundTripStepPaired(t: string)
    requires |t| > 1 && t[0] == Quote && t[1] == Quote
    ensures Unescape(Escape(t)) == Unescape([Quote] + Escape(t[1..]))
    ensures Unescape([Quote] + Escape(t)) == [Quote] + Unescape(Escape(t[1..]))
  {
    var e' := Escape(t[1..]);
    assert Escape(t) == [Quote] + e';
    assert [Quote] + Escape(t) == [Quote, Quote] + e';
    assert ([Quote, Quote] + e')[2..] == e';
  }

  /** Measures the round trip: it never lengthens a string, and shortens every string with `'''`. */
  lemma {:induction false} RoundTripLength(t: string)
    ensures |Unescape(Escape(t))| <= |t|
    ensures |Unescape([Quote] + Escape(t))| <= |t| + 1
    ensures !NoTripleQuote(t) ==> |Unescape(Escape(t))| < |t|
    ensures !NoTripleQuote(t) ==> |Unescape([Quote] + Escape(t))| < |t| + 1
  {
    if |t| > 0 {
      var t' := t[1..];
      RoundTripLength(t');
      assert !NoTripleQuote(t) && !(|t| >= 3 && t[0] == Quote && t[1] == Quote && t[2] == Quote)
        ==> !NoTripleQuote(t');
      if t[0] != Quote {
        RoundTripStepOther(t);
      } else if |t| == 1 || t[1] != Quote {
        RoundTripStepLone(t);
      } else {
        RoundTripStepPaired(t);
        if |t| >= 3 && t[2] == Quote {
          // t' starts with two quotes as well
          RoundTripLength(t'[1..]);
          RoundTripStepPaired(t');
        }
      }
    }
  }

  /** The escape/unescape round trip succeeds exactly on the strings without a run of three quotes. */
  lemma {:induction false} EscapeRoundTripExactly(s: string)
    ensures Unescape(Escape(s)) == s <==> NoTripleQuote(s)
  {
    if NoTripleQuote(s) {
      EscapeRoundTrip(s);
    } else {
      RoundTripLength(s);
    }
  }
}
