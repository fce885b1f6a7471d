# Amun specification codec, modelled in Dafny

Amun's inspection API (`amun/api_v1.py`) hands a job specification to a workflow template engine.
That engine embeds strings in single-quote-delimited literals and wants some numeric fields as
text. Before a specification is submitted, `_parse_specification` prepares it:

- every single quote in every string leaf is escaped;
- the integer fields `allowed_failures`, `batch_size` and `parallelism` are written as decimal text;
- empty `build` and `run` sections are added when missing.

When the specification is read back from the workflow metadata, `_unparse_specification` undoes
the escaping and the casting. Two more helpers prepare a section before submission:

- `_adjust_default_requests` fills in default CPU and memory requests;
- `_construct_parameters_dict` derives hardware template parameters from `requests.hardware`.

The model treats the document as an immutable value:

- a `Json` datatype with null, bool, int, string, list and object;
- objects are association lists in insertion order, as Python dicts are;
- every helper is a pure function;
- a Python exception becomes a `Failure` of a `Result`.

Modules, one per file:

- `Wrappers` (wrappers.dfy): `Option` and `Result`.
- `Document` (document.dfy): the `Json` value, and dict lookup (`Get`) and assignment (`Set`) with their frame properties.
- `Quotes` (quotes.dfy): the two regular-expression substitutions on one string, and the round trip between them.
- `Decimal` (decimal.dfy): `str(n)` and the decimal part of `int(s)`.
- `Walk` (walk.dfy): the recursive walk that rewrites string leaves.
- `Builtins` (builtins.dfy): Python's truthiness, `in`, subscription, `str()` and `int()` on `Json` values.
- `SpecCodec` (codec.dfy): `_parse_specification`, `_unparse_specification` and the round trip.
- `Requests` (requests.dfy): `_DEFAULT_REQUESTS`, `_adjust_default_requests` and `_construct_parameters_dict`.
- `Examples` (examples.dfy): worked instances on small documents.

The escape rule is `'(?!')` → `''`. The lookahead consumes nothing, so a quote is doubled exactly
when the next character of the original string is not a quote. A run of k quotes therefore
becomes k + 1 quotes. Unescaping replaces `''` by `'` from left to right, so a run of m quotes
becomes ⌈m/2⌉ quotes (`Quotes.UnescapeQuoteRunPrefix`). No replaced pair spans a point that
follows a character other than a quote, so the text on either side of such a point unescapes on
its own (`Quotes.UnescapeConcat`), and every maximal run is halved independently. The round
trip restores a string exactly when it has no run of three quotes (`Quotes.EscapeRoundTripExactly`). Two consequences of the code are worth stating:

- Escaping is not idempotent: an already doubled quote `''` becomes `'''`, because the second
  quote of the pair is followed by something other than a quote (`Examples.EscapeTwice`).
- `_unparse_specification` does not remove the empty `build` and `run` that
  `_parse_specification` added, so the round trip returns the original specification plus
  those two sections (`SpecCodec.SpecRoundTrip`). It needs no string with a run of three
  quotes; a doubled quote `''` does round-trip.

## Model

| member | source | states |
|---|---|---|
| Document.Get | amun/api_v1.py:96-97 | `d.get(k)` yields a value exactly when `k` is one of the dict's keys; which value is stated by `Document.GetFirst` |
| Document.GetFirst | amun/api_v1.py:96-97 | `d.get(k)` yields the value of the first entry whose key is `k` |
| Document.Set | amun/api_v1.py:94-97 | `d[k] = v`: `k` then reads `v`, every other key reads as before, and the key order is kept, with a new `k` appended at the end |
| Quotes.Escape | amun/api_v1.py:115 | the contract only bounds the result: escaping keeps the first character and at most doubles the length without shortening; what escaping does is stated by `Quotes.EscapeIsPositionwise`, `Quotes.EscapeQuoteRun` and `Quotes.EscapeRoundTripExactly` |
| Quotes.Unescape | amun/api_v1.py:152 | the contract only bounds the result: unescaping never lengthens a string; what unescaping does is stated by `Quotes.UnescapeQuoteRunPrefix`, `Quotes.UnescapeConcat`, `Quotes.UnescapeKeepsOtherCharacters` and `Quotes.EscapeRoundTripExactly` |
| Quotes.EscapeIsPositionwise | amun/api_v1.py:115 | escaping writes, for each position of the original string, `''` when it holds a quote not followed by a quote and the character itself otherwise, concatenated in order |
| Quotes.EscapeNoQuote | amun/api_v1.py:115 | a string without quotes is left unchanged by escaping |
| Quotes.EscapeKeepsOtherCharacters | amun/api_v1.py:115 | escaping only inserts quotes: deleting all quotes from the input and from the output gives the same text |
| Quotes.EscapeLeavesNoLoneQuote | amun/api_v1.py:115 | after escaping, no quote stands alone: every maximal run of quotes is at least two long |
| Quotes.EscapeQuoteRun | amun/api_v1.py:115 | a run of k quotes escapes to a run of k + 1 quotes |
| Quotes.UnescapeQuoteRun | amun/api_v1.py:152 | a run of m quotes unescapes to a run of ⌈m/2⌉ quotes |
| Quotes.UnescapeQuoteRunPrefix | amun/api_v1.py:152 | a run of m quotes at the start of a string, followed by nothing or by a character other than a quote, unescapes to ⌈m/2⌉ quotes followed by the unescaped rest |
| Quotes.UnescapeConcat | amun/api_v1.py:152 | no replaced pair spans a point after a character other than a quote: the text before such a point and the text after it unescape separately |
| Quotes.UnescapeNoQuote | amun/api_v1.py:152 | a string without quotes is left unchanged by unescaping |
| Quotes.UnescapeKeepsOtherCharacters | amun/api_v1.py:152 | unescaping only removes quotes: the characters other than quotes are kept in order |
| Quotes.EscapeRoundTrip | amun/api_v1.py:107-154 | unescaping the escaped string gives back the original whenever it has no run of three quotes |
| Quotes.RoundTripLength | amun/api_v1.py:107-154 | the round trip never lengthens a string and strictly shortens every string that has a run of three quotes |
| Quotes.EscapeRoundTripExactly | amun/api_v1.py:107-154 | the round trip restores a string if and only if it has no run of three quotes |
| Walk.EscapeJson | amun/api_v1.py:107-117 | escaping a document keeps its shape, and a string is escaped as one string; `Walk.JsonRoundTrip`, `Walk.EscapeJsonNoQuote` and `Walk.EscapeJsonNoLoneQuote` state the rest |
| Walk.UnescapeJson | amun/api_v1.py:144-154 | unescaping a document keeps its shape, and a string is unescaped as one string; `Walk.JsonRoundTrip` states how it undoes escaping |
| Walk.MapStrings | amun/api_v1.py:107-117 | the walk keeps the document's shape: same list lengths, same keys in the same order, and non-string scalars unchanged; only string leaves change |
| Walk.MapDict | amun/api_v1.py:108-110 | walking a top-level dict keeps its keys, and each key reads as the walked old value, or is still missing |
| Walk.JsonRoundTrip | amun/api_v1.py:107-154 | unescaping the escaped document gives it back whenever none of its strings has a run of three quotes |
| Walk.EscapeJsonNoQuote | amun/api_v1.py:107-117 | a document with no quote in any string escapes to itself |
| Walk.EscapeJsonNoLoneQuote | amun/api_v1.py:107-117 | after escaping, no string anywhere in the document holds a lone quote |
| Decimal.NatToString | amun/api_v1.py:126 | `str(n)` of a natural number is a non-empty digit string, and it starts with `0` only when it is `"0"` |
| Decimal.ParseInt | amun/api_v1.py:163 | `int(s)` yields a value exactly when `s` is an optional minus sign followed by digits |
| Decimal.IntToStringRoundTrip | amun/api_v1.py:126 | `int(str(n)) == n` for every integer, and `str(n)` has no leading zero and no `-0` |
| Decimal.IntToStringExactly | amun/api_v1.py:126 | `str(n) == s` if and only if `s` is a canonical literal that `int` reads as `n` |
| Builtins.In | amun/api_v1.py:53-66 | `key in x` succeeds on a dict, a string or a list and raises `TypeError` on anything else; it is true on a dict exactly when `get` finds the key, on a string exactly when the key occurs at some index, and on a list exactly when some element equals the key |
| Builtins.SubstringOccurs | amun/api_v1.py:53-66 | the front-to-back substring search is true exactly when the needle occurs at some index of the string |
| Builtins.GetItem | amun/api_v1.py:57-67 | `x[key]` succeeds exactly when `x` is a dict for which `key in x` holds, and then yields what `get` reads; a dict without the key raises `KeyError`, anything else `TypeError` |
| Builtins.ToStr | amun/api_v1.py:126 | `str()` of a string is the string itself, of an integer a canonical decimal literal, and of `None` or a bool a text that is not an integer literal |
| Builtins.ToInt | amun/api_v1.py:163 | `int()` succeeds exactly on an integer, a bool, or a string that is an integer literal; an integer reads as itself; a canonical literal reads as the integer whose `str()` it is; failures are `ValueError` carrying the string, or `TypeError` |
| Builtins.IntFieldRoundTrip | amun/api_v1.py:121-163 | an integer field written by `str()` at parse time is read back as the same integer by `int()` at unparse time |
| SpecCodec.CastToStrings | amun/api_v1.py:121-126 | each integer field present in the original becomes `str()` of its ORIGINAL value; absent fields are not added, other keys are untouched, and the key order is kept |
| SpecCodec.AddDefaults | amun/api_v1.py:128-132 | `build` and `run` become empty dicts when missing; existing values and every other key stay, and the new keys are appended in that order |
| SpecCodec.AddDefault | amun/api_v1.py:128-132 | one `if k not in d: d[k] = {}`: a missing key is appended as an empty dict, a present one keeps its value, and no other key changes |
| SpecCodec.AddDefaultsKeepsDistinct | amun/api_v1.py:128-132 | adding the defaults never duplicates a key |
| SpecCodec.EscapeAndCast | amun/api_v1.py:113-126 | escaping and casting keep the specification's keys; each integer field present reads as `str()` of its ORIGINAL value, and every other key reads as its escaped value or stays missing |
| SpecCodec.EscapeAndCastGet | amun/api_v1.py:113-132 | after escaping, casting and adding the defaults, each key reads as the per-key parse result; escaping and casting alone keep the specification's keys |
| SpecCodec.Parse | amun/api_v1.py:100-134 | the parsed specification holds, for every key: the decimal text of an integer field, the escaped value of any other present key, an empty dict for a missing `build` or `run`, and nothing else; its keys are the original ones followed by the missing `build` and `run` |
| SpecCodec.CastToInts | amun/api_v1.py:156-163 | casting succeeds exactly when `int()` accepts every present integer field, which then holds that integer read from the pre-unescape value; other keys are kept; a failure carries the error `int()` raised on the first rejected field in field order |
| SpecCodec.Unparse | amun/api_v1.py:137-165 | unparsing fails exactly when `int()` rejects an integer field, with the error of the first rejected one in the order `allowed_failures`, `batch_size`, `parallelism`; otherwise every key keeps its place and reads as the unescaped value, or as the integer for an integer field |
| SpecCodec.UnparseFirstError | amun/api_v1.py:158-163 | when the fields before position i are accepted by `int()` and the field at i is rejected, unparsing fails with exactly that field's error |
| SpecCodec.ParsedIntsConvert | amun/api_v1.py:121-163 | when the integer fields hold integers, every integer field of the parsed specification is accepted by `int()` |
| SpecCodec.RoundTripCastKey | amun/api_v1.py:121-163 | an integer field that holds an integer survives parse then unparse unchanged |
| SpecCodec.RoundTripOtherKey | amun/api_v1.py:107-154 | a present key other than the integer fields survives parse then unparse unchanged when none of the strings of the specification has a run of three quotes |
| SpecCodec.RoundTripAbsentKey | amun/api_v1.py:128-165 | a key missing from the specification is still missing after parse then unparse, except `build` and `run`, which come back as empty dicts |
| SpecCodec.SpecRoundTrip | amun/api_v1.py:100-165 | unparsing the parsed specification succeeds and returns the original plus the empty `build` and `run` that parsing added, when the integer fields hold integers and no string has a run of three quotes |
| Requests.DefaultRequestValues | amun/api_v1.py:45 | the default requests are `"500m"` for `cpu` and `"256Mi"` for `memory` |
| Requests.FillDefault | amun/api_v1.py:96-97 | `req[name] = req.get(name) or default` keeps a truthy value, stores the default otherwise, and leaves every other key alone |
| Requests.EnsureRequests | amun/api_v1.py:93-94 | a missing `requests` key is added as an empty dict at the end; everything else stays |
| Requests.AdjustedRequests | amun/api_v1.py:96-97 | `cpu` and `memory` keep a truthy value and otherwise become `"500m"` and `"256Mi"`; every other request is unchanged; missing keys are appended `cpu` first |
| Requests.AdjustDefaultRequests | amun/api_v1.py:91-97 | adjustment succeeds exactly when `requests` is missing or a dict, and fails with `AttributeError` otherwise; `requests` is then present with the adjusted requests; no other key of the section changes |
| Requests.SourceField | amun/api_v1.py:56-66 | a template parameter has a source field exactly when it is one of the four listed parameters |
| Requests.CopyHardware | amun/api_v1.py:56-66 | on a dict, each parameter is copied from its field when the field is present and keeps its earlier value otherwise; on `None`, a bool or an int, `in` raises `TypeError`; on a string or a list, it fails with `TypeError` exactly when some field name is found in it, and changes nothing otherwise |
| Requests.HardwareTemplateParameters | amun/api_v1.py:56-66 | starting from no parameters, a dict `hardware` yields exactly the listed parameters whose fields it has, copied verbatim; the other value kinds fail as Python's `in` and subscription do |
| Requests.ConstructParameters | amun/api_v1.py:48-69 | the flag is set exactly when `requests` is a dict with a `hardware` key; without one the result is empty and the flag false; with a dict `hardware`, the parameters are exactly the listed fields present in it, copied verbatim; a string or list `requests` that contains `hardware` fails with `AttributeError`, and `None`, a bool or an int fails with `TypeError` |
| Examples.TripleQuoteCounterexample | amun/api_v1.py:107-154 | `'''` escapes to `''''`, which unescapes to `''`: the round trip fails on a run of three quotes |
| Examples.EscapeTwice | amun/api_v1.py:115 | escaping `'` twice gives `'''`: an already doubled quote gains a third |
| Examples.ParseIs | amun/api_v1.py:100-134 | the parsed specification is determined by its keys and its per-key values |
| Examples.ParseNoteExample | amun/api_v1.py:100-134 | `{"note": "it's"}` parses to `{"note": "it''s", "build": {}, "run": {}}` |
| Examples.UnparseNoteExample | amun/api_v1.py:137-165 | `{"note": "it''s"}` unparses to `{"note": "it's"}` |
| Examples.UnparseReportsFirstRejectedField | amun/api_v1.py:158-163 | with `batch_size: None` and `allowed_failures: "abc"`, unparsing raises the `ValueError` of `allowed_failures`, the first field the loop visits |
| Examples.UnparseRejectsNonNumeric | amun/api_v1.py:158-163 | `{"allowed_failures": "abc"}` fails to unparse with a `ValueError` |

## Left out

- The HTTP handlers, the cluster client, JSON loading, logging and timestamps (`post_inspection`, `get_inspection_*`): these are network and cluster I/O.
- The handlers' unconditional quote replacement on the generated Dockerfile (amun/api_v1.py:196) and the undefined `inspection_id` at amun/api_v1.py:211. Both sit inside those I/O handlers.
- `create_dockerfile`, `_do_create_dockerfile` and `post_generate_dockerfile`: the Dockerfile generator lives in a module that is not part of this model.
- Aliasing through the shallow `.copy()` (amun/api_v1.py:105, 142) is not modelled. In Python, the walk also rewrites the nested dicts and lists of the caller's document in place. The model works on immutable values and returns new ones.
- Builtins.ToStr: `str()` of a list or dict is Python's `repr`. The model takes that rendering as the parameter `reprOf` instead of defining it. Because of the aliasing above, Python would render such a field with its nested strings already escaped.
- Builtins.ToInt: accepts only an optional `-` followed by ASCII digits. Python's `int()` also accepts surrounding whitespace, a leading `+`, underscores between digits and non-ASCII digits.
- Builtins.ToInt: the `ValueError` carries the rejected text rather than Python's full message.
- Builtins.ToStr: writes every integer in full. Recent CPython releases (3.11 and later, and the security releases of 3.7 to 3.10) raise `ValueError` from `str()` of an integer with more than 4300 digits; the model has no such limit.
- Builtins.ToInt: reads digit strings of any length. The same CPython releases raise `ValueError` from `int()` of a string of more than 4300 digits; the model has no such limit.
- Decimal.IntToStringRoundTrip: holds for every integer because the model has no digit limit; under the limit above it holds for integers of at most 4300 digits.
- Floating-point numbers are not part of the `Json` value, so `str()` and `int()` of floats are not modelled.
- SpecCodec.SpecRoundTrip: requires the integer fields to hold integers. `str()` of a bool, string or container field is not read back as the original by `int()`.
- SpecCodec.SpecRoundTrip: requires distinct keys, as every Python dict has.
