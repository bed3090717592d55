# MoMo SMS transactions: a verified model of the extractor, the REST store and the lookup benchmark

This project models, in Dafny, the three pieces of sequential logic of the MoMo SMS
data-analysis repository:

- **The SMS extractor** (`dsa/parse_xml.py`). `parse_sms_body` runs five regular-expression
  searches over a free-text mobile-money message. They give the transaction id, the amount,
  the sender, the receiver and the timestamp. The per-message loop of `parse_xml_to_json`
  then builds one transaction record per `sms` element:
  - the message metadata;
  - the parsed fields merged over it;
  - a positional `GEN-<date>-<n>` id when the body names none;
  - a looser second amount search.
- **The record store behind the REST handlers** (`api/server.py`):
  - Basic authentication;
  - reading the id from `/transactions/<id>`;
  - single GET, POST with the missing-id and duplicate-id checks, PUT as a shallow merge of
    the first match, and DELETE of every match.
- **The lookup benchmark** (`dsa/dsa_compare.py`). It compares a linear scan with a
  dictionary keyed by id. It also has the loop that pads a short list of records to 100
  suffixed copies.

Layout, one module per file:

| file | module | contents |
|---|---|---|
| `wrappers.dfy` | `Wrappers` | `Option` |
| `text.dfy` | `Text` | ASCII `str` operations: `strip`, `rstrip`, `replace(c, '')`, `split`, `split(sep, 1)`, `str(n)` |
| `json.dfy` | `Json` | JSON values after `json.load`, Python `==` and truthiness, first-by-id lookup |
| `sms_patterns.dfy` | `SmsPatterns` | the five patterns as hand-written matchers in the engine's backtracking order, and `re.search` as leftmost-first |
| `sms_dates.dfy` | `SmsDates` | `strptime` validity and `isoformat` |
| `sms_parse.dfy` | `SmsParse` | `parse_sms_body` and `float` on the captured numerals |
| `sms_batch.dfy` | `SmsBatch` | `int`, one record, and the loop over all messages |
| `api_server.dfy` | `ApiServer` | `check_auth`, `_parse_id`, and the store as a class |
| `dsa_compare.dfy` | `DsaCompare` | `make_dict`, `linear_search`, and the padding loop |

Modelling choices:

- **Regex semantics.** Each pattern is a matcher that tries alternatives in the order
  Python's engine does:
  - greedy runs for the id, the numerals and the date;
  - the shortest capture first for sender and receiver (`+?`).
  
  A search is the first start position at which the matcher succeeds. Lemmas characterise
  each search declaratively: "no candidate anywhere" gives `None`; otherwise the result is
  the leftmost candidate the engine chooses.
- **AMOUNT_RE has no left anchor.** On `2000 RWF`, the match at the first digit fails: three
  digits are taken, and no unit follows them. The search then succeeds one position later,
  on `000`, so the amount is 0, not 2000. Because the amount is not missing, the fallback
  search does not run. The model follows the code (`SmsParse.UnanchoredAmount`,
  `SmsParse.FourDigitAmount`).
- **Amounts are exact decimals** (`real`). `float` is modelled on the digit-and-dot texts the
  numeral patterns can capture (`SmsParse.FloatValue`):
  - it fails (the `except` branch, giving `None`) exactly when the text holds two or more
    dots or no digit;
  - otherwise its value is the digit string divided by ten to the number of fraction digits.
- **Errors that abort.** `int(attrs.get('protocol', '0'))` raising `ValueError` aborts the
  whole conversion, so `SmsBatch.ParseMessages` returns `None` then. An exception inside a
  request handler that the source does not catch gives the response status `Aborted`.
- **Truthiness and `==`.** Python's `==` among the values `json` produces (`1 == 1.0 ==
  True`) and truthiness are modelled in `Json.PyEq` and `Json.Truthy`. Both matter for
  POST's duplicate check and for the falsy-id check.
- **The store** is a `class Store` whose field `records` the POST, PUT and DELETE methods
  reassign. PUT keeps the source's `for` loop over the records.

## Model

| member | source | states |
|---|---|---|
| `SmsPatterns.Search` | dsa/parse_xml.py:19-42 | a found match starts within the text, the pattern matches there with that group, and it matches at no earlier start; no match means it matches at no start |
| `SmsPatterns.MatchAt` | dsa/parse_xml.py:10-14 | a captured group lies in the text, after the start; its partners `SearchTxId`, `SearchNumeral`, `SearchName` and `SearchDate` state what a search with it finds |
| `SmsPatterns.TxIdAt` | dsa/parse_xml.py:10 | a match at p is a labelled id at p; no match means no label followed by an id run starts at p |
| `SmsPatterns.NumeralAt` | dsa/parse_xml.py:11 | a match is a numeral at p, the engine's first choice among the numerals at p; no match means there is no numeral at p |
| `SmsPatterns.NameAt` | dsa/parse_xml.py:12-13 | a match is a name candidate at p, the engine's first choice (most whitespace, then shortest group); no match means no candidate at p |
| `SmsPatterns.DateAt` | dsa/parse_xml.py:14 | a match ends a date text starting at p; no match means no date text starts at p |
| `SmsPatterns.SearchFinds` | dsa/parse_xml.py:19 | `re.search` returns the match at the leftmost position where the pattern matches |
| `SmsPatterns.SearchFailsWhenNoMatch` | dsa/parse_xml.py:19-20 | a pattern matching nowhere makes the search fail |
| `SmsPatterns.LabelledIdUnique` | dsa/parse_xml.py:10 | at one start position, TXID_RE can capture only one id: the labels exclude each other and the id run is maximal |
| `SmsPatterns.SearchTxId` | dsa/parse_xml.py:10 | the TXID_RE search fails iff no label is followed by an id run; otherwise it finds the leftmost labelled id |
| `SmsPatterns.SearchNumeral` | dsa/parse_xml.py:11 | the AMOUNT_RE search (and the bare numeral search) fails iff there is no numeral; otherwise it finds the engine's first numeral at the leftmost start |
| `SmsPatterns.SearchName` | dsa/parse_xml.py:12-13 | the SENDER_RE/RECEIVER_RE search fails iff no name candidate follows `from`/`to` and whitespace; otherwise it finds the leftmost shortest candidate |
| `SmsPatterns.SearchDate` | dsa/parse_xml.py:14 | the DATE_RE search fails iff there is no date text; otherwise it finds the leftmost one |
| `SmsParse.CleanId` | dsa/parse_xml.py:21 | `strip().rstrip('.')` leaves a captured id unchanged; the id is non-empty and made of `[A-Za-z0-9-]` |
| `SmsParse.ExtractTxId` | dsa/parse_xml.py:18-21 | a resolved id is non-empty and made of id characters only |
| `SmsParse.ExtractTxIdNone` | dsa/parse_xml.py:18-21 | the id is `None` iff no label is followed by a run of id characters |
| `SmsParse.ExtractTxIdFirst` | dsa/parse_xml.py:19-21 | the id is the whole run after the leftmost label |
| `SmsParse.FloatValue` | dsa/parse_xml.py:26-29 | `float` of a captured numeral fails iff it has two or more dots or no digit |
| `SmsParse.FloatValueShift` | dsa/parse_xml.py:27 | a parsed value is the digits without the dot, divided by ten to the number of fraction digits |
| `SmsParse.FloatOfDigits` | dsa/parse_xml.py:27 | `float` of a plain digit string is its integer value |
| `SmsParse.SecondReplaceNoOp` | dsa/parse_xml.py:24-27 | on the comma-free body, the second `replace(',', '')` changes nothing: `float` gets the match's own text |
| `SmsParse.ExtractAmount` | dsa/parse_xml.py:23-29 | an amount is never negative (the numerals carry no sign); `ExtractAmountFound` states which numeral is read |
| `SmsParse.ExtractAmountFound` | dsa/parse_xml.py:23-29 | no numeral before `RWF` in the comma-free body gives `None`; otherwise the amount is `float` of the leftmost numeral |
| `SmsParse.AmountOfFirst` | dsa/parse_xml.py:24-27 | for a comma-free body, the amount is `float` of the leftmost numeral's slice of the body |
| `SmsParse.FourDigitAmount` | dsa/parse_xml.py:24-27 | for four digits, a space and `RWF` in any case, the amount is the value of the last three digits |
| `SmsParse.UnanchoredAmount` | dsa/parse_xml.py:24-27 | the amount of `2000 RWF` is `0.0` |
| `SmsParse.FallbackStart` | dsa/parse_xml.py:82-83 | the `findall` list is empty iff the body holds no digit; otherwise its first item starts at the first digit |
| `SmsParse.FallbackAmount` | dsa/parse_xml.py:80-87 | the fallback amount is never negative; `FallbackAmountFound` states which numeral is read |
| `SmsParse.FallbackAmountFound` | dsa/parse_xml.py:80-87 | a body without a digit gives no fallback amount; otherwise the fallback is `float` of the first numeral of the original body |
| `SmsParse.ExtractName` | dsa/parse_xml.py:31-39 | a resolved sender or receiver holds only letters, digits, space, `-`, `.` and `'` |
| `SmsParse.ExtractNameFound` | dsa/parse_xml.py:31-39 | the name is `None` iff no candidate follows the keyword; otherwise it is the stripped leftmost shortest candidate |
| `SmsParse.Timestamp` | dsa/parse_xml.py:45-47 | the date text becomes itself with `T` for its whitespace when its fields are a valid date-time, and `None` otherwise |
| `SmsParse.ExtractTimestamp` | dsa/parse_xml.py:41-47 | a timestamp is 19 characters with `T` at position 10; `ExtractTimestampFound` states which date text is converted |
| `SmsParse.ExtractTimestampFound` | dsa/parse_xml.py:41-47 | no date text gives `None`; otherwise only the leftmost date text is converted |
| `SmsParse.ParseSmsBody` | dsa/parse_xml.py:16-56 | the id, sender and receiver that resolve have the character shapes above |
| `SmsParse.ParseSmsBodyFields` | dsa/parse_xml.py:16-56 | the id, sender and receiver are absent iff their pattern finds no candidate; no numeral or no date text makes amount or timestamp absent |
| `SmsDates.DaysInMonth` | dsa/parse_xml.py:45 | months have 28 to 31 days; 29 exactly for February of a Gregorian leap year |
| `SmsDates.Strptime` | dsa/parse_xml.py:45 | parsing succeeds iff the six fields make a valid date-time, and the fields are those of the text |
| `SmsDates.IsoFormat` | dsa/parse_xml.py:45 | `isoformat()` is 19 characters long |
| `SmsDates.IsoRoundTrip` | dsa/parse_xml.py:45 | every valid date-time reads back from its ISO text |
| `SmsDates.IsoOfText` | dsa/parse_xml.py:45 | the ISO text of a date text is the date, `T`, and the time |
| `SmsDates.IsoInPlace` | dsa/parse_xml.py:42-45 | the timestamp of the matched date text is read in place in the message |
| `SmsBatch.ParseInt` | dsa/parse_xml.py:68 | `int` succeeds only on a text that holds a digit; `ParseIntPlain` and `IntRoundTrip` state the values |
| `SmsBatch.ParseIntPlain` | dsa/parse_xml.py:68 | `int` of plain digits is their value; `int` of a text without a digit raises |
| `SmsBatch.PrefixedRefused` | dsa/parse_xml.py:68 | `int` in base 10 refuses a text with a `0x`, `0o` or `0b` prefix (either case) |
| `SmsBatch.IntRoundTrip` | dsa/parse_xml.py:68 | `int(str(n)) == n` for every integer |
| `SmsBatch.ProtocolDefault` | dsa/parse_xml.py:64-68 | a message without `protocol` gets a record with `sms_id` 0 |
| `SmsBatch.GenId` | dsa/parse_xml.py:79 | a generated id starts with `GEN-` and ends with `-` and the position; `GenIdsDistinct` shows positions tell ids apart |
| `SmsBatch.GenIdSuffix` | dsa/parse_xml.py:79 | the text after the last `-` of a generated id is its position |
| `SmsBatch.GenIdsDistinct` | dsa/parse_xml.py:79 | generated ids at different positions differ, whatever the dates |
| `SmsBatch.GeneratedId` | dsa/parse_xml.py:78-79 | a missing or empty id becomes `GEN-<raw_date>-<k+1>` |
| `SmsBatch.GeneratedIdsDistinct` | dsa/parse_xml.py:78-79 | two records without a found id at different positions get different ids |
| `SmsBatch.FoundIdKept` | dsa/parse_xml.py:78 | a found non-empty id is never replaced |
| `SmsBatch.NaturalIdKept` | dsa/parse_xml.py:65-78 | the id the body names is the record's id |
| `SmsBatch.TransactionKeys` | dsa/parse_xml.py:67-77 | every record holds exactly the seven metadata keys and the five parsed keys |
| `SmsBatch.TransactionMetadata` | dsa/parse_xml.py:67-77 | `sms_id`, `raw_date` and `body` survive the merge of the parsed fields |
| `SmsBatch.TransactionAmount` | dsa/parse_xml.py:80-87 | a found amount is kept; otherwise the fallback's result is the amount |
| `SmsBatch.NoDigitNoAmount` | dsa/parse_xml.py:80-87 | a body without a digit gives a record whose amount is `null` |
| `SmsBatch.NoDigitNoNumeral` | dsa/parse_xml.py:24 | a body without digits has no numeral once its commas are removed |
| `SmsBatch.Transaction` | dsa/parse_xml.py:67-87 | the record of one message always holds a string `transaction_id`; its partners `TransactionKeys`, `TransactionMetadata`, `TransactionAmount`, `FoundIdKept` and `GeneratedId` state its keys, metadata, amount and id |
| `SmsBatch.Expected` | dsa/parse_xml.py:63-87 | what the loop makes of one message at position k: a record exactly when `int` of the protocol succeeds; its partners `NaturalIdKept`, `NoDigitNoAmount` and `ProtocolDefault` state its fields |
| `SmsBatch.Assemble` | dsa/parse_xml.py:67-87 | building the dict, `update`, and the two conditional assignments give the transaction record |
| `SmsBatch.BuildRecord` | dsa/parse_xml.py:63-87 | one pass of the loop body gives the expected record, or `None` when `int` raises |
| `SmsBatch.ParseMessages` | dsa/parse_xml.py:61-88 | `None` iff some message's `protocol` is not an integer; otherwise one record per message, in order, the record at i built with position i |
| `ApiServer.CheckAuth` | api/server.py:26-36 | accepted iff the header is present, begins with `Basic `, and its stripped token decodes to `devsquad:devsquadpass` |
| `ApiServer.SchemeSplit` | api/server.py:31 | splitting a `Basic ` header at its first space leaves the text after the scheme |
| `ApiServer.CredentialsSplit` | api/server.py:33-34 | the first `:` splits the decoded text into the fixed user and password iff it is `devsquad:devsquadpass` |
| `ApiServer.ParseId` | api/server.py:44-48 | a returned id is non-empty and holds no `/` |
| `ApiServer.IdOfTrimmed` | api/server.py:45-48 | on the trimmed path: the last piece when there are three pieces or more and the one before it is `transactions`; that piece is non-empty and holds no `/` |
| `ApiServer.ParseIdIff` | api/server.py:44-48 | the result is `Some(id)` iff the path, trailing `/`s dropped, ends in `/transactions/<id>` for a non-empty `id` without `/` |
| `ApiServer.ParseIdOf` | api/server.py:44-48 | the id after `/transactions/` is read back, whatever precedes it |
| `ApiServer.ParseIdTrailingSlash` | api/server.py:45 | a trailing `/` does not change the result |
| `ApiServer.GetOne` | api/server.py:77-85 | found iff some record has the id; then the body is the first such record; otherwise not-found |
| `ApiServer.Without` | api/server.py:153-154 | the length never grows, and it is unchanged iff no record had the id, in which case the list is unchanged |
| `ApiServer.WithoutMembers` | api/server.py:153 | no kept record has the id, every record without it is kept, and nothing else is |
| `ApiServer.WithoutCons` | api/server.py:153 | the head is kept exactly when it does not carry the id |
| `ApiServer.WithoutAppend` | api/server.py:153 | filtering distributes over concatenation, so the kept records stay in order |
| `ApiServer.AppendKeepsDistinct` | api/server.py:106-110 | appending an object whose id no record matches keeps ids pairwise distinct |
| `ApiServer.MergeKeepsDistinct` | api/server.py:134-135 | a merge whose object has no `transaction_id`, or one equal under `==` to the record's own, keeps ids pairwise distinct |
| `ApiServer.MergeCanDuplicate` | api/server.py:131-135 | a PUT whose object carries another record's id leaves two records with equal ids: nothing guards it |
| `Json.PyEqReflexive` | api/server.py:106 | every value of the model's `Json` type (no `NaN`, no infinities) equals itself under `==` |
| `Json.PyEqSymmetric` | api/server.py:106 | `==` on JSON values is symmetric |
| `Json.PyEqTransitive` | api/server.py:106 | `==` on JSON values is transitive |
| `ApiServer.WithoutKeepsDistinct` | api/server.py:153 | deleting keeps the remaining ids pairwise distinct |
| `ApiServer.Store.Fetch` | api/server.py:65-87 | the collection path lists every record; under `/transactions/`, a missing id is a bad request and otherwise the single lookup; any other path is not-found |
| `ApiServer.Store.Create` | api/server.py:92-115 | wrong path is not-found; unparsable body is a bad request; a falsy id is a bad request; a taken id conflicts; otherwise the object is appended; the store changes only in the last case |
| `ApiServer.Store.Update` | api/server.py:120-142 | the first record with the id becomes itself merged with the object, everything else is unchanged; no match is not-found and leaves the store unchanged |
| `ApiServer.Store.Delete` | api/server.py:147-158 | the store becomes the records without the id; not-found iff no record had the id, no content otherwise |
| `DsaCompare.MakeDict` | dsa/dsa_compare.py:11-12 | the keys are exactly the ids; the value for an id is its last record |
| `DsaCompare.LinearSearch` | dsa/dsa_compare.py:14-18 | for records whose ids may be any JSON value: the first record whose id `==` `tid`, `None` when none has it |
| `DsaCompare.LookupsAgree` | dsa/dsa_compare.py:21-32 | with pairwise-distinct ids, the scan and the dictionary lookup give the same answer for every key |
| `DsaCompare.HasIdText` | dsa/dsa_compare.py:16 | with a string id, Python's `==` on it is string equality |
| `DsaCompare.Dup` | dsa/dsa_compare.py:44-45 | the copy has the same keys and fields, except the id gains `-dup<i>` |
| `DsaCompare.Pad` | dsa/dsa_compare.py:41-46 | 20 or more records are left alone; 1 to 19 become exactly 100; the originals are kept; each later record i is a suffixed copy of an earlier one; an empty list makes `randrange(0)` raise (`None`) |
| `Text.Strip` | dsa/parse_xml.py:34 | `strip()` drops only leading and trailing whitespace and leaves none at either end |
| `Text.RStripChar` | api/server.py:45 | `rstrip(c)` drops only trailing `c`s and leaves the text not ending in `c` |
| `Text.Remove` | dsa/parse_xml.py:24 | `replace(c, '')` leaves a text without `c`, and one without `c` unchanged |
| `Text.RemoveKeeps` | dsa/parse_xml.py:24 | `replace(c, '')` only keeps characters of the text |
| `Text.Split` | api/server.py:45 | `split(sep)` gives pieces without `sep` that join back to the text |
| `Text.SplitOnce` | api/server.py:33 | `split(sep, 1)` gives one piece iff `sep` is absent, else the text before the first `sep` and the rest |
| `Text.NatToString` | dsa/parse_xml.py:79 | `str(n)` is a digit string whose value is `n`; it starts with `0` only for 0 |
| `Json.FirstIndex` | api/server.py:78 | the position of the first record with the id, or the length when none has it |
| `Json.PyEqString` | api/server.py:132 | compared with a string, Python's `==` is plain equality |

## Left out

- Reading the XML (`ET.parse`), reading and writing files (`load_data`, `save_data`,
  `json.dump`), `json.loads` and `print` are I/O. The input is a sequence of attribute maps.
  A request body is given as `Option<Json>`, with `None` when `json.loads` fails.
- The HTTP plumbing is left out: `send_response`, headers, `rfile`/`wfile`, `run`,
  `serve_forever`, the `do_AUTH` wiring and the `401` reply.
- The JSON encoding of response bodies is left out. The model's response carries the value
  that would be encoded.
- `ThreadingHTTPServer` concurrency and the unlocked read-modify-write of the data file are
  not modelled. Each operation runs alone on the store.
- `ApiServer.CheckAuth`: base64 and UTF-8 decoding, along with the exceptions they raise, are
  the parameter `decode` (`None` on failure).
- `ApiServer.CheckAuth`: `strip()` of the token is the ASCII whitespace set only. Python also
  strips Unicode whitespace.
- `Json.PyEqReflexive`: the `Json` type has no `NaN` or infinities, and it keeps floats
  exact. `json.loads` accepts `NaN`, `Infinity` and `-Infinity`, and it rounds `1e400` to
  `inf`, so `1e400 == 1e401` holds in Python but not in the model. A record whose id is `NaN`
  is unequal to itself. Reflexivity, and with it the duplicate check of POST
  (`ApiServer.AppendKeepsDistinct`), therefore does not describe the source for a `NaN` id:
  the same `NaN` id can be POSTed any number of times, and each POST gets `201`.
- `float` rounding is not modelled: amounts are exact decimals. `datetime` internals are
  reduced to the calendar validity check and the ISO format.
- Unicode is left out. `\d`, `\s`, `re.IGNORECASE` and `str.strip` are modelled on ASCII. The
  extractor's operations require an ASCII body (`IsAscii`). `int` requires an ASCII
  `protocol` (`AsciiAttrs`), so `int` of non-ASCII digits is not modelled.
- `SmsParse.ParseSmsBodyFields`: for the amount and the timestamp, it states only the
  "nothing matched gives `None`" direction. A match can still give `None`, through `float`
  or `strptime` failing. The value found is stated in `SmsParse.ExtractAmountFound` and
  `SmsParse.ExtractTimestampFound`.
- `SmsBatch.ParseIntPlain`: `int` is called in base 10, and the model accepts exactly
  whitespace, an optional sign, and digits with single underscores. A prefixed text such as
  `0x1f`, `0o7` or `0b1` is refused (`None`), as Python refuses it
  (`SmsBatch.PrefixedRefused`).
- `ApiServer.Store.Create`: a request body that parses to JSON but not to an object makes
  `obj.get` raise in the source. The model gives `Aborted`, and the store is unchanged.
- `ApiServer.Store.Update`: `dict.update` succeeds in Python on some JSON bodies that are not
  objects: a list of pairs, and an empty iterable such as `""` or `[]`. The model treats every
  non-object body at a matching record as `Aborted`, with the store unchanged.
- `ApiServer.Store.Update`: a PUT whose object carries another record's id makes two records
  share an id, as in the source; `ApiServer.MergeCanDuplicate` shows it.
- The store holds record values, so the aliasing of the dict that `r.update` mutates is not
  modelled. Before the save, that dict is the list's own element, so the two agree.
- The timing in `time_searches` (`time.perf_counter`) is left out.
- `random.randrange` is the parameter `pick` of `DsaCompare.Pad`. `random.sample` of the 20
  benchmark keys is left out; `DsaCompare.LookupsAgree` holds for any key.
- `DsaCompare.LinearSearch` requires every record to have a `transaction_id` (`HasIds`).
  A missing key raises `KeyError` in the source, and that error path is not modelled. Ids of
  any JSON type are compared with `==`. The searched key `tid` is a string.
- `DsaCompare.MakeDict` requires string ids (`StringIds`). A map keyed by strings cannot model
  how a Python dict merges the keys `1`, `1.0` and `True` into one. It also cannot model the
  `TypeError` that an unhashable id (a list or an object) raises. A missing id raises
  `KeyError`, which is not modelled either.
- `DsaCompare.Pad` requires string ids (`StringIds`), because the `+` on the id raises
  `TypeError` for any other type. That error path is not modelled.
- `DsaCompare.LookupsAgree` requires string ids (`StringIds`), as `DsaCompare.MakeDict` does.
- `SmsBatch.ParseInt`: it strips the whitespace of `Text.IsSpace`, which includes the
  characters 0x1c to 0x1f. For an ASCII text, `int` skips only space, tab, newline, vertical
  tab, form feed and carriage return. XML 1.0 forbids 0x1c to 0x1f in attribute values, so
  they cannot reach `int` here.
