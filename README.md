# Land-records retrieval pipeline, modelled in Dafny

This project models the core of a small client for a county clerk's
recorded-instruments search service (`new_test.py`). The client asks the
service for the instruments recorded under a name in a date range, tells a
list answer apart from an error answer, and normalises every raw record into
six fixed fields. The fields include the links to the document's page images.
Those links are addressed by an access key, which is derived from the
record's GIN (global instrument number) by a digit-substitution codec. A
secondary lookup reads an instrument's date from a `/Date(<ms>)/` envelope
and splits its parties into grantors and grantees.

The source is pure expression code. The model is therefore datatypes,
functions and lemmas, one module per component:

- `Wrappers`: `Option` and `Result`; a Python call either returns (`Ok`) or raises (`Err`).
- `Config`: the `ENCODE_KEY` and `IMAGE_URL` constants.
- `PyStr`: the Python string operations the code relies on: `str(n)`, `int(s)`, and `s.strip(chars)` (which strips a character set).
- `Json`: decoded JSON values, plus Python truthiness, `len()`, `dict.get`, `int()` and iteration as the code applies them.
- `AccessKey`: `get_access_key` and its inverse.
- `ImageLinks`: `get_images_links` and a parser that reads a link back.
- `Records`: `process_item`.
- `Response`: `check_for_error` and `parse_results`.
- `Pipeline`: `get_records`.
- `Query`: the name and criteria built in `fetch_records`.
- `Enrichment`: lines 33-40 of `get_additional_info`, with the exception handler around them.

Nothing in the model performs I/O, so everything I/O would supply is a parameter:

- `GetRecords` takes what `fetch_records` returned: `None` after a failed request, or the outcome of `response.json()`.
- The second decode in `check_for_error` is an arbitrary function `loads: string -> Option<Json>`. `None` means `json.loads` raised.
- `GetAdditionalInfo` takes the decoded answer, or `None` when the request or the decode failed.

A reader of the code might expect every parse failure to degrade to an empty result. The code does not always do that, and the model follows the code:

- `check_for_error` runs outside the `try` of `parse_results`. So if a string answer's second decode fails, or gives something that is not an object, the exception leaves `get_records`. The model returns `Err(JSONDecodeError)` or `Err(AttributeError)` there.
- `len(records_list)` in the log line raises `TypeError` when the answer is JSON null, a number or a bool.
- An `Error` field marks an error only when its value is truthy. A string answer whose re-decoded object has no truthy `Error` is returned as the string itself. `get_records` then iterates its characters and calls `.get` on the first one, which raises `AttributeError`. The string cannot be empty here, because the re-decode of `""` has already raised.
- Only one extra decode is applied. A doubly wrapped string re-decodes to a string, and its `.get` raises `AttributeError`.
- The date envelope is not removed as a prefix and a suffix. The code strips a character set from both ends. If `int()` then rejects the rest, for example a time-zone offset as in `/Date(1700000000000-0500)/`, the whole lookup answer becomes empty, parties included.

## Model

| member | source | states |
|---|---|---|
| `AccessKey.EncodeKeyDistinct` | new_test.py:15 | the substitution alphabet has 10 characters, pairwise distinct |
| `AccessKey.GetAccessKey` | new_test.py:52-53 | the key has the GIN's length, and its character i is `ENCODE_KEY[digit i]`, so order is preserved |
| `AccessKey.DecodeCharOfEncoded` | new_test.py:15 | the substitute of a digit is mapped back to that digit (uses the alphabet's distinctness) |
| `AccessKey.DecodeEncode` | new_test.py:52-53 | decoding the access key of any digit string gives that digit string back |
| `AccessKey.EncodeDecode` | new_test.py:52-53 | a key that decodes to some GIN is exactly that GIN's access key (the other direction of the round trip) |
| `AccessKey.GetAccessKeyInjective` | new_test.py:52-53 | distinct GINs never share an access key |
| `Json.Truthy` | new_test.py:35 | a value is falsy exactly when it is null, `false`, `0`, `""`, `[]` or `{}` |
| `Json.HasLen` | new_test.py:108 | `len()` is defined exactly for strings, lists and dicts, and for those truthiness is non-emptiness |
| `Json.Get` | new_test.py:67 | `d.get(key, default)` gives the stored value when the key is present and the default otherwise |
| `Json.IntOf` | new_test.py:63 | `int()` of a string is `int()` of its text (the decimal value for a digit string); `int()` of a bool is 1 or 0 |
| `Json.EqualsInt` | new_test.py:38-39 | `v == n` holds only for a number or a bool (never a string) whose integer value is n, and for those exactly then |
| `PyStr.NatToString` | new_test.py:63 | `str(i)` is a non-empty digit string without a leading zero |
| `PyStr.DigitsValueOfNatToString` | new_test.py:63 | reading the digits of `str(n)` back gives n |
| `PyStr.NatToStringInjective` | new_test.py:63 | distinct page indices have distinct decimal texts |
| `PyStr.LeadingCount` | new_test.py:36 | the longest prefix made only of the strip characters |
| `PyStr.TrailingCount` | new_test.py:36 | the longest suffix made only of the strip characters |
| `PyStr.Strip` | new_test.py:36 | `strip(chars)` never lengthens; a non-empty result neither starts nor ends with a strip character; the result is empty exactly when every character is a strip character |
| `PyStr.StripAll` | new_test.py:36 | a text made only of strip characters strips to `""` |
| `PyStr.StripKeepsCore` | new_test.py:36 | strip removes exactly the strip-set characters around a core that neither starts nor ends with one |
| `PyStr.StripNothing` | new_test.py:36 | a string that neither starts nor ends with a strip character is unchanged |
| `PyStr.SignedDigitsValue` | new_test.py:36 | `int()` accepts exactly an optional sign followed by one or more decimal digits |
| `PyStr.StrToInt` | new_test.py:36 | `int()` of a plain digit string is its decimal value; `int()` of an empty or all-whitespace text raises |
| `PyStr.StrToIntOfNatToString` | new_test.py:76 | `int(str(n)) == n`, so a page count written `str(N)` means N |
| `PyStr.IntToString` | new_test.py:36 | `str(n)` of any integer is non-empty, starts with a digit or `-`, ends with a digit, and `int()` reads it back as n |
| `Json.ObjectsOf` | new_test.py:115 | a list yields its dicts, in order, exactly when every element is a dict |
| `Json.DictElements` | new_test.py:38-39 | iterating a value and calling `.get` on each element succeeds exactly for a list of dicts, `""` or `{}`; `TypeError` exactly for values without `len` |
| `ImageLinks.LastIndexOf` | new_test.py:63 | the position of the last comma, or no comma at all |
| `ImageLinks.ImageLink` | new_test.py:63 | the link is `IMAGE_URL`, a comma, the key, a comma and `str(page)`, with each part at its position |
| `ImageLinks.PageCount` | new_test.py:63 | `range(int(n))` has `int(n)` items, or none when `int(n)` is negative |
| `ImageLinks.ParseKeyAndPageOf` | new_test.py:63 | the `key,str(page)` tail of a link is read back into that key and that page, whatever commas the key holds |
| `ImageLinks.ParseImageLinkOfImageLink` | new_test.py:63 | every link built from a key and a page is read back into that key and that page |
| `ImageLinks.ImageLinkInjective` | new_test.py:63 | two links are equal only for the same key and the same page |
| `ImageLinks.GetImagesLinks` | new_test.py:62-63 | `max(0, int(num_images))` links; link i is `IMAGE_URL,key,str(i)` and parses back to page i; no two links are equal |
| `ImageLinks.GetImagesLinksOfPageString` | new_test.py:62-63 | a page count `str(N)` yields exactly N links |
| `Records.Gin` | new_test.py:67 | the `gin` value when present, else the empty digit string |
| `Records.NumPages` | new_test.py:76 | the `num_pages` value when present, else `"0"`, which gives no pages |
| `Records.ProcessItem` | new_test.py:66-77 | the record has one image link per page of `num_pages`, and link i is page i of the GIN's access key |
| `Records.ProcessItemDefaults` | new_test.py:70-77 | each of the five text fields is the raw value when present and `""` otherwise; no `num_pages` means no links; no `gin` means links with the empty key |
| `Records.ProcessItemLinksRecoverGin` | new_test.py:66-77 | every image link of a normalised record parses to its page index and to a key that decodes to the record's GIN |
| `Records.ProcessItemReadsOnlyItsKeys` | new_test.py:66-77 | keys other than the seven it reads do not change the normalised record |
| `Response.CheckForError` | new_test.py:56-59 | `None` for any non-string answer; for a string, the re-decoded object's `Error` field, or `None` when absent; the result is truthy exactly when the re-decoded object's `Error` field is truthy; it raises exactly when the re-decode does not give an object |
| `Response.ParseResults` | new_test.py:98-109 | `[]` when the body is not JSON; a list answer is returned unchanged; otherwise the result is `[]` or the decoded value itself, and always has a length |
| `Response.ParseResultsEmptyIff` | new_test.py:98-109 | the result is `[]` exactly when the body is not JSON, reports a truthy error, or is the empty list |
| `Response.ParseResultsRaisesIff` | new_test.py:98-109 | it raises exactly when the string's re-decode fails or the value has no length; `TypeError` exactly for null, bool and number answers |
| `Response.ParseResultsOfEmptyList` | new_test.py:98-109 | the body `[]` gives `[]` with no error |
| `Response.ParseResultsOfErrorString` | new_test.py:104-107 | the string answer `{"Error":"bad request"}` gives `[]` |
| `Pipeline.GetRecords` | new_test.py:112-116 | no response gives `[]`; for a list answer the output has one element per raw record, element i being the normalised record i; only a decoded response can raise |
| `Pipeline.GetRecordsOfList` | new_test.py:115 | a list answer is normalised without error exactly when all its elements are dicts; otherwise `AttributeError` |
| `Pipeline.GetRecordsEmptyCases` | new_test.py:112-116 | a failed request, a body that is not JSON or a reported error all give `[]` |
| `Query.FirstSpace` | new_test.py:81 | the position of the first space, or no space |
| `Query.FullName` | new_test.py:81 | the name is the surname, one space and the first name, each at its position |
| `Query.SplitFullNameOfFullName` | new_test.py:81 | the composed name puts the surname first, and a space-free surname and the first name are read back from it |
| `Query.BuildCriteria` | new_test.py:80-86 | the criteria's name is the surname, a space and the first name, whatever they contain; for a space-free surname it splits back into (first, last); both dates pass through unchanged |
| `Query.PayloadRoundTrip` | new_test.py:82-86 | the one-element criteria list that gets JSON-encoded can be read back into the same criteria |
| `Query.CriteriaPayload` | new_test.py:82-86 | the serialised value is a one-element list holding a dict with exactly the keys `full_name`, `file_date_start`, `file_date_end`, from which the criteria are read back |
| `Enrichment.DecodeFileDate` | new_test.py:33-36 | a falsy `FileDate` gives no date; a truthy non-string raises; otherwise the date is `int()` of the value stripped of the envelope characters, and it raises exactly when `int()` rejects that |
| `Enrichment.StripEnvelope` | new_test.py:36 | stripping `/Date(`…`)/` leaves the wrapped text when that neither starts nor ends with an envelope character |
| `Enrichment.DecodeFileDateOfEnvelope` | new_test.py:36 | `/Date(n)/` decodes to n for every integer n |
| `Enrichment.DecodeFileDateOfText` | new_test.py:35-36 | a non-empty date text whose stripped form `int()` reads as n decodes to n |
| `Enrichment.DecodeFileDateSample` | new_test.py:36 | `/Date(1700000000000)/` decodes to 1700000000000 |
| `Enrichment.PartyName` | new_test.py:38-39 | a party contributes its `PartyName` (or `""`) exactly when its `Direction` equals the wanted one, and nothing otherwise |
| `Enrichment.PartyNames` | new_test.py:38-39 | the selection is at most as long as the party list, all of it when every party matches, and empty when none does |
| `Enrichment.PartyNamesAppend` | new_test.py:38-39 | party selection keeps input order: it distributes over concatenation |
| `Enrichment.PartitionSizes` | new_test.py:38-39 | no party is both grantor and grantee; the two lists hold every party exactly when every direction is 0 or 1 |
| `Enrichment.GetAdditionalInfo` | new_test.py:28-43 | a failed request or decode, or a non-object answer, gives the empty info; a failure of the date or of the party iteration also empties the whole answer; otherwise "from" holds the names with Direction 1, "to" those with Direction 0, with the decoded date |

## Left out

- `requests.get`, `raise_for_status` and the URLs of the search and lookup requests (new_test.py:23-27, 87-95) are network I/O. Their outcomes are the `Option` parameters of `GetRecords` and `GetAdditionalInfo`.
- The inside of `json.loads`, `json.dumps` and `urllib.parse.quote` is library code. JSON is modelled as decoded values, and the second decode is a function parameter. `Query.CriteriaPayload` stops at the value that gets serialised.
- Logging calls, `save_records_to_json`, `runner` and main.py (the Streamlit form and the downloads) are side effects and presentation.
- JSON floating-point numbers are not modelled. So `1.0 == 1` for `Direction` and `int(3.7)` for `num_pages` are not covered.
- `int()` of a string: the model strips ASCII whitespace and accepts an optional sign and ASCII digits. Python also accepts `_` between digits, non-ASCII digits and non-ASCII whitespace.
- Records.ProcessItem: requires a `gin` of ASCII digits and a `num_pages` that `int()` accepts, instead of modelling the `ValueError`/`TypeError` the code raises for other values. For the same reason, `Pipeline.GetRecords` requires this of every dict it reaches. A `gin` that is a list of digit strings, which Python happens to accept, is excluded as well.
- The five pass-through fields keep the raw JSON value, whatever its type, as the code does. Iterating a non-empty dict is modelled only by its outcome, an `AttributeError` on the first key, because key order does not matter there.
- The enrichment lookup is not called by `get_records`, as in the source, and the model does not merge its result into the normalised records.
- The second decode `loads` is unconstrained. It may decode texts that `json.loads` rejects, such as `""`, so the lemmas about `ParseResults` and `GetRecords` hold for every decoder, not only for `json.loads`.
