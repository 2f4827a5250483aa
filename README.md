# WHO growth z-score endpoint — a Dafny model

The growth API answers one request, `POST /zscore`. A request names a child's sex,
an indicator ("length" for length-for-age, "weight" for weight-for-age, "wfl" for
weight-for-length), an age in years and months, and a length and/or a weight. The
handler `compute_z` does the following:

- It picks one of the WHO LMS reference tables by `(sex.upper(), indicator.lower())`.
- It checks the request's fields in a fixed order.
- It coerces the table's key column to numbers in place. That column is `Month`, or
  the first column for weight-for-length.
- It takes the first row whose key equals the age in months (`years*12 + months`) or
  the length exactly.
- It computes Cole's LMS z-score `((x / M) ** L - 1) / (L * S)` from that row.
- It classifies the unrounded z into one of four categories per indicator.

The handler exists twice, in `api/zscore.py` (six tables) and in `main.py` (five
tables, no girls' length-for-age).

The model:

- `wrappers.dfy` (`Wrappers`): `Option`.
- `ascii.dfy` (`Ascii`): `Upper`/`Lower` on ASCII letters, and the lemmas that make
  selection case-insensitive. `UpperSelects` and `LowerSelects` state that `s.upper() == "M"`
  exactly when `s` is "M" written in any case, and the same for the indicators.
- `numeric.dfy` (`Numeric`): the decimal reader behind `pd.to_numeric(...,
  errors="coerce")` and `float(...)`, with the round trips `ParseShowInt` and
  `ParseShowDecimal` against a decimal writer.
- `frames.dfy` (`Frames`): cells (`Num`, `Text`, `NaN`) and a `Frame` class. A frame
  has a fixed header and an `array` of rows. `Frame.CoerceColumn` rewrites one key
  column in place. The file also holds the exact-match `FirstMatch` and `IndexOf`,
  both characterised by their contracts, and the lemmas that coercion is idempotent,
  local to the key column, and turns unreadable keys into NaN, which never match.
- `scoring.dfy` (`Scoring`): `ZScore` and `Classify`, which is the source's three
  if/elif chains. It also holds a reference banding `BandOf` whose contract is the
  partition of the reals at -3, -2 and 2. `ClassifyByBand` ties the two together.
- `endpoint.dfy` (`Endpoint`): the shared pipeline.
  - `Respond` is the answer as a function of the tables' contents.
  - `AfterRequest` is the tables' contents after the request.
  - `Handle` is the imperative handler over a `map` from keys to `Frame`s.
  - Its lemmas cover the validation order, the age and length lookups, the
    median-scores-zero property, and `CoercionUnobservable`: the in-place coercion
    never changes any later answer.
- `zscore_api.dfy` (`ZscoreApi`) and `main_app.dfy` (`MainApp`): the two entry points.
  Each has its own table keys, error texts and `ComputeZ`.

Modelling choices:

- The `**` of the formula is a parameter `pow: (real, real) -> real`. Only `pow(1, L) == 1`
  is assumed, and only by the lemmas that need it.
- Any NaN in the L, M or S cell of the matched row yields `Error.ServerFault`. So do a
  missing L, M or S column, unreadable text there, `M == 0` and `L * S == 0`. Each of these
  either raises in the handler or produces a NaN z-score. Starlette refuses to serialise
  a NaN, so the client sees status 500 either way.

Behaviour of `compute_z` that the model keeps as the code has it:

- `compute_z` mutates the shared tables in place on every request that gets past the age
  check and the Month-column check (or past the length-and-weight check). The
  coerced column stays coerced for every later request.
- In the age branch the coercion happens before the measurement check
  (api/zscore.py:87 and :90). So even a request refused with "Provide length (cm)"
  coerces the table.
- Only the `Month` column is checked per request (status 500 when it is missing). A
  missing L, M or S column is not checked at load time. It surfaces as an uncaught
  exception.
- `main.py` has five tables, not six.

## Model

| member | source | states |
|---|---|---|
| `ZscoreApi.SelectsExactlySixPairs` | api/zscore.py:46-53 | a request selects a table iff its sex is "M"/"F" and its indicator "length"/"weight"/"wfl", each in any letter case |
| `ZscoreApi.UnknownPairRejectedFirst` | api/zscore.py:76-78 | "Unknown sex or indicator" is the answer exactly for the unsupported pairs, and such a request changes no table |
| `ZscoreApi.KeysOfAgeTables` | api/zscore.py:81-100 | among the six keys, the age-indexed branch is taken for every indicator except "wfl", and only "wfl" is classified as weight-for-length |
| `ZscoreApi.WflWithoutWeightRejected` | api/zscore.py:94-95 | ("m", "WFL") with a length and no weight is refused with the combined length-and-weight error |
| `ZscoreApi.UnknownSexRejected` | api/zscore.py:76-78 | sex "X" is refused as unknown whatever the indicator and other fields |
| `ZscoreApi.DetailsDistinct` | api/zscore.py:78-103 | each refusal has its own detail text |
| `ZscoreApi.ComputeZ` | api/zscore.py:66-143 | the handler answers `Respond` on the tables as they were, leaves them as `AfterRequest`, and refuses as unknown exactly the unsupported pairs |
| `MainApp.SelectsExactlyFivePairs` | main.py:11-17 | a request selects a table iff it is for boys with any of the three indicators, or for girls with weight or wfl |
| `MainApp.GirlsLengthUnknown` | main.py:37-39 | a girls' length-for-age request, in any case spelling, is refused as an unknown pair and changes no table |
| `MainApp.GirlsWeightSelects` | main.py:15-16 | girls' weight and wfl requests are never refused as unknown |
| `MainApp.DetailsAsInApi` | main.py:50 | the two entry points word every refusal alike except the missing Month column |
| `MainApp.ComputeZ` | main.py:31-115 | the handler answers `Respond`, leaves the tables as `AfterRequest`, and refuses girls' length-for-age without touching any table |
| `Ascii.CaseVariantsFoldAlike` | api/zscore.py:69-70 | strings that differ only in letter case upper-case and lower-case to the same string |
| `Ascii.UpperIsCaseVariant` | api/zscore.py:69 | `upper()` changes only the case of letters and leaves no lower-case letter |
| `Ascii.LowerIsCaseVariant` | api/zscore.py:70 | `lower()` changes only the case of letters and leaves no upper-case letter |
| `Ascii.UpperSelects` | api/zscore.py:69 | for an upper-case target, `s.upper()` equals it iff `s` spells it in some mixture of cases |
| `Ascii.LowerSelects` | api/zscore.py:70 | for a lower-case target, `s.lower()` equals it iff `s` spells it in some mixture of cases |
| `Endpoint.CaseInsensitive` | api/zscore.py:69-76 | requests differing only in the case of sex and indicator get the same answer and leave the tables in the same state |
| `Endpoint.UnknownPairFirst` | api/zscore.py:76-78 | the unknown-pair error is returned iff the normalised key is not in the dictionary, and then nothing is coerced |
| `Endpoint.AgeValidationOrder` | api/zscore.py:81-91 | for length/weight: a missing age decides first, then a missing Month column, then a missing measurement (by indicator); "no data" only when all are present |
| `Endpoint.AgeMonths` | api/zscore.py:84 | the age key `years*12 + months` gives back years and months by division and remainder when months is in 0..11 |
| `Endpoint.AgeLookup` | api/zscore.py:84-108 | with all fields present, "no data" iff no coerced Month equals years*12+months; a score comes from the L, M, S of the first matching row |
| `Endpoint.WeightForLengthLookup` | api/zscore.py:94-108 | wfl: combined error iff length or weight is missing; "no data" iff no coerced first-column value equals the length; a score uses the weight against the first matching row |
| `Endpoint.ScoredIsLmsScore` | api/zscore.py:106-141 | every scored answer is the LMS z of the request's measurement from a computable row, classified for the request's indicator |
| `Endpoint.ReachedRowDecides` | api/zscore.py:102-143 | once a request passes every check and its lookup value first matches row i, that row decides the answer: the classified z-score of the measurement when its L, M and S read as numbers with M != 0 and L*S != 0, and a server fault otherwise |
| `Endpoint.MedianIsNormal` | api/zscore.py:106-130 | a request whose measurement equals the M of the row it reaches is scored exactly 0 and "Normal" (given 1 ** L == 1) |
| `Frames.FirstMatchFinds` | api/zscore.py:88 | the lookup returns the first matching row whenever one exists |
| `Endpoint.CoercionIsLocal` | api/zscore.py:87-99 | a request changes only the key column of the selected table; other tables, the header and other cells are unchanged |
| `Endpoint.CoercionUnobservable` | api/zscore.py:85-99 | after any earlier request, every later request gets the answer the freshly loaded tables would give; repeating a request changes the tables no further |
| `Endpoint.Status` | api/zscore.py:76-103 | missing Month column and uncaught faults are status 500, every other refusal 400 |
| `Endpoint.CoercedColumn` | api/zscore.py:81-99 | the coerced column, when there is one, belongs to the table the request selects and lies within its header: its Month column for "length" and "weight", its first column for "wfl" |
| `Endpoint.AfterRequest` | api/zscore.py:87-99 | the tables after a request keep the same keys and stay well formed |
| `Endpoint.RequestUpdatesTable` | api/zscore.py:81-99 | a "length" or "weight" request with years, months and a Month column replaces its table's Month column by its numeric reading, whatever its measurement; a "wfl" request with length and weight does the same to the first column; every other request leaves all tables as they were |
| `Endpoint.LaterRequestKeepsTables` | api/zscore.py:87-98 | once a request has coerced its table, a later request selecting the same table leaves every table unchanged |
| `Endpoint.Handle` | api/zscore.py:67-143 | the handler over the shared frames returns `Respond` of the old contents and leaves them equal to `AfterRequest`, keeping every frame valid and unaliased |
| `Frames.Frame.CoerceColumn` | api/zscore.py:87 | coerces one column of the frame's array in place; the new contents are the old rows with that column coerced |
| `Frames.ToNumeric` | api/zscore.py:87 | coercion yields a number or NaN, and a text cell becomes a number iff it reads as a decimal |
| `Frames.CoercionStable` | api/zscore.py:87 | coercing a cell twice is coercing it once, and coercion does not change the value `float()` later reads from it |
| `Frames.CoerceRows` | api/zscore.py:98 | coercing a column keeps the number of rows and the width of every row |
| `Frames.CoerceOnlyKeyColumn` | api/zscore.py:98 | coercion changes no cell outside the key column, and each key cell becomes its numeric reading |
| `Frames.CoerceIdempotent` | api/zscore.py:87 | coercing a column twice gives the same rows as coercing it once |
| `Frames.UnreadableKeyNeverMatches` | api/zscore.py:98-99 | a key whose text is not a number becomes NaN and matches no query |
| `Frames.MonthTextMatches` | api/zscore.py:87-88 | a Month cell holding the text of n matches the age key n after coercion |
| `Frames.LengthTextMatches` | api/zscore.py:98-99 | a length cell written "w.d" matches the length w + d/10 after coercion |
| `Frames.FirstMatch` | api/zscore.py:102-108 | returns the first row whose key cell equals the key exactly, and None iff no row does |
| `Frames.IndexOf` | api/zscore.py:85-87 | the column a name selects is a position holding that name, with no earlier position holding it |
| `Numeric.ParseShowInt` | api/zscore.py:87 | the decimal text of any integer reads back as that integer |
| `Numeric.ParseShowDecimal` | api/zscore.py:98 | "w.f" with digit string f reads back as w + f/10^len(f) |
| `Numeric.ShowNatDigits` | api/zscore.py:87 | the decimal text of a natural number is a non-empty digit string whose value is that number |
| `Scoring.IndicatorOf` | api/zscore.py:115-133 | "length" is length-for-age and "weight" weight-for-age; everything else is weight-for-length |
| `Scoring.BandOf` | api/zscore.py:115-141 | the four bands are the disjoint intervals z < -3, -3 <= z < -2, -2 <= z <= 2 and z > 2 |
| `Scoring.ClassifyByBand` | api/zscore.py:115-141 | each indicator's chain gives exactly the label of the band z lies in |
| `Scoring.LabelsDistinct` | api/zscore.py:115-141 | within one indicator, the label determines the band |
| `Scoring.ClassifyBoundaries` | main.py:85-113 | -3 is the moderate category, -2 and 2 are "Normal", and anything above 2 is the high category |
| `Scoring.BandMonotone` | api/zscore.py:116-121 | a larger z never lands in a lower band |
| `Scoring.MedianScoresZero` | api/zscore.py:111 | a measurement equal to M scores exactly 0, which is "Normal" for every indicator (given 1 ** L == 1) |

## Findings

| source | as written | input that shows it | evidently intended | confidence | as-written member | corrected member |
|---|---|---|---|---|---|---|
| main.py:11-17 | the table dictionary has no ("F", "length") entry | sex "F", indicator "length", years 1, months 0, length 75.0 is refused with "Unknown sex or indicator" | girls' length-for-age is served, as in api/zscore.py:50 and as the request schema's comment ("length", "weight", or "wfl" for either sex) describes | medium; not executed | `MainApp.GirlsLengthUnknown` | `ZscoreApi.SelectsExactlySixPairs` |

## Left out

- FastAPI application, routing and the OpenAPI schema customisation: framework glue with no decision logic.
- Logging: a side effect only.
- Loading the CSV files with `pd.read_csv`: file I/O. Tables are given as in-memory frames that are well formed (at least one column, all rows as wide as the header). Pandas' renaming of duplicate column names is not modelled, so `IndexOf` takes the first one.
- Pydantic parsing of the request body: the request is a record of strings and optional integers and reals.
- `async` handling and concurrency: irrelevant to the logic.
- HTTP transport: refusals are an `Error` kind with a detail text and a 400/500 status.
- Floating point: every number is an exact real. Equality of a request's length with a parsed table key is exact equality of reals, not of binary doubles.
- `Scoring.ZScore`: `**` is an uninterpreted parameter, so its failures are not modelled. These are `0.0 ** negative` raising ZeroDivisionError, and a negative base to a fractional power giving a complex number, on which `round(z, 1)` (api/zscore.py:112) raises TypeError. Either way the client sees status 500.
- `Endpoint.Respond`: the z-score is reported unrounded. Python's `round(z, 1)` is not modelled, and classification uses the unrounded z as the source does.
- `Numeric.ParseNumber`: reads only plain decimals (optional sign, digits, optional fraction). Exponent notation, surrounding whitespace, underscores and the spellings "inf"/"nan" are not recognised, so such texts read as unreadable.
- Unicode case mapping: `upper()`/`lower()` are modelled on ASCII letters only. Other characters are left unchanged.
