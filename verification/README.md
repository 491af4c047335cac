# TEMFC eligibility engine — a Dafny model

This project models the eligibility engine of the TEMFC backend. The engine reads a
doctor's professional history, exported from the national facility registry (CNES) as a
semicolon-separated table with one line per facility, month and occupation. From it, the
engine decides whether the doctor has the 48 months of family-medicine practice the
TEMFC board exam requires.

The model covers these parts of the engine:

- **The accumulator** (`ProfessionalExperienceValidator`):
  - the set of fully credited months;
  - per-month counts for the 30–40, 20–30 and 10–20 weekly-hour bands;
  - the accepted rows;
  - the accepted facilities;
  - the two buffers of the 10–20 band;
  - the total: 1 per full month, 0.75 per 30–40 count and 0.5 per 20–30 count.
- **The four band validators**, run in the fixed order 40, 30, 20, 10, each with the
  consolidation step it runs after its pass:
  - two 30–40 rows make a full month;
  - a 30–40 and a 20–30 row for the same month make a full month;
  - 10–20 rows buffer, upgrade an existing single count, or are promoted at the end
    (four rows make a full month, three a 30–40 count, two a 20–30 count).
- **The data processor**:
  - the required-column check;
  - the admission gate: enough hours, and a family-medicine description, or a clinician
    or generalist description at an accepted facility;
  - lines with unusable hours are skipped;
  - one full pass per band;
  - the stable sort of the accepted rows, newest month first;
  - the verdict: eligible at 48 months, the months still pending, and per band the
    number of whole semesters (its months or counts divided by six).
- **The facility resolver**:
  - CNES codes are zero-padded to seven characters;
  - candidate lines are kept when they have 10 hours or more and a clinician or
    generalist description, first occurrence per CNES;
  - each kept facility is checked by the registry store, which answers registered,
    refused or unknown;
  - an unknown answer falls back to the online check;
  - any failure of either call excludes only that facility.
- **Helpers**:
  - the occupation-vocabulary matcher;
  - the competence-month parser, which accepts `MM/YYYY` and Portuguese `mmm/YY`;
  - the `YYYYMM` to `MM/YYYY` converter;
  - the CPF and name validators of the request schema.
- **The server-sent-events manager**:
  - the map from client to queue;
  - the text frame of an event;
  - the progress payload.

The registry store and the online check are parameters. Each is a function from its
arguments to `Call<…>`, which is either `Returned(value)` or `Raised`. So every answer
and every failure mode is covered for every input.

The JSON encoder of a progress payload is also a parameter. A fresh client id, which
stands for `uuid4`, is an argument.

Weekly hours are `real`. A cell that `float()` cannot read is `None`.

Months are keys in whatever text the `COMP.` cell holds.

## Notes on the code

Where the code and its documentation disagree, the model follows the code.

- The resolver does not pass a failing registry or online check upward. It logs the
  failure and excludes that facility (`establishment_validator.py:59-61`). The
  documentation describes the failures as propagating.
- A header missing a required column makes `process_csv` return 0, like any other
  failure (`data_processor.py:46-47`). It is not a distinct error.
- The resolver and the passes read the `COMP.` cell differently:
  - The resolver converts the cell from `YYYYMM` and skips every line where that fails
    (`establishment_validator.py:70`).
  - The passes use the raw cell as the month key, and the final sort parses it as
    `MM/YYYY` or `mmm/YY` (`data_processor.py:121-123`).
  - So with `MM/YYYY` months the resolver accepts no facility, and only
    family-medicine lines pass the gate.
  - With `YYYYMM` months, any accepted row has a month the sort cannot parse, and
    `process_csv` returns 0.
  - `ProcessCsv` states the second case: no report and a total of 0.
- As written, `DateParser` (`src/utils/date_parser.py`) has no `format_yyyymm_to_mm_yyyy`:
  - The call at `establishment_validator.py:70` raises `AttributeError`.
  - `_create_entry` catches only `KeyError` and `ValueError` (`:80-83`).
  - The per-line handler at `:37-38` swallows the error and skips the line.
  - So every line is skipped, `check_establishment` returns an empty list, and no
    clinician or generalist line passes the gate at `data_processor.py:105-113`.
  - The model uses the converter the helper's tests describe (`DateParser.FormatYyyymm`),
    so with the helper in place the resolver behaves as modelled.

## Modules

- `common.dfy`: `Option`, `Result`, `Call`; `dict.get(k, 0)` and `defaultdict(list)` reads
- `text.dfy`: `upper`/`lower`, substring search, `split`/`join`, `str(int)`, zero-padded digits
- `cbo_checker.dfy`: `CBOChecker`
- `date_parser.dfy`: `DateParser.parse`, `format_yyyymm_to_mm_yyyy`
- `schemas.dfy`: `ValidateSchema.validate_cpf`, `validate_name`
- `sse_manager.dfy`: `SSEManager` client map, `publish_event`, `publish_progress`
- `records.dfy`: a table line and `RowProcessData`
- `validation_result.dfy`: `ProfessionalExperienceValidator`
- `base_validator.dfy`: the bands' bounds and `_is_in_range`
- `range_40_validator.dfy … range_10_validator.dfy`: the four strategies
- `establishment_validator.dfy`: `EstablishmentValidator`
- `data_processor.dfy`: `DataProcessor`
- `pipeline_invariants.dfy`: what holds through the four passes

## Model

| member | source | states |
|---|---|---|
| ValidationResult.Fresh | src/core/models/validation_result.py:6-16 | a new accumulator has no credited month, no count, no accepted row or facility and empty buffers |
| ValidationResult.CalculateValidMonths | src/core/models/validation_result.py:18-31 | the total is one per full month plus 0.75 per 30–40 count plus 0.5 per 20–30 count; it is never negative and never below the number of full months |
| ValidationResult.SumCounts | src/core/models/validation_result.py:29-30 | the loop over the count map adds up exactly its values |
| ValidationResult.SumRemove | src/core/models/validation_result.py:29-30 | the sum of a count map is one key's count plus the sum of the rest |
| ValidationResult.SumOfOnes | src/core/models/validation_result.py:29-30 | a map whose counts are all 1 sums to its number of months |
| ValidationResult.SumAtMostTwice | src/core/models/validation_result.py:29-30 | a map whose counts are at most 2 sums to at most twice its number of months |
| ValidationResult.TenBandIsNotCounted | src/core/models/validation_result.py:18-31 | the 10–20 counts and buffers contribute nothing to the total |
| ValidationResult.ValidMonthsExample | tests/unit_tests/test_validation_result.py:4-11 | three full months, two 30–40 counts and two 20–30 counts give 5.5 months |
| Records.ToProcessData | src/core/services/data_processor.py:78-85 | a line yields typed data exactly when its hours parse; every field is copied unchanged |
| BaseValidator.BandsAreAdjacent | src/core/services/validation/base_validator.py:16-17 | each band's upper bound is the next band's lower bound |
| BaseValidator.BandsPartitionHours | src/core/services/validation/base_validator.py:40-50 | below 10 hours no band applies; from 10 hours on exactly one band applies |
| BaseValidator.Band10Examples | tests/units_tests/test_range_10_validator.py:11-32 | 8 hours are outside the 10–20 band, 10 inside, 20 outside |
| Range40Validator.Validate | src/core/services/validation/range_40_validator.py:9-12 | a row of 40 hours or more for a month not yet credited credits it and is accepted; any other row changes nothing; counts and buffers never change; credited months and accepted rows grow together |
| Range30Validator.Validate | src/core/services/validation/range_30_validator.py:13-28 | a 30–40 row is counted and accepted exactly when its month is not credited and has fewer than two counts; the cap of 2 and positive counts are kept; nothing else changes |
| Range30Validator.PostValidate | src/core/services/validation/range_30_validator.py:30-43 | months counted twice become full months and leave the map; the other months keep their counts, which are now at most 1 |
| Range30Validator.ThirdRowIsDropped | tests/units_tests/test_range_30_validator.py:56-84 | a month already counted twice ignores further 30–40 rows |
| Range20Validator.Validate | src/core/services/validation/range_20_validator.py:12-19 | a 20–30 row is counted and accepted exactly when its month is not credited and has fewer than two counts; nothing else changes |
| Range20Validator.PostValidate | src/core/services/validation/range_20_validator.py:21-30 | months holding both a 30–40 and a 20–30 count become full months and leave both maps; afterwards the two maps share no month |
| Range20Validator.ThirdRowIsDropped | tests/units_tests/test_range_20_validator.py:56-84 | a month already counted twice ignores further 20–30 rows |
| Range10Validator.MoveCandidates | src/core/services/validation/range_10_validator.py:82-88 | the month's buffered rows are appended to its accepted history and its buffer is emptied; no other month is touched |
| Range10Validator.ProcessCandidates | src/core/services/validation/range_10_validator.py:58-95 | two or more buffered rows are all accepted and moved; a single one is accepted and moved only if the month has accepted rows already; otherwise nothing changes; only buffered rows are ever accepted |
| Range10Validator.CountRow | src/core/services/validation/range_10_validator.py:26-35 | counting a row raises only its month's 10–20 count, by one, and accepts only the row or rows buffered before it |
| Range10Validator.Validate | src/core/services/validation/range_10_validator.py:14-56 | the month's count rises exactly when the month is not credited, has no 30–40 or 20–30 count and fewer than four 10–20 counts; the cap of 4 is kept; other months are untouched; accepted rows are only extended, and only with the row or buffered rows |
| Range10Validator.UpgradeTo40 | src/core/services/validation/range_10_validator.py:37-40 | a single 30–40 count plus a 10–20 row makes a full month and the row is accepted |
| Range10Validator.UpgradeTo30 | src/core/services/validation/range_10_validator.py:42-46 | a single 20–30 count and no 30–40 count, plus a 10–20 row, make a single 30–40 count and the row is accepted |
| Range10Validator.UpgradeTo30WithoutCredit | src/core/services/validation/range_10_validator.py:42-46 | a single 20–30 count with two or more 30–40 counts: the 20–30 count is dropped, nothing is credited and the row is not accepted (after the 30–40 consolidation no month has two 30–40 counts, so the pipeline never reaches this) |
| Range10Validator.FifthRowIsIgnored | tests/units_tests/test_range_10_validator.py:51-76 | a month with four 10–20 counts ignores further rows and has all four rows accepted |
| Range10Validator.PostValidate | src/core/services/validation/range_10_validator.py:113-124 | four counts credit the month, three set its 30–40 count to 1, two set its 20–30 count to 1; the 10–20 counts and buffers stay |
| Range10Validator.ValidateKeepsBuffers | src/core/services/validation/range_10_validator.py:26-95 | for every month, the 10–20 count equals buffered plus accepted rows; at most one row waits; from the second count on nothing waits |
| Range10Validator.CountedMonthBuffered | src/core/services/validation/range_10_validator.py:26-95 | counting a row keeps that balance for its own month |
| Range10Validator.PostValidateKeepsBuffers | src/core/services/validation/range_10_validator.py:113-124 | the consolidation keeps the balance |
| Range10Validator.FreshBuffersOf | src/core/models/validation_result.py:11-16 | an accumulator with no 10–20 counts and empty buffers is balanced |
| DataProcessor.Validate | src/core/services/data_processor.py:16-21 | every strategy keeps the accepted facilities and only appends to the accepted rows |
| DataProcessor.PostValidate | src/core/services/validation/base_validator.py:31-38 | the 40-hour strategy's consolidation does nothing |
| DataProcessor.Step | src/core/services/data_processor.py:75-90 | a line whose hours do not parse, or that fails the gate for the pass, leaves the accumulator unchanged |
| DataProcessor.ScanAppend | src/core/services/data_processor.py:76-92 | a pass over two stretches of lines is the pass over the first continued by the pass over the second |
| DataProcessor.SkippedLine | src/core/services/data_processor.py:87-93 | a line whose hours do not parse, or that fails the gate, can be removed without changing the pass's result |
| DataProcessor.Insert | src/core/services/data_processor.py:121-123 | inserting into a newest-first sequence keeps it newest-first and adds exactly the row |
| DataProcessor.InsertIsStable | src/core/services/data_processor.py:121-123 | the inserted row goes after every row of its own month |
| DataProcessor.SortDescending | src/core/services/data_processor.py:121-123 | the result is newest-first and a permutation of the input |
| DataProcessor.SortIsStable | src/core/services/data_processor.py:121-123 | rows of the same month come out in the order they went in |
| DataProcessor.ProcessCsv | src/core/services/data_processor.py:30-63 | a missing column, or an accepted row whose month does not parse, gives 0 and no report; otherwise the total is the accumulator's valid months, the report's rows are the accepted rows stably sorted newest first, eligibility holds exactly at 48 months or more, pending is what is missing to 48, and the semesters are the number of full months and the sums of the 30–40 and 20–30 counts, each divided by six and rounded down |
| EstablishmentValidator.PadCnes | src/core/services/establishment_validator.py:66-68 | the code is left-padded with zeros to seven characters and ends with the original code |
| EstablishmentValidator.CreateEntry | src/core/services/establishment_validator.py:64-83 | a line yields an entry exactly when its hours parse and its month converts; the entry has the padded code and the converted month |
| EstablishmentValidator.UniqueEntries | src/core/services/establishment_validator.py:29-45 | the kept entries are candidates with pairwise distinct codes |
| EstablishmentValidator.UniqueEntriesAreFirstOccurrences | src/core/services/establishment_validator.py:29-45 | each kept entry is the first candidate line of its code |
| EstablishmentValidator.UniqueEntriesCoverCandidates | src/core/services/establishment_validator.py:85-89 | every candidate line's code is among the kept ones |
| EstablishmentValidator.QueriesFor | src/core/services/establishment_validator.py:52-58 | a facility is looked up in the store first; the online check follows only when the store does not know it |
| EstablishmentValidator.ValidCnes | src/core/services/establishment_validator.py:47-62 | the accepted codes have no duplicates and are exactly the codes of entries the store accepts, or the store does not know and the online check accepts; a failing call only excludes its entry |
| EstablishmentValidator.OnlineOnlyAfterUnknown | src/core/services/establishment_validator.py:52-58 | every online check comes right after a store lookup that answered "unknown" |
| EstablishmentValidator.QueryKeys | src/core/services/establishment_validator.py:49-58 | every store lookup is for the IBGE code and CNES of a kept entry, and every online check for the CNES and name of a kept entry |
| EstablishmentValidator.CheckEstablishment | src/core/services/establishment_validator.py:15-27 | the accepted codes are distinct and are exactly those of the kept entries that pass the checks |
| EstablishmentValidator.AcceptedAreCandidates | src/core/services/establishment_validator.py:15-27 | every accepted code is the padded code of some candidate line of the input |
| CboChecker.ContainsTerms | src/utils/cbo_checker.py:6-19 | the description matches exactly when every term occurs in it, ignoring case |
| CboChecker.ClinicoIsMedicoAndClinico | src/utils/cbo_checker.py:21-35 | the clinician vocabulary matches exactly when both "MEDICO" and "CLINICO" occur; the plural alternative adds nothing |
| CboChecker.ContainsTermsIgnoresCase | src/utils/cbo_checker.py:18-19 | upper-casing the description first changes no answer |
| CboChecker.MedicoClinicoIsClinico | tests/unit_tests/test_cbo_checker.py:6-8 | "MEDICO CLINICO" is a clinician description |
| CboChecker.PluralClinicoExample | tests/unit_tests/test_cbo_checker.py:9 | "MEDICOS CLINICO" is a clinician description |
| CboChecker.NurseIsNotClinico | tests/unit_tests/test_cbo_checker.py:10 | "ENFERMEIRO" is not a clinician description |
| CboChecker.MedicoClinicoIsNotGeneralistaNorFamilia | tests/unit_tests/test_cbo_checker.py:12-20 | "MEDICO CLINICO" is neither a generalist nor a family-medicine description |
| CboChecker.GeneralistaExample | tests/unit_tests/test_cbo_checker.py:15 | "MEDICO GENERALISTA" is a generalist description |
| CboChecker.FamiliaExample | tests/unit_tests/test_cbo_checker.py:19 | the family-health-strategy doctor is a family-medicine description |
| DateParser.Parse | src/utils/date_parser.py:4-21 | a parsed month is always 1-12 |
| DateParser.FormsAreExclusive | src/utils/date_parser.py:4-21 | no text is both a numeric and an abbreviated month, so the order of the two attempts does not matter |
| DateParser.NumericRoundTrip | src/utils/date_parser.py:6-7 | writing a month as `MM/YYYY` and parsing it gives the month back |
| DateParser.AbbreviatedRoundTrip | src/utils/date_parser.py:11-19 | writing a month of 2000-2099 as `mmm/YY` and parsing it gives the month back |
| DateParser.AbbreviationTableIsBijective | src/utils/date_parser.py:11-15 | the twelve abbreviations and the twelve months correspond one to one |
| DateParser.NumericExample | tests/units_tests/test_date_parser.py:7-9 | "01/2025" is January 2025 |
| DateParser.AbbreviatedExample | tests/units_tests/test_date_parser.py:11-13 | "jan/25" is January 2025 |
| DateParser.InvalidExample | tests/units_tests/test_date_parser.py:15-18 | "invalid/date" is rejected |
| DateParser.FormatYyyymm | tests/unit_tests/test_date_parser.py:7-19 | exactly six digits with a month 01-12 convert, to a seven-character `MM/YYYY` |
| DateParser.FormatYyyymmParses | src/core/services/establishment_validator.py:70 | a converted month parses back to the year and month it was converted from |
| DateParser.FormatYyyymmExamples | tests/unit_tests/test_date_parser.py:7-19 | "202501" becomes "01/2025"; "2025" and "202513" are rejected |
| Schemas.CleanCpf | src/schemas/validate_schemas.py:12 | only digits remain |
| Schemas.CleanCpfDropsSeparator | src/schemas/validate_schemas.py:12 | a punctuation character between digit groups is removed and the digits are kept in order |
| Schemas.ValidateCpf | src/schemas/validate_schemas.py:9-17 | a CPF is accepted exactly when it has 11 digits after cleaning that are not all the same; the cleaned digits are returned |
| Schemas.ValidateCpfIdempotent | src/schemas/validate_schemas.py:9-17 | validating an accepted CPF again gives the same result |
| Schemas.Strip | src/schemas/validate_schemas.py:22 | the result has no whitespace at either end, is empty only for all-whitespace input, and is a contiguous piece of the input |
| Schemas.ValidateName | src/schemas/validate_schemas.py:19-25 | a name is refused exactly when it is all whitespace; otherwise it is stripped and upper-cased |
| Schemas.ValidateNameIdempotent | src/schemas/validate_schemas.py:19-25 | validating an accepted name again gives the same result |
| SseManager.ClientId | src/utils/sse_manager.py:27 | a given non-empty request id is the client id; otherwise the fresh id is |
| SseManager.CreateClient | src/utils/sse_manager.py:17-30 | the client gets an empty queue; every other client keeps its queue |
| SseManager.RemoveClient | src/utils/sse_manager.py:32-41 | removing an unknown client changes nothing; otherwise exactly that client goes |
| SseManager.RemoveUndoesCreate | src/utils/sse_manager.py:17-41 | removing a client just created under a new id gives back the registry it was created in |
| SseManager.RemovedClientGetsNothing | src/utils/sse_manager.py:39-55 | publishing to a removed client changes nothing |
| SseManager.PublishEvent | src/utils/sse_manager.py:43-77 | an unknown client changes nothing; otherwise exactly one frame is appended to that client's queue |
| SseManager.FrameRoundTrip | src/utils/sse_manager.py:58-73 | joining a frame's `data:` lines back with newlines gives the published data |
| SseManager.FrameEnvelope | src/utils/sse_manager.py:58-73 | a frame starts with its `event:` line and ends with a blank line |
| SseManager.FrameLineCounts | src/utils/sse_manager.py:58-73 | a frame has one `data:` line per line of the data, plus the event line and an optional retry line |
| SseManager.ProgressPayload | src/utils/sse_manager.py:90-97 | the payload holds step, message and status, and the percentage exactly when one is given |
| SseManager.PublishProgress | src/utils/sse_manager.py:79-99 | a progress update is one `progress` frame carrying the encoded payload, without a retry line |
| PipelineInvariants.ScanKeeps | src/core/services/data_processor.py:75-92 | a pass keeps every property that each of its steps keeps |
| PipelineInvariants.Pass40 | src/core/services/data_processor.py:53-56 | after the 40-hour pass from a fresh accumulator, there is exactly one accepted row per full month and nothing else is recorded |
| PipelineInvariants.Pass30 | src/core/services/validation/range_30_validator.py:13-43 | after the 30–40 pass, full months and 30–40 months are separate and each 30–40 month has one count |
| PipelineInvariants.Pass20 | src/core/services/validation/range_20_validator.py:12-30 | after the 20–30 pass, full, 30–40 and 20–30 months are three separate sets |
| PipelineInvariants.Validate10 | src/core/services/validation/range_10_validator.py:14-46 | a 10–20 row keeps the three sets apart, the counts capped and the buffers balanced |
| PipelineInvariants.Pass10 | src/core/services/validation/range_10_validator.py:14-124 | the 10–20 pass and its consolidation keep the three sets apart, each month in at most one of them |
| PipelineInvariants.RunAllSettled | src/core/services/data_processor.py:53-56 | after the four passes, no month is credited in two ways, 30–40 months hold one count, 20–30 months one or two, and the 10–20 bookkeeping balances |
| PipelineInvariants.SettledCreditsAtMostOne | src/core/models/validation_result.py:18-31 | no month contributes more than one month to the total |
| PipelineInvariants.TotalIsAtMostCreditedMonths | src/core/services/data_processor.py:59 | the total never exceeds the number of distinct credited months |
| PipelineInvariants.AcceptedRowsAreAdmitted | src/core/services/data_processor.py:75-113 | every accepted row is an input line with parsable hours of 10 or more that passed the gate against the accepted facilities |
| PipelineInvariants.PassesFromInput | src/core/services/data_processor.py:53-56 | any sequence of passes accepts and buffers only admitted input lines |

## Left out

- Reading and writing files, the CSV dialect, and rewinding the file between passes: the lines are a parameter, the header is an `Option`, and the rewritten output file is represented by the report's rows.
- The `except Exception` around `process_csv`: its only failure inside the model is the sort's parse error, which is modelled. A missing header or missing column is modelled too.
- A line with missing cells (`None` values, which raise `TypeError` in `float()` or `AttributeError` in the occupation matcher, and abort the whole run): lines always have all six fields.
- Not-a-number and infinite hours that `float()` accepts: hours are exact reals.
- Case mapping and whitespace beyond ASCII and Latin-1: `upper`, `lower` and `strip` are modelled on ASCII letters and Latin-1 whitespace.
- Store answers other than `True`, `False` and `None`: the store returns `Option<bool>`.
- The `uuid`, the logger, the queue's thread safety, and the `stream` generator with its Flask response: the fresh id is a parameter and a queue is the sequence of frames put on it.
- The JSON encoding of the progress payload: the encoder is a parameter.
- `ProfessionalExperienceValidator.file_path` and the key of `overall_result`: they only name the input.
- Floating-point rounding of the total: every total is a multiple of 0.25, which binary floating point represents exactly at these sizes.
- DateParser.FormatYyyymm: `DateParser` (src/utils/date_parser.py) defines no `format_yyyymm_to_mm_yyyy`; the contract follows the helper's tests (see "Notes on the code" for the code as written).
- Schemas.CleanCpf: keeps ASCII digits only, while `\D` in `re.sub` keeps every Unicode decimal digit, so a CPF of eleven non-ASCII decimal digits that the source accepts is rejected here.
- Schemas.ValidateCpf: inherits the ASCII-only digit test of `Schemas.CleanCpf`.
- DateParser.Parse: reads ASCII digits only, while the year field `%Y` of `strptime` accepts any Unicode decimal digit, in both the numeric and the abbreviated form, so `01/` followed by four Arabic-Indic digits parses in the source and not here.
