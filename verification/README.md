# E-commerce ETL pipeline: a verified model of the transform step

The batch job in `etl/etl_pipeline.py` reads three CSV files (products,
customers, sales) into pandas frames, normalises each of them in place, and
derives a date dimension from the sales' order dates. It then writes the
four tables to a SQLite warehouse. This project models the transform step
in Dafny and proves what it guarantees:

- `normalize_products` coerces `price` to a number, or to missing when the text is unreadable.
- `normalize_customers` lower-cases and strips `email`.
- `normalize_sales` coerces `order_date` to a timestamp and `unit_price` and `quantity` to numbers. It then sets `total_amount = unit_price * quantity`.
- `build_date_dim` drops missing dates and keeps each distinct day once, in order of first appearance. Each day gets one row: `date_key` (its `YYYYMMDD` number), the date, year, month, day and English weekday name.

Modules:

- `Wrappers` (`wrappers.dfy`): `Option`. The parsers return it.
- `Calendar` (`calendar.dfy`): proleptic Gregorian dates, the pandas Timestamp range 1677-09-22 to 2262-04-11 (as the subset type `Timestamp`), the day count since 0001-01-01 and weekday names.
- `Text` (`text.dfy`): `str.lower` and `str.strip` for ASCII text.
- `Frames` (`frames.dfy`): a frame as ordered columns plus rows. A column is read only when it exists. Assigning a column replaces it in place, or appends it as the last column. The class `Frame` is the mutable frame the normalisers receive.
- `Normalize` (`normalize.dfy`): the three normalisers. Each checks that the columns it reads exist and raises `KeyError` when one does not. Each is a method that updates the caller's `Frame`, proved equal to a pure specification function. The lemmas sit beside those functions.
- `DateDim` (`date_dim.dfy`): `build_date_dim` as a pure function, with lemmas on keys, distinctness, count, order and weekday.
- `Pipeline` (`pipeline.dfy`): the sales path of `main` on a small input. It runs the sales normaliser, then the date dimension on its order dates.

Each failure the source can raise is modelled as a `Status`, not a precondition:

- Normalising a frame that lacks the column raises `KeyError`.
- `normalize_sales` assigns its columns one by one. A missing `unit_price` or `quantity` therefore raises only after the earlier columns were already converted in the caller's frame, and the model keeps that partial state.
- Calling `.str` on a non-empty email column whose cells are all missing or all numeric raises `AttributeError`. A zero-row email column (a header-only file) is accepted.

## Model

| member | source | states |
|---|---|---|
| Frames.Column | etl/etl_pipeline.py:21 | `df[c]` gives one cell per row, the row's cell for `c` |
| Frames.Assign | etl/etl_pipeline.py:21 | `df[c] = vs` keeps the frame well formed and keeps the row count; an existing column keeps its position and a new column is appended last; row i gets `vs[i]` at `c` and every other cell is unchanged |
| Frames.AssignOwnColumn | etl/etl_pipeline.py:21 | writing a column's own cells back leaves the frame equal to what it was |
| Frames.ColumnOfAssign | etl/etl_pipeline.py:25 | reading a column back right after assigning it gives exactly the assigned cells |
| Frames.Frame.constructor | etl/etl_pipeline.py:18 | a frame object holds the table it was made from |
| Frames.Frame.Get | etl/etl_pipeline.py:25 | reading a column of the mutable frame gives one cell per current row, row i's cell for `c`, which is `Column` of its current contents |
| Frames.Frame.Set | etl/etl_pipeline.py:25 | assigning a column changes the mutable frame exactly as `Assign` does |
| Normalize.TextColumn | etl/etl_pipeline.py:25 | the `.str` accessor accepts a column with some text cell, and rejects a non-empty column whose cells are all missing or numbers (the `AttributeError` case of `CustomersSpec`) |
| Normalize.NumericValues | etl/etl_pipeline.py:21 | `to_numeric` on a whole column keeps its length; every cell becomes a number or missing, numbers are kept and missing cells stay missing |
| Normalize.DatetimeValues | etl/etl_pipeline.py:29 | `to_datetime` on a whole column keeps its length; every cell becomes a timestamp or NaT, timestamps are kept and missing cells stay NaT |
| Normalize.CleanValues | etl/etl_pipeline.py:25 | `.str.lower().str.strip()` on a whole column keeps its length, and a cell is text afterwards exactly when it was before; `CustomersEmails` gives the cleaned value |
| Normalize.TimesValues | etl/etl_pipeline.py:32 | the column product keeps the length, and a cell is a number exactly when both factors in its row are; `TotalAmountPropagates` gives the value |
| Normalize.ToNumeric | etl/etl_pipeline.py:21 | `to_numeric(errors='coerce')` on a cell gives a number or missing; a number is kept and a missing cell stays missing |
| Normalize.ToDatetime | etl/etl_pipeline.py:29 | `to_datetime(errors='coerce')` on a cell gives a timestamp or NaT; a timestamp is kept and a missing cell stays missing |
| Normalize.CleanEmail | etl/etl_pipeline.py:25 | a cell is text after `.str.lower().str.strip()` exactly when it was text before |
| Normalize.Times | etl/etl_pipeline.py:32 | the product of two cells is a number exactly when both factors are numbers |
| Normalize.ProductsSpec | etl/etl_pipeline.py:20-22 | with a `price` column: status Ok, same columns and rows, only `price` changes, each price coerced; without one: `KeyError('price')` and the frame unchanged |
| Normalize.ProductsPrices | etl/etl_pipeline.py:21 | every normalised price is a number or missing; a price that was a number is kept; a missing price stays missing |
| Normalize.ProductsIdempotent | etl/etl_pipeline.py:20-22 | normalising the products twice gives the same outcome as once |
| Normalize.NormalizeProducts | etl/etl_pipeline.py:20-22 | the method changes the caller's frame and returns the status exactly as `ProductsSpec` says |
| Normalize.CustomersSpec | etl/etl_pipeline.py:24-26 | `KeyError('email')` without the column; `AttributeError` when the column is non-empty and holds no text; otherwise Ok, with same columns and rows and only `email` changed |
| Normalize.CustomersEmails | etl/etl_pipeline.py:25 | a text email becomes `strip(lower(s))`, which has no upper-case letter and no leading or trailing whitespace; a non-text email becomes missing |
| Normalize.CustomersIdempotent | etl/etl_pipeline.py:24-26 | normalising the customers twice gives the same outcome as once |
| Normalize.CleanedColumnIsFixed | etl/etl_pipeline.py:25 | cleaning a cleaned email column changes nothing, and a text column stays text |
| Normalize.CleanedCellIsFixed | etl/etl_pipeline.py:25 | cleaning a cleaned email cell changes nothing |
| Normalize.CleanedColumnIsText | etl/etl_pipeline.py:25 | a column the `.str` accessor accepts is still accepted after cleaning |
| Normalize.NormalizeCustomers | etl/etl_pipeline.py:24-26 | the method changes the caller's frame and returns the status exactly as `CustomersSpec` says |
| Normalize.SalesSpec | etl/etl_pipeline.py:28-33 | Ok exactly when `order_date`, `unit_price` and `quantity` all exist; then `total_amount` is added last unless present; otherwise the first missing one is named in the `KeyError`, with the columns unchanged |
| Normalize.SalesRows | etl/etl_pipeline.py:29-32 | on success each row has its three columns coerced, `total_amount` equal to the product of the coerced factors, and every other cell unchanged |
| Normalize.SalesPartial | etl/etl_pipeline.py:29-31 | a `KeyError` on `unit_price` leaves `order_date` already converted; one on `quantity` leaves `order_date` and `unit_price` converted; nothing else changes |
| Normalize.TotalAmountPropagates | etl/etl_pipeline.py:32 | `total_amount` is `unit_price * quantity` when both are numbers, and missing exactly when either is missing |
| Normalize.SalesIdempotent | etl/etl_pipeline.py:28-33 | normalising the sales twice gives the same outcome as once, both on success and after a `KeyError` (the partially converted frame fails again at the same column, unchanged) |
| Normalize.FailedSalesRepeat | etl/etl_pipeline.py:29-31 | a run that raised `KeyError` raises the same error again on the frame it left, and leaves that frame unchanged |
| Normalize.NormalizeSales | etl/etl_pipeline.py:28-33 | the method's four assignments change the caller's frame and return the status exactly as `SalesSpec` says, including the partial state after a `KeyError` |
| Text.LowerChar | etl/etl_pipeline.py:25 | a lower-cased character is not upper-case; it is whitespace exactly when the input was; a non-upper-case character is kept |
| Text.Lower | etl/etl_pipeline.py:25 | `lower` keeps the length and maps every character |
| Text.StripStart | etl/etl_pipeline.py:25 | `strip` skips exactly the leading whitespace |
| Text.StripEnd | etl/etl_pipeline.py:25 | `strip` cuts exactly the trailing whitespace, never past the start |
| Text.Strip | etl/etl_pipeline.py:25 | `str.strip()` never lengthens the text, and a non-empty result neither starts nor ends with whitespace; `StripSpec` gives that it is the input minus its surrounding whitespace |
| Text.Clean | etl/etl_pipeline.py:25 | `lower().strip()` never lengthens the text; `CleanIsClean`, `CleanFixed` and `CleanIdempotent` give its properties |
| Text.StripSpec | etl/etl_pipeline.py:25 | the stripped text is a contiguous piece of the input, with only whitespace before and after it and no whitespace at either end |
| Text.StripFixed | etl/etl_pipeline.py:25 | text without surrounding whitespace is left alone by `strip` |
| Text.CleanIsClean | etl/etl_pipeline.py:25 | `strip(lower(s))` has no upper-case letter and no surrounding whitespace |
| Text.CleanFixed | etl/etl_pipeline.py:25 | cleaning leaves a text unchanged exactly when it is already clean |
| Text.CleanIdempotent | etl/etl_pipeline.py:25 | cleaning twice is the same as cleaning once |
| Calendar.DaysInMonth | etl/etl_pipeline.py:29 | a month has 28 to 31 days, and 29 exactly for February of a Gregorian leap year |
| Calendar.InTimestampRange | etl/etl_pipeline.py:29 | a day inside the nanosecond Timestamp range is a valid date of a year from 1677 to 2262; a parsed day outside the range becomes NaT |
| Calendar.DayNumber | etl/etl_pipeline.py:42 | the day count since 0001-01-01 lies within the count range of the date's own year, and 0001-01-01 itself is day 0; `DayNumberOrder` and `NextDay` give order and succession |
| Calendar.Next | etl/etl_pipeline.py:42 | the next day is a valid date after `d`, and no valid date lies between them |
| Calendar.DayNumberOrder | etl/etl_pipeline.py:42 | for valid dates, one is before another exactly when its day count is smaller, and two are equal exactly when their counts are |
| Calendar.NextDay | etl/etl_pipeline.py:42 | the next day's count is one more, and its weekday is the following one |
| Calendar.YearStep | etl/etl_pipeline.py:42 | the days before year y+1 are those before year y plus the length of year y |
| Calendar.Weekday | etl/etl_pipeline.py:42 | the weekday index is below 7 |
| Calendar.DayName | etl/etl_pipeline.py:42 | `day_name()` is one of the seven English weekday names |
| Calendar.KnownWeekday | etl/etl_pipeline.py:42 | 2024-05-01 is a Wednesday |
| DateDim.Pad | etl/etl_pipeline.py:38 | a zero-padded field has exactly the requested width |
| DateDim.DigitsValue | etl/etl_pipeline.py:38 | `astype(int)` of a string of n decimal digits is between 0 and 10^n - 1; `DigitsValueConcat` gives its value on concatenations |
| DateDim.Yyyymmdd | etl/etl_pipeline.py:38 | `strftime('%Y%m%d')` is eight decimal digits |
| DateDim.DateKey | etl/etl_pipeline.py:38 | the `date_key` column is an integer of at most eight digits; `DateKeyValue` gives `10000*y + 100*m + d` |
| DateDim.PadValue | etl/etl_pipeline.py:38 | reading a zero-padded field back as an integer gives the number |
| DateDim.DigitsValueConcat | etl/etl_pipeline.py:38 | the integer value of concatenated digit strings is the first value shifted by the second's length, plus the second value |
| DateDim.DateKeyValue | etl/etl_pipeline.py:38 | `int(strftime('%Y%m%d'))` is `10000*year + 100*month + day` |
| DateDim.DateKeyOrder | etl/etl_pipeline.py:38 | equal keys mean the same day; one key is smaller exactly when its day is earlier (by calendar order and by day count) |
| DateDim.Present | etl/etl_pipeline.py:36 | `dropna()` keeps exactly the present values |
| DateDim.Unique | etl/etl_pipeline.py:36 | `unique()` keeps exactly the same values, with no repeats |
| DateDim.UniqueOrder | etl/etl_pipeline.py:36 | `unique()` lists values in the order of their first appearance |
| DateDim.PresentOrder | etl/etl_pipeline.py:36 | `dropna()` keeps the relative order of first appearances |
| DateDim.DistinctCardinality | etl/etl_pipeline.py:36 | a repeat-free list is as long as the set of its elements |
| DateDim.MakeRow | etl/etl_pipeline.py:38-42 | the row derived from a day holds that day, an eight-digit key and one of the seven weekday names; `DateDimRows` gives the key, year, month, day and weekday exactly |
| DateDim.DistinctDates | etl/etl_pipeline.py:36 | `dropna().unique()` holds exactly the present dates, each once |
| DateDim.BuildDateDim | etl/etl_pipeline.py:35-43 | one row per distinct present date |
| DateDim.OrderDates | etl/etl_pipeline.py:54 | the parsed `order_date` column gives a present date exactly at its timestamp cells |
| DateDim.DateDimRows | etl/etl_pipeline.py:38-42 | each row's key is `10000*year + 100*month + day`; its year, month and day are its date's; its weekday name is its date's Gregorian weekday |
| DateDim.DateDimDates | etl/etl_pipeline.py:35-43 | the rows hold every present input date and nothing else, with no repeated date and no repeated key; the result is empty exactly when every date is missing |
| DateDim.DateDimCount | etl/etl_pipeline.py:36 | the row count is the number of distinct present dates |
| DateDim.DateDimOrder | etl/etl_pipeline.py:36-37 | rows follow the order in which their dates first appear in the input |
| DateDim.PresentExample | etl/etl_pipeline.py:36 | `dropna()` of three present dates keeps all three in order |
| DateDim.UniqueExample | etl/etl_pipeline.py:36 | `unique()` of [a, a, b] is [a, b] |
| DateDim.DuplicateDatesDistinct | etl/etl_pipeline.py:36 | `dropna().unique()` of [a, a, b], with a and b different days, is [a, b] |
| DateDim.DuplicateDatesExample | etl/etl_pipeline.py:35-43 | sales on 2023-01-01, 2023-01-01 and 2023-01-02 give two rows, keyed 20230101 and 20230102 |
| Pipeline.SalesInput | etl/etl_pipeline.py:53 | a two-row sales frame, as `read_csv` would produce it, is well formed |
| Pipeline.SaleRow | etl/etl_pipeline.py:29-32 | a row with unit price "10" gets total 10 × quantity; a row with unit price "bad" gets a missing total; the date text becomes its timestamp |
| Pipeline.TotalsOfInput | etl/etl_pipeline.py:53 | on the two-row `SalesInput` frame the sales normaliser succeeds, with totals [30, missing] |
| Pipeline.DatesOfInput | etl/etl_pipeline.py:53-54 | on the two-row `SalesInput` frame both order dates parse to 2024-05-01 |
| Pipeline.DimOfRepeatedDay | etl/etl_pipeline.py:54 | one day seen twice gives a single row, keyed 20240501 and named Wednesday |
| Pipeline.SalesScenario | etl/etl_pipeline.py:53-54 | run on that two-row sales frame, the sales normaliser returns Ok with totals [30, missing], and the date dimension built from its order dates has one row, 20240501, a Wednesday |

## Left out

- `read_csv` and `main` are not modelled: they do file reading, logging with `print`, directory creation, the SQLite writes through `to_sql` (the writes are not one transaction) and the row-count queries. These are I/O. `Pipeline.SalesScenario` starts from a frame as `read_csv` would produce it.
- The text parsers are parameters: `parseNumber` (behind `pd.to_numeric`) and `parseDate` (behind `pd.to_datetime`). The model does not fix which strings they accept. That includes pandas' inference of one date format from the first element of a column. `ToDatetime` does add the one constraint the model knows: a parsed day outside the Timestamp range becomes NaT.
- Normalize.ToNumeric: a timestamp cell becomes missing. A CSV-read column never holds one.
- Normalize.ToDatetime: a numeric cell becomes missing, although pandas would read it as nanoseconds since the epoch. An order-date column read from CSV with any text cell is text throughout.
- Numbers are exact reals, and a missing cell stands for NaN. Floating-point rounding is not modelled, so `total_amount` is the exact product. Integer columns are not modelled as int64 either. When `unit_price` and `quantity` are both read as all-integer columns, the product on etl/etl_pipeline.py:32 is int64 and wraps around silently on overflow; the model's product is exact, so that wrap-around is not captured.
- Cells are only missing, text, numbers and parsed timestamps. `read_csv` also infers boolean columns from `True`/`False` text, and `to_numeric` keeps booleans as they are; boolean cells are not modelled.
- Dates carry no time of day and no time zone. A parsed value is the calendar day. This costs a case: the source de-duplicates full timestamps (etl/etl_pipeline.py:36), so two order dates on the same day at different times give two rows with the same `date_key`. `DateDim.DateDimDates`' "no repeated key" holds only for midnight timestamps, which is what date-only text parses to.
- Text.Lower and Text.StripStart cover ASCII only. Python's `str.lower` and `str.strip` also fold and strip non-ASCII characters (Unicode upper case, non-breaking and other Unicode spaces).
- Normalize.CustomersSpec approximates pandas' dtype inference with `TextColumn`. The `.str` accessor is accepted when the column is empty or some cell is text. A column whose cells are all missing or all numbers raises `AttributeError`.
- Frames.Frame: aliasing between frames is not modelled. Each normaliser receives one frame object and returns it, which is the object it changed.
- `build_date_dim` receives the parsed order dates already converted. A present date is a `Timestamp`, a missing one is `None`. Its own `pd.to_datetime` call is then the identity.
