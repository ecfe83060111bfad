# Bandwidth quota engine

This project models the quota engine of a small bandwidth-reporting server
(`src/main.rs`). The server reads per-instance traffic limits from its
configuration. It asks a Prometheus backend for each instance's traffic since
its last billing reset, and it reports each instance's byte count next to its
quota.

The model has six modules:

- `Basics` holds `Option`, and `Outcome`, which is a value or a panic with its
  reason. It also holds the `u8` and `u64` ranges.
- `Numerals` covers digit runs, their decimal value, and the rendering of
  integers as `format!` writes them.
- `Units` models `byte_conversion`. The method `ByteConversion` is the
  character loop that fills the number and unit buffers. The function
  `Convert` is its specification: the digit parse and the exact-match table of
  the ten unit spellings, decimal (1000) or binary (1024).
- `Calendar` models `get_seconds_from_rest_day` with the local clock reading
  passed in. It counts days over the proleptic Gregorian calendar. The start of
  the billing cycle is taken as written in the code: month minus one in the same
  year, and no clamping. So the code's three panics stay panics: January before
  the reset day, a reset day the previous month does not have, and reset day 0.
  Rolling the year back and clamping the reset day to the previous month's
  length would avoid these panics; the code does neither, and the model follows
  the code.
- `Quota` models the limit map that `read_config` builds. It also models the
  fallback limit (reset on the 1st, `9999tb`) and the lookup that falls back to
  it.
- `Aggregation` models `generate_url` and the `get_raw_data` loop. The loop
  drops `"Node Exporter"` from the fetched list, resolves each instance's limit,
  and builds the query for its window. It inserts an entry only when the backend
  returned a row, and any failed request or window panic ends the pass.

The backend is passed in as two functions from request URL to decoded body:
`labels` for the instance list and `query` for the result rows. Each returns
`None` when the request or its decoding fails. The clock is passed in as
`clock(i)`, the local time read while the i-th query is built.

## Model

| member | source | states |
|---|---|---|
| Units.ByteConversion | src/main.rs:44-73 | The character loop gives exactly `Convert(s, u)`. Loop invariant: the number buffer holds the digits of the prefix scanned so far and the unit buffer holds its other characters. |
| Units.Convert | src/main.rs:44-73 | Specification of `byte_conversion`. Its behaviour is stated by `ConvertFailures`, `ConvertValue`, `ConvertSpelled` and the worked examples below. |
| Units.SplitAppend | src/main.rs:47-53 | Pushing character by character distributes over concatenation, for both buffers. |
| Units.SplitPartition | src/main.rs:45-53 | Every input character lands in exactly one buffer: the two multisets add up to the input's, and the lengths add up too. |
| Units.SplitCanonical | src/main.rs:45-53 | A digit run followed by a digit-free unit splits back into exactly that run and that unit (e.g. "1tb" gives "1" and "tb"). |
| Units.ParseU64 | src/main.rs:54 | `num.parse::<u64>().unwrap()` on the digit buffer. Its behaviour is stated by `ParseShow`, `ShortRunsParse` and `ConvertFailures`. |
| Units.ParseShow | src/main.rs:54 | The rendering of every u64 parses back to itself. |
| Units.ShortRunsParse | src/main.rs:54 | A run of 1 to 19 digits never overflows u64 and parses to its decimal value. |
| Units.Multiplier | src/main.rs:55-71 | The exact-match unit table. Its behaviour is stated by `MultiplierTable`. |
| Units.MultiplierTable | src/main.rs:55-71 | A multiplier exists iff the unit is one of the ten exact spellings. The k-th spelling, lower or upper case, gives base^k, with base 1000 for Decimal and 1024 for Binary. |
| Units.ConvertSpelled | src/main.rs:54-71 | n written with the k-th unit converts to n·base^k, or panics with a product overflow when that exceeds u64. |
| Units.ConvertFailures | src/main.rs:54-72 | No digits panics, and digits worth more than u64 holds panic. Otherwise the result is `None` iff the unit is not one of the ten spellings. |
| Units.ConvertValue | src/main.rs:54-71 | Any input that converts to a value, however its characters are interleaved (e.g. "007tb" or "1t0b"), is worth the number its digits spell times base^k, where its other characters spell the k-th unit. |
| Units.OneTerabyte | src/main.rs:61-69 | "1tb" is 10^12 bytes in Decimal and 2^40 bytes in Binary. |
| Units.FiveGigabytes | src/main.rs:60 | "5gb" is 5·10^9 bytes in Decimal. |
| Units.ProductOverflows | src/main.rs:61 | "20000000tb" overflows u64 in the multiplication and panics. |
| Units.UnknownUnitIsNone | src/main.rs:62 | "3xz" gives `None`. |
| Units.MixedCaseIsNone | src/main.rs:70 | "1Kb" gives `None` in Binary: mixed case is not in the table. |
| Units.EmptyUnitIsNone | src/main.rs:62 | "100" has an empty unit and gives `None`. |
| Units.UnitWithoutNumberPanics | src/main.rs:54 | "tb" has no digits, and its parse panics. |
| Numerals.ShowIntInjective | src/main.rs:169 | Distinct window lengths render as distinct decimal strings. |
| Calendar.NextDayCounts | src/main.rs:105 | The day number of the next calendar day is exactly one more, across month ends, year ends and leap days. |
| Calendar.MakeDate | src/main.rs:102-104 | Building the reset midnight succeeds iff (y, m, d) is a valid date, and then yields exactly that date. Otherwise it panics with `InvalidDate`. |
| Calendar.CycleStart | src/main.rs:101-110 | A computed start is a valid date on the reset day that is not after today. The exact cases are in `CycleStartCases` and `CycleStartIsMostRecent`. |
| Calendar.CycleStartCases | src/main.rs:101-113 | The start panics iff the reset day is 0, or today is before the reset day in January, or today is before a reset day longer than the previous month. It lies in this month when 1 ≤ reset ≤ day, and in the previous month of the same year otherwise. |
| Calendar.CycleStartIsMostRecent | src/main.rs:101-113 | The computed start is the latest date on the reset day-of-month that is not after today. |
| Calendar.SecondsFromResetDay | src/main.rs:99-114 | `get_seconds_from_rest_day` with the clock reading passed in. Its behaviour is stated by `CycleStartCases` (when it panics), `WindowSeconds` (its value and bounds), `FirstOfMonthNeverPanics` and the examples. |
| Calendar.WindowSeconds | src/main.rs:99-114 | A computed window equals the whole days since the reset times 86400, plus the seconds since midnight. It is never negative and is shorter than 31 days. |
| Calendar.FirstOfMonthNeverPanics | src/main.rs:108-112 | With reset day 1 the window never panics and equals (day−1)·86400 plus the seconds since midnight. |
| Calendar.WindowExamples | src/main.rs:101-113 | On 2024-03-15, reset 20 starts at 2024-02-20, 24 days back. On 2024-03-25 it starts at 2024-03-20, 5 days back. |
| Calendar.WindowPanics | src/main.rs:102-110 | January 10 with reset 20 panics. March 30 with reset 31 panics. Reset 0 panics. |
| Quota.ConvertUnwrap | src/main.rs:88 | `byte_conversion(..).unwrap()` succeeds iff the conversion gives a value, and then yields that value. An unknown unit panics. |
| Quota.ConvertLimits | src/main.rs:80-92 | Succeeds iff every quota string converts. On success the key set is kept, each reset day is copied, and each limit is the converted quota. |
| Quota.ReadConfig | src/main.rs:78-94 | The URL and unit convention pass through unchanged, and the limits are the converted map. The load panics iff a quota does not convert. |
| Quota.Terabyte | src/main.rs:61-69 | One terabyte is base^4 bytes. |
| Quota.FallbackConverts | src/main.rs:177-180 | "9999tb" converts without panicking to 9999 terabytes under either convention. |
| Quota.FallbackLimit | src/main.rs:177-180 | The fallback resets on day 1 with a quota of 9999 terabytes. |
| Quota.FallbackQuota | src/main.rs:179 | The fallback quota is 9 999 000 000 000 000 bytes (Decimal) or 10 994 016 766 132 224 bytes (Binary). |
| Quota.FallbackExceeds | src/main.rs:179 | The fallback quota exceeds every quota of at most 9998 terabytes. |
| Quota.ResolveLimit | src/main.rs:195-198 | A configured instance gets its own limit, and any other instance gets the fallback. |
| Quota.ResolveAfterLoad | src/main.rs:195-198 | After a successful load, a configured instance resolves to its own reset day and converted quota. Any other instance gets reset day 1 and 9999·base^4 bytes. |
| Aggregation.Retained | src/main.rs:193 | The retained list has every member of the fetched list except "Node Exporter". The multiset is unchanged apart from removing every "Node Exporter". |
| Aggregation.RetainedAppend | src/main.rs:193 | Retaining distributes over concatenation, so the kept names stay in their original order. |
| Aggregation.LabelUrl | src/main.rs:182-185 | The request for the instance list: the `job` label's values. Its use is stated by `RawDataFailFast`. |
| Aggregation.QueryUrl | src/main.rs:169 | The `format!` string. By its definition, the receive and the transmit counter terms carry the same instance and the same window. `QueryUrlInjective` states what the string determines. |
| Aggregation.GenerateUrl | src/main.rs:167-170 | Panics iff the window panics. Otherwise it is the query URL for that instance and that window. |
| Aggregation.QueryUrlInjective | src/main.rs:169 | For instance names without a double quote, the query URL determines the instance and the window. |
| Aggregation.Step | src/main.rs:195-220 | A load recorded for an instance carries that instance's resolved quota. |
| Aggregation.StepCases | src/main.rs:195-220 | One instance panics iff its window or its query fails, and is skipped iff the query returns no rows. Otherwise its load is the first row's value with the resolved quota. |
| Aggregation.FetchLoad | src/main.rs:199-220 | The loop body for one instance with its resolved limit computes exactly `Step`. |
| Aggregation.OutcomeAt | src/main.rs:194-203 | The i-th retained instance is handled with the i-th clock reading. |
| Aggregation.Collect | src/main.rs:194-221 | The fold of the loop over the outcomes. Its behaviour is stated by `PanicPersists`, `CollectFailFast`, `CollectPresence` and `CollectLastWins`. |
| Aggregation.RawData | src/main.rs:176-222 | Specification of `get_raw_data`. Its behaviour is stated by `RawDataFailFast`, `RawDataPresence`, `RawDataLastWins` and `RawDataEntries`. |
| Aggregation.GetRawData | src/main.rs:172-223 | The loop's result is exactly the report `RawData` specifies. The invariant is that the map so far is the fold of the outcomes of the instances already visited. |
| Aggregation.PanicPersists | src/main.rs:204-211 | Once one instance panics, the later instances do not change the outcome. |
| Aggregation.CollectFailFast | src/main.rs:194-221 | The fold panics iff one of the visited instances panics. |
| Aggregation.CollectPresence | src/main.rs:212-220 | A key is present iff one of its occurrences got a row back. |
| Aggregation.CollectLastWins | src/main.rs:212-220 | Each entry is the load of the last occurrence of its key that got a row back. Every later occurrence of that key got no rows, since `insert` overwrites. |
| Aggregation.RawDataPresence | src/main.rs:212-220 | In a successful report an instance is present iff one of its retained occurrences got a row back. An instance with no rows is absent, not zero. |
| Aggregation.RawDataLastWins | src/main.rs:212-220 | In a successful report a name listed twice keeps the load of its last retained occurrence that got a row back. |
| Aggregation.RawDataEntries | src/main.rs:193-219 | A successful report never holds "Node Exporter". Every key comes from the fetched list, and every entry's limit is the resolved limit. |
| Aggregation.RawDataFailFast | src/main.rs:181-211 | The report panics iff the instance list cannot be fetched or some retained instance's window or query fails. There is no partial report. |

## Left out

- HTTP routes and server start-up (`index`, `get_data`, `get_precent`, `rocket`) are framework plumbing and are not modelled.
- The percentage endpoint's `value / limit * 100.0` is floating-point presentation and is not modelled.
- The reqwest requests and awaits are replaced by the `labels` and `query` functions. Every network, HTTP or JSON failure is one `FetchFailed` panic, and requests are sequential.
- Reading `config.yml`, YAML and JSON deserialisation, and the `println!` of the loaded configuration are left out. `Quota.ReadConfig` starts from the deserialised `ConfigLoads`.
- `Local::now()` is a parameter. `get_raw_data` is modelled as reading the clock once per instance.
- Time zones and daylight-saving changes are not modelled: each window counts whole calendar days. A chrono duration across a DST change, or a local midnight that is ambiguous or missing, would differ.
- A result row's value is modelled as a `real` taken directly from the `query` function. The `value[1]` indexing, the `as_f64` string parse and their panics are not modelled.
- Units.ByteConversion: an overflowing multiplication is modelled as the panic of a debug build. A release build would wrap modulo 2^64 instead.
- Quota.ConvertLimits: when several quotas fail to convert, which panic is raised depends on hash-map iteration order. The model reports any such failure as `InvalidQuota` instead of the first entry's own reason.
