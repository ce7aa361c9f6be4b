# Bigtable decoding engine of the DuckDB `bigtable2` extension, in Dafny

This project models the decoding engine behind the two table functions of the
extension, `product` and `search`, and proves properties of it. The engine has four parts:

- **Range planner.** The bind functions turn each requested id into one closed
  Bigtable key range. The range runs from `reverse(to_string(id)) + "/" + week_start + "/"`
  to `reverse(to_string(id)) + "/" + week_end + "0"`.
- **Row demultiplexer.** It decodes a `<reversed id>/<week>/<shop id>` row key and
  spreads the row's cells over a slot array:
  - the product feed uses 7 slots, one per ISO weekday;
  - the search feed uses 200 positions for each of the 168 hours of a week.

  At the end of a row it seals the array: every valid slot, in slot order, is
  appended to `remainder` and reset.
- **Resumable batch emitter.** Two cursors, `ranges_idx` and `remainder_idx`,
  survive from one call of the table function to the next. Each call has two
  steps. First it reads ranges while fewer than `STANDARD_VECTOR_SIZE` (2048)
  records are pending. Then it copies out at most one chunk.
- **Integer parsers.** `ParseUint8`, `ParseUint32` and `ParseUint64` wrap
  `std::from_chars`.

Modules, in dependency order:

- `Wrappers` (wrappers.dfy): `Option`, `Result`, and the two ways a scan fails.
  A failed `StatusOr` from the store gives `StoreError`. A `std::stoul` or
  `std::stoull` throw gives `ParseError`.
- `Decimal` (decimal.dfy): `std::to_string`, `std::reverse`, and `std::stoul` as
  glibc's `strtoul` on a 64-bit `unsigned long`. It also holds the implicit
  narrowings to `uint32_t` and `int32_t`.
- `Utils` (utils.dfy): the `from_chars` parsers.
- `Bigtable` (bigtable.dfy): cells, rows, the `ReadRows` stream, closed ranges,
  and the lexicographic key order on characters.
- `RowKeys` (rowkeys.dfy): range planning, and decoding a key back into its id
  and shop id. It proves the two are inverses for non-negative ids (a negative id
  decodes to 2^64 plus the id) and that the `"0"` fence keeps the ranges of
  distinct ids disjoint.
- `Calendar` (calendar.dfy): weekday and hour of a microsecond timestamp, in
  floor arithmetic.
- `Slots` (slots.dfy): the sealing loop `Seal`, generic over the record type,
  with the array kept in place.
- `BatchEmitter` (emitter.dfy): the fetch, emit and pull specification shared by
  both feeds. It proves that no record is lost or duplicated across pulls.
- `ProductFeed` (product.dfy) and `SearchFeed` (search.dfy): the record
  datatypes and a pure specification of one row's demultiplexing. The
  definitions `EmptyWeek` and `EmptySearchWeek` (the slot arrays as bind leaves
  them, every slot `Product()` or `Keyword()`) and `Scans` (what reading each
  planned range yields, given the store) are used by the contracts below. Each
  module also has the imperative model:
  - the slot array is a Dafny `array`, updated in place;
  - `ProductFunctionData` and `SearchFunctionData` are classes whose methods
    advance the cursors and append to `remainder`;
  - each method is proved against the specification functions.

Where the source code throws, the model follows the code: a malformed key,
qualifier or value aborts the whole call with a `ParseError`, except a price
value, whose `std::stod` is not modelled (see "## Left out"). Such a row is not
skipped.

## Model

| member | source | states |
|---|---|---|
| Decimal.NatToDecimal | src/product.cpp:65-66 | `to_string` of a non-negative number: all digits, no leading zero unless it is "0", and the digits denote the number |
| Decimal.IntToDecimal | src/product.cpp:70 | `to_string` of any integer: digits with a leading '-' exactly when it is negative |
| Decimal.IntToDecimalInjective | src/product.cpp:70 | two ids with the same rendering are equal |
| Decimal.Reverse | src/product.cpp:71 | the reversed string has the same length and holds s[\|s\|-1-k] at k |
| Decimal.ReverseInvolution | src/product.cpp:99-100 | reversing twice gives the string back |
| Decimal.ReverseInjective | src/product.cpp:99-100 | two strings with the same reversal are equal |
| Decimal.DigitRun | src/utils.cpp:11 | the leading run of digits is all digits and is followed by a non-digit or the end |
| Decimal.StoUL | src/product.cpp:101-102 | `stoul`/`stoull` yields a value below 2^64 or throws |
| Decimal.StoULOfDecimal | src/product.cpp:101-102 | every value below 2^64 is read back from its rendering, whatever non-digit text follows |
| Decimal.StoULOfNegative | src/product.cpp:99-101 | "-n" is accepted and read as 2^64 - n |
| Decimal.StoULNoDigits | src/product.cpp:129 | text with no digit makes `stoul` throw |
| Decimal.StoULNegativeWraps | src/search.cpp:89 | "-1" reads as 2^64 - 1 and leading white space is skipped |
| Decimal.ToUint32 | src/product.cpp:102 | `Value::UINTEGER` narrowing: below 2^32, congruent to the input mod 2^32 (so it wraps at and above 2^32), and the identity below 2^32 |
| Decimal.ToInt32 | src/search.cpp:89 | narrowing to `int32_t`: in the int32 range, congruent to the input mod 2^32, and the identity below 2^31 |
| Utils.FromChars | src/utils.cpp:11-12 | a result is below the type's bound and needs a leading digit |
| Utils.ParseUint8 | src/utils.cpp:9-16 | succeeds exactly when `from_chars` into 8 bits does, with its value |
| Utils.ParseUint32 | src/utils.cpp:18-25 | succeeds exactly when `from_chars` into 32 bits does, with its value |
| Utils.ParseUint64 | src/utils.cpp:27-34 | succeeds exactly when `from_chars` into 64 bits does, with its value |
| Utils.FromCharsDigitRun | src/utils.cpp:11-15 | for text that starts with a digit: some(value of the maximal digit run) if it fits the type, otherwise none |
| Utils.FromCharsNoLeadingDigit | src/utils.cpp:11-15 | empty text, or text that starts with a sign, a space or any other non-digit, gives none from all three parsers |
| Utils.FromCharsRoundTrip | src/utils.cpp:11-15 | a fitting value is read back from its rendering after any leading zeros and before any non-digit tail |
| Utils.ParseRoundTrip8 | src/utils.cpp:9-16 | `ParseUint8(to_string(v)) == v` for every `uint8_t` |
| Utils.ParseRoundTrip32 | src/utils.cpp:18-25 | `ParseUint32(to_string(v)) == v` for every `uint32_t` |
| Utils.ParseRoundTrip64 | src/utils.cpp:27-34 | `ParseUint64(to_string(v)) == v` for every `uint64_t` |
| Utils.ParseUint8Overflow | src/utils.cpp:9-16 | "255" gives 255 and "256" gives none: overflow is reported, never wrapped |
| Utils.ParseUint8ZerosAndTrailing | src/utils.cpp:11-13 | "0007" gives 7 and "12ab" gives 12: leading zeros are accepted and the tail is ignored |
| Utils.ParseUint8Signs | src/utils.cpp:11-15 | "-1", "+1", " 1" and "" give none |
| Utils.ParseMonotoneByWidth | src/utils.cpp:9-34 | a success of a narrower parser is a success of every wider one, with the same value |
| Bigtable.Head | src/product.cpp:114 | `family_name()[0]`: the first character, or '\0' for an empty string |
| Bigtable.PrefixKeyLe | src/product.cpp:72-73 | a key is at or above each of its prefixes |
| Bigtable.BetweenSharesPrefix | src/product.cpp:72-73 | a key between two keys that share a prefix has that prefix too |
| RowKeys.KeyPrefix | src/product.cpp:70-71 | the reversed rendering of an id is non-empty and has no '/' |
| RowKeys.PlanRanges | src/product.cpp:69-74 | the bind loop plans exactly one range per id, in input order, duplicates kept, range i being the closed range of id i |
| RowKeys.KeyInRangeHasPrefix | src/product.cpp:72-73 | every key inside the range of an id starts with its reversed rendering and '/' |
| RowKeys.RangesDisjoint | src/product.cpp:72-73 | a key in the ranges of two ids means the ids are equal: ranges of distinct ids are disjoint |
| RowKeys.WeekKeyAboveStart | src/product.cpp:73 | a key for a week at or after `week_start` (same digit count) is at or above the range start |
| RowKeys.WeekKeyBelowEnd | src/product.cpp:73 | a key for a week at or before `week_end` (same digit count), with any shop, is at or below the range end, since '/' < '0' |
| RowKeys.WeekKeysInRange | src/product.cpp:73 | every key of a week between the bounds lies in the planned range |
| RowKeys.FirstSlash | src/product.cpp:97 | `find_first_of('/')`: no '/' before it, and a '/' at it unless it is the length |
| RowKeys.LastSlash | src/product.cpp:98 | `find_last_of('/')`: no '/' after it, and -1 (`npos + 1 == 0`) when there is none |
| RowKeys.KeyShop | src/product.cpp:102 | the shop id is below 2^32 |
| RowKeys.KeyIdOfPlannedId | src/product.cpp:97-101 | every key in the range planned for a non-negative id decodes back to that id |
| RowKeys.KeyIdOfNegativeId | src/product.cpp:99-101 | every key in the range planned for a negative id decodes to 2^64 plus the id |
| RowKeys.KeyShopOfDecimal | src/product.cpp:98-102 | the segment after the last '/' decodes to the shop id narrowed to 32 bits |
| Calendar.IsoDayOfWeek | src/product.cpp:106 | the ISO weekday lies in 1..7 |
| Calendar.Weekday | src/product.cpp:105-108 | the product slot lies in 0..6, so `product_week[weekday]` is in bounds |
| Calendar.HourOfDay | src/search.cpp:97 | the hour lies in 0..23 |
| Calendar.WeekHour | src/search.cpp:96-98 | the hour of the week lies in 0..167 |
| Calendar.WeekdayOfEpoch | src/product.cpp:105-106 | 1970-01-01 is a Thursday, slot 3 |
| Calendar.WeekdayPeriodic | src/search.cpp:94-98 | weekday and hour of the week repeat every seven days |
| Slots.ValidSlots | src/product.cpp:141-146 | the valid slots, each valid and strictly ascending, with every valid slot among them |
| Slots.Sealed | src/product.cpp:141-146 | the sealed records are those of the valid slots, in slot order |
| Slots.SealedCount | src/search.cpp:120-125 | sealing appends exactly one record per valid slot |
| Slots.Seal | src/search.cpp:120-125 | the sealing loop returns the records of the valid slots in slot order and resets exactly those slots |
| BatchEmitter.ScanRowsNext | src/product.cpp:90-92 | one more row: a failed status ends the scan, a failing row ends it, a decoded row appends its records |
| BatchEmitter.ScanRowsStops | src/product.cpp:90-92 | once a row has failed, later rows are never looked at |
| BatchEmitter.ScanRowsComplete | src/product.cpp:90-147 | a range whose rows all decode yields all their records, in row order |
| BatchEmitter.Fetch | src/product.cpp:86-88 | the fetch loop keeps the cursors valid |
| BatchEmitter.FetchAppends | src/product.cpp:86-88 | the fetch loop only moves `ranges_idx` forward and appends the records of exactly the ranges it read |
| BatchEmitter.FetchStops | src/product.cpp:86-92 | without a failure it stops when all ranges are read or a chunk is pending; with one, the last range read is the one that failed |
| BatchEmitter.FetchSpec | src/product.cpp:86-92 | both of the above in one statement |
| BatchEmitter.Emit | src/product.cpp:150-173 | the emitted chunk is `remainder[i..i+n)` with n = min(2048, pending), and `remainder_idx` advances by n |
| BatchEmitter.EmitCount | src/product.cpp:167-170 | proof step: unfolds the emitter once, to the slice of n records with n a whole chunk or all that is pending |
| BatchEmitter.Pull | src/product.cpp:79-174 | a call keeps the cursors valid |
| BatchEmitter.PullMonotone | src/product.cpp:86-88 | both cursors only move forward, and `remainder` only grows |
| BatchEmitter.PullEmptyIffExhausted | src/product.cpp:150-173 | once both cursors are at the end a call returns nothing and changes nothing, and only then does it return nothing |
| BatchEmitter.PullProgress | src/product.cpp:86-173 | a call that returns records reads a range or emits a pending record |
| BatchEmitter.Drain | src/product.cpp:150-173 | the chunks a consumer gets are non-empty and at most 2048 records each |
| BatchEmitter.PullSpec | src/search.cpp:70-148 | a call's chunk followed by what stays pending equals what was pending followed by the records of the ranges read |
| BatchEmitter.DrainComplete | src/search.cpp:70-148 | pulling until an empty chunk hands out the pending records, then every record of every unread range, in order: none lost or duplicated |
| BatchEmitter.DrainFromStart | src/search.cpp:70-148 | from the state bind leaves, every record of every range, in range order |
| ProductFeed.ApplyCellSpec | src/product.cpp:108-138 | one cell's writes. Every cell marks its weekday slot valid and stamps `pe_id`, `shop_id` and date. 'p' routes on the qualifier's first letter ('p', 'b', 'u'). 'd' sets both promo fields and fails exactly when the qualifier is not a number. 's'/'S' append to the three lists, with `is_paid` true iff 'S', failing exactly when the value is not a number. Other letters write only the stamp |
| ProductFeed.DemuxWeek | src/product.cpp:104-139 | the cell loop keeps 7 slots |
| ProductFeed.DemuxFront | src/product.cpp:104-108 | proof step used by the demux lemmas: unfolds the cell loop once, applying the last cell to its weekday's slot after the others |
| ProductFeed.DemuxUntouched | src/product.cpp:108 | a weekday no cell falls on is left as it was |
| ProductFeed.DemuxTouched | src/product.cpp:108-111 | a weekday some cell falls on is valid and carries the row's ids |
| ProductFeed.DemuxLastDate | src/product.cpp:112 | a slot's date is the date of the last cell that falls on it |
| ProductFeed.ApplyCellField | src/product.cpp:114-138 | one cell's effect on a field group of its slot: a cell writing the group leaves the slot holding its write, any other cell leaves the group as it was |
| ProductFeed.DemuxLastWrite | src/product.cpp:114-138 | last write wins for every field group: a slot's `price`, `base_price` and `unit_price` are the values of its last 'p' cell with qualifier 'p', 'b' or 'u'; its promo id and text come from its last 'd' cell; its three lists end with the entry of its last 's'/'S' cell |
| ProductFeed.DemuxKeepsUnwritten | src/product.cpp:114-138 | a price, the promo fields or the shelf lists that no cell of the slot writes keep their value (null from an empty week) |
| ProductFeed.ApplyCellLists | src/product.cpp:129-137 | one cell's effect on its slot's lists: a shelf cell appends its qualifier, its narrowed value and its 'S' flag, any other cell leaves them |
| ProductFeed.DemuxShelves | src/product.cpp:104-137 | one (shelf, position, is_paid) triple per shelf cell of the weekday: a slot's three lists are what they were followed by the entries of the row's 's'/'S' cells on that weekday, in cell order |
| ProductFeed.DemuxListsParallel | src/product.cpp:132-137 | the shelf, position and is_paid lists of every slot stay the same length |
| ProductFeed.DemuxValidDays | src/product.cpp:104-112 | from an empty week, exactly the weekdays the cells fall on are valid |
| ProductFeed.DemuxSealed | src/product.cpp:141-146 | sealing yields one record per distinct weekday touched, each valid, with the row's ids and parallel lists |
| ProductFeed.RowRecordsSpec | src/product.cpp:94-146 | the same for a whole row whose key decodes |
| ProductFeed.DecodePlannedKey | src/product.cpp:97-102 | every row of the range planned for a non-negative `pe_id` decodes to that id and its shop id narrowed to 32 bits |
| ProductFeed.DemuxStops | src/product.cpp:129-135 | a failing cell's failure is the whole row's |
| ProductFeed.DemuxInvalidEmpty | src/product.cpp:108-109 | from an empty week, a slot that is not valid is still `Product()` |
| ProductFeed.DemuxClears | src/product.cpp:141-146 | after sealing, every slot is `Product()` again |
| ProductFeed.DemuxCells | src/product.cpp:104-139 | the in-place cell loop leaves the array equal to the demultiplexed week, or reports its failure |
| ProductFeed.ReadRow | src/product.cpp:94-146 | decoding, demultiplexing and sealing one row in place yields that row's records and leaves every slot empty |
| ProductFeed.ReadResult | src/product.cpp:90-92 | one element of the `ReadRows` stream: a failed status or a failing row ends the scan, a row yields its records |
| ProductFeed.ProductFunctionData.Bind | src/product.cpp:64-77 | one range per requested `pe_id`, in order, with both cursors at zero |
| ProductFeed.ProductFunctionData.ReadRange | src/product.cpp:90-147 | the row loop appends exactly the records of the range's scan and reports its failure |
| ProductFeed.ProductFunctionData.FetchRanges | src/product.cpp:86-148 | the fetch loop moves the cursors exactly as the fetch specification does |
| ProductFeed.ProductFunctionData.EmitChunk | src/product.cpp:150-173 | the emit loop returns exactly the emitter's chunk and advances `remainder_idx` as it does |
| ProductFeed.ProductFunctionData.ProductFunction | src/product.cpp:79-174 | one call moves the state and returns a chunk or an abort exactly as `Pull` does |
| SearchFeed.SlotIndex | src/search.cpp:100 | for a position in 1..200, the index lies in [0, 33600) and equals the index as written |
| SearchFeed.SlotIndexDecode | src/search.cpp:94-100 | each slot gives back the hour of the week and the position it was computed from |
| SearchFeed.SlotIndexOrder | src/search.cpp:100 | slots are ordered by hour of the week, then position, and equal exactly when both agree |
| SearchFeed.Target | src/search.cpp:89-100 | the slot a cell lands in is inside `keyword_week` |
| SearchFeed.PositionZeroEscapes | src/search.cpp:89-100 | qualifier "0" at 1970-01-05 00:00 UTC passes the skip rule as written and yields index -1; "-1" narrows to position -1 and passes too |
| SearchFeed.PositionZeroAliases | src/search.cpp:100 | as written, position 0 in hour h writes the slot of position 200 in hour h-1 |
| SearchFeed.TargetAgrees | src/search.cpp:89-100 | the corrected rule lands every cell at position 1 or more where the rule as written does, and skips positions below 1 |
| SearchFeed.ApplyKeywordCellSpec | src/search.cpp:101-117 | one counted cell's writes. It marks the slot valid and stamps `keyword_id`, `shop_id`, timestamp and position. A 'p' value with "id_ret_" sets `retailer_p_id` to the value minus 7 characters and leaves `pe_id`; any other 'p' value sets `pe_id` and fails exactly when it is not a number. 's' sets `is_paid`. `is_paid` is never cleared |
| SearchFeed.DemuxCell | src/search.cpp:89-117 | one cell keeps 33600 slots |
| SearchFeed.DemuxHours | src/search.cpp:88-118 | the cell loop keeps 33600 slots |
| SearchFeed.DemuxCellSlot | src/search.cpp:89-117 | a cell changes only the slot it lands in; a skipped cell changes no slot |
| SearchFeed.DemuxFront | src/search.cpp:88 | proof step used by the demux lemmas: unfolds the cell loop once, applying the last cell after the others |
| SearchFeed.DemuxUntouched | src/search.cpp:100 | a slot no counted cell lands in is left as it was |
| SearchFeed.DemuxTouched | src/search.cpp:101-105 | a slot a counted cell lands in is valid, carries the row's ids and the slot's own position |
| SearchFeed.DemuxLastDate | src/search.cpp:104 | a slot's timestamp is that of the last counted cell landing in it |
| SearchFeed.DemuxLastProductId | src/search.cpp:107-113 | last write wins per id: a slot's retailer product id comes from its last 'p' cell with the "id_ret_" prefix, and its `pe_id` from its last 'p' cell without it, whatever cells carrying the other id follow |
| SearchFeed.DemuxKeepsProductId | src/search.cpp:107-113 | an id no 'p' cell of the slot carries keeps its value: from an empty array, a slot with only "id_ret_" values has a null `pe_id`, one with no "id_ret_" value has a null retailer product id |
| SearchFeed.AnyFront | src/search.cpp:88 | proof step for `DemuxPaid`: splits "some cell satisfies a property" into the cells before the last and the last |
| SearchFeed.DemuxPaid | src/search.cpp:114-116 | a slot is paid exactly when it was, or some counted 's' cell lands in it |
| SearchFeed.DemuxPlaced | src/search.cpp:100-105 | a valid slot's timestamp and position lead back to that slot |
| SearchFeed.DemuxAllPlaced | src/search.cpp:100-105 | from an empty array, every valid slot leads back to itself |
| SearchFeed.DemuxStops | src/search.cpp:89-112 | a failing cell's failure is the whole row's |
| SearchFeed.DemuxValidSlots | src/search.cpp:100-105 | from an empty array, exactly the slots counted cells land in are valid, and every other slot is still `Keyword()` |
| SearchFeed.DecodePlannedSearchKey | src/search.cpp:54-86 | every row of the range planned for an `int32` keyword id decodes to that id read as `uint32` and its shop id narrowed |
| SearchFeed.DemuxSealed | src/search.cpp:120-125 | sealing yields one record per distinct slot touched. Each is valid, carries the row's ids and a position in 1..200, and they come in strictly ascending (hour of the week, position) order |
| SearchFeed.SearchRecordsSpec | src/search.cpp:78-125 | the same for a whole row whose key decodes |
| SearchFeed.DemuxClears | src/search.cpp:120-125 | after sealing, every slot is `Keyword()` again |
| SearchFeed.DemuxCells | src/search.cpp:88-118 | the in-place cell loop leaves the array equal to the demultiplexed slots, or reports its failure |
| SearchFeed.ReadRow | src/search.cpp:78-125 | decoding, demultiplexing and sealing one row in place yields that row's records and leaves every slot empty |
| SearchFeed.ReadResult | src/search.cpp:74-76 | one element of the `ReadRows` stream: a failed status or a failing row ends the scan, a row yields its records |
| SearchFeed.SearchFunctionData.Bind | src/search.cpp:48-60 | one range per requested `int32` keyword id, in order, with both cursors at zero |
| SearchFeed.SearchFunctionData.ReadRange | src/search.cpp:74-126 | the row loop appends exactly the records of the range's scan and reports its failure |
| SearchFeed.SearchFunctionData.FetchRanges | src/search.cpp:70-127 | the fetch loop moves the cursors exactly as the fetch specification does |
| SearchFeed.SearchFunctionData.EmitChunk | src/search.cpp:129-148 | the emit loop returns exactly the emitter's chunk and advances `remainder_idx` as it does |
| SearchFeed.SearchFunctionData.SearchFunction | src/search.cpp:63-149 | one call moves the state and returns a chunk or an abort exactly as `Pull` does |

## Left out

- The Bigtable connection (`ProductInitGlobal`, `SearchInitGlobal`, `SearchGlobalState`): I/O. `ReadRows` is a total function from a range to the finite sequence of `StatusOr<Row>` it streams, passed as a parameter.
- The throws of a failed status and of `std::stoul`/`std::stoull`: modelled as an `Aborted` result of the call. The state the cursors are left in is stated exactly; the contents of the local slot array after an abort are not, since the array is discarded.
- `std::stod` on prices and `ParseFloat`: floating point. A price is kept as the cell's text, and a price that `stod` rejects is not modelled as a failure.
- DuckDB `Value`, `DataChunk::SetValue`, `Value::LIST`, the column types and the output chunk's cardinality: the output is the sequence of records of a chunk, a null `Value` is `None`.
- The calendar functions: modelled in floor arithmetic on microseconds since the epoch rather than by DuckDB's own implementation. For a negative timestamp the code's truncating `/ 1'000'000` and DuckDB's date functions may put a cell on another day or hour than the model does.
- src/bigtable2_extension.cpp (registration and the constant `bigtable2` function) and the declarations in src/include: plumbing.
- Column projection and parallel range claiming: the shown code has neither.
- Decimal.StoUL: assumes `unsigned long` has 64 bits (LP64), so `stoul` and `stoull` coincide; on a 32-bit `long` `stoul` would also throw above 2^32.
- Decimal.ToInt32: two's complement wrap-around, as C++20 defines it; earlier standards leave it implementation-defined.
- Cursors: `ranges_idx` (`id_t`) and `remainder_idx` (`idx_t`), src/search.cpp:34-37 and their product counterparts, are unbounded naturals; the model does not capture a wrap of the index type, which the bounded number of ranges and records never reaches.
- Keys, qualifiers and values: modelled as sequences of Dafny `char` (Unicode scalar values) rather than bytes; for the ASCII keys the planner builds, character order and Bigtable's byte order agree, but a non-ASCII key's UTF-8 byte order is not modelled.
- SearchFeed.Target: skips positions below 1, which the code does not do (see Findings); the rest of the search model uses this corrected rule.

## Findings

| source | as written | input that shows it | evidently intended | confidence | as-written member | corrected member |
|---|---|---|---|---|---|---|
| src/search.cpp:89-100 | only positions above 200 are skipped, and the slot index is `200 * week_hour + position - 1` for any other position, including 0 and the negative positions large qualifiers narrow to | a cell with qualifier "0" at timestamp 345600000000 (1970-01-05 00:00 UTC, hour of the week 0) gives index -1, outside `keyword_week`; at any later hour it overwrites the slot of position 200 of the previous hour; qualifier "-1" gives position -1 | positions outside 1..200 are skipped, so every index lies in [0, 33600) and each slot belongs to one (hour, position) | high, not executed | SearchFeed.PositionZeroEscapes | SearchFeed.Target |
