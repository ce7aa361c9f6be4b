/** The search feed (src/search.cpp): one record per (keyword_id, shop_id, hour of the
    week, position), demultiplexed from the cells of `<reversed keyword_id>/<week>/<shop_id>`
    rows into a slot array of 200 positions for each of the 168 hours of a week, sealed at
    the end of each row, and handed out in chunks. */
module SearchFeed {
  import opened Wrappers
  import opened Decimal
  import opened Bigtable
  import opened RowKeys
  import opened Calendar
  import opened Slots
  import opened BatchEmitter

  /** `struct Keyword`. A field no cell wrote is a null `Value` (None); `is_paid` starts
      as false rather than null. */
  datatype Keyword = Keyword(
    valid: bool,
    keywordId: Option<nat>,
    shopId: Option<nat>,
    date: Option<int>,
    position: Option<nat>,
    peId: Option<nat>,
    retailerPId: Option<string>,
    isPaid: bool)

  /** `Keyword()`: the state every slot starts in and is reset to. */
  const EmptyKeyword := Keyword(false, None, None, None, None, None, None, false)

  /** The largest position kept, and the size of `keyword_week`. */
  const MAX_POSITION: nat := 200
  const SEARCH_SLOTS: nat := 200 * 7 * 24

  /** A `p` cell whose value has this prefix carries a retailer product id. */
  const RETAILER_PREFIX := "id_ret_"
  /** A cell whose value has this prefix is skipped. */
  const RETAILER_POSITION_PREFIX := "id_ret_pos_"

  predicate IsValid(k: Keyword) { k.valid }

  predicate StartsWith(s: string, prefix: string) { prefix <= s }

  /** `const int32_t &position = std::stoul(qualifier)`: the qualifier read as an unsigned
      long and narrowed to `int32_t`; a qualifier that is not a number throws. */
  function CellPosition(cell: Cell): Result<int>
  {
    match StoUL(cell.qualifier)
    case None => Err(ParseError(cell.qualifier))
    case Some(v) => Ok(ToInt32(v))
  }

  /** The skip rule as written: only positions above 200 and retailer-position values. */
  predicate SkipsAsWritten(position: int, value: string)
  {
    position > MAX_POSITION || StartsWith(value, RETAILER_POSITION_PREFIX)
  }

  /** The slot index as written, `200 * week_hour + position - 1`, for any position. */
  function SlotIndexAsWritten(ts: int, position: int): int
  {
    MAX_POSITION * WeekHour(ts) + position - 1
  }

  /** The skip rule the slot array needs: positions outside 1..200 are skipped too. */
  predicate Skips(position: int, value: string)
  {
    position < 1 || SkipsAsWritten(position, value)
  }

  /** The slot of a cell at a kept position: 200 positions per hour of the week. */
  function SlotIndex(ts: int, position: int): (s: nat)
    requires 1 <= position <= MAX_POSITION
    ensures s < SEARCH_SLOTS
    ensures s == SlotIndexAsWritten(ts, position)
  {
    MAX_POSITION * WeekHour(ts) + position - 1
  }

  /** The position a slot holds records for. */
  function SlotPosition(s: nat): nat
  {
    s % MAX_POSITION + 1
  }

  /** The hour of the week a slot holds records for. */
  function SlotHour(s: nat): nat
  {
    s / MAX_POSITION
  }

  /** The slot index is a bijection between (hour of the week, kept position) and the
      slots: each slot gives back its hour and its position. */
  lemma SlotIndexDecode(ts: int, position: int)
    requires 1 <= position <= MAX_POSITION
    ensures SlotHour(SlotIndex(ts, position)) == WeekHour(ts)
    ensures SlotPosition(SlotIndex(ts, position)) == position
  {
    var s := SlotIndex(ts, position);
    assert s == MAX_POSITION * WeekHour(ts) + (position - 1);
    assert 0 <= position - 1 < MAX_POSITION;
  }

  /** Slots are ordered by hour of the week, then by position. */
  lemma SlotIndexOrder(t1: int, p1: int, t2: int, p2: int)
    requires 1 <= p1 <= MAX_POSITION && 1 <= p2 <= MAX_POSITION
    ensures SlotIndex(t1, p1) < SlotIndex(t2, p2) <==>
      WeekHour(t1) < WeekHour(t2) || (WeekHour(t1) == WeekHour(t2) && p1 < p2)
    ensures SlotIndex(t1, p1) == SlotIndex(t2, p2) <==> WeekHour(t1) == WeekHour(t2) && p1 == p2
  {
    SlotIndexDecode(t1, p1);
    SlotIndexDecode(t2, p2);
  }

  /** Where the code as written writes a cell: None when it is skipped. */
  function TargetAsWritten(cell: Cell): Result<Option<int>>
  {
    match CellPosition(cell)
    case Err(f) => Err(f)
    case Ok(position) =>
      if SkipsAsWritten(position, cell.value) then Ok(None)
      else Ok(Some(SlotIndexAsWritten(cell.timestamp, position)))
  }

  /** The slot a cell lands in: None when it is skipped or its qualifier is not a number. */
  function Target(cell: Cell): (r: Option<nat>)
    ensures r.Some? ==> r.value < SEARCH_SLOTS
  {
    match CellPosition(cell)
    case Err(_) => None
    case Ok(position) =>
      if Skips(position, cell.value) then None
      else Some(SlotIndex(cell.timestamp, position))
  }

  /** A cell whose qualifier is "0", at Monday 00:00 UTC (1970-01-05), is not skipped by
      the rule as written and is written to index -1, before the start of `keyword_week`.
      A qualifier of "-1" narrows to position -1 and is not skipped either. */
  lemma PositionZeroEscapes()
    ensures var cell := Cell("p", "0", "1", 4 * MICROS_PER_DAY);
      && WeekHour(cell.timestamp) == 0
      && CellPosition(cell) == Ok(0)
      && TargetAsWritten(cell) == Ok(Some(-1))
    ensures CellPosition(Cell("p", "-1", "1", 0)) == Ok(-1)
    ensures !SkipsAsWritten(-1, "1")
  {
    assert EpochDay(4 * MICROS_PER_DAY) == 4;
    assert (4 * MICROS_PER_DAY) % MICROS_PER_DAY == 0;
    StoULOfDecimal(0, "");
    assert NatToDecimal(0) + "" == "0";
    StoULNegativeWraps();
  }

  /** Position 0 in hour h > 0 aliases the slot of position 200 in hour h - 1. */
  lemma PositionZeroAliases(ts: int, earlier: int)
    requires WeekHour(earlier) + 1 == WeekHour(ts)
    ensures SlotIndexAsWritten(ts, 0) == SlotIndex(earlier, MAX_POSITION)
  {
  }

  /** Wherever the rule as written lands a cell at a position of 1 or more, the corrected
      rule lands it in the same slot; the two differ only on positions below 1, which it
      skips. */
  lemma TargetAgrees(cell: Cell)
    ensures CellPosition(cell).Err? <==> TargetAsWritten(cell).Err?
    ensures CellPosition(cell).Ok? && CellPosition(cell).value >= 1 ==>
      TargetAsWritten(cell) == Ok(if Target(cell).Some? then Some(Target(cell).value as int) else None)
    ensures CellPosition(cell).Ok? && CellPosition(cell).value < 1 ==> Target(cell) == None
  {
  }

  /** The writes every counted cell makes to its slot before its family is looked at. */
  function StampKeyword(k: Keyword, keywordId: nat, shopId: nat, cell: Cell, position: nat): Keyword
  {
    k.(valid := true, keywordId := Some(keywordId), shopId := Some(shopId),
       date := Some(cell.timestamp), position := Some(position))
  }

  /** One counted cell's effect on its slot: a `p` cell sets the retailer product id (the
      value after the prefix) or the `pe_id` (the value read as a number, which throws
      when it is not one); an `s` cell sets `is_paid`; any other family only stamps. */
  function ApplyKeywordCell(k: Keyword, keywordId: nat, shopId: nat, cell: Cell, position: nat): Result<Keyword>
  {
    var q := StampKeyword(k, keywordId, shopId, cell, position);
    var family := Head(cell.family);
    if family == 'p' then
      if StartsWith(cell.value, RETAILER_PREFIX) then Ok(q.(retailerPId := Some(cell.value[|RETAILER_PREFIX|..])))
      else
        match StoUL(cell.value)
        case None => Err(ParseError(cell.value))
        case Some(v) => Ok(q.(peId := Some(v)))
    else if family == 's' then Ok(q.(isPaid := true))
    else Ok(q)
  }

  /** What a counted cell writes: the stamp always; for a `p` cell exactly one of the
      two product ids, failing exactly when a `pe_id` is not a number; for an `s` cell
      `is_paid`; nothing else. `is_paid` is never cleared. */
  lemma ApplyKeywordCellSpec(k: Keyword, keywordId: nat, shopId: nat, cell: Cell, position: nat)
    ensures var r := ApplyKeywordCell(k, keywordId, shopId, cell, position);
      && (r.Ok? ==> r.value.valid && r.value.keywordId == Some(keywordId) && r.value.shopId == Some(shopId))
      && (r.Ok? ==> r.value.date == Some(cell.timestamp) && r.value.position == Some(position))
      && (r.Ok? ==> (r.value.isPaid <==> k.isPaid || Head(cell.family) == 's'))
      && (Head(cell.family) == 'p' && StartsWith(cell.value, RETAILER_PREFIX) ==>
            r == Ok(StampKeyword(k, keywordId, shopId, cell, position).(retailerPId := Some(cell.value[7..]))))
      && (Head(cell.family) == 'p' && !StartsWith(cell.value, RETAILER_PREFIX) ==>
            && (r.Ok? <==> StoUL(cell.value).Some?)
            && (r.Ok? ==> r.value == StampKeyword(k, keywordId, shopId, cell, position).(peId := StoUL(cell.value))))
      && (Head(cell.family) == 's' ==> r == Ok(StampKeyword(k, keywordId, shopId, cell, position).(isPaid := true)))
      && (Head(cell.family) != 'p' && Head(cell.family) != 's' ==> r == Ok(StampKeyword(k, keywordId, shopId, cell, position)))
  {
  }

  /** One cell of a row applied to the slot array. */
  function DemuxCell(w: seq<Keyword>, keywordId: nat, shopId: nat, cell: Cell): (r: Result<seq<Keyword>>)
    requires |w| == SEARCH_SLOTS
    ensures r.Ok? ==> |r.value| == SEARCH_SLOTS
  {
    match CellPosition(cell)
    case Err(f) => Err(f)
    case Ok(position) =>
      if Skips(position, cell.value) then Ok(w)
      else
        var s := SlotIndex(cell.timestamp, position);
        match ApplyKeywordCell(w[s], keywordId, shopId, cell, position as nat)
        case Err(f) => Err(f)
        case Ok(k) => Ok(w[s := k])
  }

  /** The cells of one row applied in order to the slot array. */
  function DemuxHours(week: seq<Keyword>, keywordId: nat, shopId: nat, cells: seq<Cell>): (r: Result<seq<Keyword>>)
    requires |week| == SEARCH_SLOTS
    ensures r.Ok? ==> |r.value| == SEARCH_SLOTS
    decreases |cells|
  {
    if cells == [] then Ok(week)
    else
      match DemuxHours(week, keywordId, shopId, cells[..|cells| - 1])
      case Err(f) => Err(f)
      case Ok(w) => DemuxCell(w, keywordId, shopId, cells[|cells| - 1])
  }

  function EmptySearchWeek(): (w: seq<Keyword>)
    ensures |w| == SEARCH_SLOTS && forall d :: 0 <= d < |w| ==> w[d] == EmptyKeyword
  {
    seq(SEARCH_SLOTS, _ => EmptyKeyword)
  }

  /** The slots the counted cells of a row land in. */
  function TouchedSlots(cells: seq<Cell>): set<nat>
  {
    set i | 0 <= i < |cells| && Target(cells[i]).Some? :: Target(cells[i]).value
  }

  /** One cell changes at most the slot it lands in: that slot takes the cell's writes at
      the slot's own position, every other slot is kept; a skipped cell changes nothing.
      It fails exactly when its qualifier, or the `pe_id` it carries, is not a number. */
  lemma DemuxCellSlot(w: seq<Keyword>, keywordId: nat, shopId: nat, cell: Cell, d: nat)
    requires |w| == SEARCH_SLOTS && d < SEARCH_SLOTS
    requires DemuxCell(w, keywordId, shopId, cell).Ok?
    ensures Target(cell) != Some(d) ==> DemuxCell(w, keywordId, shopId, cell).value[d] == w[d]
    ensures Target(cell) == Some(d) ==>
      && ApplyKeywordCell(w[d], keywordId, shopId, cell, SlotPosition(d)).Ok?
      && DemuxCell(w, keywordId, shopId, cell).value[d] == ApplyKeywordCell(w[d], keywordId, shopId, cell, SlotPosition(d)).value
  {
    if Target(cell).Some? {
      SlotIndexDecode(cell.timestamp, CellPosition(cell).value);
    }
  }

  /** The last cell of a row that demultiplexes is applied to the rest's slot array. */
  lemma DemuxFront(week: seq<Keyword>, keywordId: nat, shopId: nat, cells: seq<Cell>)
    requires |week| == SEARCH_SLOTS && cells != []
    requires DemuxHours(week, keywordId, shopId, cells).Ok?
    ensures DemuxHours(week, keywordId, shopId, cells[..|cells| - 1]).Ok?
    ensures var w := DemuxHours(week, keywordId, shopId, cells[..|cells| - 1]).value;
      && DemuxCell(w, keywordId, shopId, cells[|cells| - 1]).Ok?
      && DemuxHours(week, keywordId, shopId, cells).value == DemuxCell(w, keywordId, shopId, cells[|cells| - 1]).value
  {
  }

  /** A slot that no counted cell of the row lands in is left as it was. */
  lemma {:induction false} DemuxUntouched(week: seq<Keyword>, keywordId: nat, shopId: nat, cells: seq<Cell>, d: nat)
    requires |week| == SEARCH_SLOTS && d < SEARCH_SLOTS
    requires DemuxHours(week, keywordId, shopId, cells).Ok?
    requires forall i :: 0 <= i < |cells| ==> Target(cells[i]) != Some(d)
    ensures DemuxHours(week, keywordId, shopId, cells).value[d] == week[d]
    decreases |cells|
  {
    if cells != [] {
      DemuxFront(week, keywordId, shopId, cells);
      DemuxUntouched(week, keywordId, shopId, cells[..|cells| - 1], d);
      var w := DemuxHours(week, keywordId, shopId, cells[..|cells| - 1]).value;
      DemuxCellSlot(w, keywordId, shopId, cells[|cells| - 1], d);
    }
  }

  /** A slot that a counted cell lands in is valid, carries the row's ids and the slot's
      own position. */
  lemma {:induction false} DemuxTouched(week: seq<Keyword>, keywordId: nat, shopId: nat, cells: seq<Cell>, i: nat)
    requires |week| == SEARCH_SLOTS && i < |cells| && Target(cells[i]).Some?
    requires DemuxHours(week, keywordId, shopId, cells).Ok?
    ensures var d := Target(cells[i]).value;
      var k := DemuxHours(week, keywordId, shopId, cells).value[d];
      k.valid && k.keywordId == Some(keywordId) && k.shopId == Some(shopId) && k.position == Some(SlotPosition(d))
    decreases |cells|
  {
    DemuxFront(week, keywordId, shopId, cells);
    var w := DemuxHours(week, keywordId, shopId, cells[..|cells| - 1]).value;
    var d := Target(cells[i]).value;
    var last := cells[|cells| - 1];
    DemuxCellSlot(w, keywordId, shopId, last, d);
    if Target(last) == Some(d) {
      ApplyKeywordCellSpec(w[d], keywordId, shopId, last, SlotPosition(d));
    } else {
      assert i < |cells| - 1;
      assert cells[..|cells| - 1][i] == cells[i];
      DemuxTouched(week, keywordId, shopId, cells[..|cells| - 1], i);
    }
  }

  /** A slot's `date` is the timestamp of the last counted cell that lands in it. */
  lemma {:induction false} DemuxLastDate(week: seq<Keyword>, keywordId: nat, shopId: nat, cells: seq<Cell>, i: nat)
    requires |week| == SEARCH_SLOTS && i < |cells| && Target(cells[i]).Some?
    requires DemuxHours(week, keywordId, shopId, cells).Ok?
    requires forall j :: i < j < |cells| ==> Target(cells[j]) != Target(cells[i])
    ensures DemuxHours(week, keywordId, shopId, cells).value[Target(cells[i]).value].date == Some(cells[i].timestamp)
    decreases |cells|
  {
    DemuxFront(week, keywordId, shopId, cells);
    var w := DemuxHours(week, keywordId, shopId, cells[..|cells| - 1]).value;
    var d := Target(cells[i]).value;
    var last := cells[|cells| - 1];
    DemuxCellSlot(w, keywordId, shopId, last, d);
    if i == |cells| - 1 {
      ApplyKeywordCellSpec(w[d], keywordId, shopId, last, SlotPosition(d));
    } else {
      var front := cells[..|cells| - 1];
      assert front[i] == cells[i];
      forall j | i < j < |front|
        ensures Target(front[j]) != Target(front[i])
      {
        assert front[j] == cells[j];
      }
      DemuxLastDate(week, keywordId, shopId, front, i);
    }
  }

  /** The two product ids a `p` cell can carry: a retailer product id (a value with the
      "id_ret_" prefix) or a `pe_id` (any other value). */
  datatype ProductIdField = RetailerId | PeId

  /** A counted `p` cell carrying product id f. */
  predicate WritesId(f: ProductIdField, c: Cell)
  {
    Target(c).Some? && Head(c.family) == 'p' && (f == RetailerId <==> StartsWith(c.value, RETAILER_PREFIX))
  }

  /** Slot k holds the product id f that cell c carries. */
  predicate HoldsId(f: ProductIdField, k: Keyword, c: Cell)
  {
    match f
    case RetailerId => StartsWith(c.value, RETAILER_PREFIX) && k.retailerPId == Some(c.value[|RETAILER_PREFIX|..])
    case PeId => k.peId == StoUL(c.value) && k.peId.Some?
  }

  predicate SameId(f: ProductIdField, k: Keyword, k': Keyword)
  {
    match f
    case RetailerId => k.retailerPId == k'.retailerPId
    case PeId => k.peId == k'.peId
  }

  /** Last write wins, per id: a slot's retailer product id is that of the last `p` cell
      with the "id_ret_" prefix landing in it, and its `pe_id` that of the last `p` cell
      without it, whatever cells carrying the other id come after. */
  lemma {:induction false} DemuxLastProductId(week: seq<Keyword>, keywordId: nat, shopId: nat, cells: seq<Cell>, i: nat, f: ProductIdField)
    requires |week| == SEARCH_SLOTS && i < |cells| && WritesId(f, cells[i])
    requires DemuxHours(week, keywordId, shopId, cells).Ok?
    requires forall j :: i < j < |cells| && WritesId(f, cells[j]) ==> Target(cells[j]) != Target(cells[i])
    ensures HoldsId(f, DemuxHours(week, keywordId, shopId, cells).value[Target(cells[i]).value], cells[i])
    decreases |cells|
  {
    DemuxFront(week, keywordId, shopId, cells);
    var w := DemuxHours(week, keywordId, shopId, cells[..|cells| - 1]).value;
    var d := Target(cells[i]).value;
    var last := cells[|cells| - 1];
    DemuxCellSlot(w, keywordId, shopId, last, d);
    if Target(last) == Some(d) {
      ApplyKeywordCellSpec(w[d], keywordId, shopId, last, SlotPosition(d));
    }
    if i < |cells| - 1 {
      var front := cells[..|cells| - 1];
      assert front[i] == cells[i];
      forall j | i < j < |front| && WritesId(f, front[j])
        ensures Target(front[j]) != Target(front[i])
      {
        assert front[j] == cells[j];
      }
      DemuxLastProductId(week, keywordId, shopId, front, i, f);
    }
  }

  /** A product id that no cell landing in slot d carries keeps its value: from an empty
      array, a slot whose `p` cells all have the retailer prefix has a null `pe_id`, and one
      whose `p` cells all lack it has a null retailer product id. */
  lemma {:induction false} DemuxKeepsProductId(week: seq<Keyword>, keywordId: nat, shopId: nat, cells: seq<Cell>, d: nat, f: ProductIdField)
    requires |week| == SEARCH_SLOTS && d < SEARCH_SLOTS
    requires DemuxHours(week, keywordId, shopId, cells).Ok?
    requires forall i :: 0 <= i < |cells| && WritesId(f, cells[i]) ==> Target(cells[i]) != Some(d)
    ensures SameId(f, DemuxHours(week, keywordId, shopId, cells).value[d], week[d])
    decreases |cells|
  {
    if cells != [] {
      var front := cells[..|cells| - 1];
      var last := cells[|cells| - 1];
      DemuxFront(week, keywordId, shopId, cells);
      var w := DemuxHours(week, keywordId, shopId, front).value;
      DemuxCellSlot(w, keywordId, shopId, last, d);
      if Target(last) == Some(d) {
        ApplyKeywordCellSpec(w[d], keywordId, shopId, last, SlotPosition(d));
      }
      forall i | 0 <= i < |front| && WritesId(f, front[i])
        ensures Target(front[i]) != Some(d)
      {
        assert front[i] == cells[i];
      }
      DemuxKeepsProductId(week, keywordId, shopId, front, d, f);
    }
  }

  /** A counted `s` cell landing in slot d. */
  predicate Pays(c: Cell, d: nat) { Head(c.family) == 's' && Target(c) == Some(d) }

  /** Some element of s satisfies p. */
  ghost predicate Any<T>(s: seq<T>, p: T -> bool)
  {
    exists i :: 0 <= i < |s| && p(s[i])
  }

  lemma AnyFront<T>(s: seq<T>, p: T -> bool)
    requires s != []
    ensures Any(s, p) <==> Any(s[..|s| - 1], p) || p(s[|s| - 1])
  {
    var front := s[..|s| - 1];
    if Any(s, p) {
      var i :| 0 <= i < |s| && p(s[i]);
      if i < |front| {
        assert front[i] == s[i];
      }
    }
    if Any(front, p) {
      var i :| 0 <= i < |front| && p(front[i]);
      assert front[i] == s[i];
    }
  }

  /** Some `s` cell of the row lands in slot d. */
  ghost predicate PaidBy(cells: seq<Cell>, d: nat)
  {
    Any(cells, c => Pays(c, d))
  }

  /** A slot is paid exactly when it was, or some `s` cell of the row lands in it. */
  lemma {:induction false} DemuxPaid(week: seq<Keyword>, keywordId: nat, shopId: nat, cells: seq<Cell>, d: nat)
    requires |week| == SEARCH_SLOTS && d < SEARCH_SLOTS
    requires DemuxHours(week, keywordId, shopId, cells).Ok?
    ensures DemuxHours(week, keywordId, shopId, cells).value[d].isPaid <==> week[d].isPaid || PaidBy(cells, d)
    decreases |cells|
  {
    if cells != [] {
      var front := cells[..|cells| - 1];
      var last := cells[|cells| - 1];
      DemuxFront(week, keywordId, shopId, cells);
      DemuxPaid(week, keywordId, shopId, front, d);
      AnyFront(cells, c => Pays(c, d));
      var w := DemuxHours(week, keywordId, shopId, front).value;
      DemuxCellSlot(w, keywordId, shopId, last, d);
      if Target(last) == Some(d) {
        ApplyKeywordCellSpec(w[d], keywordId, shopId, last, SlotPosition(d));
      }
    }
  }

  /** A valid slot's date and position lead back to that slot. */
  ghost predicate Placed(k: Keyword, d: nat)
  {
    k.valid ==>
      && k.date.Some? && k.position.Some? && 1 <= k.position.value <= MAX_POSITION
      && SlotIndex(k.date.value, k.position.value) == d
  }

  /** From slots that lead back to themselves, every slot still does. */
  lemma {:induction false} DemuxPlaced(week: seq<Keyword>, keywordId: nat, shopId: nat, cells: seq<Cell>, d: nat)
    requires |week| == SEARCH_SLOTS && d < SEARCH_SLOTS && Placed(week[d], d)
    requires DemuxHours(week, keywordId, shopId, cells).Ok?
    ensures Placed(DemuxHours(week, keywordId, shopId, cells).value[d], d)
    decreases |cells|
  {
    if cells != [] {
      var last := cells[|cells| - 1];
      DemuxFront(week, keywordId, shopId, cells);
      DemuxPlaced(week, keywordId, shopId, cells[..|cells| - 1], d);
      var w := DemuxHours(week, keywordId, shopId, cells[..|cells| - 1]).value;
      DemuxCellSlot(w, keywordId, shopId, last, d);
      if Target(last) == Some(d) {
        ApplyKeywordCellSpec(w[d], keywordId, shopId, last, SlotPosition(d));
        var position := CellPosition(last).value;
        SlotIndexDecode(last.timestamp, position);
      }
    }
  }

  /** A failure in a prefix of the row's cells is the failure of the whole row. */
  lemma {:induction false} DemuxStops(week: seq<Keyword>, keywordId: nat, shopId: nat, cells: seq<Cell>, k: nat)
    requires |week| == SEARCH_SLOTS && k <= |cells|
    requires DemuxHours(week, keywordId, shopId, cells[..k]).Err?
    ensures DemuxHours(week, keywordId, shopId, cells) == DemuxHours(week, keywordId, shopId, cells[..k])
    decreases |cells| - k
  {
    if k < |cells| {
      assert cells[..k + 1][..k] == cells[..k];
      DemuxStops(week, keywordId, shopId, cells, k + 1);
    } else {
      assert cells[..k] == cells;
    }
  }

  /** From an empty slot array, exactly the slots counted cells land in end up valid, and
      every other slot is still empty. */
  lemma DemuxValidSlots(keywordId: nat, shopId: nat, cells: seq<Cell>)
    requires DemuxHours(EmptySearchWeek(), keywordId, shopId, cells).Ok?
    ensures var w := DemuxHours(EmptySearchWeek(), keywordId, shopId, cells).value;
      && ValidSet(w, IsValid) == TouchedSlots(cells)
      && forall d :: 0 <= d < SEARCH_SLOTS && !w[d].valid ==> w[d] == EmptyKeyword
  {
    var w := DemuxHours(EmptySearchWeek(), keywordId, shopId, cells).value;
    forall d: nat | d < SEARCH_SLOTS
      ensures (w[d].valid <==> d in TouchedSlots(cells)) && (!w[d].valid ==> w[d] == EmptyKeyword)
    {
      if i :| 0 <= i < |cells| && Target(cells[i]) == Some(d) {
        DemuxTouched(EmptySearchWeek(), keywordId, shopId, cells, i);
      } else {
        DemuxUntouched(EmptySearchWeek(), keywordId, shopId, cells, d);
      }
    }
  }

  /** From an empty slot array, every slot leads back to itself. */
  lemma DemuxAllPlaced(keywordId: nat, shopId: nat, cells: seq<Cell>)
    requires DemuxHours(EmptySearchWeek(), keywordId, shopId, cells).Ok?
    ensures var w := DemuxHours(EmptySearchWeek(), keywordId, shopId, cells).value;
      forall d :: 0 <= d < SEARCH_SLOTS ==> Placed(w[d], d)
  {
    forall d: nat | d < SEARCH_SLOTS
      ensures Placed(DemuxHours(EmptySearchWeek(), keywordId, shopId, cells).value[d], d)
    {
      DemuxPlaced(EmptySearchWeek(), keywordId, shopId, cells, d);
    }
  }

  /** `keyword_id` and `shop_id` from a row key: `stoull` of the reversed first segment
      and `stoul` of the last segment, both narrowed to 32 bits; either failing throws. */
  function DecodeSearchKey(key: string): Result<(nat, nat)>
  {
    match KeyId(key)
    case None => Err(ParseError(Reverse(key[..FirstSlash(key)])))
    case Some(keywordId) =>
      match KeyShop(key)
      case None => Err(ParseError(key[LastSlash(key) + 1..]))
      case Some(shopId) => Ok((ToUint32(keywordId), shopId))
  }

  /** Every row of the range planned for an `int32` keyword id, with a decimal shop id as
      its last segment, decodes to that id read as a `uint32` and the shop id narrowed. */
  lemma DecodePlannedSearchKey(id: int, weekStart: int, weekEnd: int, front: string, shop: nat)
    requires IsInt32(id) && shop < TWO_64
    requires InRange(front + "/" + NatToDecimal(shop), RangeFor(id, weekStart, weekEnd))
    ensures DecodeSearchKey(front + "/" + NatToDecimal(shop)) == Ok(((id % TWO_32) as nat, ToUint32(shop)))
  {
    var key := front + "/" + NatToDecimal(shop);
    KeyShopOfDecimal(front, shop);
    if id >= 0 {
      KeyIdOfPlannedId(id, weekStart, weekEnd, key);
    } else {
      KeyIdOfNegativeId(id, weekStart, weekEnd, key);
      NegativeInt32Mod(id);
    }
  }

  /** A negative `int32` and its 64-bit wrap-around narrow to the same `uint32`. */
  lemma NegativeInt32Mod(id: int)
    requires -(TWO_31 as int) <= id < 0
    ensures (TWO_64 + id) % TWO_32 == TWO_32 + id
    ensures id % TWO_32 == TWO_32 + id
  {
    var r := TWO_32 + id;
    assert 0 <= r < TWO_32;
    assert TWO_64 + id == (TWO_32 - 1) * TWO_32 + r;
    assert id == -1 * TWO_32 + r;
  }

  /** The records one row seals, or the failure that ends the scan in it. */
  function SearchRecords(row: Row): Result<seq<Keyword>>
  {
    match DecodeSearchKey(row.rowKey)
    case Err(f) => Err(f)
    case Ok((keywordId, shopId)) =>
      match DemuxHours(EmptySearchWeek(), keywordId, shopId, row.cells)
      case Err(f) => Err(f)
      case Ok(w) => Ok(Sealed(w, IsValid))
  }

  /** What reading each planned range yields, given what the store returns for it. */
  function Scans(ranges: seq<RowRange>, store: RowRange -> seq<RowResult>): (scans: seq<Scan<Keyword>>)
    ensures |scans| == |ranges|
    ensures forall i :: 0 <= i < |ranges| ==> scans[i] == ScanRows(store(ranges[i]), SearchRecords)
  {
    seq(|ranges|, i requires 0 <= i < |ranges| => ScanRows(store(ranges[i]), SearchRecords))
  }

  lemma SearchRecordsOfKey(row: Row, keywordId: nat, shopId: nat)
    requires DecodeSearchKey(row.rowKey) == Ok((keywordId, shopId))
    ensures DemuxHours(EmptySearchWeek(), keywordId, shopId, row.cells).Err? ==>
      SearchRecords(row) == Err(DemuxHours(EmptySearchWeek(), keywordId, shopId, row.cells).failure)
    ensures DemuxHours(EmptySearchWeek(), keywordId, shopId, row.cells).Ok? ==>
      SearchRecords(row) == Ok(Sealed(DemuxHours(EmptySearchWeek(), keywordId, shopId, row.cells).value, IsValid))
  {
  }

  /** The slot a sealed record came from. */
  function RecordSlot(k: Keyword): int
    requires k.date.Some? && k.position.Some?
  {
    SlotIndexAsWritten(k.date.value, k.position.value)
  }

  /** Sealing an array demultiplexed from an empty one yields one record per distinct
      slot the counted cells land in, each valid, carrying the row's ids and a position
      in 1..200, in strictly ascending order of (hour of the week, position). */
  lemma DemuxSealed(keywordId: nat, shopId: nat, cells: seq<Cell>)
    requires DemuxHours(EmptySearchWeek(), keywordId, shopId, cells).Ok?
    ensures var recs := Sealed(DemuxHours(EmptySearchWeek(), keywordId, shopId, cells).value, IsValid);
      && |recs| == |TouchedSlots(cells)|
      && (forall k :: 0 <= k < |recs| ==>
            && recs[k].valid && recs[k].keywordId == Some(keywordId) && recs[k].shopId == Some(shopId)
            && recs[k].date.Some? && recs[k].position.Some? && 1 <= recs[k].position.value <= MAX_POSITION)
      && (forall k, l :: 0 <= k < l < |recs| ==> RecordSlot(recs[k]) < RecordSlot(recs[l]))
  {
    var w := DemuxHours(EmptySearchWeek(), keywordId, shopId, cells).value;
    DemuxValidSlots(keywordId, shopId, cells);
    DemuxAllPlaced(keywordId, shopId, cells);
    SealedCount(w, IsValid);
    var recs := Sealed(w, IsValid);
    var ds := ValidSlots(w, IsValid);
    forall k | 0 <= k < |recs|
      ensures recs[k].valid && recs[k].keywordId == Some(keywordId) && recs[k].shopId == Some(shopId)
      ensures recs[k].date.Some? && recs[k].position.Some? && 1 <= recs[k].position.value <= MAX_POSITION
      ensures RecordSlot(recs[k]) == ds[k]
    {
      var d := ds[k];
      assert recs[k] == w[d] && Placed(w[d], d);
      assert d in TouchedSlots(cells);
      var i :| 0 <= i < |cells| && Target(cells[i]).Some? && Target(cells[i]).value == d;
      DemuxTouched(EmptySearchWeek(), keywordId, shopId, cells, i);
    }
  }

  /** A row seals one record per distinct (hour of the week, position) its counted cells
      land on, each valid, carrying the row's ids, in ascending (hour, position) order. */
  lemma SearchRecordsSpec(row: Row, keywordId: nat, shopId: nat)
    requires DecodeSearchKey(row.rowKey) == Ok((keywordId, shopId))
    requires SearchRecords(row).Ok?
    ensures var recs := SearchRecords(row).value;
      && |recs| == |TouchedSlots(row.cells)|
      && (forall k :: 0 <= k < |recs| ==>
            && recs[k].valid && recs[k].keywordId == Some(keywordId) && recs[k].shopId == Some(shopId)
            && recs[k].date.Some? && recs[k].position.Some? && 1 <= recs[k].position.value <= MAX_POSITION)
      && (forall k, l :: 0 <= k < l < |recs| ==> RecordSlot(recs[k]) < RecordSlot(recs[l]))
  {
    SearchRecordsOfKey(row, keywordId, shopId);
    DemuxSealed(keywordId, shopId, row.cells);
  }

  /** Sealing an array demultiplexed from an empty one leaves every slot empty again. */
  lemma DemuxClears(keywordId: nat, shopId: nat, cells: seq<Cell>)
    requires DemuxHours(EmptySearchWeek(), keywordId, shopId, cells).Ok?
    ensures AllEmpty(Cleared(DemuxHours(EmptySearchWeek(), keywordId, shopId, cells).value, IsValid, EmptyKeyword), EmptyKeyword)
  {
    DemuxValidSlots(keywordId, shopId, cells);
    var w := DemuxHours(EmptySearchWeek(), keywordId, shopId, cells).value;
    var c := Cleared(w, IsValid, EmptyKeyword);
    forall d | 0 <= d < |c|
      ensures c[d] == EmptyKeyword
    {
      assert c[d] == if IsValid(w[d]) then EmptyKeyword else w[d];
    }
  }

  /** The cell loop of `SearchFunction`: each counted cell updates, in place, the slot of
      `keyword_week` its hour and position select. */
  method DemuxCells(slots: array<Keyword>, keywordId: nat, shopId: nat, cells: seq<Cell>) returns (failure: Option<Failure>)
    requires slots.Length == SEARCH_SLOTS
    modifies slots
    ensures var r := DemuxHours(old(slots[..]), keywordId, shopId, cells);
      && failure == (if r.Err? then Some(r.failure) else None)
      && (r.Ok? ==> slots[..] == r.value)
  {
    for i := 0 to |cells|
      invariant DemuxHours(old(slots[..]), keywordId, shopId, cells[..i]) == Ok(slots[..])
    {
      var cell := cells[i];
      assert cells[..i + 1][..i] == cells[..i];
      var parsed := CellPosition(cell);
      if parsed.Err? {
        DemuxStops(old(slots[..]), keywordId, shopId, cells, i + 1);
        return Some(parsed.failure);
      }
      var position := parsed.value;
      if !Skips(position, cell.value) {
        var s := SlotIndex(cell.timestamp, position);
        var updated := ApplyKeywordCell(slots[s], keywordId, shopId, cell, position as nat);
        if updated.Err? {
          DemuxStops(old(slots[..]), keywordId, shopId, cells, i + 1);
          return Some(updated.failure);
        }
        slots[s] := updated.value;
      }
    }
    assert cells[..|cells|] == cells;
    return None;
  }

  /** The body of the row loop: decode the key, demultiplex the cells into the slot array
      in place, and seal it, leaving every slot empty again. */
  method ReadRow(slots: array<Keyword>, row: Row) returns (decoded: Result<seq<Keyword>>)
    requires slots.Length == SEARCH_SLOTS && AllEmpty(slots[..], EmptyKeyword)
    modifies slots
    ensures decoded == SearchRecords(row)
    ensures decoded.Ok? ==> AllEmpty(slots[..], EmptyKeyword)
  {
    var key := DecodeSearchKey(row.rowKey);
    if key.Err? {
      return Err(key.failure);
    }
    var (keywordId, shopId) := key.value;
    ghost var demuxed := DemuxHours(EmptySearchWeek(), keywordId, shopId, row.cells);
    SearchRecordsOfKey(row, keywordId, shopId);
    assert slots[..] == EmptySearchWeek();
    var failure := DemuxCells(slots, keywordId, shopId, row.cells);
    if failure.Some? {
      return Err(failure.value);
    }
    ghost var filled := slots[..];
    assert filled == demuxed.value;
    DemuxClears(keywordId, shopId, row.cells);
    var sealed := Seal(slots, IsValid, EmptyKeyword);
    decoded := Ok(sealed);
  }

  /** One element of the `ReadRows` stream: a failed status ends the scan, a row is read
      into the slots and sealed. */
  method ReadResult(slots: array<Keyword>, result: RowResult) returns (step: Scan<Keyword>)
    requires slots.Length == SEARCH_SLOTS && AllEmpty(slots[..], EmptyKeyword)
    modifies slots
    ensures step == ScanNext(result, SearchRecords)
    ensures step.failure.None? ==> AllEmpty(slots[..], EmptyKeyword)
  {
    match result {
      case FailedStatus(message) =>
        step := Scan([], Some(StoreError(message)));
      case Fetched(row) =>
        var decoded := ReadRow(slots, row);
        match decoded {
          case Err(f) => step := Scan([], Some(f));
          case Ok(records) => step := Scan(records, None);
        }
    }
  }

  /** `SearchFunctionData`: the planned ranges and the two cursors that persist from one
      call of the table function to the next. */
  class SearchFunctionData {
    var rangesIdx: nat
    var ranges: seq<RowRange>
    var remainderIdx: nat
    var remainder: seq<Keyword>

    ghost predicate Valid()
      reads this
    {
      rangesIdx <= |ranges| && remainderIdx <= |remainder|
    }

    ghost function Cursor(): Cursors<Keyword>
      reads this
    {
      Cursors(rangesIdx, remainder, remainderIdx)
    }

    /** `SearchFunctionBind`: one closed range per requested `int32` keyword id, in list
        order. */
    constructor Bind(weekStart: int, weekEnd: int, keywordIds: seq<int>)
      requires IsInt32(weekStart) && IsInt32(weekEnd)
      requires forall i :: 0 <= i < |keywordIds| ==> IsInt32(keywordIds[i])
      ensures Valid()
      ensures |ranges| == |keywordIds|
      ensures forall i :: 0 <= i < |keywordIds| ==> ranges[i] == RangeFor(keywordIds[i], weekStart, weekEnd)
      ensures rangesIdx == 0 && remainder == [] && remainderIdx == 0
    {
      var planned := PlanRanges(keywordIds, weekStart, weekEnd);
      rangesIdx, ranges := 0, planned;
      remainderIdx, remainder := 0, [];
    }

    /** The row loop over one range: each row's records are appended as it is sealed. */
    method ReadRange(slots: array<Keyword>, rows: seq<RowResult>) returns (failure: Option<Failure>)
      requires slots.Length == SEARCH_SLOTS && AllEmpty(slots[..], EmptyKeyword)
      modifies this`remainder, slots
      ensures remainder == old(remainder) + ScanRows(rows, SearchRecords).records
      ensures failure == ScanRows(rows, SearchRecords).failure
      ensures failure.None? ==> AllEmpty(slots[..], EmptyKeyword)
    {
      failure := None;
      var i := 0;
      ghost var scan: Scan<Keyword> := Scan([], None);
      while i < |rows| && failure.None?
        invariant 0 <= i <= |rows|
        invariant scan == ScanRows(rows[..i], SearchRecords)
        invariant failure == scan.failure
        invariant remainder == old(remainder) + scan.records
        invariant failure.None? ==> AllEmpty(slots[..], EmptyKeyword)
      {
        ScanRowsNext(rows, SearchRecords, i);
        var step := ReadResult(slots, rows[i]);
        AppendAssociative(old(remainder), scan.records, step.records);
        remainder := remainder + step.records;
        failure := step.failure;
        i, scan := i + 1, ScanRows(rows[..i + 1], SearchRecords);
      }
      if failure.Some? {
        ScanRowsStops(rows, SearchRecords, i);
      } else {
        assert rows[..i] == rows;
      }
    }

    /** The fetch loop of `SearchFunction`: read ranges, each into the same slot array,
        while ranges remain and fewer than a chunk of records is pending; a failed range
        ends it. */
    method FetchRanges(slots: array<Keyword>, store: RowRange -> seq<RowResult>) returns (failure: Option<Failure>)
      requires Valid() && slots.Length == SEARCH_SLOTS && AllEmpty(slots[..], EmptyKeyword)
      modifies this`rangesIdx, this`remainder, slots
      ensures Valid()
      ensures (Cursor(), failure) == Fetch(Scans(ranges, store), old(Cursor()))
    {
      ghost var scans := Scans(ranges, store);
      failure := None;
      while rangesIdx < |ranges| && |remainder| - remainderIdx < STANDARD_VECTOR_SIZE && failure.None?
        invariant Valid()
        invariant failure.None? ==> AllEmpty(slots[..], EmptyKeyword)
        invariant failure.None? ==> Fetch(scans, Cursor()) == Fetch(scans, old(Cursor()))
        invariant failure.Some? ==> (Cursor(), failure) == Fetch(scans, old(Cursor()))
        decreases |ranges| - rangesIdx
      {
        ghost var before := Cursor();
        FetchStep(scans, before);
        var range := ranges[rangesIdx];
        rangesIdx := rangesIdx + 1;
        failure := ReadRange(slots, store(range));
        assert scans[before.rangesIdx] == ScanRows(store(range), SearchRecords);
        assert Cursor() == Cursors(before.rangesIdx + 1, before.remainder + scans[before.rangesIdx].records, before.remainderIdx);
      }
    }

    /** The emit loop of `SearchFunction`: copy pending records until a chunk is full. */
    method EmitChunk() returns (batch: seq<Keyword>)
      requires Valid()
      modifies this`remainderIdx
      ensures Valid()
      ensures (Cursor(), batch) == Emit(old(Cursor()))
    {
      batch := [];
      while remainderIdx < |remainder| && |batch| < STANDARD_VECTOR_SIZE
        invariant old(remainderIdx) <= remainderIdx <= |remainder|
        invariant batch == remainder[old(remainderIdx)..remainderIdx]
        invariant |batch| <= STANDARD_VECTOR_SIZE
      {
        assert remainder[old(remainderIdx)..remainderIdx + 1]
            == remainder[old(remainderIdx)..remainderIdx] + [remainder[remainderIdx]];
        batch := batch + [remainder[remainderIdx]];
        remainderIdx := remainderIdx + 1;
      }
      EmitCount(old(Cursor()), |batch|);
    }

    /** `SearchFunction`: one pull. Read ranges while fewer than a chunk of records is
        pending, then copy out up to `STANDARD_VECTOR_SIZE` of them. */
    method SearchFunction(store: RowRange -> seq<RowResult>) returns (out: Pulled<Keyword>)
      requires Valid()
      modifies this
      ensures Valid() && ranges == old(ranges)
      ensures (Cursor(), out) == Pull(Scans(ranges, store), old(Cursor()))
    {
      var slots := new Keyword[SEARCH_SLOTS](_ => EmptyKeyword);
      var failure := FetchRanges(slots, store);
      if failure.Some? {
        out := Aborted(failure.value);
      } else {
        var batch := EmitChunk();
        out := Chunk(batch);
      }
    }
  }
}
