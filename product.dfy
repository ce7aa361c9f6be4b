/** The product feed (src/product.cpp): one record per (pe_id, shop_id, ISO weekday),
    demultiplexed from the cells of `<reversed pe_id>/<week>/<shop_id>` rows into a
    7-slot week, sealed at the end of each row, and handed out in chunks. */
module ProductFeed {
  import opened Wrappers
  import opened Decimal
  import opened Bigtable
  import opened RowKeys
  import opened Calendar
  import opened Slots
  import opened BatchEmitter

  /** `struct Product`. A scalar that no cell wrote is a null `Value` (None). Prices are
      kept as the cell's text: the floating-point conversion is not modelled. */
  datatype Product = Product(
    valid: bool,
    peId: Option<nat>,
    shopId: Option<nat>,
    date: Option<int>,
    price: Option<string>,
    basePrice: Option<string>,
    unitPrice: Option<string>,
    promoId: Option<nat>,
    promoText: Option<string>,
    shelf: seq<string>,
    position: seq<nat>,
    isPaid: seq<bool>)

  /** `Product()`: the state every slot starts in and is reset to. */
  const EmptyProduct := Product(false, None, None, None, None, None, None, None, None, [], [], [])

  const WEEK_SLOTS: nat := 7

  predicate IsValid(p: Product) { p.valid }

  /** The three shelf lists hold one entry per shelf cell, in step. */
  predicate ListsParallel(p: Product) { |p.shelf| == |p.position| == |p.isPaid| }

  /** The writes every cell makes before its family is looked at. */
  function Stamp(p: Product, peId: nat, shopId: nat, cell: Cell): Product
  {
    p.(valid := true, peId := Some(peId), shopId := Some(shopId), date := Some(EpochDay(cell.timestamp)))
  }

  predicate IsShelfFamily(c: char) { c == 's' || c == 'S' }

  /** One cell's effect on the record of its weekday: the family letter selects the
      fields, the qualifier's first letter selects the price; unknown letters write
      nothing beyond the stamp. `std::stoul` failing on a promo qualifier or a shelf
      position throws, which ends the scan. */
  function ApplyCell(p: Product, peId: nat, shopId: nat, cell: Cell): Result<Product>
  {
    var q := Stamp(p, peId, shopId, cell);
    var family := Head(cell.family);
    if family == 'p' then
      var field := Head(cell.qualifier);
      if field == 'p' then Ok(q.(price := Some(cell.value)))
      else if field == 'b' then Ok(q.(basePrice := Some(cell.value)))
      else if field == 'u' then Ok(q.(unitPrice := Some(cell.value)))
      else Ok(q)
    else if family == 'd' then
      match StoUL(cell.qualifier)
      case None => Err(ParseError(cell.qualifier))
      case Some(v) => Ok(q.(promoId := Some(ToUint32(v)), promoText := Some(cell.value)))
    else if IsShelfFamily(family) then
      match StoUL(cell.value)
      case None => Err(ParseError(cell.value))
      case Some(v) =>
        Ok(q.(shelf := q.shelf + [cell.qualifier],
              position := q.position + [ToUint32(v)],
              isPaid := q.isPaid + [family == 'S']))
    else Ok(q)
  }

  /** What a cell writes: the stamp always; for a price cell the selected price; for a
      promo cell both promo fields, failing exactly when the qualifier is not a number;
      for a shelf cell one more entry in each list, failing exactly when the value is not
      a number; for any other family nothing else. */
  lemma ApplyCellSpec(p: Product, peId: nat, shopId: nat, cell: Cell)
    ensures var r := ApplyCell(p, peId, shopId, cell);
      && (r.Ok? ==> r.value.valid && r.value.peId == Some(peId) && r.value.shopId == Some(shopId))
      && (r.Ok? ==> r.value.date == Some(EpochDay(cell.timestamp)))
      && (r.Ok? && ListsParallel(p) ==> ListsParallel(r.value))
      && (Head(cell.family) == 'p' ==>
            && r.Ok?
            && r.value.price == (if Head(cell.qualifier) == 'p' then Some(cell.value) else p.price)
            && r.value.basePrice == (if Head(cell.qualifier) == 'b' then Some(cell.value) else p.basePrice)
            && r.value.unitPrice == (if Head(cell.qualifier) == 'u' then Some(cell.value) else p.unitPrice)
            && r.value.(price := p.price, basePrice := p.basePrice, unitPrice := p.unitPrice) == Stamp(p, peId, shopId, cell))
      && (Head(cell.family) == 'd' ==>
            && (r.Ok? <==> StoUL(cell.qualifier).Some?)
            && (r.Ok? ==> r.value == Stamp(p, peId, shopId, cell).(
                  promoId := Some(ToUint32(StoUL(cell.qualifier).value)), promoText := Some(cell.value))))
      && (IsShelfFamily(Head(cell.family)) ==>
            && (r.Ok? <==> StoUL(cell.value).Some?)
            && (r.Ok? ==>
                  && r.value.shelf == p.shelf + [cell.qualifier]
                  && r.value.position == p.position + [ToUint32(StoUL(cell.value).value)]
                  && r.value.isPaid == p.isPaid + [Head(cell.family) == 'S']
                  && r.value.(shelf := p.shelf, position := p.position, isPaid := p.isPaid) == Stamp(p, peId, shopId, cell)))
      && (!(Head(cell.family) in {'p', 'd', 's', 'S'}) ==> r == Ok(Stamp(p, peId, shopId, cell)))
  {
  }

  /** The cells of one row applied in order to the 7-slot week, each to the slot of its
      timestamp's weekday. */
  function DemuxWeek(week: seq<Product>, peId: nat, shopId: nat, cells: seq<Cell>): (r: Result<seq<Product>>)
    requires |week| == WEEK_SLOTS
    ensures r.Ok? ==> |r.value| == WEEK_SLOTS
    decreases |cells|
  {
    if cells == [] then Ok(week)
    else
      match DemuxWeek(week, peId, shopId, cells[..|cells| - 1])
      case Err(f) => Err(f)
      case Ok(w) =>
        var cell := cells[|cells| - 1];
        var d := Weekday(cell.timestamp);
        match ApplyCell(w[d], peId, shopId, cell)
        case Err(f) => Err(f)
        case Ok(p) => Ok(w[d := p])
  }

  function EmptyWeek(): (w: seq<Product>)
    ensures |w| == WEEK_SLOTS && forall d :: 0 <= d < |w| ==> w[d] == EmptyProduct
  {
    seq(WEEK_SLOTS, _ => EmptyProduct)
  }

  /** The weekdays the cells of a row fall on. */
  function TouchedDays(cells: seq<Cell>): set<nat>
  {
    set i | 0 <= i < |cells| :: Weekday(cells[i].timestamp)
  }

  /** `pe_id` and `shop_id` from a row key: `stoull` of the reversed first segment and
      `stoul` of the last segment narrowed to 32 bits; either failing throws. */
  function DecodeProductKey(key: string): Result<(nat, nat)>
  {
    match KeyId(key)
    case None => Err(ParseError(Reverse(key[..FirstSlash(key)])))
    case Some(peId) =>
      match KeyShop(key)
      case None => Err(ParseError(key[LastSlash(key) + 1..]))
      case Some(shopId) => Ok((peId, shopId))
  }

  /** The records one row seals, or the failure that ends the scan in it. */
  function RowRecords(row: Row): Result<seq<Product>>
  {
    match DecodeProductKey(row.rowKey)
    case Err(f) => Err(f)
    case Ok((peId, shopId)) =>
      match DemuxWeek(EmptyWeek(), peId, shopId, row.cells)
      case Err(f) => Err(f)
      case Ok(w) => Ok(Sealed(w, IsValid))
  }

  /** What reading each planned range yields, given what the store returns for it. */
  function Scans(ranges: seq<RowRange>, store: RowRange -> seq<RowResult>): (scans: seq<Scan<Product>>)
    ensures |scans| == |ranges|
    ensures forall i :: 0 <= i < |ranges| ==> scans[i] == ScanRows(store(ranges[i]), RowRecords)
  {
    seq(|ranges|, i requires 0 <= i < |ranges| => ScanRows(store(ranges[i]), RowRecords))
  }

  /** The groups of fields a cell can write: a price cell writes one of the three prices,
      a promo cell both promo fields, a shelf cell the three parallel lists. */
  datatype Field = Price | BasePrice | UnitPrice | Promo | Shelf

  predicate Writes(f: Field, c: Cell)
  {
    match f
    case Price => Head(c.family) == 'p' && Head(c.qualifier) == 'p'
    case BasePrice => Head(c.family) == 'p' && Head(c.qualifier) == 'b'
    case UnitPrice => Head(c.family) == 'p' && Head(c.qualifier) == 'u'
    case Promo => Head(c.family) == 'd'
    case Shelf => IsShelfFamily(Head(c.family))
  }

  predicate SameField(f: Field, p: Product, q: Product)
  {
    match f
    case Price => p.price == q.price
    case BasePrice => p.basePrice == q.basePrice
    case UnitPrice => p.unitPrice == q.unitPrice
    case Promo => p.promoId == q.promoId && p.promoText == q.promoText
    case Shelf => p.shelf == q.shelf && p.position == q.position && p.isPaid == q.isPaid
  }

  /** Demultiplexing a row of which a prefix already failed fails too; the prefix of a
      row that demultiplexes also does. */
  lemma DemuxFront(week: seq<Product>, peId: nat, shopId: nat, cells: seq<Cell>)
    requires |week| == WEEK_SLOTS && cells != []
    requires DemuxWeek(week, peId, shopId, cells).Ok?
    ensures DemuxWeek(week, peId, shopId, cells[..|cells| - 1]).Ok?
    ensures var w := DemuxWeek(week, peId, shopId, cells[..|cells| - 1]).value;
      var c := cells[|cells| - 1];
      && ApplyCell(w[Weekday(c.timestamp)], peId, shopId, c).Ok?
      && DemuxWeek(week, peId, shopId, cells).value
         == w[Weekday(c.timestamp) := ApplyCell(w[Weekday(c.timestamp)], peId, shopId, c).value]
  {
  }

  /** A slot that no cell of the row falls into is left as it was. */
  lemma {:induction false} DemuxUntouched(week: seq<Product>, peId: nat, shopId: nat, cells: seq<Cell>, d: nat)
    requires |week| == WEEK_SLOTS && d < WEEK_SLOTS
    requires DemuxWeek(week, peId, shopId, cells).Ok?
    requires forall i :: 0 <= i < |cells| ==> Weekday(cells[i].timestamp) != d
    ensures DemuxWeek(week, peId, shopId, cells).value[d] == week[d]
    decreases |cells|
  {
    if cells != [] {
      DemuxFront(week, peId, shopId, cells);
      DemuxUntouched(week, peId, shopId, cells[..|cells| - 1], d);
    }
  }

  /** A slot that some cell falls into is valid and carries the row's ids. */
  lemma {:induction false} DemuxTouched(week: seq<Product>, peId: nat, shopId: nat, cells: seq<Cell>, i: nat)
    requires |week| == WEEK_SLOTS && i < |cells|
    requires DemuxWeek(week, peId, shopId, cells).Ok?
    ensures var p := DemuxWeek(week, peId, shopId, cells).value[Weekday(cells[i].timestamp)];
      p.valid && p.peId == Some(peId) && p.shopId == Some(shopId)
    decreases |cells|
  {
    DemuxFront(week, peId, shopId, cells);
    if i < |cells| - 1 {
      DemuxTouched(week, peId, shopId, cells[..|cells| - 1], i);
    }
  }

  /** A slot's `date` is that of the last cell of the row that falls into it. */
  lemma {:induction false} DemuxLastDate(week: seq<Product>, peId: nat, shopId: nat, cells: seq<Cell>, i: nat)
    requires |week| == WEEK_SLOTS && i < |cells|
    requires DemuxWeek(week, peId, shopId, cells).Ok?
    requires forall j :: i < j < |cells| ==> Weekday(cells[j].timestamp) != Weekday(cells[i].timestamp)
    ensures DemuxWeek(week, peId, shopId, cells).value[Weekday(cells[i].timestamp)].date
         == Some(EpochDay(cells[i].timestamp))
    decreases |cells|
  {
    DemuxFront(week, peId, shopId, cells);
    if i < |cells| - 1 {
      DemuxLastDate(week, peId, shopId, cells[..|cells| - 1], i);
    }
  }

  /** What a slot holds for field group `f` once cell `c`, which writes `f`, has been
      applied to it: the cell's value for a price, the narrowed qualifier and the value for
      a promo, and the cell's entry at the end of each list for a shelf. */
  predicate HoldsWrite(f: Field, p: Product, c: Cell)
  {
    match f
    case Price => p.price == Some(c.value)
    case BasePrice => p.basePrice == Some(c.value)
    case UnitPrice => p.unitPrice == Some(c.value)
    case Promo =>
      StoUL(c.qualifier).Some? && p.promoId == Some(ToUint32(StoUL(c.qualifier).value))
      && p.promoText == Some(c.value)
    case Shelf =>
      && StoUL(c.value).Some?
      && |p.shelf| > 0 && p.shelf[|p.shelf| - 1] == c.qualifier
      && |p.position| > 0 && p.position[|p.position| - 1] == ToUint32(StoUL(c.value).value)
      && |p.isPaid| > 0 && p.isPaid[|p.isPaid| - 1] == (Head(c.family) == 'S')
  }

  /** One cell's effect on field group f of its slot: a cell writing f leaves it holding
      the cell's write, any other cell leaves it as it was. */
  lemma ApplyCellField(p: Product, peId: nat, shopId: nat, c: Cell, f: Field)
    requires ApplyCell(p, peId, shopId, c).Ok?
    ensures Writes(f, c) ==> HoldsWrite(f, ApplyCell(p, peId, shopId, c).value, c)
    ensures !Writes(f, c) ==> SameField(f, ApplyCell(p, peId, shopId, c).value, p)
  {
  }

  /** Last write wins: for every field group, a slot holds what the last cell of the row
      that falls into it and writes that group put there; in particular its `price`,
      `base_price` and `unit_price` are the values of its last such cells, and its promo
      fields come from its last `d` cell. */
  lemma {:induction false} DemuxLastWrite(week: seq<Product>, peId: nat, shopId: nat, cells: seq<Cell>, i: nat, f: Field)
    requires |week| == WEEK_SLOTS && i < |cells| && Writes(f, cells[i])
    requires DemuxWeek(week, peId, shopId, cells).Ok?
    requires forall j :: i < j < |cells| ==>
      Weekday(cells[j].timestamp) == Weekday(cells[i].timestamp) ==> !Writes(f, cells[j])
    ensures HoldsWrite(f, DemuxWeek(week, peId, shopId, cells).value[Weekday(cells[i].timestamp)], cells[i])
    decreases |cells|
  {
    DemuxFront(week, peId, shopId, cells);
    var front := cells[..|cells| - 1];
    var c := cells[|cells| - 1];
    var d := Weekday(cells[i].timestamp);
    var w := DemuxWeek(week, peId, shopId, front).value;
    if Weekday(c.timestamp) == d {
      ApplyCellField(w[d], peId, shopId, c, f);
    }
    if i < |cells| - 1 {
      DemuxLastWrite(week, peId, shopId, front, i, f);
    }
  }

  /** A field that no cell of the slot writes keeps its value: from an empty week, a
      price, promo or shelf field that no cell wrote stays null or empty. */
  lemma {:induction false} DemuxKeepsUnwritten(week: seq<Product>, peId: nat, shopId: nat, cells: seq<Cell>, d: nat, f: Field)
    requires |week| == WEEK_SLOTS && d < WEEK_SLOTS
    requires DemuxWeek(week, peId, shopId, cells).Ok?
    requires forall i :: 0 <= i < |cells| && Weekday(cells[i].timestamp) == d ==> !Writes(f, cells[i])
    ensures SameField(f, DemuxWeek(week, peId, shopId, cells).value[d], week[d])
    decreases |cells|
  {
    if cells != [] {
      DemuxFront(week, peId, shopId, cells);
      DemuxKeepsUnwritten(week, peId, shopId, cells[..|cells| - 1], d, f);
    }
  }

  /** The shelf, position and is_paid lists of every slot stay the same length. */
  lemma {:induction false} DemuxListsParallel(week: seq<Product>, peId: nat, shopId: nat, cells: seq<Cell>)
    requires |week| == WEEK_SLOTS && forall d :: 0 <= d < WEEK_SLOTS ==> ListsParallel(week[d])
    requires DemuxWeek(week, peId, shopId, cells).Ok?
    ensures forall d :: 0 <= d < WEEK_SLOTS ==> ListsParallel(DemuxWeek(week, peId, shopId, cells).value[d])
    decreases |cells|
  {
    if cells != [] {
      DemuxFront(week, peId, shopId, cells);
      DemuxListsParallel(week, peId, shopId, cells[..|cells| - 1]);
    }
  }

  /** The shelf cells (`s` or `S`) of a row that fall on weekday d, in cell order. */
  function ShelfCells(cells: seq<Cell>, d: nat): seq<Cell>
    decreases |cells|
  {
    if cells == [] then []
    else
      var c := cells[|cells| - 1];
      ShelfCells(cells[..|cells| - 1], d) + (if Writes(Shelf, c) && Weekday(c.timestamp) == d then [c] else [])
  }

  /** The shelf names the cells list: their qualifiers. */
  function Qualifiers(cs: seq<Cell>): seq<string>
    decreases |cs|
  {
    if cs == [] then [] else Qualifiers(cs[..|cs| - 1]) + [cs[|cs| - 1].qualifier]
  }

  /** The positions the cells list: their values read by `stoul` and narrowed to 32 bits
      (a value that is not a number contributes nothing; in a row that demultiplexes there
      is none). */
  function Positions(cs: seq<Cell>): seq<nat>
    decreases |cs|
  {
    if cs == [] then []
    else
      var c := cs[|cs| - 1];
      Positions(cs[..|cs| - 1]) + (match StoUL(c.value) case Some(v) => [ToUint32(v)] case None => [])
  }

  /** The is_paid flags the cells list: true exactly for an `S` family. */
  function PaidFlags(cs: seq<Cell>): seq<bool>
    decreases |cs|
  {
    if cs == [] then [] else PaidFlags(cs[..|cs| - 1]) + [Head(cs[|cs| - 1].family) == 'S']
  }

  /** One cell's effect on the three lists of its slot: a shelf cell appends its entry to
      each, any other cell leaves them as they were. */
  lemma ApplyCellLists(p: Product, peId: nat, shopId: nat, c: Cell)
    requires ApplyCell(p, peId, shopId, c).Ok?
    ensures var q := ApplyCell(p, peId, shopId, c).value;
      if Writes(Shelf, c) then
        && StoUL(c.value).Some?
        && q.shelf == p.shelf + [c.qualifier]
        && q.position == p.position + [ToUint32(StoUL(c.value).value)]
        && q.isPaid == p.isPaid + [Head(c.family) == 'S']
      else q.shelf == p.shelf && q.position == p.position && q.isPaid == p.isPaid
  {
  }

  /** Every shelf cell of a weekday adds one entry to each of the slot's three lists, in
      cell order: after a row, a slot's shelf, position and is_paid lists are what they
      were followed by the qualifier, the narrowed value and the `S` flag of each of the
      row's shelf cells on that weekday. */
  lemma {:induction false} DemuxShelves(week: seq<Product>, peId: nat, shopId: nat, cells: seq<Cell>, d: nat)
    requires |week| == WEEK_SLOTS && d < WEEK_SLOTS
    requires DemuxWeek(week, peId, shopId, cells).Ok?
    ensures var p := DemuxWeek(week, peId, shopId, cells).value[d];
      && p.shelf == week[d].shelf + Qualifiers(ShelfCells(cells, d))
      && p.position == week[d].position + Positions(ShelfCells(cells, d))
      && p.isPaid == week[d].isPaid + PaidFlags(ShelfCells(cells, d))
    decreases |cells|
  {
    if cells != [] {
      var front := cells[..|cells| - 1];
      var c := cells[|cells| - 1];
      DemuxFront(week, peId, shopId, cells);
      DemuxShelves(week, peId, shopId, front, d);
      var w := DemuxWeek(week, peId, shopId, front).value;
      var sc := ShelfCells(front, d);
      if Weekday(c.timestamp) == d {
        ApplyCellLists(w[d], peId, shopId, c);
        if Writes(Shelf, c) {
          assert ShelfCells(cells, d) == sc + [c];
          assert (sc + [c])[..|sc + [c]| - 1] == sc;
        } else {
          assert ShelfCells(cells, d) == sc;
        }
      } else {
        assert ShelfCells(cells, d) == sc;
      }
    }
  }

  /** From an empty week, exactly the weekdays the row's cells fall on end up valid. */
  lemma DemuxValidDays(peId: nat, shopId: nat, cells: seq<Cell>)
    requires DemuxWeek(EmptyWeek(), peId, shopId, cells).Ok?
    ensures ValidSet(DemuxWeek(EmptyWeek(), peId, shopId, cells).value, IsValid) == TouchedDays(cells)
  {
    var w := DemuxWeek(EmptyWeek(), peId, shopId, cells).value;
    forall d: nat | d < WEEK_SLOTS
      ensures w[d].valid <==> d in TouchedDays(cells)
    {
      if i :| 0 <= i < |cells| && Weekday(cells[i].timestamp) == d {
        DemuxTouched(EmptyWeek(), peId, shopId, cells, i);
      } else {
        DemuxUntouched(EmptyWeek(), peId, shopId, cells, d);
      }
    }
  }

  /** Sealing a week demultiplexed from an empty one yields one record per distinct
      weekday the cells fall on, each valid, carrying the row's ids, with its shelf lists
      in step. */
  lemma DemuxSealed(peId: nat, shopId: nat, cells: seq<Cell>)
    requires DemuxWeek(EmptyWeek(), peId, shopId, cells).Ok?
    ensures var recs := Sealed(DemuxWeek(EmptyWeek(), peId, shopId, cells).value, IsValid);
      && |recs| == |TouchedDays(cells)|
      && forall k :: 0 <= k < |recs| ==>
           recs[k].valid && recs[k].peId == Some(peId) && recs[k].shopId == Some(shopId) && ListsParallel(recs[k])
  {
    var w := DemuxWeek(EmptyWeek(), peId, shopId, cells).value;
    DemuxValidDays(peId, shopId, cells);
    SealedCount(w, IsValid);
    DemuxListsParallel(EmptyWeek(), peId, shopId, cells);
    var recs := Sealed(w, IsValid);
    forall k | 0 <= k < |recs|
      ensures recs[k].valid && recs[k].peId == Some(peId) && recs[k].shopId == Some(shopId)
    {
      var d := ValidSlots(w, IsValid)[k];
      assert d in TouchedDays(cells);
      var i :| 0 <= i < |cells| && Weekday(cells[i].timestamp) == d;
      DemuxTouched(EmptyWeek(), peId, shopId, cells, i);
    }
  }

  /** A row seals one record per distinct weekday its cells fall on, each valid, carrying
      the row's ids, with its shelf lists in step. */
  lemma RowRecordsSpec(row: Row, peId: nat, shopId: nat)
    requires DecodeProductKey(row.rowKey) == Ok((peId, shopId))
    requires RowRecords(row).Ok?
    ensures var recs := RowRecords(row).value;
      && |recs| == |TouchedDays(row.cells)|
      && forall k :: 0 <= k < |recs| ==>
           recs[k].valid && recs[k].peId == Some(peId) && recs[k].shopId == Some(shopId) && ListsParallel(recs[k])
  {
    RowRecordsOfKey(row, peId, shopId);
    DemuxSealed(peId, shopId, row.cells);
  }

  /** Every row of a planned range, with a decimal shop id as its last segment, decodes
      to the planned `pe_id` and that shop id narrowed to 32 bits. */
  lemma DecodePlannedKey(id: int, weekStart: int, weekEnd: int, front: string, shop: nat)
    requires 0 <= id < TWO_64 && shop < TWO_64
    requires InRange(front + "/" + NatToDecimal(shop), RangeFor(id, weekStart, weekEnd))
    ensures DecodeProductKey(front + "/" + NatToDecimal(shop)) == Ok((id, ToUint32(shop)))
  {
    KeyIdOfPlannedId(id, weekStart, weekEnd, front + "/" + NatToDecimal(shop));
    KeyShopOfDecimal(front, shop);
  }

  /** A failure in a prefix of the row's cells is the failure of the whole row. */
  lemma {:induction false} DemuxStops(week: seq<Product>, peId: nat, shopId: nat, cells: seq<Cell>, k: nat)
    requires |week| == WEEK_SLOTS && k <= |cells|
    requires DemuxWeek(week, peId, shopId, cells[..k]).Err?
    ensures DemuxWeek(week, peId, shopId, cells) == DemuxWeek(week, peId, shopId, cells[..k])
    decreases |cells| - k
  {
    if k < |cells| {
      assert cells[..k + 1][..k] == cells[..k];
      DemuxStops(week, peId, shopId, cells, k + 1);
    } else {
      assert cells[..k] == cells;
    }
  }

  /** From an empty week, a slot that is not valid is still empty. */
  lemma DemuxInvalidEmpty(peId: nat, shopId: nat, cells: seq<Cell>)
    requires DemuxWeek(EmptyWeek(), peId, shopId, cells).Ok?
    ensures var w := DemuxWeek(EmptyWeek(), peId, shopId, cells).value;
      forall d :: 0 <= d < WEEK_SLOTS && !w[d].valid ==> w[d] == EmptyProduct
  {
    var w := DemuxWeek(EmptyWeek(), peId, shopId, cells).value;
    forall d | 0 <= d < WEEK_SLOTS && !w[d].valid
      ensures w[d] == EmptyProduct
    {
      if i :| 0 <= i < |cells| && Weekday(cells[i].timestamp) == d {
        DemuxTouched(EmptyWeek(), peId, shopId, cells, i);
      } else {
        DemuxUntouched(EmptyWeek(), peId, shopId, cells, d);
      }
    }
  }

  lemma RowRecordsOfKey(row: Row, peId: nat, shopId: nat)
    requires DecodeProductKey(row.rowKey) == Ok((peId, shopId))
    ensures DemuxWeek(EmptyWeek(), peId, shopId, row.cells).Err? ==>
      RowRecords(row) == Err(DemuxWeek(EmptyWeek(), peId, shopId, row.cells).failure)
    ensures DemuxWeek(EmptyWeek(), peId, shopId, row.cells).Ok? ==>
      RowRecords(row) == Ok(Sealed(DemuxWeek(EmptyWeek(), peId, shopId, row.cells).value, IsValid))
  {
  }

  /** Sealing a week demultiplexed from an empty one leaves every slot empty again. */
  lemma DemuxClears(peId: nat, shopId: nat, cells: seq<Cell>)
    requires DemuxWeek(EmptyWeek(), peId, shopId, cells).Ok?
    ensures AllEmpty(Cleared(DemuxWeek(EmptyWeek(), peId, shopId, cells).value, IsValid, EmptyProduct), EmptyProduct)
  {
    DemuxInvalidEmpty(peId, shopId, cells);
    var w := DemuxWeek(EmptyWeek(), peId, shopId, cells).value;
    var c := Cleared(w, IsValid, EmptyProduct);
    forall d | 0 <= d < |c|
      ensures c[d] == EmptyProduct
    {
      assert c[d] == if IsValid(w[d]) then EmptyProduct else w[d];
    }
  }

  /** The cell loop of `ProductFunction`: each cell updates, in place, the slot of
      `product_week` its weekday selects. */
  method DemuxCells(week: array<Product>, peId: nat, shopId: nat, cells: seq<Cell>) returns (failure: Option<Failure>)
    requires week.Length == WEEK_SLOTS
    modifies week
    ensures var r := DemuxWeek(old(week[..]), peId, shopId, cells);
      && failure == (if r.Err? then Some(r.failure) else None)
      && (r.Ok? ==> week[..] == r.value)
  {
    for i := 0 to |cells|
      invariant DemuxWeek(old(week[..]), peId, shopId, cells[..i]) == Ok(week[..])
    {
      var cell := cells[i];
      var day := Weekday(cell.timestamp);
      var updated := ApplyCell(week[day], peId, shopId, cell);
      assert cells[..i + 1][..i] == cells[..i];
      if updated.Err? {
        DemuxStops(old(week[..]), peId, shopId, cells, i + 1);
        return Some(updated.failure);
      }
      week[day] := updated.value;
    }
    assert cells[..|cells|] == cells;
    return None;
  }

  /** The body of the row loop: decode the key, demultiplex the cells into the week
      in place, and seal it, leaving every slot empty again. */
  method ReadRow(week: array<Product>, row: Row) returns (decoded: Result<seq<Product>>)
    requires week.Length == WEEK_SLOTS && AllEmpty(week[..], EmptyProduct)
    modifies week
    ensures decoded == RowRecords(row)
    ensures decoded.Ok? ==> AllEmpty(week[..], EmptyProduct)
  {
    var key := DecodeProductKey(row.rowKey);
    if key.Err? {
      return Err(key.failure);
    }
    var (peId, shopId) := key.value;
    ghost var demuxedWeek := DemuxWeek(EmptyWeek(), peId, shopId, row.cells);
    RowRecordsOfKey(row, peId, shopId);
    assert week[..] == EmptyWeek();
    var demuxed := DemuxCells(week, peId, shopId, row.cells);
    if demuxed.Some? {
      return Err(demuxed.value);
    }
    ghost var filled := week[..];
    assert filled == demuxedWeek.value;
    DemuxClears(peId, shopId, row.cells);
    var sealed := Seal(week, IsValid, EmptyProduct);
    decoded := Ok(sealed);
  }

  /** One element of the `ReadRows` stream: a failed status ends the scan, a row is read
      into the slots and sealed. */
  method ReadResult(week: array<Product>, result: RowResult) returns (step: Scan<Product>)
    requires week.Length == WEEK_SLOTS && AllEmpty(week[..], EmptyProduct)
    modifies week
    ensures step == ScanNext(result, RowRecords)
    ensures step.failure.None? ==> AllEmpty(week[..], EmptyProduct)
  {
    match result {
      case FailedStatus(message) =>
        step := Scan([], Some(StoreError(message)));
      case Fetched(row) =>
        var decoded := ReadRow(week, row);
        match decoded {
          case Err(f) => step := Scan([], Some(f));
          case Ok(records) => step := Scan(records, None);
        }
    }
  }

  /** `ProductFunctionData`: the planned ranges and the two cursors that persist from one
      call of the table function to the next. */
  class ProductFunctionData {
    var rangesIdx: nat
    var ranges: seq<RowRange>
    var remainderIdx: nat
    var remainder: seq<Product>

    ghost predicate Valid()
      reads this
    {
      rangesIdx <= |ranges| && remainderIdx <= |remainder|
    }

    ghost function Cursor(): Cursors<Product>
      reads this
    {
      Cursors(rangesIdx, remainder, remainderIdx)
    }

    /** `ProductFunctionBind`: one closed range per requested `pe_id`, in list order. */
    constructor Bind(weekStart: int, weekEnd: int, peIds: seq<int>)
      requires IsInt32(weekStart) && IsInt32(weekEnd)
      requires forall i :: 0 <= i < |peIds| ==> IsInt64(peIds[i])
      ensures Valid()
      ensures |ranges| == |peIds|
      ensures forall i :: 0 <= i < |peIds| ==> ranges[i] == RangeFor(peIds[i], weekStart, weekEnd)
      ensures rangesIdx == 0 && remainder == [] && remainderIdx == 0
    {
      var planned := PlanRanges(peIds, weekStart, weekEnd);
      rangesIdx, ranges := 0, planned;
      remainderIdx, remainder := 0, [];
    }

    /** The row loop over one range: each row's records are appended as it is sealed. */
    method ReadRange(week: array<Product>, rows: seq<RowResult>) returns (failure: Option<Failure>)
      requires week.Length == WEEK_SLOTS && AllEmpty(week[..], EmptyProduct)
      modifies this`remainder, week
      ensures remainder == old(remainder) + ScanRows(rows, RowRecords).records
      ensures failure == ScanRows(rows, RowRecords).failure
      ensures failure.None? ==> AllEmpty(week[..], EmptyProduct)
    {
      failure := None;
      var i := 0;
      ghost var scan: Scan<Product> := Scan([], None);
      while i < |rows| && failure.None?
        invariant 0 <= i <= |rows|
        invariant scan == ScanRows(rows[..i], RowRecords)
        invariant failure == scan.failure
        invariant remainder == old(remainder) + scan.records
        invariant failure.None? ==> AllEmpty(week[..], EmptyProduct)
      {
        ScanRowsNext(rows, RowRecords, i);
        var step := ReadResult(week, rows[i]);
        AppendAssociative(old(remainder), scan.records, step.records);
        remainder := remainder + step.records;
        failure := step.failure;
        i, scan := i + 1, ScanRows(rows[..i + 1], RowRecords);
      }
      if failure.Some? {
        ScanRowsStops(rows, RowRecords, i);
      } else {
        assert rows[..i] == rows;
      }
    }

    /** The fetch loop of `ProductFunction`: read ranges, each into the same week, while
        ranges remain and fewer than a chunk of records is pending; a failed range ends it. */
    method FetchRanges(week: array<Product>, store: RowRange -> seq<RowResult>) returns (failure: Option<Failure>)
      requires Valid() && week.Length == WEEK_SLOTS && AllEmpty(week[..], EmptyProduct)
      modifies this`rangesIdx, this`remainder, week
      ensures Valid()
      ensures (Cursor(), failure) == Fetch(Scans(ranges, store), old(Cursor()))
    {
      ghost var scans := Scans(ranges, store);
      failure := None;
      while rangesIdx < |ranges| && |remainder| - remainderIdx < STANDARD_VECTOR_SIZE && failure.None?
        invariant Valid()
        invariant failure.None? ==> AllEmpty(week[..], EmptyProduct)
        invariant failure.None? ==> Fetch(scans, Cursor()) == Fetch(scans, old(Cursor()))
        invariant failure.Some? ==> (Cursor(), failure) == Fetch(scans, old(Cursor()))
        decreases |ranges| - rangesIdx
      {
        ghost var before := Cursor();
        FetchStep(scans, before);
        var range := ranges[rangesIdx];
        rangesIdx := rangesIdx + 1;
        failure := ReadRange(week, store(range));
        assert scans[before.rangesIdx] == ScanRows(store(range), RowRecords);
        assert Cursor() == Cursors(before.rangesIdx + 1, before.remainder + scans[before.rangesIdx].records, before.remainderIdx);
      }
    }

    /** The emit loop of `ProductFunction`: copy pending records until a chunk is full. */
    method EmitChunk() returns (batch: seq<Product>)
      requires Valid()
      modifies this`remainderIdx
      ensures Valid()
      ensures (Cursor(), batch) == Emit(old(Cursor()))
    {
      batch := [];
      while remainderIdx < |remainder| && |batch| < STANDARD_VECTOR_SIZE
        invariant old(remainderIdx) <= remainderIdx <= |remainder|
        invariant batch == remainder[old(remainderIdx)..remainderIdx]
        invariant |batch| <= STANDARD_VECTOR_SIZE
      {
        assert remainder[old(remainderIdx)..remainderIdx + 1]
            == remainder[old(remainderIdx)..remainderIdx] + [remainder[remainderIdx]];
        batch := batch + [remainder[remainderIdx]];
        remainderIdx := remainderIdx + 1;
      }
      EmitCount(old(Cursor()), |batch|);
    }

    /** `ProductFunction`: one pull. Read ranges while fewer than a chunk of records is
        pending, then copy out up to `STANDARD_VECTOR_SIZE` of them. */
    method ProductFunction(store: RowRange -> seq<RowResult>) returns (out: Pulled<Product>)
      requires Valid()
      modifies this
      ensures Valid() && ranges == old(ranges)
      ensures (Cursor(), out) == Pull(Scans(ranges, store), old(Cursor()))
    {
      var week := new Product[WEEK_SLOTS](_ => EmptyProduct);
      var failure := FetchRanges(week, store);
      if failure.Some? {
        out := Aborted(failure.value);
      } else {
        var batch := EmitChunk();
        out := Chunk(batch);
      }
    }
  }
}
