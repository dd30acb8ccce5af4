/**
 * The report layout of the tool, with the spreadsheet application taken
 * away: what `ExcelIO` writes is modelled as the sequence of placements it
 * emits (a sheet renamed, a template row copied, a value put in a cell, a
 * cell painted), and what it reads from a sheet as plain values handed in.
 */
module ExcelLayout {
  import opened Results
  import opened DecimalText
  import opened Products
  import opened ProductEntries
  import opened RawReading
  import opened ProducerRegistry

  /** `StaticDataFieldCount`: columns A to J of every row are the store's own data. */
  const STATIC_FIELDS: int := 10

  // ---------------------------------------------------------------------------
  // Column names
  // ---------------------------------------------------------------------------

  /** The capital letter with the given offset from 'A'. */
  function Letter(d: int): char
    requires 0 <= d < 26
  {
    (65 + d) as char
  }

  /**
   * The A1-style name of column `n` (1 is "A", 27 is "AA"): `n` written in
   * bijective base 26 with the digits 'A' to 'Z'. Nothing is written for
   * `n <= 0`.
   */
  function ColumnName(n: int): string
    decreases n
  {
    if n <= 0 then "" else ColumnName((n - 1) / 26) + [Letter((n - 1) % 26)]
  }

  /** The number a column name stands for: the inverse reading of `ColumnName`. */
  function ColumnNumber(s: string): int
  {
    if s == [] then 0 else ColumnNumber(s[..|s| - 1]) * 26 + (s[|s| - 1] as int - 64)
  }

  /** Capital letters only. */
  predicate Capitals(s: string)
  {
    forall i :: 0 <= i < |s| ==> 'A' <= s[i] <= 'Z'
  }

  /** The loop's step `(n - (n - 1) % 26) / 26` is `(n - 1) / 26`. */
  lemma StepIsQuotient(n: int)
    requires n > 0
    ensures (n - (n - 1) % 26) / 26 == (n - 1) / 26
  {
    var m := n - 1;
    assert m == (m / 26) * 26 + m % 26;
    assert n - m % 26 == (m / 26) * 26 + 1;
  }

  /**
   * `GetExcelColumnName`: the letters are found from the right, each one the
   * remainder of `dividend - 1` by 26, put in front of those found so far.
   */
  method GetExcelColumnName(columnNumber: int) returns (columnName: string)
    ensures columnName == ColumnName(columnNumber)
  {
    var dividend := columnNumber;
    columnName := "";
    while dividend > 0
      invariant ColumnName(columnNumber) == ColumnName(dividend) + columnName
      decreases dividend
    {
      var modulo := (dividend - 1) % 26;
      columnName := [Letter(modulo)] + columnName;
      StepIsQuotient(dividend);
      dividend := (dividend - modulo) / 26;
    }
  }

  /** A column name is empty exactly for `n <= 0`, and made of capital letters. */
  lemma {:induction false} ColumnNameShape(n: int)
    ensures Capitals(ColumnName(n))
    ensures ColumnName(n) == [] <==> n <= 0
    decreases n
  {
    if n > 0 {
      ColumnNameShape((n - 1) / 26);
    }
  }

  /** Reading a column's name gives back the column: for `n >= 0`, `ColumnName` is one-to-one. */
  lemma {:induction false} ColumnNameDecodes(n: int)
    requires n >= 0
    ensures ColumnNumber(ColumnName(n)) == n
    decreases n
  {
    if n > 0 {
      var m := (n - 1) / 26;
      var s := ColumnName(n);
      ColumnNameDecodes(m);
      assert s[..|s| - 1] == ColumnName(m);
      assert s[|s| - 1] as int - 64 == (n - 1) % 26 + 1;
    }
  }

  /** Every string of capital letters is the name of some column, the one it reads as. */
  lemma {:induction false} ColumnNameEncodes(s: string)
    requires Capitals(s)
    ensures ColumnNumber(s) >= 0 && (s != [] ==> ColumnNumber(s) >= 1)
    ensures ColumnName(ColumnNumber(s)) == s
    decreases |s|
  {
    if s != [] {
      var t := s[..|s| - 1];
      assert Capitals(t) by {
        forall i | 0 <= i < |t|
          ensures 'A' <= t[i] <= 'Z'
        {
          assert t[i] == s[i];
        }
      }
      ColumnNameEncodes(t);
      var d := s[|s| - 1] as int - 65;
      var v := ColumnNumber(s);
      assert 0 <= d < 26;
      assert v - 1 == ColumnNumber(t) * 26 + d;
      assert (v - 1) / 26 == ColumnNumber(t) && (v - 1) % 26 == d;
      assert Letter(d) == s[|s| - 1];
      assert s == t + [s[|s| - 1]];
    }
  }

  /** Distinct columns get distinct names. */
  lemma ColumnNamesDistinct(a: int, b: int)
    requires a >= 1 && b >= 1 && a != b
    ensures ColumnName(a) != ColumnName(b)
  {
    ColumnNameDecodes(a);
    ColumnNameDecodes(b);
  }

  /** The worked values of the column namer, up to two letters. */
  lemma ColumnNameValues()
    ensures ColumnName(1) == "A" && ColumnName(26) == "Z" && ColumnName(STATIC_FIELDS) == "J"
    ensures ColumnName(27) == "AA" && ColumnName(52) == "AZ" && ColumnName(53) == "BA"
  {
    assert ColumnName(0) == "";
    assert ColumnName(1) == "A";
    assert ColumnName(2) == "B";
  }

  /** The last two-letter column and the first three-letter one. */
  lemma ColumnNameWideValues()
    ensures ColumnName(702) == "ZZ" && ColumnName(703) == "AAA"
  {
    ColumnNameValues();
    assert ColumnName(703) == ColumnName(27) + "A";
  }

  // ---------------------------------------------------------------------------
  // What the report writes
  // ---------------------------------------------------------------------------

  /** The workbook's three sheets: the store template and the two report sections. */
  datatype Sheet = TemplateSheet | ListingSheet | DelistedSheet

  /** A cell's content: a number, a text, or the day's short date. */
  datatype CellValue = Number(n: int) | Text(s: string) | DateStamp

  /**
   * One effect on the workbook. `CopyStatic(from, sheet, row, last)` copies the
   * template's row `from`, columns A to `last`, onto row `row` of `sheet`.
   */
  datatype Placement =
    | Rename(sheet: Sheet, title: string)
    | CopyStatic(fromRow: int, sheet: Sheet, row: int, lastColumn: string)
    | Put(sheet: Sheet, row: int, column: int, value: CellValue)
    | Paint(sheet: Sheet, row: int, column: int, colour: Colour)

  // ---------------------------------------------------------------------------
  // Headers
  // ---------------------------------------------------------------------------

  /** A product's column header: its id when it has no name, its name when its id is synthetic, else both. */
  function HeaderLabel(key: int, p: ProductInfo): CellValue
  {
    if p.name.None? then Number(key)
    else if p.id < 0 then Text(p.name.value)
    else Text(p.name.value + "\n(" + SignedDecimal(key) + ")")
  }

  /** The header row of the product columns: product `q` (from 1) of the catalog order heads column 10 + q. */
  function ProductHeaders(order: seq<int>, products: map<int, ProductInfo>): seq<Placement>
    requires forall k :: k in order ==> k in products
  {
    if order == [] then []
    else
      var n := |order|;
      ProductHeaders(order[..n - 1], products)
        + [Put(ListingSheet, 1, STATIC_FIELDS + n, HeaderLabel(order[n - 1], products[order[n - 1]]))]
  }

  /** The two "Date Updated" headers: after the product columns in Listing, after the static ones in Delisted. */
  function DateHeaders(c: Catalog): seq<Placement>
  {
    [Put(ListingSheet, 1, |c.order| + STATIC_FIELDS + 1, Text("Date Updated")),
     Put(DelistedSheet, 1, STATIC_FIELDS + 1, Text("Date Updated"))]
  }

  /** Everything `SetupDocument` writes, in order. */
  function Headers(c: Catalog): seq<Placement>
    requires CatalogValid(c)
  {
    [Rename(TemplateSheet, "Template"), Rename(ListingSheet, "Listing"), Rename(DelistedSheet, "Delisted"),
     CopyStatic(1, ListingSheet, 1, ColumnName(STATIC_FIELDS)), CopyStatic(1, DelistedSheet, 1, ColumnName(STATIC_FIELDS))]
      + ProductHeaders(c.order, c.products) + DateHeaders(c)
  }

  /**
   * `SetupDocument`: the sheets are named, the static header cells copied to
   * both sections, a header written over every catalog product's column, and
   * the date headers written last.
   */
  method SetupDocument(c: Catalog) returns (cells: seq<Placement>)
    requires CatalogValid(c)
    ensures cells == Headers(c)
  {
    var last := GetExcelColumnName(STATIC_FIELDS);
    cells := [Rename(TemplateSheet, "Template"), Rename(ListingSheet, "Listing"), Rename(DelistedSheet, "Delisted")];
    cells := cells + [CopyStatic(1, ListingSheet, 1, last), CopyStatic(1, DelistedSheet, 1, last)];
    ghost var head := cells;
    var q := 1;
    while q <= |c.order|
      invariant 1 <= q <= |c.order| + 1
      invariant cells == head + ProductHeaders(c.order[..q - 1], c.products)
    {
      var key := c.order[q - 1];
      cells := cells + [Put(ListingSheet, 1, STATIC_FIELDS + q, HeaderLabel(key, c.products[key]))];
      assert c.order[..q][..q - 1] == c.order[..q - 1];
      q := q + 1;
    }
    assert c.order[..q - 1] == c.order;
    cells := cells + [Put(ListingSheet, 1, |c.order| + STATIC_FIELDS + 1, Text("Date Updated"))];
    cells := cells + [Put(DelistedSheet, 1, STATIC_FIELDS + 1, Text("Date Updated"))];
  }

  /** Product `q` (from 0) of the catalog heads column 11 + q, with its own label; nothing else is in the product headers. */
  lemma {:induction false} ProductHeaderColumns(order: seq<int>, products: map<int, ProductInfo>)
    requires forall k :: k in order ==> k in products
    ensures |ProductHeaders(order, products)| == |order|
    ensures forall q :: 0 <= q < |order| ==>
              ProductHeaders(order, products)[q] == Put(ListingSheet, 1, STATIC_FIELDS + q + 1, HeaderLabel(order[q], products[order[q]]))
    decreases |order|
  {
    if order != [] {
      var n := |order|;
      ProductHeaderColumns(order[..n - 1], products);
    }
  }

  /**
   * The header row of Listing: every product column is to the right of the
   * static columns, no two products share one, and the date column comes
   * right after the last product; in Delisted the date follows the static columns.
   */
  lemma HeaderLayout(c: Catalog)
    requires CatalogValid(c)
    ensures |Headers(c)| == 7 + |c.order|
    ensures forall q :: 0 <= q < |c.order| ==>
              Headers(c)[5 + q] == Put(ListingSheet, 1, STATIC_FIELDS + q + 1, HeaderLabel(c.order[q], c.products[c.order[q]]))
    ensures Headers(c)[5 + |c.order|] == Put(ListingSheet, 1, STATIC_FIELDS + |c.order| + 1, Text("Date Updated"))
    ensures Headers(c)[6 + |c.order|] == Put(DelistedSheet, 1, STATIC_FIELDS + 1, Text("Date Updated"))
  {
    var h := ProductHeaders(c.order, c.products);
    ProductHeaderColumns(c.order, c.products);
    var pre := Headers(c)[..5];
    assert Headers(c) == pre + h + DateHeaders(c);
    forall q | 0 <= q < |c.order|
      ensures Headers(c)[5 + q] == h[q]
    {
    }
  }

  /** The three cases of a header: the key when there is no name, the name alone for a synthetic id, else name and key. */
  lemma HeaderLabelCases(key: int, p: ProductInfo)
    ensures HeaderLabel(key, p).Number? <==> p.name.None?
    ensures HeaderLabel(key, p).Number? ==> HeaderLabel(key, p).n == key
    ensures p.name.Some? && p.id < 0 ==> HeaderLabel(key, p) == Text(p.name.value)
    ensures p.name.Some? && p.id >= 0 ==>
              && HeaderLabel(key, p).Text?
              && HeaderLabel(key, p).s[..|p.name.value|] == p.name.value
              && |HeaderLabel(key, p).s| > |p.name.value| + 3
  {
  }

  /** The key in parentheses under a product's name reads back as the key, whatever the name holds. */
  lemma HeaderKeyReadsBack(key: int, p: ProductInfo)
    requires p.name.Some? && p.id >= 0 && MIN_INT32 <= key <= MAX_INT32
    ensures var s := HeaderLabel(key, p).s;
            var n := |p.name.value|;
            s[n..n + 2] == "\n(" && s[|s| - 1] == ')' && ParseInt32(s[n + 2..|s| - 1]) == Some(key)
  {
    var name := p.name.value;
    var d := SignedDecimal(key);
    var s := HeaderLabel(key, p).s;
    var n := |name|;
    assert s == name + "\n(" + d + ")";
    assert |s| == n + 2 + |d| + 1;
    assert s[n..n + 2] == "\n(";
    assert s[n + 2..|s| - 1] == d;
    ParseSignedDecimal(key);
  }

  // ---------------------------------------------------------------------------
  // Store rows
  // ---------------------------------------------------------------------------

  /** A store is listed when at least one of its entries is Listed or Forced. */
  predicate IsListed(entries: map<int, ProductEntry>)
  {
    exists p :: p in entries && (entries[p].listingState == Listed || entries[p].listingState == Forced)
  }

  /** The section a template store goes to: none when it has no entries, else Listing or Delisted. */
  function Section(key: int, index: StoreIndex): (r: Option<Sheet>)
    ensures r == None <==> key !in index
    ensures r == Some(ListingSheet) <==> key in index && IsListed(index[key])
    ensures r == Some(DelistedSheet) <==> key in index && !IsListed(index[key])
  {
    if key !in index then None else if IsListed(index[key]) then Some(ListingSheet) else Some(DelistedSheet)
  }

  /** How many of the template stores go to section `s`. */
  function SectionCount(keys: seq<int>, index: StoreIndex, s: Option<Sheet>): nat
  {
    if keys == [] then 0
    else SectionCount(keys[..|keys| - 1], index, s) + (if Section(keys[|keys| - 1], index) == s then 1 else 0)
  }

  /** The cells of one listed store's row: for catalog product q (from 1) it has, the inventory change and its owner's colour in column 10 + q. */
  function ProductCells(entries: map<int, ProductEntry>, order: seq<int>, registry: Producers, row: int): Result<seq<Placement>, RegistryError>
    reads registry
  {
    if order == [] then Success([])
    else
      var n := |order|;
      var key := order[n - 1];
      match ProductCells(entries, order[..n - 1], registry, row)
      case Failure(e) => Failure(e)
      case Success(cells) =>
        if key !in entries then Success(cells)
        else
          match registry.ColourFromProduct(key)
          case Failure(e) => Failure(e)
          case Success(colour) =>
            Success(cells + [Put(ListingSheet, row, STATIC_FIELDS + n, Number(entries[key].inventoryChange)),
                             Paint(ListingSheet, row, STATIC_FIELDS + n, colour)])
  }

  /** The report so far, and the last rows used in Listing and Delisted. */
  datatype Written = Written(cells: seq<Placement>, lineList: int, lineDeList: int)

  /**
   * One template store, the `i`-th (from 1, on template row i + 1): skipped
   * when absent from the index; else its product cells, its static cells and
   * the date on the next Listing row when listed, or its static cells and the
   * date on the next Delisted row when not.
   */
  function StoreStep(w: Written, key: int, i: int, index: StoreIndex, order: seq<int>, registry: Producers): Result<Written, RegistryError>
    reads registry
  {
    if key !in index then Success(w)
    else if IsListed(index[key]) then
      match ProductCells(index[key], order, registry, w.lineList + 1)
      case Failure(e) => Failure(e)
      case Success(pc) =>
        Success(Written(w.cells + pc + [CopyStatic(i + 1, ListingSheet, w.lineList + 1, ColumnName(STATIC_FIELDS)),
                                         Put(ListingSheet, w.lineList + 1, STATIC_FIELDS + |order| + 1, DateStamp)],
                        w.lineList + 1, w.lineDeList))
    else
      Success(Written(w.cells + [CopyStatic(i + 1, DelistedSheet, w.lineDeList + 1, ColumnName(STATIC_FIELDS)),
                                  Put(DelistedSheet, w.lineDeList + 1, STATIC_FIELDS + 1, DateStamp)],
                      w.lineList, w.lineDeList + 1))
  }

  /** The report over the template's stores `keys`, in template order; the first failing colour lookup aborts it. */
  function Layout(keys: seq<int>, index: StoreIndex, order: seq<int>, registry: Producers): Result<Written, RegistryError>
    reads registry
  {
    if keys == [] then Success(Written([], 1, 1))
    else
      match Layout(keys[..|keys| - 1], index, order, registry)
      case Failure(e) => Failure(e)
      case Success(w) => StoreStep(w, keys[|keys| - 1], |keys|, index, order, registry)
  }

  /** A failure in a prefix of the catalog is the failure of the whole row. */
  lemma {:induction false} ProductCellsFailureSticks(entries: map<int, ProductEntry>, order: seq<int>, registry: Producers, row: int, j: nat)
    requires j <= |order| && ProductCells(entries, order[..j], registry, row).Failure?
    ensures ProductCells(entries, order, registry, row) == ProductCells(entries, order[..j], registry, row)
    decreases |order|
  {
    if j < |order| {
      var n := |order|;
      assert order[..n - 1][..j] == order[..j];
      ProductCellsFailureSticks(entries, order[..n - 1], registry, row, j);
    } else {
      assert order[..j] == order;
    }
  }

  /** A failure at a template store is the failure of the whole report. */
  lemma {:induction false} LayoutFailureSticks(keys: seq<int>, index: StoreIndex, order: seq<int>, registry: Producers, j: nat)
    requires j <= |keys| && Layout(keys[..j], index, order, registry).Failure?
    ensures Layout(keys, index, order, registry) == Layout(keys[..j], index, order, registry)
    decreases |keys|
  {
    if j < |keys| {
      var n := |keys|;
      assert keys[..n - 1][..j] == keys[..j];
      LayoutFailureSticks(keys[..n - 1], index, order, registry, j);
    } else {
      assert keys[..j] == keys;
    }
  }

  /** The inner loop of `WriteProductDataToStores`: the catalog's products, in order, for one listed store's row. */
  method StoreProducts(entries: map<int, ProductEntry>, order: seq<int>, registry: Producers, row: int)
    returns (r: Result<seq<Placement>, RegistryError>)
    ensures r == ProductCells(entries, order, registry, row)
  {
    var cells := [];
    var q := 1;
    while q <= |order|
      invariant 1 <= q <= |order| + 1
      invariant ProductCells(entries, order[..q - 1], registry, row) == Success(cells)
    {
      var key := order[q - 1];
      assert order[..q][..q - 1] == order[..q - 1];
      if key in entries {
        var colour := registry.ColourFromProduct(key);
        if colour.Failure? {
          ProductCellsFailureSticks(entries, order, registry, row, q);
          return Failure(colour.error);
        }
        cells := cells + [Put(ListingSheet, row, STATIC_FIELDS + q, Number(entries[key].inventoryChange)),
                          Paint(ListingSheet, row, STATIC_FIELDS + q, colour.value)];
      }
      q := q + 1;
    }
    assert order[..q - 1] == order;
    r := Success(cells);
  }

  /** The report's placements, or the error that aborted it. */
  function Report(keys: seq<int>, index: StoreIndex, order: seq<int>, registry: Producers): Result<seq<Placement>, RegistryError>
    reads registry
  {
    match Layout(keys, index, order, registry)
    case Failure(e) => Failure(e)
    case Success(w) => Success(w.cells)
  }

  /**
   * `WriteProductDataToStores`: the template's store keys `keys` (column A
   * from row 2 down), in order, each placed by `StoreStep`, with the two row
   * counters starting at 1 and each advancing only in its own branch.
   */
  method WriteProductDataToStores(keys: seq<int>, index: StoreIndex, c: Catalog, registry: Producers)
    returns (r: Result<seq<Placement>, RegistryError>)
    ensures r == Report(keys, index, c.order, registry)
  {
    var last := GetExcelColumnName(STATIC_FIELDS);
    var cells := [];
    var lineList := 1;
    var lineDeList := 1;
    var i := 1;
    while i <= |keys|
      invariant 1 <= i <= |keys| + 1
      invariant Layout(keys[..i - 1], index, c.order, registry) == Success(Written(cells, lineList, lineDeList))
    {
      var key := keys[i - 1];
      assert keys[..i][..i - 1] == keys[..i - 1];
      if key !in index {
        i := i + 1;
        continue;
      }
      var listed := IsListed(index[key]);
      if listed {
        var products := StoreProducts(index[key], c.order, registry, lineList + 1);
        if products.Failure? {
          LayoutFailureSticks(keys, index, c.order, registry, i);
          return Failure(products.error);
        }
        cells := cells + products.value;
        cells := cells + [CopyStatic(i + 1, ListingSheet, lineList + 1, last),
                          Put(ListingSheet, lineList + 1, STATIC_FIELDS + |c.order| + 1, DateStamp)];
        lineList := lineList + 1;
      } else {
        cells := cells + [CopyStatic(i + 1, DelistedSheet, lineDeList + 1, last),
                          Put(DelistedSheet, lineDeList + 1, STATIC_FIELDS + 1, DateStamp)];
        lineDeList := lineDeList + 1;
      }
      i := i + 1;
    }
    assert keys[..i - 1] == keys;
    r := Success(cells);
  }

  // ---------------------------------------------------------------------------
  // What the report's cells mean
  // ---------------------------------------------------------------------------

  /** Some catalog product the store has cannot be given a colour. */
  predicate Unpaintable(entries: map<int, ProductEntry>, order: seq<int>, registry: Producers)
    reads registry
  {
    exists q :: 0 <= q < |order| && order[q] in entries && registry.ColourFromProduct(order[q]).Failure?
  }

  /**
   * `p` is a product cell of row `row`: in Listing, in the column of a catalog
   * product the store has, holding that entry's inventory change or painted
   * in the colour of the product's owner.
   */
  predicate ProductCellFits(p: Placement, entries: map<int, ProductEntry>, order: seq<int>, registry: Producers, row: int)
    reads registry
  {
    && (p.Put? || p.Paint?)
    && p.sheet == ListingSheet && p.row == row
    && STATIC_FIELDS < p.column <= STATIC_FIELDS + |order|
    && var key := order[p.column - STATIC_FIELDS - 1];
       && key in entries
       && (p.Put? ==> p.value == Number(entries[key].inventoryChange))
       && (p.Paint? ==> registry.ColourFromProduct(key) == Success(p.colour))
  }

  /** A store's row fails exactly when one of the catalog products it has has no colour. */
  lemma {:induction false} ProductCellsFail(entries: map<int, ProductEntry>, order: seq<int>, registry: Producers, row: int)
    ensures ProductCells(entries, order, registry, row).Failure? <==> Unpaintable(entries, order, registry)
    decreases |order|
  {
    if order != [] {
      var n := |order|;
      var front := order[..n - 1];
      ProductCellsFail(entries, front, registry, row);
      if Unpaintable(entries, front, registry) {
        var q :| 0 <= q < |front| && front[q] in entries && registry.ColourFromProduct(front[q]).Failure?;
        assert order[q] == front[q];
      }
      if Unpaintable(entries, order, registry) && !Unpaintable(entries, front, registry) {
        var q :| 0 <= q < |order| && order[q] in entries && registry.ColourFromProduct(order[q]).Failure?;
        assert q == n - 1 by {
          forall k | 0 <= k < n - 1
            ensures front[k] == order[k]
          {
          }
        }
      }
    }
  }

  /** Every catalog product the store has gets its inventory change and its owner's colour in column 10 + q. */
  lemma {:induction false} ProductCellsCover(entries: map<int, ProductEntry>, order: seq<int>, registry: Producers, row: int)
    requires ProductCells(entries, order, registry, row).Success?
    ensures forall q :: 0 <= q < |order| && order[q] in entries ==>
              && Put(ListingSheet, row, STATIC_FIELDS + q + 1, Number(entries[order[q]].inventoryChange)) in ProductCells(entries, order, registry, row).value
              && registry.ColourFromProduct(order[q]).Success?
              && Paint(ListingSheet, row, STATIC_FIELDS + q + 1, registry.ColourFromProduct(order[q]).value) in ProductCells(entries, order, registry, row).value
    decreases |order|
  {
    if order != [] {
      var n := |order|;
      var front := order[..n - 1];
      ProductCellsCover(entries, front, registry, row);
      forall q | 0 <= q < n - 1
        ensures front[q] == order[q]
      {
      }
    }
  }

  /** A store's row holds product cells and nothing else. */
  lemma {:induction false} ProductCellsOnly(entries: map<int, ProductEntry>, order: seq<int>, registry: Producers, row: int)
    requires ProductCells(entries, order, registry, row).Success?
    ensures forall p :: p in ProductCells(entries, order, registry, row).value ==> ProductCellFits(p, entries, order, registry, row)
    decreases |order|
  {
    if order != [] {
      var n := |order|;
      var front := order[..n - 1];
      ProductCellsOnly(entries, front, registry, row);
      forall p | ProductCellFits(p, entries, front, registry, row)
        ensures ProductCellFits(p, entries, order, registry, row)
      {
        assert front[p.column - STATIC_FIELDS - 1] == order[p.column - STATIC_FIELDS - 1];
      }
    }
  }

  /** With every claim on its owner's list, a store's row fails exactly when a catalog product it has is unclaimed. */
  lemma UnclaimedAborts(entries: map<int, ProductEntry>, order: seq<int>, registry: Producers)
    requires registry.Valid() && registry.Owned()
    ensures Unpaintable(entries, order, registry) <==>
              exists q :: 0 <= q < |order| && order[q] in entries && order[q] !in registry.claimed
  {
    forall q | 0 <= q < |order|
      ensures registry.ColourFromProduct(order[q]).Failure? <==> order[q] !in registry.claimed
    {
      registry.ColourCoding(order[q], order[q]);
    }
  }

  /** Every template store goes to exactly one of: no section, Listing, Delisted. */
  lemma {:induction false} SectionsPartition(keys: seq<int>, index: StoreIndex)
    ensures SectionCount(keys, index, Some(ListingSheet)) + SectionCount(keys, index, Some(DelistedSheet))
              + SectionCount(keys, index, None) == |keys|
    decreases |keys|
  {
    if keys != [] {
      SectionsPartition(keys[..|keys| - 1], index);
    }
  }

  /** Each row counter ends one past the number of stores in its own section. */
  lemma {:induction false} LayoutCounters(keys: seq<int>, index: StoreIndex, order: seq<int>, registry: Producers)
    requires Layout(keys, index, order, registry).Success?
    ensures Layout(keys, index, order, registry).value.lineList == 1 + SectionCount(keys, index, Some(ListingSheet))
    ensures Layout(keys, index, order, registry).value.lineDeList == 1 + SectionCount(keys, index, Some(DelistedSheet))
    decreases |keys|
  {
    if keys != [] {
      LayoutCounters(keys[..|keys| - 1], index, order, registry);
    }
  }

  /** Stores of one section take its rows in template order: a later store has a later row. */
  lemma {:induction false} SectionCountGrows(keys: seq<int>, index: StoreIndex, j: int, j': int)
    requires 0 <= j < j' <= |keys|
    ensures SectionCount(keys[..j], index, Section(keys[j], index)) < SectionCount(keys[..j'], index, Section(keys[j], index))
    decreases j'
  {
    var s := Section(keys[j], index);
    assert keys[..j'][..j' - 1] == keys[..j' - 1];
    if j' == j + 1 {
      assert keys[..j'][j' - 1] == keys[j];
    } else {
      SectionCountGrows(keys, index, j, j' - 1);
    }
  }

  /** The report fails exactly when some listed store has a catalog product that cannot be given a colour. */
  lemma {:induction false} LayoutFail(keys: seq<int>, index: StoreIndex, order: seq<int>, registry: Producers)
    ensures Layout(keys, index, order, registry).Failure? <==>
              exists j :: 0 <= j < |keys| && Section(keys[j], index) == Some(ListingSheet) && Unpaintable(index[keys[j]], order, registry)
    decreases |keys|
  {
    if keys != [] {
      var n := |keys|;
      var front := keys[..n - 1];
      LayoutFail(front, index, order, registry);
      forall j | 0 <= j < n - 1
        ensures front[j] == keys[j]
      {
      }
      if Layout(front, index, order, registry).Success? && keys[n - 1] in index && IsListed(index[keys[n - 1]]) {
        ProductCellsFail(index[keys[n - 1]], order, registry, Layout(front, index, order, registry).value.lineList + 1);
      }
    }
  }

  /** The row of template store `j` in its section: 2 for the first store of the section, then one more for each. */
  function RowOf(keys: seq<int>, index: StoreIndex, j: int): int
    requires 0 <= j < |keys|
  {
    2 + SectionCount(keys[..j], index, Section(keys[j], index))
  }

  /** The date column of a section: after the catalog's columns in Listing, after the static ones in Delisted. */
  function DateColumn(sheet: Sheet, order: seq<int>): int
  {
    if sheet == ListingSheet then STATIC_FIELDS + |order| + 1 else STATIC_FIELDS + 1
  }

  /** `p` belongs to template store `j`: its copied static cells, its date, or, when listed, one of its product cells. */
  predicate StoreCell(p: Placement, j: int, keys: seq<int>, index: StoreIndex, order: seq<int>, registry: Producers)
    requires 0 <= j < |keys|
    reads registry
  {
    && Section(keys[j], index).Some?
    && var sheet := Section(keys[j], index).value;
       var row := RowOf(keys, index, j);
       || p == CopyStatic(j + 2, sheet, row, ColumnName(STATIC_FIELDS))
       || p == Put(sheet, row, DateColumn(sheet, order), DateStamp)
       || (sheet == ListingSheet && ProductCellFits(p, index[keys[j]], order, registry, row))
  }

  /**
   * What the report holds for template store `j` that has entries: its static
   * cells copied from template row j + 2 and the date, on its row of its
   * section, and, when listed, all of its product cells.
   */
  lemma {:induction false} LayoutStore(keys: seq<int>, index: StoreIndex, order: seq<int>, registry: Producers, j: int)
    requires Layout(keys, index, order, registry).Success?
    requires 0 <= j < |keys| && keys[j] in index
    ensures var sheet := Section(keys[j], index).value;
            var cells := Layout(keys, index, order, registry).value.cells;
            && CopyStatic(j + 2, sheet, RowOf(keys, index, j), ColumnName(STATIC_FIELDS)) in cells
            && Put(sheet, RowOf(keys, index, j), DateColumn(sheet, order), DateStamp) in cells
            && (sheet == ListingSheet ==>
                  && ProductCells(index[keys[j]], order, registry, RowOf(keys, index, j)).Success?
                  && forall p :: p in ProductCells(index[keys[j]], order, registry, RowOf(keys, index, j)).value ==> p in cells)
    decreases |keys|
  {
    var n := |keys|;
    var front := keys[..n - 1];
    assert keys[..n - 1] == front;
    if j < n - 1 {
      assert front[j] == keys[j] && front[..j] == keys[..j];
      LayoutStore(front, index, order, registry, j);
    } else {
      LayoutCounters(front, index, order, registry);
    }
  }

  /** The report holds nothing but the cells of the template stores that have entries. */
  lemma {:induction false} LayoutOnly(keys: seq<int>, index: StoreIndex, order: seq<int>, registry: Producers)
    requires Layout(keys, index, order, registry).Success?
    ensures forall p :: p in Layout(keys, index, order, registry).value.cells ==>
              exists j :: 0 <= j < |keys| && StoreCell(p, j, keys, index, order, registry)
    decreases |keys|
  {
    if keys != [] {
      var n := |keys|;
      var front := keys[..n - 1];
      var w := Layout(front, index, order, registry).value;
      LayoutOnly(front, index, order, registry);
      LayoutCounters(front, index, order, registry);
      forall p | p in Layout(keys, index, order, registry).value.cells
        ensures exists j :: 0 <= j < n && StoreCell(p, j, keys, index, order, registry)
      {
        if p in w.cells {
          var j :| 0 <= j < n - 1 && StoreCell(p, j, front, index, order, registry);
          assert front[j] == keys[j] && front[..j] == keys[..j];
          assert StoreCell(p, j, keys, index, order, registry);
        } else {
          assert keys[..n - 1] == front;
          if keys[n - 1] in index && IsListed(index[keys[n - 1]]) {
            ProductCellsOnly(index[keys[n - 1]], order, registry, w.lineList + 1);
          }
          assert StoreCell(p, n - 1, keys, index, order, registry);
        }
      }
    }
  }

  /** Rows of a section: the first of its stores is on row 2, each later one below the earlier, the last on the row its counter ends past. */
  lemma SectionRows(keys: seq<int>, index: StoreIndex, j: int)
    requires 0 <= j < |keys|
    ensures 2 <= RowOf(keys, index, j) <= 1 + SectionCount(keys, index, Section(keys[j], index))
    ensures forall j' :: j < j' < |keys| && Section(keys[j'], index) == Section(keys[j], index) ==>
              RowOf(keys, index, j) < RowOf(keys, index, j')
  {
    SectionCountGrows(keys, index, j, |keys|);
    assert keys[..|keys|] == keys;
    forall j' | j < j' < |keys| && Section(keys[j'], index) == Section(keys[j], index)
      ensures RowOf(keys, index, j) < RowOf(keys, index, j')
    {
      SectionCountGrows(keys, index, j, j');
    }
  }

  // ---------------------------------------------------------------------------
  // The producer roster
  // ---------------------------------------------------------------------------

  /** Why reading the roster stops: the registry refused a row, or the first row starts no producer. */
  datatype RosterError = Registry(error: RegistryError) | NoProducerYet

  /**
   * One roster row: the producer cell of column A (`None` when empty), which
   * starts a new producer, and the product cell of column B.
   */
  type RosterRow = (Option<string>, string)

  /** The row that started the producer row `i` belongs to: the last row at or before it with a producer cell. */
  function LastStart(rows: seq<RosterRow>, i: int): (r: Option<int>)
    requires 0 <= i < |rows|
    ensures r.Some? ==> 0 <= r.value <= i && rows[r.value].0.Some?
    ensures r.Some? ==> forall j :: r.value < j <= i ==> rows[j].0.None?
    ensures r.None? ==> forall j :: 0 <= j <= i ==> rows[j].0.None?
    decreases i
  {
    if rows[i].0.Some? then Some(i) else if i == 0 then None else LastStart(rows, i - 1)
  }

  /** How many of the first `n` rows start a producer. */
  function StartCount(rows: seq<RosterRow>, n: int): nat
    requires 0 <= n <= |rows|
  {
    if n == 0 then 0 else StartCount(rows, n - 1) + (if rows[n - 1].0.Some? then 1 else 0)
  }

  /** The producer a starting row names parses, and is registered under its id with the name after the space. */
  ghost predicate StartFiled(rows: seq<RosterRow>, j: int, producers: map<int, ProducerInfo>)
    requires 0 <= j < |rows| && rows[j].0.Some?
  {
    && SplitId(rows[j].0.value).Success?
    && SplitId(rows[j].0.value).value.0 in producers
    && producers[SplitId(rows[j].0.value).value.0].name == Some(SplitId(rows[j].0.value).value.1)
  }

  /** Row `i`'s product parses and is claimed by the producer of the row that started its group. */
  ghost predicate RowClaimed(rows: seq<RosterRow>, i: int, claimed: map<int, int>)
    requires 0 <= i < |rows|
  {
    && LastStart(rows, i).Some?
    && SplitId(rows[LastStart(rows, i).value].0.value).Success?
    && SplitId(rows[i].1).Success?
    && SplitId(rows[i].1).value.0 in claimed
    && claimed[SplitId(rows[i].1).value.0] == SplitId(rows[LastStart(rows, i).value].0.value).value.0
  }

  /** Every starting row among the first `n` is filed. */
  ghost predicate StartsFiled(rows: seq<RosterRow>, n: int, producers: map<int, ProducerInfo>)
    requires 0 <= n <= |rows|
  {
    forall j :: 0 <= j < n && rows[j].0.Some? ==> StartFiled(rows, j, producers)
  }

  /** Every one of the first `n` rows has its product claimed by its group's producer. */
  ghost predicate RowsClaimed(rows: seq<RosterRow>, n: int, claimed: map<int, int>)
    requires 0 <= n <= |rows|
  {
    forall j :: 0 <= j < n ==> RowClaimed(rows, j, claimed)
  }

  /** `id` is the producer of the group row `n - 1` is in. */
  ghost predicate Current(rows: seq<RosterRow>, n: int, id: int)
    requires 0 < n <= |rows|
  {
    && LastStart(rows, n - 1).Some?
    && SplitId(rows[LastStart(rows, n - 1).value].0.value).Success?
    && id == SplitId(rows[LastStart(rows, n - 1).value].0.value).value.0
  }

  /** Filing a producer, or relisting one under the same name, keeps the starting rows filed. */
  lemma FileKeepsStarts(rows: seq<RosterRow>, n: int, producers: map<int, ProducerInfo>, producers': map<int, ProducerInfo>, k: int)
    requires 0 <= n <= |rows| && StartsFiled(rows, n, producers)
    requires k in producers' && producers' == producers[k := producers'[k]]
    requires k in producers ==> producers'[k].name == producers[k].name
    ensures StartsFiled(rows, n, producers')
  {
    forall j | 0 <= j < n && rows[j].0.Some?
      ensures StartFiled(rows, j, producers')
    {
      assert StartFiled(rows, j, producers);
    }
  }

  /** A new claim keeps the earlier rows' claims. */
  lemma ClaimKeepsRows(rows: seq<RosterRow>, n: int, claimed: map<int, int>, claimed': map<int, int>, q: int)
    requires 0 <= n <= |rows| && RowsClaimed(rows, n, claimed) && q !in claimed
    requires q in claimed' && claimed' == claimed[q := claimed'[q]]
    ensures RowsClaimed(rows, n, claimed')
  {
    forall j | 0 <= j < n
      ensures RowClaimed(rows, j, claimed')
    {
      assert RowClaimed(rows, j, claimed);
    }
  }

  /**
   * One row of the roster read: a starting row files its producer, which is
   * then the current one; any other row keeps the current producer; either
   * way the row's product is claimed by the current producer.
   */
  lemma RosterStep(rows: seq<RosterRow>, i: int, producers: map<int, ProducerInfo>, claimed: map<int, int>,
                   producers': map<int, ProducerInfo>, claimed': map<int, int>, current: int, next: int)
    requires 0 <= i < |rows|
    requires StartsFiled(rows, i, producers) && RowsClaimed(rows, i, claimed)
    requires i > 0 ==> Current(rows, i, current)
    requires next in producers' && producers' == producers[next := producers'[next]]
    requires rows[i].0.None? ==> i > 0 && next == current && next in producers && producers'[next].name == producers[next].name
    requires rows[i].0.Some? ==> && SplitId(rows[i].0.value).Success? && next == SplitId(rows[i].0.value).value.0
                                 && next !in producers && producers'[next].name == Some(SplitId(rows[i].0.value).value.1)
    requires SplitId(rows[i].1).Success? && SplitId(rows[i].1).value.0 !in claimed
    requires claimed' == claimed[SplitId(rows[i].1).value.0 := next]
    ensures StartsFiled(rows, i + 1, producers') && RowsClaimed(rows, i + 1, claimed') && Current(rows, i + 1, next)
  {
    FileKeepsStarts(rows, i, producers, producers', next);
    ClaimKeepsRows(rows, i, claimed, claimed', SplitId(rows[i].1).value.0);
    assert Current(rows, i + 1, next);
    assert RowClaimed(rows, i, claimed');
    assert rows[i].0.Some? ==> StartFiled(rows, i, producers');
  }

  /** The id at the head of a roster cell (`<int> <rest>`), when it has one. */
  function CellId(cell: string): Option<int>
  {
    if SplitId(cell).Success? then Some(SplitId(cell).value.0) else None
  }

  /** The producer ids the starting rows among the first `n` name. */
  ghost function StartIds(rows: seq<RosterRow>, n: int): set<int>
    requires 0 <= n <= |rows|
  {
    set j | 0 <= j < n && rows[j].0.Some? && CellId(rows[j].0.value).Some? :: CellId(rows[j].0.value).value
  }

  /** The product ids the first `n` rows name. */
  ghost function ProductIds(rows: seq<RosterRow>, n: int): set<int>
    requires 0 <= n <= |rows|
  {
    set j | 0 <= j < n && CellId(rows[j].1).Some? :: CellId(rows[j].1).value
  }

  /** The id of the producer whose group row `i` is in. */
  function GroupId(rows: seq<RosterRow>, i: int): Option<int>
    requires 0 <= i < |rows|
  {
    match LastStart(rows, i)
    case None => None
    case Some(start) => CellId(rows[start].0.value)
  }

  /** The products the first `n` rows give to producer `k`, in row order. */
  function GroupProducts(rows: seq<RosterRow>, n: int, k: int): seq<int>
    requires 0 <= n <= |rows|
    decreases n
  {
    if n == 0 then []
    else GroupProducts(rows, n - 1, k)
           + (if GroupId(rows, n - 1) == Some(k) && CellId(rows[n - 1].1).Some? then [CellId(rows[n - 1].1).value] else [])
  }

  /**
   * The first `n` rows of a roster read without error: the first row starts a
   * group, every cell has an id at its head, no two starting rows name the
   * same producer, no two rows name the same product, and there are no more
   * starting rows than palette colours.
   */
  ghost predicate ReadableUpTo(rows: seq<RosterRow>, n: int)
    requires 0 <= n <= |rows|
  {
    && (0 < n ==> rows[0].0.Some?)
    && (forall i :: 0 <= i < n ==> CellId(rows[i].1).Some?)
    && (forall i :: 0 <= i < n && rows[i].0.Some? ==> CellId(rows[i].0.value).Some?)
    && (forall i, j :: 0 <= i < j < n ==> CellId(rows[i].1) != CellId(rows[j].1))
    && (forall i, j :: 0 <= i < j < n && rows[i].0.Some? && rows[j].0.Some? ==> CellId(rows[i].0.value) != CellId(rows[j].0.value))
    && StartCount(rows, n) <= PALETTE_SIZE
  }

  /** A whole roster that reads without error. */
  ghost predicate RosterReadable(rows: seq<RosterRow>)
  {
    ReadableUpTo(rows, |rows|)
  }

  /**
   * When one row reads, given the registry before it: a row without a
   * producer cell needs a group already started; a producer cell needs a new
   * producer id and a colour left; the product cell needs an unclaimed id.
   */
  predicate RowReads(row: RosterRow, started: bool, producers: map<int, ProducerInfo>, claimed: map<int, int>, available: seq<Colour>)
  {
    && (row.0.None? ==> started)
    && (row.0.Some? ==> CellId(row.0.value).Some? && CellId(row.0.value).value !in producers && available != [])
    && CellId(row.1).Some? && CellId(row.1).value !in claimed
  }

  lemma StartCountGrows(rows: seq<RosterRow>, m: int, n: int)
    requires 0 <= m <= n <= |rows|
    ensures StartCount(rows, m) <= StartCount(rows, n)
    decreases n
  {
    if m < n {
      StartCountGrows(rows, m, n - 1);
    }
  }

  /** A readable roster has readable prefixes. */
  lemma ReadablePrefix(rows: seq<RosterRow>, m: int, n: int)
    requires 0 <= m <= n <= |rows| && ReadableUpTo(rows, n)
    ensures ReadableUpTo(rows, m)
  {
    StartCountGrows(rows, m, n);
  }

  /** A row that reads, after readable rows whose ids the registry holds, extends them to readable rows. */
  lemma ReadableExtends(rows: seq<RosterRow>, i: int, producers: map<int, ProducerInfo>, claimed: map<int, int>, available: seq<Colour>)
    requires 0 <= i < |rows| && ReadableUpTo(rows, i)
    requires producers.Keys == StartIds(rows, i) && claimed.Keys == ProductIds(rows, i)
    requires available == [] <==> StartCount(rows, i) == PALETTE_SIZE
    requires RowReads(rows[i], i > 0, producers, claimed, available)
    ensures ReadableUpTo(rows, i + 1)
  {
    var row := rows[i];
    assert 0 < i + 1 ==> rows[0].0.Some?;
    assert forall j :: 0 <= j < i + 1 ==> CellId(rows[j].1).Some?;
    assert forall j :: 0 <= j < i + 1 && rows[j].0.Some? ==> CellId(rows[j].0.value).Some?;
    forall j, l | 0 <= j < l < i + 1
      ensures CellId(rows[j].1) != CellId(rows[l].1)
    {
      if l == i {
        assert CellId(rows[j].1).value in ProductIds(rows, i);
      }
    }
    forall j, l | 0 <= j < l < i + 1 && rows[j].0.Some? && rows[l].0.Some?
      ensures CellId(rows[j].0.value) != CellId(rows[l].0.value)
    {
      if l == i {
        assert CellId(rows[j].0.value).value in StartIds(rows, i);
      }
    }
    assert StartCount(rows, i + 1) <= PALETTE_SIZE;
  }

  /** In a readable roster every row reads, given a registry holding the ids of the rows before it. */
  lemma ReadableRowReads(rows: seq<RosterRow>, i: int, producers: map<int, ProducerInfo>, claimed: map<int, int>, available: seq<Colour>)
    requires 0 <= i < |rows| && RosterReadable(rows)
    requires producers.Keys == StartIds(rows, i) && claimed.Keys == ProductIds(rows, i)
    requires available == [] <==> StartCount(rows, i) == PALETTE_SIZE
    ensures RowReads(rows[i], i > 0, producers, claimed, available)
  {
    ReadablePrefix(rows, i + 1, |rows|);
    ReadableLastReads(rows, i, producers, claimed, available);
  }

  /** Readable rows end with a row that reads, given a registry holding the ids of the rows before it. */
  lemma ReadableLastReads(rows: seq<RosterRow>, i: int, producers: map<int, ProducerInfo>, claimed: map<int, int>, available: seq<Colour>)
    requires 0 <= i < |rows| && ReadableUpTo(rows, i + 1)
    requires producers.Keys == StartIds(rows, i) && claimed.Keys == ProductIds(rows, i)
    requires available == [] <==> StartCount(rows, i) == PALETTE_SIZE
    ensures RowReads(rows[i], i > 0, producers, claimed, available)
  {
    ProductUnclaimed(rows, i);
    if rows[i].0.Some? {
      ProducerUnfiled(rows, i);
    }
  }

  /** In readable rows, a row's product id is none of the earlier rows' product ids. */
  lemma ProductUnclaimed(rows: seq<RosterRow>, i: int)
    requires 0 <= i < |rows| && ReadableUpTo(rows, i + 1)
    ensures CellId(rows[i].1).Some? && CellId(rows[i].1).value !in ProductIds(rows, i)
  {
    forall j | 0 <= j < i && CellId(rows[j].1).Some?
      ensures CellId(rows[j].1).value != CellId(rows[i].1).value
    {
      assert CellId(rows[j].1) != CellId(rows[i].1);
    }
  }

  /** In readable rows, a starting row's producer id is none of the earlier starting rows' ids. */
  lemma ProducerUnfiled(rows: seq<RosterRow>, i: int)
    requires 0 <= i < |rows| && ReadableUpTo(rows, i + 1) && rows[i].0.Some?
    ensures CellId(rows[i].0.value).Some? && CellId(rows[i].0.value).value !in StartIds(rows, i)
  {
    forall j | 0 <= j < i && rows[j].0.Some? && CellId(rows[j].0.value).Some?
      ensures CellId(rows[j].0.value).value != CellId(rows[i].0.value).value
    {
      assert CellId(rows[j].0.value) != CellId(rows[i].0.value);
    }
  }

  /** One row adds its producer, when it starts a group, to the producer ids, and its product to the product ids. */
  lemma IdsStep(rows: seq<RosterRow>, i: int)
    requires 0 <= i < |rows| && CellId(rows[i].1).Some? && (rows[i].0.Some? ==> CellId(rows[i].0.value).Some?)
    ensures StartIds(rows, i + 1) == StartIds(rows, i) + (if rows[i].0.Some? then {CellId(rows[i].0.value).value} else {})
    ensures ProductIds(rows, i + 1) == ProductIds(rows, i) + {CellId(rows[i].1).value}
  {
    var added := if rows[i].0.Some? then {CellId(rows[i].0.value).value} else {};
    forall x | x in StartIds(rows, i + 1)
      ensures x in StartIds(rows, i) + added
    {
      var j :| 0 <= j < i + 1 && rows[j].0.Some? && CellId(rows[j].0.value).Some? && CellId(rows[j].0.value).value == x;
      if j < i {
        assert x in StartIds(rows, i);
      }
    }
    forall x | x in StartIds(rows, i) + added
      ensures x in StartIds(rows, i + 1)
    {
      if x in StartIds(rows, i) {
        var j :| 0 <= j < i && rows[j].0.Some? && CellId(rows[j].0.value).Some? && CellId(rows[j].0.value).value == x;
        assert x in StartIds(rows, i + 1);
      }
    }
    forall x | x in ProductIds(rows, i + 1)
      ensures x in ProductIds(rows, i) + {CellId(rows[i].1).value}
    {
      var j :| 0 <= j < i + 1 && CellId(rows[j].1).Some? && CellId(rows[j].1).value == x;
      if j < i {
        assert x in ProductIds(rows, i);
      }
    }
    forall x | x in ProductIds(rows, i)
      ensures x in ProductIds(rows, i + 1)
    {
      var j :| 0 <= j < i && CellId(rows[j].1).Some? && CellId(rows[j].1).value == x;
    }
  }

  /** A producer that no starting row among the first `n` names has been given no products by them. */
  lemma {:induction false} NoGroupBeforeStart(rows: seq<RosterRow>, n: int, k: int)
    requires 0 <= n <= |rows| && k !in StartIds(rows, n)
    ensures GroupProducts(rows, n, k) == []
    decreases n
  {
    if n > 0 {
      forall j | 0 <= j < n - 1 && rows[j].0.Some? && CellId(rows[j].0.value).Some?
        ensures CellId(rows[j].0.value).value != k
      {
        assert CellId(rows[j].0.value).value in StartIds(rows, n);
      }
      NoGroupBeforeStart(rows, n - 1, k);
      var start := LastStart(rows, n - 1);
      if start.Some? && CellId(rows[start.value].0.value).Some? {
        assert CellId(rows[start.value].0.value).value in StartIds(rows, n);
      }
    }
  }

  /** A row that reads adds its ids to the registry's keys, which stay the ids the rows read so far name. */
  lemma KeysStep(rows: seq<RosterRow>, i: int, producers: map<int, ProducerInfo>, claimed: map<int, int>,
                 producers': map<int, ProducerInfo>, claimed': map<int, int>, next: int)
    requires 0 <= i < |rows| && producers.Keys == StartIds(rows, i) && claimed.Keys == ProductIds(rows, i)
    requires CellId(rows[i].1).Some? && (rows[i].0.Some? ==> CellId(rows[i].0.value) == Some(next))
    requires next in producers' && producers' == producers[next := producers'[next]]
    requires rows[i].0.None? ==> next in producers
    requires claimed' == claimed[CellId(rows[i].1).value := next]
    ensures producers'.Keys == StartIds(rows, i + 1) && claimed'.Keys == ProductIds(rows, i + 1)
  {
    IdsStep(rows, i);
    var started := if rows[i].0.Some? then {next} else {};
    KeysGrow(producers, producers', StartIds(rows, i), started, next);
    KeysGrow(claimed, claimed', ProductIds(rows, i), {CellId(rows[i].1).value}, CellId(rows[i].1).value);
  }

  /** Updating a map at `k` adds `k` to its keys, unless `k` was there already. */
  lemma KeysGrow<V>(m: map<int, V>, m': map<int, V>, keys: set<int>, added: set<int>, k: int)
    requires m.Keys == keys && k in m' && m' == m[k := m'[k]]
    requires added == {k} || (added == {} && k in m)
    ensures m'.Keys == keys + added
  {
  }

  /** One row appends its product to the list of its group's producer, and leaves the other lists alone. */
  lemma GroupStep(rows: seq<RosterRow>, i: int, producers: map<int, ProducerInfo>, producers': map<int, ProducerInfo>, next: int, q: int)
    requires 0 <= i < |rows| && producers.Keys == StartIds(rows, i)
    requires forall k :: k in producers ==> producers[k].products == GroupProducts(rows, i, k)
    requires GroupId(rows, i) == Some(next) && CellId(rows[i].1) == Some(q)
    requires next in producers' && producers' == producers[next := producers'[next]]
    requires rows[i].0.Some? ==> next !in producers && producers'[next].products == [q]
    requires rows[i].0.None? ==> next in producers && producers'[next].products == producers[next].products + [q]
    ensures forall k :: k in producers' ==> producers'[k].products == GroupProducts(rows, i + 1, k)
  {
    if rows[i].0.Some? {
      NoGroupBeforeStart(rows, i, next);
    }
  }

  /** `new Producer()`, `ParseFromString(cell)` and `AddProducer`: a row's producer cell starts a registered producer. */
  method StartProducer(registry: Producers, cell: string) returns (pd: Producer, outcome: Outcome<RegistryError>)
    requires registry.Valid() && registry.Owned() && registry.Indexed()
    modifies registry
    ensures fresh(pd)
    ensures registry.Valid() && registry.Owned() && registry.Indexed()
    ensures SplitId(cell).Failure? ==> outcome == Fail(SplitId(cell).error)
    ensures SplitId(cell).Success? && SplitId(cell).value.0 in old(registry.producers) ==>
              outcome == Fail(DuplicateProducerId(SplitId(cell).value.0))
    ensures SplitId(cell).Success? && SplitId(cell).value.0 !in old(registry.producers) && old(registry.available) == [] ==>
              outcome == Fail(PaletteExhausted)
    ensures SplitId(cell).Success? && SplitId(cell).value.0 !in old(registry.producers) && old(registry.available) != [] ==>
              outcome == Pass
    ensures outcome.Fail? ==> unchanged(registry)
    ensures outcome.Pass? ==>
              && SplitId(cell).Success? && pd.id == SplitId(cell).value.0
              && pd.id !in old(registry.producers)
              && registry.producers == old(registry.producers)[pd.id := ProducerInfo(pd.id, Some(SplitId(cell).value.1), [], pd.displayColour)]
              && registry.claimed == old(registry.claimed)
  {
    pd := new Producer.Blank();
    outcome := pd.ParseFromString(cell);
    if outcome.Fail? {
      return;
    }
    outcome := registry.AddProducer(pd);
  }

  /** Filing a new producer with no products, then listing one product under it, files it with just that product. */
  lemma FiledThenListed(producers: map<int, ProducerInfo>, filed: map<int, ProducerInfo>, listed: map<int, ProducerInfo>, k: int, q: int)
    requires k in filed && filed == producers[k := filed[k]] && filed[k].products == []
    requires listed == filed[k := filed[k].(products := filed[k].products + [q])]
    ensures k in listed && listed == producers[k := listed[k]]
    ensures listed[k].name == filed[k].name && listed[k].products == [q]
  {
  }

  /** A row with a producer cell: the producer is started and registered, then the row's product is added to it. */
  method StartRow(registry: Producers, cell: string, product: string) returns (pd: Producer, outcome: Outcome<RosterError>)
    requires registry.Valid() && registry.Owned() && registry.Indexed()
    modifies registry
    ensures registry.Valid() && registry.Owned() && registry.Indexed()
    ensures outcome != Fail(NoProducerYet)
    ensures outcome.Pass? <==>
              && CellId(cell).Some? && CellId(cell).value !in old(registry.producers) && old(registry.available) != []
              && CellId(product).Some? && CellId(product).value !in old(registry.claimed)
    ensures outcome.Pass? ==>
              && SplitId(cell).Success? && pd.id == SplitId(cell).value.0 && pd.id !in old(registry.producers)
              && pd.id in registry.producers
              && registry.producers == old(registry.producers)[pd.id := registry.producers[pd.id]]
              && registry.producers[pd.id].name == Some(SplitId(cell).value.1)
              && registry.producers[pd.id].products == [CellId(product).value]
              && SplitId(product).Success? && registry.claimed == old(registry.claimed)[SplitId(product).value.0 := pd.id]
  {
    var parsed;
    pd, parsed := StartProducer(registry, cell);
    if parsed.Fail? {
      assert !(CellId(cell).Some? && CellId(cell).value !in old(registry.producers) && old(registry.available) != []);
      return pd, Fail(Registry(parsed.error));
    }
    ghost var filed := registry.producers;
    var added := registry.AddProductFromText(pd.id, product);
    if added.Fail? {
      assert !(CellId(product).Some? && CellId(product).value !in old(registry.claimed));
      return pd, Fail(Registry(added.error));
    }
    FiledThenListed(old(registry.producers), filed, registry.producers, pd.id, SplitId(product).value.0);
    outcome := Pass;
  }

  /**
   * One pass of `ReadProducers`' loop: a producer cell starts and registers a
   * new producer, and the row's product is then added to the current one.
   */
  method ReadRow(registry: Producers, dummy: Producer?, row: RosterRow) returns (next: Producer?, outcome: Outcome<RosterError>)
    requires registry.Valid() && registry.Owned() && registry.Indexed()
    requires dummy != null ==> dummy.id in registry.producers
    modifies registry
    ensures registry.Valid() && registry.Owned() && registry.Indexed()
    ensures outcome == Fail(NoProducerYet) <==> row.0.None? && dummy == null
    ensures outcome.Pass? <==>
              RowReads(row, dummy != null, old(registry.producers), old(registry.claimed), old(registry.available))
    ensures outcome.Pass? ==>
              && next != null && next.id in registry.producers
              && (row.0.None? ==> && next == dummy && next.id == old(dummy.id)
                                  && registry.producers[next.id].name == old(registry.producers[next.id].name)
                                  && registry.producers[next.id].products == old(registry.producers[next.id].products) + [CellId(row.1).value])
              && (row.0.Some? ==> && SplitId(row.0.value).Success? && next.id == SplitId(row.0.value).value.0
                                  && next.id !in old(registry.producers)
                                  && registry.producers[next.id].name == Some(SplitId(row.0.value).value.1)
                                  && registry.producers[next.id].products == [CellId(row.1).value])
              && registry.producers == old(registry.producers)[next.id := registry.producers[next.id]]
              && SplitId(row.1).Success? && SplitId(row.1).value.0 !in old(registry.claimed)
              && registry.claimed == old(registry.claimed)[SplitId(row.1).value.0 := next.id]
              && registry.Count() == old(registry.Count()) + (if row.0.Some? then 1 else 0)
              && registry.ProductCount() == old(registry.ProductCount()) + 1
  {
    if row.0.Some? {
      next, outcome := StartRow(registry, row.0.value, row.1);
      return;
    }
    next := dummy;
    if next == null {
      return next, Fail(NoProducerYet);
    }
    var added := registry.AddProductFromText(next.id, row.1);
    if added.Fail? {
      return next, Fail(Registry(added.error));
    }
    outcome := Pass;
  }

  /** What the first `i` rows of a readable roster leave in the registry's producers and claims. */
  ghost predicate RosterSoFar(rows: seq<RosterRow>, i: int, producers: map<int, ProducerInfo>, claimed: map<int, int>)
    requires 0 <= i <= |rows|
  {
    && ReadableUpTo(rows, i)
    && StartsFiled(rows, i, producers) && RowsClaimed(rows, i, claimed)
    && producers.Keys == StartIds(rows, i) && claimed.Keys == ProductIds(rows, i)
    && (forall k :: k in producers ==> producers[k].products == GroupProducts(rows, i, k))
  }

  /** A row that reads, filed as `ReadRow` files it, carries what the rows before it left over to one more row. */
  lemma RowStep(rows: seq<RosterRow>, i: int, producers: map<int, ProducerInfo>, claimed: map<int, int>, available: seq<Colour>,
                producers': map<int, ProducerInfo>, claimed': map<int, int>, current: int, next: int)
    requires 0 <= i < |rows| && RosterSoFar(rows, i, producers, claimed)
    requires i > 0 ==> Current(rows, i, current) && current in producers
    requires available == [] <==> StartCount(rows, i) == PALETTE_SIZE
    requires RowReads(rows[i], i > 0, producers, claimed, available)
    requires next in producers' && producers' == producers[next := producers'[next]]
    requires rows[i].0.None? ==> && next == current
                                 && producers'[next].name == producers[next].name
                                 && producers'[next].products == producers[next].products + [CellId(rows[i].1).value]
    requires rows[i].0.Some? ==> && SplitId(rows[i].0.value).Success? && next == SplitId(rows[i].0.value).value.0
                                 && next !in producers && producers'[next].name == Some(SplitId(rows[i].0.value).value.1)
                                 && producers'[next].products == [CellId(rows[i].1).value]
    requires claimed' == claimed[CellId(rows[i].1).value := next]
    ensures RosterSoFar(rows, i + 1, producers', claimed') && Current(rows, i + 1, next)
  {
    ReadableExtends(rows, i, producers, claimed, available);
    RosterStep(rows, i, producers, claimed, producers', claimed', current, next);
    KeysStep(rows, i, producers, claimed, producers', claimed', next);
    GroupStep(rows, i, producers, producers', next, CellId(rows[i].1).value);
  }

  /**
   * Row `i` of `ReadProducers`' loop, with the registry holding what the rows
   * before it leave: the row fails exactly when the roster is unreadable at
   * it, and otherwise the registry holds what the first `i + 1` rows leave.
   */
  method ReadRosterRow(registry: Producers, dummy: Producer?, rows: seq<RosterRow>, i: int) returns (next: Producer?, outcome: Outcome<RosterError>)
    requires 0 <= i < |rows|
    requires registry.Valid() && registry.Owned() && registry.Indexed()
    requires i > 0 <==> dummy != null
    requires i > 0 ==> Current(rows, i, dummy.id) && dummy.id in registry.producers
    requires registry.Count() == StartCount(rows, i) && registry.ProductCount() == i
    requires RosterSoFar(rows, i, registry.producers, registry.claimed)
    modifies registry
    ensures registry.Valid() && registry.Owned() && registry.Indexed()
    ensures outcome == Fail(NoProducerYet) <==> i == 0 && rows[0].0.None?
    ensures outcome.Fail? ==> !RosterReadable(rows)
    ensures outcome.Pass? ==>
              && next != null && Current(rows, i + 1, next.id) && next.id in registry.producers
              && registry.Count() == StartCount(rows, i + 1) && registry.ProductCount() == i + 1
              && RosterSoFar(rows, i + 1, registry.producers, registry.claimed)
  {
    ghost var filed := registry.producers;
    ghost var claims := registry.claimed;
    ghost var current := if dummy == null then 0 else dummy.id;
    ghost var available := registry.available;
    registry.Exhaustion();
    if RosterReadable(rows) {
      ReadableRowReads(rows, i, filed, claims, available);
    }
    next, outcome := ReadRow(registry, dummy, rows[i]);
    if outcome.Pass? {
      RowStep(rows, i, filed, claims, available, registry.producers, registry.claimed, current, next.id);
    }
  }

  /**
   * `ReadProducers`: a row with a producer cell parses it into a new
   * producer and registers it; every row, the starting one included, then
   * adds its product to the most recently started producer. The read
   * succeeds exactly for a readable roster, and then each producer owns the
   * products of its group, in row order.
   */
  method ReadProducers(rows: seq<RosterRow>) returns (registry: Producers, outcome: Outcome<RosterError>)
    ensures fresh(registry) && registry.Valid() && registry.Owned() && registry.Indexed()
    ensures outcome == Fail(NoProducerYet) <==> rows != [] && rows[0].0.None?
    ensures outcome.Pass? <==> RosterReadable(rows)
    ensures outcome.Pass? ==>
              && registry.Count() == StartCount(rows, |rows|)
              && registry.ProductCount() == |rows|
              && RosterSoFar(rows, |rows|, registry.producers, registry.claimed)
  {
    registry := new Producers();
    var dummy: Producer? := null;
    var i := 0;
    while i < |rows|
      invariant 0 <= i <= |rows|
      invariant fresh(registry) && registry.Valid() && registry.Owned() && registry.Indexed()
      invariant i > 0 ==> rows[0].0.Some?
      invariant i > 0 <==> dummy != null
      invariant i > 0 ==> Current(rows, i, dummy.id) && dummy.id in registry.producers
      invariant registry.Count() == StartCount(rows, i) && registry.ProductCount() == i
      invariant RosterSoFar(rows, i, registry.producers, registry.claimed)
    {
      var step;
      dummy, step := ReadRosterRow(registry, dummy, rows, i);
      if step.Fail? {
        return registry, step;
      }
      i := i + 1;
    }
    outcome := Pass;
  }
}
