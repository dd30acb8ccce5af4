/**
 * One line of the fixed-width inventory-change feed:
 *
 *   offset 0, 8 chars    entry date, strict yyyyMMdd
 *   offset 8, 7 chars    product id
 *   offset 15, 4 chars   store id
 *   offset 19, 1 char    listing state D / L / F
 *   offset 20 to the end signed inventory change
 */
module ProductEntries {
  import opened Results
  import opened DecimalText

  datatype ListingStatus = Listed | Delisted | Forced

  datatype Date = Date(year: int, month: int, day: int)

  predicate IsLeapYear(year: int)
  {
    year % 4 == 0 && (year % 100 != 0 || year % 400 == 0)
  }

  function DaysInMonth(year: int, month: int): int
    requires 1 <= month <= 12
  {
    if month == 2 then (if IsLeapYear(year) then 29 else 28)
    else if month == 4 || month == 6 || month == 9 || month == 11 then 30
    else 31
  }

  /** A day of the proleptic Gregorian calendar that `DateTime` can hold. */
  predicate ValidDate(d: Date)
  {
    1 <= d.year <= 9999 && 1 <= d.month <= 12 && 1 <= d.day <= DaysInMonth(d.year, d.month)
  }

  /** `DateTime.TryParseExact(s, "yyyyMMdd", ..., DateTimeStyles.None)`: eight digits, no white space. */
  function ParseDate(s: string): (r: Option<Date>)
    ensures r.Some? ==> ValidDate(r.value) && |s| == 8 && AllDigits(s)
  {
    if |s| != 8 || !AllDigits(s) then None
    else
      AllDigitsSlice(s, 0, 4);
      AllDigitsSlice(s, 4, 6);
      AllDigitsSlice(s, 6, 8);
      assert s[..4] == s[0..4] && s[6..] == s[6..8];
      var d := Date(DigitsValue(s[..4]), DigitsValue(s[4..6]), DigitsValue(s[6..]));
      if ValidDate(d) then Some(d) else None
  }

  function FormatDate(d: Date): string
    requires ValidDate(d)
  {
    Pow10Values();
    DecimalLength(d.year, 4);
    DecimalLength(d.month, 2);
    DecimalLength(d.day, 2);
    ZeroPad(Decimal(d.year), 4) + ZeroPad(Decimal(d.month), 2) + ZeroPad(Decimal(d.day), 2)
  }

  /** Eight digits read as a four-digit year, a two-digit month and a two-digit day. */
  lemma ParseDateDigits(y: string, m: string, dd: string)
    requires |y| == 4 && |m| == 2 && |dd| == 2 && AllDigits(y) && AllDigits(m) && AllDigits(dd)
    ensures var d := Date(DigitsValue(y), DigitsValue(m), DigitsValue(dd));
            ParseDate(y + m + dd) == if ValidDate(d) then Some(d) else None
  {
    AllDigitsConcat(y, m);
    AllDigitsConcat(y + m, dd);
    var s := y + m + dd;
    assert s[..4] == y && s[4..6] == m && s[6..] == dd;
  }

  /** Every valid date written as yyyyMMdd parses back to itself. */
  lemma ParseFormatDate(d: Date)
    requires ValidDate(d)
    ensures ParseDate(FormatDate(d)) == Some(d)
  {
    Pow10Values();
    ParseZeroPadded(d.year, 4);
    ParseZeroPadded(d.month, 2);
    ParseZeroPadded(d.day, 2);
    ParseDateDigits(ZeroPad(Decimal(d.year), 4), ZeroPad(Decimal(d.month), 2), ZeroPad(Decimal(d.day), 2));
  }

  /** The feed's one-letter listing states. */
  function ParseListingState(c: char): (r: Option<ListingStatus>)
    ensures r.Some? ==> StateLetter(r.value) == c
    ensures r.None? ==> forall s :: StateLetter(s) != c
  {
    match c
    case 'D' => Some(Delisted)
    case 'L' => Some(Listed)
    case 'F' => Some(Forced)
    case _ => None
  }

  function StateLetter(s: ListingStatus): char
  {
    match s
    case Delisted => 'D'
    case Listed => 'L'
    case Forced => 'F'
  }

  /** Every listing state's letter reads back as that state. */
  lemma ParseStateLetter(s: ListingStatus)
    ensures ParseListingState(StateLetter(s)) == Some(s)
  {
  }

  /** The five fields, in the order `SetInfoFromRaw` checks them. */
  datatype EntryField = DateField | ProductIdField | StoreIdField | ListingStateField | InventoryChangeField

  function Rank(f: EntryField): nat
  {
    match f
    case DateField => 0
    case ProductIdField => 1
    case StoreIdField => 2
    case ListingStateField => 3
    case InventoryChangeField => 4
  }

  /**
   * A field fails either because the line is too short for its slot (`Substring`
   * throws) or because the slot's text does not parse (InvalidDataException).
   */
  datatype EntryError = SliceOutOfRange(field: EntryField) | Unparsable(field: EntryField)

  datatype ProductEntry = ProductEntry(
    entryTime: Date,
    productId: int,
    storeId: int,
    inventoryChange: int,
    listingState: ListingStatus)

  /** The slot of field `f` lies inside `raw` and its text parses. */
  predicate FieldParses(raw: string, f: EntryField)
  {
    match f
    case DateField => |raw| >= 8 && ParseDate(raw[..8]).Some?
    case ProductIdField => |raw| >= 15 && ParseInt32(raw[8..15]).Some?
    case StoreIdField => |raw| >= 19 && ParseInt32(raw[15..19]).Some?
    case ListingStateField => |raw| >= 20 && ParseListingState(raw[19]).Some?
    case InventoryChangeField => |raw| >= 20 && ParseInt32(raw[20..]).Some?
  }

  /** Every field checked before `f` parses. */
  predicate ParsesBefore(raw: string, f: EntryField)
  {
    forall g :: Rank(g) < Rank(f) ==> FieldParses(raw, g)
  }

  predicate AllFieldsParse(raw: string)
  {
    && FieldParses(raw, DateField)
    && FieldParses(raw, ProductIdField)
    && FieldParses(raw, StoreIdField)
    && FieldParses(raw, ListingStateField)
    && FieldParses(raw, InventoryChangeField)
  }

  /**
   * `ProductEntry.SetInfoFromRaw`. Each field is checked in turn and the first
   * one that fails decides the error. The message for a bad product id reads
   * `Substring(8, 8)`, one character past the slot, so a 15-character line with
   * a bad product id fails on the slice rather than on the parse.
   */
  function ParseEntry(raw: string): (r: Result<ProductEntry, EntryError>)
    ensures r.Success? ==>
              && |raw| >= 20
              && Some(r.value.entryTime) == ParseDate(raw[..8])
              && Some(r.value.productId) == ParseInt32(raw[8..15])
              && Some(r.value.storeId) == ParseInt32(raw[15..19])
              && Some(r.value.listingState) == ParseListingState(raw[19])
              && Some(r.value.inventoryChange) == ParseInt32(raw[20..])
  {
    if |raw| < 8 then Failure(SliceOutOfRange(DateField))
    else match ParseDate(raw[..8])
    case None => Failure(Unparsable(DateField))
    case Some(date) =>
      if |raw| < 15 then Failure(SliceOutOfRange(ProductIdField))
      else match ParseInt32(raw[8..15])
      case None =>
        if |raw| < 16 then Failure(SliceOutOfRange(ProductIdField)) else Failure(Unparsable(ProductIdField))
      case Some(productId) =>
        if |raw| < 19 then Failure(SliceOutOfRange(StoreIdField))
        else match ParseInt32(raw[15..19])
        case None => Failure(Unparsable(StoreIdField))
        case Some(storeId) =>
          if |raw| < 20 then Failure(SliceOutOfRange(ListingStateField))
          else match ParseListingState(raw[19])
          case None => Failure(Unparsable(ListingStateField))
          case Some(state) =>
            match ParseInt32(raw[20..])
            case None => Failure(Unparsable(InventoryChangeField))
            case Some(change) => Success(ProductEntry(date, productId, storeId, change, state))
  }

  /** A line is accepted exactly when all five of its fields parse. */
  lemma ParseEntryAccepts(raw: string)
    ensures ParseEntry(raw).Success? <==> AllFieldsParse(raw)
  {
    if AllFieldsParse(raw) {
      var e := ProductEntry(ParseDate(raw[..8]).value, ParseInt32(raw[8..15]).value, ParseInt32(raw[15..19]).value,
                            ParseInt32(raw[20..]).value, ParseListingState(raw[19]).value);
      ParseSlots(raw, e);
    }
  }

  /** A rejected line names the first field, in checking order, that fails. */
  lemma ParseEntryFirstFailure(raw: string)
    requires ParseEntry(raw).Failure?
    ensures !FieldParses(raw, ParseEntry(raw).error.field)
    ensures ParsesBefore(raw, ParseEntry(raw).error.field)
  {
    var f := ParseEntry(raw).error.field;
    if f == DateField {
      FailsAtDate(raw);
    } else if f == ProductIdField {
      FailsAtProductId(raw);
    } else if f == StoreIdField {
      FailsAtStoreId(raw);
    } else if f == ListingStateField {
      FailsAtListingState(raw);
    } else {
      FailsAtInventoryChange(raw);
    }
  }

  lemma FailsAtDate(raw: string)
    requires ParseEntry(raw).Failure? && ParseEntry(raw).error.field == DateField
    ensures !FieldParses(raw, DateField)
  {
  }

  lemma FailsAtProductId(raw: string)
    requires ParseEntry(raw).Failure? && ParseEntry(raw).error.field == ProductIdField
    ensures !FieldParses(raw, ProductIdField) && FieldParses(raw, DateField)
  {
  }

  lemma FailsAtStoreId(raw: string)
    requires ParseEntry(raw).Failure? && ParseEntry(raw).error.field == StoreIdField
    ensures !FieldParses(raw, StoreIdField) && FieldParses(raw, DateField) && FieldParses(raw, ProductIdField)
  {
  }

  lemma FailsAtListingState(raw: string)
    requires ParseEntry(raw).Failure? && ParseEntry(raw).error.field == ListingStateField
    ensures !FieldParses(raw, ListingStateField)
    ensures FieldParses(raw, DateField) && FieldParses(raw, ProductIdField) && FieldParses(raw, StoreIdField)
  {
  }

  lemma FailsAtInventoryChange(raw: string)
    requires ParseEntry(raw).Failure? && ParseEntry(raw).error.field == InventoryChangeField
    ensures !FieldParses(raw, InventoryChangeField)
    ensures FieldParses(raw, DateField) && FieldParses(raw, ProductIdField) && FieldParses(raw, StoreIdField)
    ensures FieldParses(raw, ListingStateField)
  {
  }

  /** Every line shorter than 21 characters is rejected. */
  lemma ShortLineRejected(raw: string)
    requires |raw| < 21
    ensures ParseEntry(raw).Failure?
  {
    if |raw| == 20 {
      ParseInt32NeedsDigit(raw[20..]);
      assert !FieldParses(raw, InventoryChangeField);
    } else if |raw| < 20 {
      assert !FieldParses(raw, ListingStateField);
    }
  }

  /** The values a feed line can carry at these fixed widths. */
  predicate Writable(e: ProductEntry)
  {
    && ValidDate(e.entryTime)
    && 0 <= e.productId < 10000000
    && 0 <= e.storeId < 10000
    && MIN_INT32 <= e.inventoryChange <= MAX_INT32
  }

  /** Lays an entry out at the feed's offsets, ids zero-padded to their slot width. */
  function FormatEntry(e: ProductEntry): (line: string)
    requires Writable(e)
  {
    Pow10Values();
    DecimalLength(e.productId, 7);
    DecimalLength(e.storeId, 4);
    FormatDate(e.entryTime) + ZeroPad(Decimal(e.productId), 7) + ZeroPad(Decimal(e.storeId), 4)
      + [StateLetter(e.listingState)] + SignedDecimal(e.inventoryChange)
  }

  /** A line whose five slots hold parsable text is read as the values of those slots. */
  lemma ParseSlots(raw: string, e: ProductEntry)
    requires |raw| >= 20
    requires ParseDate(raw[..8]) == Some(e.entryTime)
    requires ParseInt32(raw[8..15]) == Some(e.productId)
    requires ParseInt32(raw[15..19]) == Some(e.storeId)
    requires ParseListingState(raw[19]) == Some(e.listingState)
    requires ParseInt32(raw[20..]) == Some(e.inventoryChange)
    ensures ParseEntry(raw) == Success(e)
  {
  }

  /** Where each of five slot texts laid end to end sits in the line. */
  lemma LaidOutSlots(date: string, product: string, store: string, state: char, change: string)
    requires |date| == 8 && |product| == 7 && |store| == 4
    ensures var line := date + product + store + [state] + change;
              && |line| >= 20
              && line[..8] == date
              && line[8..15] == product
              && line[15..19] == store
              && line[19] == state
              && line[20..] == change
  {
    var line := date + product + store + [state] + change;
    assert line[..8] == date;
    assert line[8..15] == product;
    assert line[15..19] == store;
    assert line[20..] == change;
  }

  /** Five slot texts laid end to end are read as the entry they spell. */
  lemma ParseLaidOut(date: string, product: string, store: string, state: char, change: string, e: ProductEntry)
    requires |date| == 8 && |product| == 7 && |store| == 4
    requires ParseDate(date) == Some(e.entryTime)
    requires ParseInt32(product) == Some(e.productId)
    requires ParseInt32(store) == Some(e.storeId)
    requires ParseListingState(state) == Some(e.listingState)
    requires ParseInt32(change) == Some(e.inventoryChange)
    ensures ParseEntry(date + product + store + [state] + change) == Success(e)
  {
    LaidOutSlots(date, product, store, state, change);
    ParseSlots(date + product + store + [state] + change, e);
  }

  /** A line assembled from in-range values at the feed's offsets parses back to those same values. */
  lemma ParseFormatEntry(e: ProductEntry)
    requires Writable(e)
    ensures ParseEntry(FormatEntry(e)) == Success(e)
  {
    Pow10Values();
    ParseFormatDate(e.entryTime);
    ParseZeroPadded(e.productId, 7);
    ParseZeroPadded(e.storeId, 4);
    ParseSignedDecimal(e.inventoryChange);
    var date := FormatDate(e.entryTime);
    var product := ZeroPad(Decimal(e.productId), 7);
    var store := ZeroPad(Decimal(e.storeId), 4);
    var state := StateLetter(e.listingState);
    var change := SignedDecimal(e.inventoryChange);
    assert |date| == 8;
    assert |product| == 7;
    assert |store| == 4;
    ParseStateLetter(e.listingState);
    ParseLaidOut(date, product, store, state, change, e);
    assert FormatEntry(e) == date + product + store + [state] + change;
  }
}
