# WineExcel core, modelled in Dafny

WineExcel is a batch tool that turns a wine distributor's data feed into an
Excel report. It runs in four steps:

1. It reads a product list. Each line is `id:name`, a comment, or a line
   whose negative id asks for a synthetic id.
2. It reads a fixed-width feed of inventory entries (date, product, store,
   listing state and inventory change) into an index keyed by store and then
   by product.
3. It reads a producer roster from a workbook. Each producer gets a unique
   display colour from a 27-colour palette, and each product is claimed by
   at most one producer.
4. It writes a report. Stores with a Listed or Forced entry go to the
   `Listing` sheet, the other stores with entries go to `Delisted`. On
   `Listing`, each catalog product has its own column, painted in the colour
   of the product's owner.

The model has one Dafny module per source file. Each follows the form of its
source:

- **`Products`** (`product.dfy`, from `Product.cs`): parsing a definition
  line. The process-wide synthetic-id counter becomes the class
  `FakeIdCounter`.
- **`ProductEntries`** (`product_entry.dfy`, from `ProductEntry.cs`): the
  fixed-width entry parser as the pure function `ParseEntry`.
- **`RawReading`** (`raw_reader.dfy`, from `RawReader.cs`): the reader as
  the class `RawReader`, whose methods loop over the lines. Each method is
  proved equal to a specification function: `LoadLines` for the product list
  and `IndexLines` for the feed. The properties are proved as lemmas about
  those functions.
- **`ProducerRegistry`** (`producer.dfy`, from `Producer.cs`): `Producer`
  and `Producers` as classes. The registry keeps:
  - its producers;
  - the claim map, from product to owner;
  - the stack of colours still available.

  `Valid()` states the palette invariant: every colour is either on the
  stack or held by exactly one producer. `Owned()` and `Indexed()` state the
  two directions of the agreement between claims and producers' lists.
- **`ExcelLayout`** (`excel_io.dfy`, from `ExcelIO.cs`): the workbook
  writes as a sequence of `Placement`s. A placement is one of:
  - a sheet renamed;
  - a template row copied;
  - a value put in a cell;
  - a cell painted.

  `ReadProducers` works on the roster's rows.
- **`DecimalText`** and **`Results`**: shared helpers. `DecimalText` models
  the .NET `int.TryParse`, `String.Trim` and decimal formatting used by the
  parsers. The two trims differ: `int.TryParse` skips only ASCII white space
  (tab to carriage return, and space), while `String.Trim` removes every
  `Char.IsWhiteSpace` character.
  `Results` holds the `Option`/`Result`/`Outcome` types that stand for
  `null` and for thrown exceptions.

Three edge cases of the code, as the model has them:

- `GetExcelColumnName` returns the empty string for column numbers `<= 0`;
  it does not fail.
- `WriteProductDataToStores` skips template stores that have no entry in the
  index. It does not file them as delisted.
- Reading the roster does not check that a producer cell precedes the first
  product. It relies on a debug assertion, modelled as the error
  `NoProducerYet`.

## Model

| member | source | states |
|---|---|---|
| DecimalText.Strip | Product.cs:80 | the result is a slice of the input with only white space of the given kind outside it, and it is empty or starts and ends with a non-white character |
| DecimalText.Trim | Product.cs:80 | `String.Trim`: a slice of the input with only `Char.IsWhiteSpace` characters (ASCII white space, U+0085, U+00A0, U+1680, U+2000-U+200A, U+2028, U+2029, U+202F, U+205F, U+3000) outside it, empty or starting and ending with a non-white character |
| DecimalText.NumberTrim | Product.cs:68 | the text `int.TryParse` reads a number from: the input with the ASCII white space it allows stripped from both ends |
| DecimalText.StripUnique | Product.cs:80 | any white prefix, visible-ended middle and white suffix of a text is the split the trim takes, so the trim is determined |
| DecimalText.TrimNoBreakSpace | Product.cs:68-80 | `String.Trim` removes a trailing no-break space, which the white space of `int.TryParse` does not include |
| DecimalText.TrimVisible | Product.cs:80 | text that already starts and ends visibly is its own trim |
| DecimalText.ParseInt32 | Product.cs:68 | a parsed value always lies in the 32-bit signed range |
| DecimalText.ParseInt32Form | Product.cs:68 | text that is, inside ASCII white space, an optional sign and one or more digits parses to its signed value when that fits in 32 bits, and fails otherwise |
| DecimalText.ParseInt32Shape | Product.cs:68 | conversely, text that parses is, inside ASCII white space, an optional sign and one or more digits, and the value is theirs |
| DecimalText.ParseInt32NeedsDigit | Product.cs:68-71 | text without a digit never parses as an integer |
| DecimalText.ParseDigits | ProductEntry.cs:75 | a non-empty run of digits within range parses to its decimal value |
| DecimalText.ParseSignedDecimal | Product.cs:68-72 | every 32-bit integer written in decimal parses back to itself |
| DecimalText.ParseZeroPadded | ProductEntry.cs:75-86 | a zero-padded number in a fixed-width slot parses back to the number |
| Products.IndexOf | Product.cs:66 | the index found is the first occurrence of the separator; none is found exactly when it does not occur |
| Products.Split | Product.cs:66 | splitting gives at least one field, and no field contains the separator |
| Products.JoinSplit | Product.cs:66 | joining the fields of a split with the separator gives back the line |
| Products.SplitJoin | Product.cs:66 | splitting separator-free fields joined by the separator gives back the fields |
| Products.ParseDefinition | Product.cs:64-85 | `id:name` split at the colons: the id is parsed, a negative one replaced by the next synthetic id, and the trimmed second field taken as the name |
| Products.ParseDefinitionCases | Product.cs:64-85 | a non-integer id fails and leaves the counter alone; an id >= 0 is kept; a negative id takes the next synthetic id and moves the counter down by one; the synthetic id space runs out only at int.MinValue; the name is the second field |
| Products.EmptyLineMalformed | Product.cs:66-71 | an empty definition line is rejected as malformed |
| Products.NoColonNoName | Product.cs:77-81 | a line without a colon yields a product without a name |
| Products.ExtraFieldsIgnored | Product.cs:82-84 | fields after the name do not change the parsed product |
| Products.TwoFields | Product.cs:66 | the first two fields of `id:name...` are the id and the name |
| Products.ParseWrittenDefinition | Product.cs:64-85 | a written `id:name` line with id >= 0 and a trimmed name parses to exactly that product and leaves the counter alone |
| Products.FakeIdCounter.constructor | Product.cs:46 | the counter starts at 0, with no id issued |
| Products.FakeIdCounter.GetFakeProductId | Product.cs:52-57 | each call issues one less than the last id, down to int.MinValue, and then fails without changing the counter |
| Products.IssuedIdsDecrease | Product.cs:52-57 | synthetic ids are negative and strictly decreasing, so no two are equal |
| Products.Product.constructor | Product.cs:48-50 | a new product has id 0 and no name |
| Products.Product.SetProductIdFromRaw | Product.cs:64-85 | the product and the counter end up as the definition function says; on a malformed id nothing changes; when the id space runs out, the declared id is already set |
| ProductEntries.ParseDate | ProductEntry.cs:69-74 | an accepted date is an 8-digit `yyyyMMdd` text naming a real calendar day |
| ProductEntries.ParseFormatDate | ProductEntry.cs:69-74 | every valid date written as `yyyyMMdd` parses back to itself |
| ProductEntries.ParseDateDigits | ProductEntry.cs:69-74 | eight digits parse, as year, month and day, exactly when they name a valid date, and then to that date |
| ProductEntries.ParseListingState | ProductEntry.cs:87-101 | a state letter is accepted exactly when it is the letter of some state, and maps to that state |
| ProductEntries.StateLetter | ProductEntry.cs:87-101 | the feed letter of each listing state: D, L or F |
| ProductEntries.ParseStateLetter | ProductEntry.cs:87-101 | each state's letter parses back to the state |
| ProductEntries.ParseEntry | ProductEntry.cs:65-108 | an accepted entry takes each field from its fixed slot: date 0-7, product 8-14, store 15-18, state 19, change from 20 |
| ProductEntries.ParseEntryAccepts | ProductEntry.cs:65-108 | an entry line is accepted exactly when all five slots parse |
| ProductEntries.ParseEntryFirstFailure | ProductEntry.cs:65-108 | a rejected line names the first slot that does not parse, and every earlier slot parses |
| ProductEntries.FailsAtDate | ProductEntry.cs:69-74 | a line rejected at the date has a date slot that does not parse |
| ProductEntries.FailsAtProductId | ProductEntry.cs:75-80 | a line rejected at the product has a good date and a bad product slot |
| ProductEntries.FailsAtStoreId | ProductEntry.cs:81-86 | a line rejected at the store has good date and product slots and a bad store slot |
| ProductEntries.FailsAtListingState | ProductEntry.cs:87-101 | a line rejected at the state has the three earlier slots good and a bad state letter |
| ProductEntries.FailsAtInventoryChange | ProductEntry.cs:102-107 | a line rejected at the change has the four earlier slots good and a bad change |
| ProductEntries.ShortLineRejected | ProductEntry.cs:65-108 | a line shorter than 21 characters is never accepted |
| ProductEntries.ParseSlots | ProductEntry.cs:65-108 | a line whose five slots parse to an entry's fields is accepted as that entry |
| ProductEntries.LaidOutSlots | ProductEntry.cs:65-108 | fields laid side by side at the slot widths sit exactly in the parser's slots |
| ProductEntries.ParseLaidOut | ProductEntry.cs:65-108 | fields laid out at the slot widths parse back to the entry they encode |
| ProductEntries.ParseFormatEntry | ProductEntry.cs:65-108 | every writable entry, formatted as a feed line, parses back to itself |
| RawReading.AddProduct | RawReader.cs:60 | adding a product to the catalog appends its id to the order and keeps the catalog consistent |
| RawReading.LoadLine | RawReader.cs:51-61 | handling one product line keeps the catalog consistent |
| RawReading.LoadLines | RawReader.cs:51-61 | loading the product list keeps the catalog consistent |
| RawReading.Ids | RawReader.cs:60 | the ids of a list of definitions, one per definition, in order |
| RawReading.FreshHead | RawReader.cs:57-60 | with distinct ids, the first new definition is not yet in the catalog |
| RawReading.DuplicateNotDistinct | RawReader.cs:57-59 | a definition whose id is already in the catalog makes the ids not distinct |
| RawReading.AddedIds | RawReader.cs:60 | adding one product moves its id from the pending ids to the catalog order |
| RawReading.LoadMatchesParseAll | RawReader.cs:41-65 | loading succeeds exactly when every non-comment line parses and the resulting ids are distinct and new; the catalog then holds exactly those products, in line order |
| RawReading.AddAllOrder | RawReader.cs:60 | adding definitions appends their ids to the order, in order |
| RawReading.AddAllContents | RawReader.cs:60 | after adding definitions, the catalog holds each of them and keeps every earlier product |
| RawReading.EmptyLineFailsLoad | RawReader.cs:51-61 | an empty line aborts the load at once, with a malformed definition and nothing added |
| RawReading.LoadStopsAtFailure | RawReader.cs:51-61 | after a failing line, later lines change nothing |
| RawReading.FileEntry | RawReader.cs:103-107 | an entry is filed under its store, the store's inner map created first when missing; a second entry for the pair fails |
| RawReading.IndexLine | RawReader.cs:84-107 | one feed line: the product slot must parse, a product outside the catalog is skipped, and any other line is parsed and filed |
| RawReading.IndexLines | RawReader.cs:81-109 | the feed's lines are indexed in order, stopping at the first failing one |
| RawReading.WellKeyedAt | RawReader.cs:84-108 | an indexed entry is filed under its own store and product, and the product is in the catalog |
| RawReading.FileEntryEffect | RawReader.cs:84-108 | a second entry for a filed store/product pair fails and changes nothing; otherwise exactly that entry is added |
| RawReading.FileEntryGrows | RawReader.cs:84-108 | filing a catalog product's entry keeps the index well keyed and loses no entry |
| RawReading.IndexLineEffect | RawReader.cs:84-108 | a line is skipped exactly when its product slot parses to an id outside the catalog; a line shorter than the product slot fails as out of range; an unparsable product slot fails as such; a catalog product's line fails with the entry parser's error or files the entry, whose product is the slot's id; every failure leaves the index unchanged |
| RawReading.IndexLinesGrows | RawReader.cs:84-108 | indexing a feed keeps the index well keyed and only ever adds entries |
| RawReading.ExtendsTransitive | RawReader.cs:84-108 | the index only-grows relation composes |
| RawReading.IndexFailureKeepsPrefix | RawReader.cs:84-108 | a failed feed leaves the index exactly as the lines before the failing one built it |
| RawReading.IndexLinesAppend | RawReader.cs:67-121 | reading two feeds in turn indexes what one read of both would, stopping at the first failure |
| RawReading.RawReader.constructor | RawReader.cs:37-40 | a new reader has neither a catalog nor an index |
| RawReading.RawReader.ReadProducts | RawReader.cs:41-65 | the reader's catalog, the counter and the outcome are those of loading the list from an empty catalog; the index is untouched |
| RawReading.RawReader.ReadProductLine | RawReader.cs:53-60 | one pass of the product loop is the specification step for that line |
| RawReading.RawReader.ReadFile | RawReader.cs:67-121 | the index is created on first use; without products the read fails with the index unchanged; otherwise the index and outcome are those of indexing the feed from the old index |
| RawReading.RawReader.ResetStoreProductPairs | RawReader.cs:123-126 | the index is emptied when it exists; a reset before any read is an error |
| RawReading.RawReader.GetStoreProductEntries | RawReader.cs:128-131 | returns the index, or an error exactly when it was never created |
| RawReading.RawReader.GetProducts | RawReader.cs:133-136 | returns the catalog, or an error exactly when it was never loaded |
| RawReading.LoadInputs | Program.cs:49-53 | the start-up sequence yields the loaded catalog and the feed's index, or the first error of the two reads |
| ProducerRegistry.RanksInvert | Producer.cs:45-80 | the palette's push order is a bijection between the 27 colours and positions 1 to 27 |
| ProducerRegistry.PaletteColours | Producer.cs:45-80 | the palette has 27 distinct colours, none of them Empty, last pushed PaleVioletRed |
| ProducerRegistry.PushesDistinct | Producer.cs:45-80 | no two pushes of the start-up stack push the same colour |
| ProducerRegistry.FreshPaletteKept | Producer.cs:45-80 | the full stack with no producer satisfies the palette invariant |
| ProducerRegistry.FreshPlaceOf | Producer.cs:45-80 | the n-th colour pushed sits at stack position n - 1 |
| ProducerRegistry.PaletteUnique | Producer.cs:82-94 | under the palette invariant, stack colours are distinct and free, and no two producers share a colour |
| ProducerRegistry.PopKeepsPalette | Producer.cs:88-93 | giving the top colour to a new producer keeps the palette invariant |
| ProducerRegistry.PushKeepsPalette | Producer.cs:160-174 | returning a removed producer's colour to the stack keeps the palette invariant |
| ProducerRegistry.RelistKeepsPalette | Producer.cs:96-105 | changing a producer's product list keeps the palette invariant |
| ProducerRegistry.EnlistKeeps | Producer.cs:82-94 | registering a producer keeps claims on listed products, and keeps listed products claimed only when its list is empty |
| ProducerRegistry.ClaimKeeps | Producer.cs:96-105 | claiming an unclaimed product for a producer and appending it to its list keeps both directions of claim agreement |
| ProducerRegistry.UnlistKeeps | Producer.cs:160-174 | removing a producer with its claims keeps both directions of claim agreement |
| ProducerRegistry.ReleaseKeeps | Producer.cs:144-158 | dropping a claim together with the list entry keeps both directions of claim agreement |
| ProducerRegistry.DelistKeeps | Producer.cs:144-158 | dropping a list entry but keeping its claim keeps only the lists-claimed direction |
| ProducerRegistry.StaleClaim | Producer.cs:144-158 | removing a product from its owner's list without dropping the claim leaves a claim on a product no list holds |
| ProducerRegistry.SplitId | Producer.cs:197-207 | the text is cut at its first space; the part before it must parse as an integer id, and the rest is the name |
| ProducerRegistry.SplitIdCases | Producer.cs:197-208 | text without a space is malformed; otherwise the id is the text before the first space and the name the text after it |
| ProducerRegistry.SplitWrittenId | Producer.cs:197-208 | `id name` with a written 32-bit id reads back as that id and name |
| ProducerRegistry.RemoveFirst | Producer.cs:220-223 | `List.Remove`: the list without the first occurrence of the id |
| ProducerRegistry.FirstIndex | Producer.cs:220-223 | the position of the first occurrence of an id in the list: it holds the id and no earlier position does |
| ProducerRegistry.RemoveFirstAt | Producer.cs:220-223 | removing a listed id drops exactly its first occurrence and keeps the elements before and after it in order |
| ProducerRegistry.RemoveFirstEffect | Producer.cs:220-223 | removing an absent id changes nothing; otherwise the list is one shorter and loses exactly one copy of the id |
| ProducerRegistry.RemoveFirstDistinct | Producer.cs:220-223 | from a list without repeats, removal keeps it without repeats and takes out exactly that id |
| ProducerRegistry.Producer.Blank | Producer.cs:185 | the blank producer has id 0, no name, no products and no colour |
| ProducerRegistry.Producer.constructor | Producer.cs:187-195 | a new producer has the given id, name and colour, and no products |
| ProducerRegistry.Producer.ParseFromString | Producer.cs:197-208 | `id name` sets the id and the name; malformed text fails and changes nothing |
| ProducerRegistry.Producer.SetColour | Producer.cs:210-213 | sets the colour and nothing else |
| ProducerRegistry.Producer.AddProduct | Producer.cs:215-218 | appends the product id to the list and changes nothing else |
| ProducerRegistry.Producer.RemoveProduct | Producer.cs:220-223 | removes the first occurrence of the product id and changes nothing else |
| ProducerRegistry.Producer.GetProductIds | Producer.cs:225-228 | returns the product list |
| ProducerRegistry.Producer.Clone | Producer.cs:230-233 | a fresh producer with the same id, name and colour and an empty list |
| ProducerRegistry.Producers.constructor | Producer.cs:45-80 | an empty registry with the full 27-colour stack, satisfying all three invariants |
| ProducerRegistry.Producers.Count | Producer.cs:38 | the number of registered producers |
| ProducerRegistry.Producers.ProductCount | Producer.cs:39 | the number of claimed products |
| ProducerRegistry.Producers.Exhaustion | Producer.cs:88-89 | the stack is empty exactly when 27 producers are registered, and no two producers share a colour |
| ProducerRegistry.Producers.AddProducer | Producer.cs:82-94 | a duplicate id, a producer that already has a colour, or an empty stack fails with nothing changed; otherwise the producer takes the top colour and is filed; the palette invariant and the claim agreement are kept |
| ProducerRegistry.Producers.AddProduct | Producer.cs:96-105 | a claimed product fails with its owner named; an unknown producer fails; otherwise the product is claimed for the producer and appended to its list |
| ProducerRegistry.Producers.AddProductFromText | Producer.cs:107-119 | text without a space or with an unparsable id fails with nothing changed; a claimed id fails naming its owner (or the missing owner); an unclaimed id for an unknown producer fails; an unclaimed id for a registered producer succeeds, claiming it and appending it to that producer's list |
| ProducerRegistry.Producers.ColourFromId | Producer.cs:137-142 | a producer's colour is found exactly when it is registered |
| ProducerRegistry.Producers.ColourFromProduct | Producer.cs:130-135 | an unclaimed product has no colour; a claimed one has its owner's colour |
| ProducerRegistry.Producers.ColourCoding | Producer.cs:130-142 | registered producers have non-empty, distinct colours not on the stack; with claims on listed products, a product has a colour exactly when it is claimed, and two products share one exactly when they share an owner |
| ProducerRegistry.Producers.GetProducerForProduct | Producer.cs:121-128 | returns the owner of a claimed product, or the error for an unclaimed product or a missing owner |
| ProducerRegistry.Producers.RemoveProduct | Producer.cs:144-158 | as written: the owner is compared with the product id, and the claim is never dropped |
| ProducerRegistry.Producers.RemoveProductCorrected | Producer.cs:144-158 | as intended: the owner must be the named producer; the product leaves its list and its claim is dropped, keeping both directions of claim agreement |
| ProducerRegistry.Producers.RemoveProducer | Producer.cs:160-174 | an unknown producer fails with nothing changed; otherwise its claims are dropped, its colour goes back on the stack and it is unregistered |
| ProducerRegistry.Producers.ReissueColour | Producer.cs:82-94 | a producer added right after another is removed gets the removed producer's colour |
| ProducerRegistry.OwnerOf | Producer.cs:96-105 | builds a registry in which producer 5 owns the given product |
| ProducerRegistry.RemoveOwnedProductAsWritten | Producer.cs:151-155 | with producer 5 owning product 7, removing product 7 from producer 5 is refused |
| ProducerRegistry.RemoveSameIdProductAsWritten | Producer.cs:147-157 | removing product 5 from producer 5 empties its list but leaves the claim |
| ProducerRegistry.RemoveProductAsIntended | Producer.cs:144-158 | the corrected removal accepts both cases and leaves neither a claim nor a list entry |
| ExcelLayout.ColumnName | ExcelIO.cs:323-334 | the bijective base-26 name of a column number, empty for numbers <= 0 |
| ExcelLayout.GetExcelColumnName | ExcelIO.cs:323-334 | the loop computes the bijective base-26 column name of the number |
| ExcelLayout.ColumnNameShape | ExcelIO.cs:323-334 | a column name is made of capitals and is empty exactly for numbers <= 0 |
| ExcelLayout.ColumnNameDecodes | ExcelIO.cs:323-334 | reading a column's name as a base-26 number gives back the column |
| ExcelLayout.ColumnNameEncodes | ExcelIO.cs:323-334 | every capital-letter string is the name of exactly the column it reads as |
| ExcelLayout.ColumnNamesDistinct | ExcelIO.cs:323-334 | distinct columns have distinct names |
| ExcelLayout.ColumnNameValues | ExcelIO.cs:323-334 | columns 1, 10, 26, 27, 52 and 53 are A, J, Z, AA, AZ and BA |
| ExcelLayout.ColumnNameWideValues | ExcelIO.cs:323-334 | column 702 is ZZ and 703 is AAA |
| ExcelLayout.SetupDocument | ExcelIO.cs:142-193 | the header writes are the sheet names, the static header copies, one header per catalog product in catalog order, and the two date headers |
| ExcelLayout.ProductHeaderColumns | ExcelIO.cs:176-190 | the q-th catalog product's header sits in column 10 + q of row 1 of Listing |
| ExcelLayout.HeaderLayout | ExcelIO.cs:149-192 | the header writes: three renames, two static copies, then each product's header in column 10 + q, then the date headers after the products in Listing and after the static columns in Delisted |
| ExcelLayout.HeaderLabel | ExcelIO.cs:177-187 | a product's header: its key when unnamed, its name for a synthetic id, otherwise its name, a newline and its key in parentheses |
| ExcelLayout.HeaderLabelCases | ExcelIO.cs:177-187 | a product without a name is headed by its key; a synthetic-id product by its name alone; any other by its name followed by more |
| ExcelLayout.HeaderKeyReadsBack | ExcelIO.cs:181-182 | for a named product with id >= 0, the text after the name is a newline and the key in parentheses, and parses back to the key |
| ExcelLayout.IsListed | ExcelIO.cs:216 | a store is listed when some entry of it is Listed or Forced |
| ExcelLayout.ProductCells | ExcelIO.cs:218-226 | each catalog product the store has gets its change and its owner's colour in column 10 + q; an unclaimed one aborts |
| ExcelLayout.StoreStep | ExcelIO.cs:214-250 | one template store: skipped without entries, else copied with the date to the next row of its section, with product cells when listed |
| ExcelLayout.Layout | ExcelIO.cs:213-250 | the template stores in order, each a store step, stopping at the first failure |
| ExcelLayout.Section | ExcelIO.cs:214-216 | a store without entries is skipped; a store with a Listed or Forced entry goes to Listing, any other store to Delisted |
| ExcelLayout.StoreProducts | ExcelIO.cs:218-226 | the product loop writes exactly the store's product cells, or fails at the first product without a colour |
| ExcelLayout.WriteProductDataToStores | ExcelIO.cs:195-250 | the whole loop over template stores yields exactly the specified report |
| ExcelLayout.ProductCellsFailureSticks | ExcelIO.cs:218-226 | once a store's product cells fail, later products do not change the failure |
| ExcelLayout.LayoutFailureSticks | ExcelIO.cs:213-250 | once the report fails, later stores do not change the failure |
| ExcelLayout.ProductCellsFail | ExcelIO.cs:218-226 | a store's row fails exactly when a catalog product it has cannot be given a colour |
| ExcelLayout.ProductCellsCover | ExcelIO.cs:218-226 | each catalog product the store has gets its inventory change and its owner's colour in column 10 + q |
| ExcelLayout.ProductCellsOnly | ExcelIO.cs:218-226 | a store's row holds product cells and nothing else |
| ExcelLayout.UnclaimedAborts | ExcelIO.cs:221-222 | with claims on listed products, a row fails exactly when a catalog product the store has is unclaimed |
| ExcelLayout.SectionsPartition | ExcelIO.cs:214-250 | every template store goes to exactly one of: skipped, Listing, Delisted |
| ExcelLayout.LayoutCounters | ExcelIO.cs:210-250 | each row counter ends one past the number of stores in its own section |
| ExcelLayout.SectionCountGrows | ExcelIO.cs:243-249 | a later store of the same section is counted after an earlier one |
| ExcelLayout.LayoutFail | ExcelIO.cs:213-250 | the report fails exactly when some listed store has a catalog product without a colour |
| ExcelLayout.LayoutStore | ExcelIO.cs:213-250 | each store with entries gets a copy of its template row and the date on its own row of its section, and, when listed, all of its product cells |
| ExcelLayout.LayoutOnly | ExcelIO.cs:213-250 | the report holds nothing but the cells of template stores that have entries |
| ExcelLayout.SectionRows | ExcelIO.cs:210-250 | the stores of a section take rows from 2 on, in template order, up to the row the counter ends past |
| ExcelLayout.LastStart | ExcelIO.cs:110-118 | the row that started a row's producer is the last row at or before it with a producer cell |
| ExcelLayout.FileKeepsStarts | ExcelIO.cs:111-115 | filing or relisting a producer keeps the earlier starting rows filed |
| ExcelLayout.ClaimKeepsRows | ExcelIO.cs:117 | a new claim keeps the earlier rows claimed |
| ExcelLayout.RosterStep | ExcelIO.cs:110-118 | after one row, every starting row so far is filed, every row's product is claimed by its group's producer, and the current producer is the row's group producer |
| ExcelLayout.StartProducer | ExcelIO.cs:112-114 | text without a space or with an unparsable id fails with that error; a registered id fails as a duplicate; an empty stack fails; otherwise the producer is registered with its id and name and no products, and the claims are unchanged |
| ExcelLayout.StartRow | ExcelIO.cs:111-117 | a row with a producer cell succeeds exactly when the cell parses to a new id, a colour is left and the product cell parses to an unclaimed id; then the new producer owns just that product |
| ExcelLayout.RowReads | ExcelIO.cs:111-117 | when one row reads: a row without a producer cell needs a started group; a producer cell needs a new id and a colour left; the product cell needs an unclaimed id |
| ExcelLayout.ReadRow | ExcelIO.cs:111-117 | one row succeeds exactly when it reads; a first row without a producer fails as such; on success a producer cell registers a new producer owning only the row's product, and otherwise the product is appended to the current producer's list |
| ExcelLayout.GroupProducts | ExcelIO.cs:110-118 | the products of a producer's group rows, in row order |
| ExcelLayout.RosterReadable | ExcelIO.cs:110-118 | the first row has a producer cell, every cell parses, no product id and no producer id repeats, and at most 27 producers start |
| ExcelLayout.ReadablePrefix | ExcelIO.cs:110-118 | the rows before a readable row are readable |
| ExcelLayout.ProductUnclaimed | ExcelIO.cs:117 | in readable rows, a row's product id is none of the earlier rows' |
| ExcelLayout.ProducerUnfiled | ExcelIO.cs:113-114 | in readable rows, a starting row's producer id is none of the earlier starting rows' |
| ExcelLayout.ReadableRowReads | ExcelIO.cs:110-118 | in a readable roster, each row reads given the registry the earlier rows leave |
| ExcelLayout.ReadableExtends | ExcelIO.cs:110-118 | a row that reads after readable rows extends them to readable rows |
| ExcelLayout.IdsStep | ExcelIO.cs:110-118 | one row adds its producer id, when it starts a group, to the producer ids, and its product id to the product ids |
| ExcelLayout.KeysStep | ExcelIO.cs:110-118 | after a row that reads, the registry's producers and claims are keyed by exactly the ids of the rows so far |
| ExcelLayout.NoGroupBeforeStart | ExcelIO.cs:110-118 | a producer no row has started yet has no products |
| ExcelLayout.GroupStep | ExcelIO.cs:110-118 | one row appends its product to its group producer's list and leaves the other lists alone |
| ExcelLayout.RowStep | ExcelIO.cs:110-118 | a row that reads, filed as the loop files it, carries every roster fact from the rows before it to one more row |
| ExcelLayout.ReadRosterRow | ExcelIO.cs:110-118 | one loop pass fails exactly when the roster is unreadable at that row, and otherwise the registry holds what the rows so far leave |
| ExcelLayout.ReadProducers | ExcelIO.cs:97-126 | the roster read succeeds exactly when the roster is readable, and fails for want of a producer exactly when the first row has none; on success there is one producer per starting row and one claim per row, keyed by exactly their ids, each product claimed by its group's producer, each producer's list its group's products in row order, and all registry invariants hold |

## Left out

- Excel automation is not modelled: opening and saving workbooks, releasing COM objects and `Dispose`. The row range comes from `End[xlDown]` and `Address`; the model takes the template's store keys and the roster's rows as inputs instead.
- A range `Copy` becomes a `CopyStatic` placement, a value written to a cell a `Put`, and `Interior.Color` a `Paint`. Cell formatting (`NumberFormat`, ExcelIO.cs:252-263) is left out.
- `DateTime.Now.ToShortDateString()` becomes the constant `DateStamp`, because the clock is outside the model.
- File reading is not modelled: the product list and the feed are given as sequences of lines.
- `Program.cs` is not part of this model, except for the start-up sequence that `LoadInputs` follows.
- The `#if DEBUG` console output is left out.
- `Debug.Assert(dummy != null)` becomes the error `NoProducerYet`; in a release build the source's null dereference would throw.
- `int.TryParse` is modelled for ASCII digits with an optional sign and surrounding whitespace. Culture-specific digits and signs are not modelled.
- DecimalText.ParseInt32: .NET's `int.TryParse` also accepts trailing NUL characters after the number (`"12\0"` parses as 12); the model rejects them.
- RawReading.RawReader.GetStoreProductEntries: the source returns a shallow copy, a new outer dictionary that shares the inner per-store dictionaries and the entries with the reader. The model returns the index as a value, so a caller's later changes to an inner dictionary, which the source would see in the reader, are not captured.
- Dynamic `Value2` conversions are not modelled. The roster's product cell is taken as text, and the template's store keys (`Convert.ToInt32`) are taken as integers.
- The extended static data copy (ExcelIO.cs:160-169 and 232-242) is left out, because `StaticDataFieldCountExtended` is the constant 0, so the branch never runs.
- ProducerRegistry.Producers.AddProducer: the registry files a copy of the producer's data rather than a reference to it. A caller that keeps the object does not see its later list changes. The source's `SetColour(Color.Empty)` on a removed producer object is not modelled either. Aliasing of registered producers is therefore not captured.
- ExcelLayout.WriteProductDataToStores: a colour lookup that throws aborts the whole report. The cells the source wrote before the exception are not kept in the result.
- ExcelLayout.ReadProducers: on a failure the contract does not say which row failed or what the registry then holds; the source's exception leaves that registry unreachable anyway.
- `ProductEntry.SetInfoFromRaw` becomes the pure function `ParseEntry`. The source object is thrown away on failure, so the partial updates made before the failing field are not observable.

## Findings

| source | as written | input that shows it | evidently intended | confidence | as-written member | corrected member |
|---|---|---|---|---|---|---|
| Producer.cs:151-155 | `RemoveProduct(producer, productID)` checks that the claimed owner equals `productID`; it never compares it with `producer` | producer 5 owns product 7; `RemoveProduct(5, 7)` is refused, claimed by 5 | the owner must equal `producer` | not executed | ProducerRegistry.RemoveOwnedProductAsWritten | ProducerRegistry.Producers.RemoveProductCorrected |
| Producer.cs:157 | `RemoveProduct` removes the product from the owner's list but never drops its entry in the claim map | producer 5 owns product 5; after `RemoveProduct(5, 5)` the list is empty but product 5 is still claimed, so it cannot be added again | the claim is dropped along with the list entry | not executed | ProducerRegistry.StaleClaim | ProducerRegistry.RemoveProductAsIntended |
