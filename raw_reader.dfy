/**
 * The two loaders of the tool: the product catalog (`productMapping.txt`, one
 * `<id>:<name>` definition per line) and the store index built from the
 * fixed-width inventory feed (`data.dat`). Files are taken as their lines.
 */
module RawReading {
  import opened Results
  import opened DecimalText
  import opened Products
  import opened ProductEntries

  const COMMENT_LINE: char := ';'

  /** Lines that begin with ';' are comments in the product list. */
  predicate IsComment(line: string)
  {
    |line| > 0 && line[0] == COMMENT_LINE
  }

  /**
   * `Dictionary<int, Product>`: the products by id, with `order` the order in
   * which the keys were added, which is the order the dictionary enumerates them in
   * (nothing is ever removed from it).
   */
  datatype Catalog = Catalog(order: seq<int>, products: map<int, ProductInfo>)

  const EMPTY_CATALOG: Catalog := Catalog([], map[])

  /** Keys listed once each, every product stored under its own id. */
  ghost predicate CatalogValid(c: Catalog)
  {
    && Distinct(c.order)
    && (forall k :: k in c.products <==> k in c.order)
    && (forall k :: k in c.products ==> c.products[k].id == k)
  }

  /** `_products.Add(dummy.ID, dummy)`. */
  function AddProduct(c: Catalog, p: ProductInfo): (r: Catalog)
    requires CatalogValid(c) && p.id !in c.products
    ensures CatalogValid(r)
    ensures r.order == c.order + [p.id]
  {
    Catalog(c.order + [p.id], c.products[p.id := p])
  }

  /** The errors the two loaders and the accessors throw. */
  datatype ReaderError =
    | BadDefinition(definitionError: ProductError)    // SetProductIDFromRaw threw
    | DuplicateProductId(id: int)                     // two definitions share an id
    | NoProducts                                      // ReadFile before a non-empty catalog
    | ProductSlotOutOfRange                           // line.Substring(8, 7) on a short line
    | ProductSlotUnparsable                           // the product slot is not an integer
    | BadEntry(entryError: EntryError)                // SetInfoFromRaw threw
    | DuplicateStoreProduct(store: int, product: int) // the pair is already indexed
    | NotLoaded                                       // the dictionary is still null

  /** Where loading a product list ends: the catalog built so far, the counter, the outcome. */
  datatype Loaded = Loaded(catalog: Catalog, counter: int, outcome: Outcome<ReaderError>)

  /**
   * One line of the loop of `ReadProducts`: a comment is skipped; otherwise the
   * definition is parsed, drawing a synthetic id if it declares a negative one,
   * and added unless its id is already in the catalog.
   */
  function LoadLine(c: Catalog, counter: int, line: string): (l: Loaded)
    requires CatalogValid(c)
    ensures CatalogValid(l.catalog)
  {
    if IsComment(line) then Loaded(c, counter, Pass)
    else
      var d := ParseDefinition(line, counter);
      match d.outcome
      case Failure(e) => Loaded(c, d.counter, Fail(BadDefinition(e)))
      case Success(p) =>
        if p.id in c.products then Loaded(c, d.counter, Fail(DuplicateProductId(p.id)))
        else Loaded(AddProduct(c, p), d.counter, Pass)
  }

  /**
   * The loop of `ReadProducts` from catalog `c`, with `counter` the synthetic-id
   * counter. On a failure the catalog keeps the products added before the
   * failing line, and the counter keeps any id that line drew.
   */
  function LoadLines(c: Catalog, counter: int, lines: seq<string>): (l: Loaded)
    requires CatalogValid(c)
    ensures CatalogValid(l.catalog)
    decreases |lines|
  {
    if lines == [] then Loaded(c, counter, Pass)
    else
      var first := LoadLine(c, counter, lines[0]);
      if first.outcome.Fail? then first else LoadLines(first.catalog, first.counter, lines[1..])
  }

  /** The definitions the non-comment lines give, in line order, and the final counter. */
  datatype Parsed = Parsed(defs: seq<ProductInfo>, counter: int)

  /** Reference reading of a product list: parse every non-comment line, with no catalog at all. */
  function ParseAll(lines: seq<string>, counter: int): Result<Parsed, ProductError>
    decreases |lines|
  {
    if lines == [] then Success(Parsed([], counter))
    else if IsComment(lines[0]) then ParseAll(lines[1..], counter)
    else
      var d := ParseDefinition(lines[0], counter);
      match d.outcome
      case Failure(e) => Failure(e)
      case Success(p) =>
        match ParseAll(lines[1..], d.counter)
        case Failure(e) => Failure(e)
        case Success(rest) => Success(Parsed([p] + rest.defs, rest.counter))
  }

  function Ids(defs: seq<ProductInfo>): (ids: seq<int>)
    ensures |ids| == |defs|
    ensures forall i :: 0 <= i < |defs| ==> ids[i] == defs[i].id
  {
    if defs == [] then [] else [defs[0].id] + Ids(defs[1..])
  }

  /** The catalog `c` with `defs` added one after the other. */
  function AddAll(c: Catalog, defs: seq<ProductInfo>): Catalog
    requires CatalogValid(c) && Distinct(c.order + Ids(defs))
    decreases |defs|
  {
    if defs == [] then c
    else
      FreshHead(c, defs);
      AddAll(AddProduct(c, defs[0]), defs[1..])
  }

  /** The first of a list of new distinct definitions can be added, and the rest stay new and distinct. */
  lemma FreshHead(c: Catalog, defs: seq<ProductInfo>)
    requires CatalogValid(c) && Distinct(c.order + Ids(defs)) && defs != []
    ensures defs[0].id !in c.products
    ensures Distinct(c.order + [defs[0].id] + Ids(defs[1..]))
  {
    var s := c.order + Ids(defs);
    assert s[|c.order|] == defs[0].id;
    forall k | 0 <= k < |c.order|
      ensures c.order[k] != defs[0].id
    {
      assert s[k] == c.order[k];
    }
    assert c.order + [defs[0].id] + Ids(defs[1..]) == s;
  }

  /** A duplicate between the catalog and the next definitions rules out a distinct id list. */
  lemma DuplicateNotDistinct(c: Catalog, p: ProductInfo, rest: seq<ProductInfo>)
    requires CatalogValid(c) && p.id in c.products
    ensures !Distinct(c.order + Ids([p] + rest))
  {
    var s := c.order + Ids([p] + rest);
    var k :| 0 <= k < |c.order| && c.order[k] == p.id;
    assert s[k] == s[|c.order|];
  }

  /** Adding one product moves its id from the pending ids onto the catalog's order. */
  lemma AddedIds(c: Catalog, p: ProductInfo, rest: seq<ProductInfo>)
    requires CatalogValid(c) && p.id !in c.products
    ensures c.order + Ids([p] + rest) == AddProduct(c, p).order + Ids(rest)
  {
    assert ([p] + rest)[1..] == rest;
    assert Ids([p] + rest) == [p.id] + Ids(rest);
  }

  /**
   * `ReadProducts` succeeds exactly when every non-comment line parses and the
   * ids they end up with (after synthetic ids are drawn) are pairwise distinct
   * and new; the catalog then holds one product per such line, in line order.
   */
  lemma {:induction false} LoadMatchesParseAll(c: Catalog, counter: int, lines: seq<string>)
    requires CatalogValid(c)
    decreases |lines|
    ensures var l := LoadLines(c, counter, lines);
            var pa := ParseAll(lines, counter);
            && (l.outcome.Pass? <==> pa.Success? && Distinct(c.order + Ids(pa.value.defs)))
            && (l.outcome.Pass? ==> l.catalog == AddAll(c, pa.value.defs) && l.counter == pa.value.counter)
  {
    if lines == [] {
      assert c.order + [] == c.order;
    } else if IsComment(lines[0]) {
      LoadMatchesParseAll(c, counter, lines[1..]);
    } else {
      var d := ParseDefinition(lines[0], counter);
      if d.outcome.Success? {
        var p := d.outcome.value;
        if p.id in c.products {
          if ParseAll(lines[1..], d.counter).Success? {
            DuplicateNotDistinct(c, p, ParseAll(lines[1..], d.counter).value.defs);
          }
        } else {
          var c1 := AddProduct(c, p);
          LoadMatchesParseAll(c1, d.counter, lines[1..]);
          var pa1 := ParseAll(lines[1..], d.counter);
          if pa1.Success? {
            AddedIds(c, p, pa1.value.defs);
          }
        }
      }
    }
  }

  /** Adding distinct definitions lists their ids after the catalog's own, in order. */
  lemma {:induction false} AddAllOrder(c: Catalog, defs: seq<ProductInfo>)
    requires CatalogValid(c) && Distinct(c.order + Ids(defs))
    decreases |defs|
    ensures CatalogValid(AddAll(c, defs))
    ensures AddAll(c, defs).order == c.order + Ids(defs)
  {
    if defs != [] {
      FreshHead(c, defs);
      AddedIds(c, defs[0], defs[1..]);
      assert [defs[0]] + defs[1..] == defs;
      AddAllOrder(AddProduct(c, defs[0]), defs[1..]);
    }
  }

  /** Adding distinct definitions stores each under its id and leaves the products already there alone. */
  lemma {:induction false} AddAllContents(c: Catalog, defs: seq<ProductInfo>)
    requires CatalogValid(c) && Distinct(c.order + Ids(defs))
    decreases |defs|
    ensures forall i :: 0 <= i < |defs| ==>
              defs[i].id in AddAll(c, defs).products && AddAll(c, defs).products[defs[i].id] == defs[i]
    ensures forall k :: k in c.products ==> k in AddAll(c, defs).products && AddAll(c, defs).products[k] == c.products[k]
  {
    if defs != [] {
      FreshHead(c, defs);
      var c1 := AddProduct(c, defs[0]);
      AddAllContents(c1, defs[1..]);
      forall i | 0 <= i < |defs|
        ensures defs[i].id in AddAll(c, defs).products && AddAll(c, defs).products[defs[i].id] == defs[i]
      {
        if i > 0 {
          assert defs[i] == defs[1..][i - 1];
        }
      }
    }
  }

  /** A comment line is skipped, but an empty line is a definition, and a malformed one. */
  lemma EmptyLineFailsLoad(c: Catalog, counter: int, rest: seq<string>)
    requires CatalogValid(c)
    ensures LoadLines(c, counter, [""] + rest) == Loaded(c, counter, Fail(BadDefinition(MalformedId)))
  {
    EmptyLineMalformed(counter);
  }

  /** A load stops at the first failing line: lines after it are never read. */
  lemma {:induction false} LoadStopsAtFailure(c: Catalog, counter: int, lines: seq<string>, more: seq<string>)
    requires CatalogValid(c) && LoadLines(c, counter, lines).outcome.Fail?
    ensures LoadLines(c, counter, lines + more) == LoadLines(c, counter, lines)
    decreases |lines|
  {
    assert lines != [];
    assert (lines + more)[0] == lines[0];
    assert (lines + more)[1..] == lines[1..] + more;
    var first := LoadLine(c, counter, lines[0]);
    if first.outcome.Pass? {
      LoadStopsAtFailure(first.catalog, first.counter, lines[1..], more);
    }
  }

  /** `Dictionary<int, Dictionary<int, ProductEntry>>`: store id, then product id, to entry. */
  type StoreIndex = map<int, map<int, ProductEntry>>

  /** Where indexing a feed ends: the index built so far and the outcome. */
  datatype Indexed = Indexed(index: StoreIndex, outcome: Outcome<ReaderError>)

  /**
   * Files an accepted entry: the store's map is created if it is missing, then
   * the entry is added under its product id, unless that pair is already filed.
   */
  function FileEntry(m: StoreIndex, e: ProductEntry): Indexed
  {
    var m1 := if e.storeId in m then m else m[e.storeId := map[]];
    if e.productId in m1[e.storeId] then Indexed(m1, Fail(DuplicateStoreProduct(e.storeId, e.productId)))
    else Indexed(m1[e.storeId := m1[e.storeId][e.productId := e]], Pass)
  }

  /** One line of the loop of `ReadFile`: skipped (None), filed, or the error it throws. */
  function IndexLine(m: StoreIndex, products: map<int, ProductInfo>, line: string): Option<Indexed>
  {
    if |line| < 15 then Some(Indexed(m, Fail(ProductSlotOutOfRange)))
    else match ParseInt32(line[8..15])
    case None => Some(Indexed(m, Fail(ProductSlotUnparsable)))
    case Some(pid) =>
      if pid !in products then None
      else match ParseEntry(line)
      case Failure(e) => Some(Indexed(m, Fail(BadEntry(e))))
      case Success(entry) => Some(FileEntry(m, entry))
  }

  /** The loop of `ReadFile` over `lines`, starting from the index `m`. */
  function IndexLines(m: StoreIndex, products: map<int, ProductInfo>, lines: seq<string>): Indexed
    decreases |lines|
  {
    if lines == [] then Indexed(m, Pass)
    else match IndexLine(m, products, lines[0])
    case None => IndexLines(m, products, lines[1..])
    case Some(step) =>
      if step.outcome.Fail? then step else IndexLines(step.index, products, lines[1..])
  }

  /** Every indexed entry sits under its own store and product id, and that product is in the catalog. */
  predicate WellKeyed(m: StoreIndex, products: map<int, ProductInfo>)
  {
    forall s :: s in m ==> forall p :: p in m[s] ==> m[s][p].storeId == s && m[s][p].productId == p && p in products
  }

  lemma WellKeyedAt(m: StoreIndex, products: map<int, ProductInfo>, s: int, p: int)
    requires WellKeyed(m, products) && s in m && p in m[s]
    ensures m[s][p].storeId == s && m[s][p].productId == p && p in products
  {
  }

  /** Everything in `m` is still in `m'`, unchanged. */
  predicate Extends(m: StoreIndex, m': StoreIndex)
  {
    forall s :: s in m ==> s in m' && forall p :: p in m[s] ==> p in m'[s] && m'[s][p] == m[s][p]
  }

  /**
   * A second entry for a filed (store, product) pair fails and changes nothing,
   * even the empty store map the source creates first; otherwise exactly that
   * entry is added.
   */
  lemma FileEntryEffect(m: StoreIndex, e: ProductEntry)
    ensures var r := FileEntry(m, e);
            && (r.outcome.Fail? <==> e.storeId in m && e.productId in m[e.storeId])
            && (r.outcome.Fail? ==> r.index == m)
            && (r.outcome.Pass? ==> r.index == m[e.storeId := (if e.storeId in m then m[e.storeId] else map[])[e.productId := e]])
  {
  }

  /** Filing an entry of a catalog product keeps the index well keyed and loses nothing. */
  lemma FileEntryGrows(m: StoreIndex, products: map<int, ProductInfo>, e: ProductEntry)
    requires WellKeyed(m, products) && e.productId in products
    ensures WellKeyed(FileEntry(m, e).index, products)
    ensures Extends(m, FileEntry(m, e).index)
  {
    FileEntryEffect(m, e);
    var r: StoreIndex := FileEntry(m, e).index;
    forall s: int, p: int | s in r && p in r[s]
      ensures r[s][p].storeId == s && r[s][p].productId == p && p in products
    {
      if FileEntry(m, e).outcome.Fail? {
        assert r == m;
        WellKeyedAt(m, products, s, p);
        assert r[s][p].storeId == s;
        assert r[s][p].productId == p;
      } else if s == e.storeId && p == e.productId {
        assert r[s][p] == e;
        assert r[s][p].storeId == s;
        assert r[s][p].productId == p;
      } else {
        assert s in m && p in m[s] && r[s][p] == m[s][p];
        WellKeyedAt(m, products, s, p);
        assert r[s][p].storeId == s;
        assert r[s][p].productId == p;
      }
    }
  }

  /**
   * One line: the product slot is read first; a line whose product id is not
   * in the catalog is skipped whatever its other fields hold; a line of a
   * catalog product fails with its parse error, or files the entry it parses
   * to. A failing line leaves the index as it was.
   */
  lemma IndexLineEffect(m: StoreIndex, products: map<int, ProductInfo>, line: string)
    ensures var r := IndexLine(m, products, line);
            && (r.None? <==> |line| >= 15 && ParseInt32(line[8..15]).Some? && ParseInt32(line[8..15]).value !in products)
            && (|line| < 15 ==> r == Some(Indexed(m, Fail(ProductSlotOutOfRange))))
            && (|line| >= 15 && ParseInt32(line[8..15]).None? ==> r == Some(Indexed(m, Fail(ProductSlotUnparsable))))
            && (|line| >= 15 && ParseInt32(line[8..15]).Some? && ParseInt32(line[8..15]).value in products ==>
                  && (ParseEntry(line).Failure? ==> r == Some(Indexed(m, Fail(BadEntry(ParseEntry(line).error)))))
                  && (ParseEntry(line).Success? ==>
                        && ParseEntry(line).value.productId == ParseInt32(line[8..15]).value
                        && r == Some(FileEntry(m, ParseEntry(line).value))))
            && (r.Some? && r.value.outcome.Fail? ==> r.value.index == m)
  {
    if |line| >= 15 && ParseInt32(line[8..15]).Some? && ParseInt32(line[8..15]).value in products
       && ParseEntry(line).Success? {
      FileEntryEffect(m, ParseEntry(line).value);
    }
  }

  /** Indexing keeps every entry where it is filed, and only ever adds. */
  lemma {:induction false} IndexLinesGrows(m: StoreIndex, products: map<int, ProductInfo>, lines: seq<string>)
    requires WellKeyed(m, products)
    ensures WellKeyed(IndexLines(m, products, lines).index, products)
    ensures Extends(m, IndexLines(m, products, lines).index)
    decreases |lines|
  {
    if lines != [] {
      IndexLineEffect(m, products, lines[0]);
      var r := IndexLine(m, products, lines[0]);
      if r.None? {
        IndexLinesGrows(m, products, lines[1..]);
      } else if r.value.index != m {
        var e := ParseEntry(lines[0]).value;
        FileEntryGrows(m, products, e);
        if r.value.outcome.Pass? {
          IndexLinesGrows(r.value.index, products, lines[1..]);
          ExtendsTransitive(m, r.value.index, IndexLines(r.value.index, products, lines[1..]).index);
        }
      } else if r.value.outcome.Pass? {
        IndexLinesGrows(m, products, lines[1..]);
      }
    }
  }

  lemma ExtendsTransitive(a: StoreIndex, b: StoreIndex, c: StoreIndex)
    requires Extends(a, b) && Extends(b, c)
    ensures Extends(a, c)
  {
  }

  /**
   * A failure midway leaves exactly what the lines before the failing one built:
   * the failing line adds nothing, nor does any line after it.
   */
  lemma {:induction false} IndexFailureKeepsPrefix(m: StoreIndex, products: map<int, ProductInfo>, lines: seq<string>)
    requires IndexLines(m, products, lines).outcome.Fail?
    ensures exists k :: 0 <= k < |lines| &&
              IndexLines(m, products, lines[..k]) == Indexed(IndexLines(m, products, lines).index, Pass)
    decreases |lines|
  {
    IndexLineEffect(m, products, lines[0]);
    var r := IndexLine(m, products, lines[0]);
    assert lines[..0] == [];
    if r.Some? && r.value.outcome.Fail? {
      assert IndexLines(m, products, lines[..0]) == Indexed(IndexLines(m, products, lines).index, Pass);
    } else {
      var m1 := if r.None? then m else r.value.index;
      IndexFailureKeepsPrefix(m1, products, lines[1..]);
      var k :| 0 <= k < |lines[1..]| &&
               IndexLines(m1, products, lines[1..][..k]) == Indexed(IndexLines(m1, products, lines[1..]).index, Pass);
      var pre := lines[..k + 1];
      assert pre[0] == lines[0] && pre[1..] == lines[1..][..k];
      assert IndexLines(m, products, pre) == IndexLines(m1, products, lines[1..][..k]);
    }
  }

  /** Two `ReadFile` calls in a row index what one call over both files would. */
  lemma {:induction false} IndexLinesAppend(m: StoreIndex, products: map<int, ProductInfo>, a: seq<string>, b: seq<string>)
    ensures var first := IndexLines(m, products, a);
            IndexLines(m, products, a + b) ==
              if first.outcome.Fail? then first else IndexLines(first.index, products, b)
    decreases |a|
  {
    if a == [] {
      assert a + b == b;
    } else {
      assert (a + b)[0] == a[0];
      assert (a + b)[1..] == a[1..] + b;
      var r := IndexLine(m, products, a[0]);
      if r.None? {
        IndexLinesAppend(m, products, a[1..], b);
      } else if r.value.outcome.Pass? {
        IndexLinesAppend(r.value.index, products, a[1..], b);
      }
    }
  }

  /** `RawReader`: the catalog and the store index, both null until first loaded. */
  class RawReader {
    var catalog: Option<Catalog>
    var storeProductPair: Option<StoreIndex>

    ghost predicate Valid()
      reads this
    {
      catalog.Some? ==> CatalogValid(catalog.value)
    }

    constructor ()
      ensures Valid() && catalog == None && storeProductPair == None
    {
      catalog := None;
      storeProductPair := None;
    }

    /**
     * `ReadProducts`: starts a new catalog and adds every non-comment line of the
     * product list; the first bad or duplicate definition aborts the load.
     */
    method ReadProducts(lines: seq<string>, fake: FakeIdCounter) returns (outcome: Outcome<ReaderError>)
      requires fake.Valid()
      modifies this, fake
      ensures Valid() && fake.Valid()
      ensures var l := LoadLines(EMPTY_CATALOG, old(fake.last), lines);
              catalog == Some(l.catalog) && fake.last == l.counter && outcome == l.outcome
      ensures storeProductPair == old(storeProductPair)
    {
      var c := EMPTY_CATALOG;
      catalog := Some(c);
      var i := 0;
      while i < |lines|
        invariant 0 <= i <= |lines|
        invariant fake.Valid() && CatalogValid(c) && catalog == Some(c)
        invariant storeProductPair == old(storeProductPair)
        invariant LoadLines(c, fake.last, lines[i..]) == LoadLines(EMPTY_CATALOG, old(fake.last), lines)
      {
        var l := ReadProductLine(c, lines[i], fake);
        assert lines[i..][0] == lines[i] && lines[i..][1..] == lines[i + 1..];
        c := l.catalog;
        catalog := Some(c);
        if l.outcome.Fail? {
          return l.outcome;
        }
        i := i + 1;
      }
      outcome := Pass;
    }

    /** The body of the loop of `ReadProducts`, for one line `t`. */
    method ReadProductLine(c: Catalog, t: string, fake: FakeIdCounter) returns (l: Loaded)
      requires fake.Valid() && CatalogValid(c)
      modifies fake
      ensures fake.Valid()
      ensures l == LoadLine(c, old(fake.last), t) && fake.last == l.counter
    {
      if IsComment(t) {
        return Loaded(c, fake.last, Pass);
      }
      var dummy := new Product();
      var parsed := dummy.SetProductIdFromRaw(t, fake);
      if parsed.Fail? {
        return Loaded(c, fake.last, Fail(BadDefinition(parsed.error)));
      }
      var p := dummy.Info();
      if p.id in c.products {
        return Loaded(c, fake.last, Fail(DuplicateProductId(p.id)));
      }
      l := Loaded(AddProduct(c, p), fake.last, Pass);
    }

    /**
     * `ReadFile`: adds the feed's entries for catalog products to the store
     * index, creating the index on first use.
     */
    method ReadFile(lines: seq<string>) returns (outcome: Outcome<ReaderError>)
      requires Valid()
      modifies this
      ensures Valid() && catalog == old(catalog)
      ensures var start := if old(storeProductPair).Some? then old(storeProductPair).value else map[];
              if catalog.None? || |catalog.value.products| == 0 then
                storeProductPair == Some(start) && outcome == Fail(NoProducts)
              else
                var r := IndexLines(start, catalog.value.products, lines);
                storeProductPair == Some(r.index) && outcome == r.outcome
    {
      if storeProductPair.None? {
        storeProductPair := Some(map[]);
      }
      if catalog.None? || |catalog.value.products| == 0 {
        return Fail(NoProducts);
      }
      var products := catalog.value.products;
      var m := storeProductPair.value;
      var i := 0;
      while i < |lines|
        invariant 0 <= i <= |lines|
        invariant catalog == old(catalog) && storeProductPair == Some(m)
        invariant IndexLines(m, products, lines[i..])
               == IndexLines(if old(storeProductPair).Some? then old(storeProductPair).value else map[], products, lines)
      {
        var line := lines[i];
        assert lines[i..][0] == line && lines[i..][1..] == lines[i + 1..];
        if |line| < 15 {
          return Fail(ProductSlotOutOfRange);
        }
        var pid := ParseInt32(line[8..15]);
        if pid.None? {
          return Fail(ProductSlotUnparsable);
        }
        if pid.value !in products {
          i := i + 1;
          continue;
        }
        var entry := ParseEntry(line);
        if entry.Failure? {
          return Fail(BadEntry(entry.error));
        }
        var e := entry.value;
        if e.storeId !in m {
          m := m[e.storeId := map[]];
          storeProductPair := Some(m);
        }
        if e.productId in m[e.storeId] {
          return Fail(DuplicateStoreProduct(e.storeId, e.productId));
        }
        m := m[e.storeId := m[e.storeId][e.productId := e]];
        storeProductPair := Some(m);
        i := i + 1;
      }
      outcome := Pass;
    }

    /** `ResetStoreProductPairs`: empties the index; on a null index `Clear` throws. */
    method ResetStoreProductPairs() returns (outcome: Outcome<ReaderError>)
      modifies this
      ensures catalog == old(catalog)
      ensures old(storeProductPair).None? ==> outcome == Fail(NotLoaded) && storeProductPair == None
      ensures old(storeProductPair).Some? ==> outcome == Pass && storeProductPair == Some(map[])
    {
      if storeProductPair.None? {
        return Fail(NotLoaded);
      }
      storeProductPair := Some(map[]);
      outcome := Pass;
    }

    /**
     * `GetStoreProductEntries`: a new outer dictionary over the reader's
     * per-store maps. A reset, which clears only the outer dictionary, does not
     * reach what was returned; the index is a value here, so the shared
     * per-store maps are not modelled.
     */
    method GetStoreProductEntries() returns (r: Result<StoreIndex, ReaderError>)
      ensures storeProductPair.None? <==> r == Failure(NotLoaded)
      ensures storeProductPair.Some? ==> r == Success(storeProductPair.value)
    {
      if storeProductPair.None? {
        return Failure(NotLoaded);
      }
      r := Success(storeProductPair.value);
    }

    /** `GetProducts`: a copy of the catalog. */
    method GetProducts() returns (r: Result<Catalog, ReaderError>)
      ensures catalog.None? <==> r == Failure(NotLoaded)
      ensures catalog.Some? ==> r == Success(catalog.value)
    {
      if catalog.None? {
        return Failure(NotLoaded);
      }
      r := Success(catalog.value);
    }
  }

  /** The catalog and the store index the start-up sequence hands to the report writer. */
  datatype Inputs = Inputs(catalog: Catalog, index: StoreIndex)

  /**
   * The start-up sequence of the program: read the product list, read the feed,
   * take copies of both, then reset the reader's index. The copies keep what was
   * read although the reset empties the reader's own index.
   */
  method LoadInputs(productLines: seq<string>, feedLines: seq<string>) returns (r: Result<Inputs, ReaderError>)
    ensures var l := LoadLines(EMPTY_CATALOG, 0, productLines);
            if l.outcome.Fail? then r == Failure(l.outcome.error)
            else if |l.catalog.products| == 0 then r == Failure(NoProducts)
            else
              var x := IndexLines(map[], l.catalog.products, feedLines);
              r == if x.outcome.Fail? then Failure(x.outcome.error) else Success(Inputs(l.catalog, x.index))
  {
    var fake := new FakeIdCounter();
    var reader := new RawReader();
    var loaded := reader.ReadProducts(productLines, fake);
    if loaded.Fail? {
      return Failure(loaded.error);
    }
    var read := reader.ReadFile(feedLines);
    if read.Fail? {
      return Failure(read.error);
    }
    var index := reader.GetStoreProductEntries();
    var catalog := reader.GetProducts();
    var reset := reader.ResetStoreProductPairs();
    assert reset == Pass && reader.storeProductPair == Some(map[]);
    r := Success(Inputs(catalog.value, index.value));
  }
}
