/**
 * The producer registry: producers by id, the product -> producer claims, and
 * the stack of display colours handed out to producers and taken back.
 */
module ProducerRegistry {
  import opened Results
  import opened DecimalText
  import opened Products

  /** `System.Drawing.Color`: `Color.Empty` and the colours the registry hands out. */
  datatype Colour =
    | Empty
    | DarkTurquoise | DarkSeaGreen | DarkViolet | DarkSalmon | DarkKhaki | DarkGray | Cyan
    | DeepPink | GreenYellow | MediumPurple | RosyBrown | Tomato | Aquamarine | ForestGreen
    | Blue | DeepSkyBlue | Khaki | DarkOrange | Gold | Green | LightCoral | LightGreen
    | LightSeaGreen | MediumOrchid | OrangeRed | MediumSpringGreen | PaleVioletRed

  /** The colour the constructor pushes `n`-th, counting from 1. */
  function PushedAt(n: int): Colour
  {
    if n == 1 then DarkTurquoise else if n == 2 then DarkSeaGreen else if n == 3 then DarkViolet
    else if n == 4 then DarkSalmon else if n == 5 then DarkKhaki else if n == 6 then DarkGray
    else if n == 7 then Cyan else if n == 8 then DeepPink else if n == 9 then GreenYellow
    else if n == 10 then MediumPurple else if n == 11 then RosyBrown else if n == 12 then Tomato
    else if n == 13 then Aquamarine else if n == 14 then ForestGreen else if n == 15 then Blue
    else if n == 16 then DeepSkyBlue else if n == 17 then Khaki else if n == 18 then DarkOrange
    else if n == 19 then Gold else if n == 20 then Green else if n == 21 then LightCoral
    else if n == 22 then LightGreen else if n == 23 then LightSeaGreen else if n == 24 then MediumOrchid
    else if n == 25 then OrangeRed else if n == 26 then MediumSpringGreen else if n == 27 then PaleVioletRed
    else Empty
  }

  /** The position of a colour in the push order, counting from 1; `Empty` is 0. */
  function PushRank(c: Colour): nat
  {
    match c
    case Empty => 0
    case DarkTurquoise => 1 case DarkSeaGreen => 2 case DarkViolet => 3 case DarkSalmon => 4
    case DarkKhaki => 5 case DarkGray => 6 case Cyan => 7 case DeepPink => 8
    case GreenYellow => 9 case MediumPurple => 10 case RosyBrown => 11 case Tomato => 12
    case Aquamarine => 13 case ForestGreen => 14 case Blue => 15 case DeepSkyBlue => 16
    case Khaki => 17 case DarkOrange => 18 case Gold => 19 case Green => 20
    case LightCoral => 21 case LightGreen => 22 case LightSeaGreen => 23 case MediumOrchid => 24
    case OrangeRed => 25 case MediumSpringGreen => 26 case PaleVioletRed => 27
  }

  /** The colour stack of a new registry, bottom first, in the order the constructor pushes it. */
  const PALETTE_SIZE: nat := 27
  const PALETTE: seq<Colour> := seq(PALETTE_SIZE, i => PushedAt(i + 1))

  /** Ranks and positions are inverse: each push position holds one colour, and each colour but `Empty` has one. */
  lemma RanksInvert(c: Colour, n: int)
    ensures 1 <= n <= 27 ==> PushRank(PushedAt(n)) == n
    ensures c != Empty ==> 1 <= PushRank(c) <= 27 && PushedAt(PushRank(c)) == c
  {
  }

  /**
   * The palette: 27 pairwise distinct colours, every colour but `Empty`, with
   * PaleVioletRed on top, so the first producer added gets it.
   */
  lemma PaletteColours()
    ensures |PALETTE| == 27 && PALETTE[26] == PaleVioletRed
    ensures Distinct(PALETTE) && Empty !in PALETTE
    ensures forall c :: c != Empty ==> c in PALETTE
  {
    forall i, j | 0 <= i < j < |PALETTE|
      ensures PALETTE[i] != PALETTE[j]
    {
      RanksInvert(Empty, i + 1);
      RanksInvert(Empty, j + 1);
    }
    forall i | 0 <= i < |PALETTE|
      ensures PALETTE[i] != Empty
    {
      RanksInvert(Empty, i + 1);
    }
    forall c | c != Empty
      ensures c in PALETTE
    {
      RanksInvert(c, 0);
      assert PALETTE[PushRank(c) - 1] == c;
    }
  }

  /** The errors the registry and `ParseFromString` throw. */
  datatype RegistryError =
    | MalformedText(text: string)                    // no space in the text
    | UnparsableId(text: string)                     // the text before the space is not an integer
    | DuplicateProducerId(producer: int)             // the id is registered already
    | ColourAlreadyAssigned                          // the producer still holds a colour
    | PaletteExhausted                               // no colour left on the stack
    | ProductAlreadyClaimed(product: int, owner: int) // another claim exists
    | UnknownProducer(producer: int)                 // `_producers[id]` on a missing id
    | UnclaimedProduct(product: int)                 // no producer owns the product
    | ClaimedByOther(product: int, owner: int)       // the owner found is not the one expected

  /** `raw.IndexOf(' ')` and `int.TryParse` of what precedes it: the id and the rest of `<int> <rest>`. */
  function SplitId(raw: string): Result<(int, string), RegistryError>
  {
    match IndexOf(raw, ' ')
    case None => Failure(MalformedText(raw))
    case Some(i) =>
      match ParseInt32(raw[..i])
      case None => Failure(UnparsableId(raw[..i]))
      case Some(v) => Success((v, raw[i + 1..]))
  }

  /** The text is cut at its first space; no space, or no integer before it, is an error. */
  lemma SplitIdCases(raw: string)
    ensures ' ' !in raw ==> SplitId(raw) == Failure(MalformedText(raw))
    ensures forall i :: 0 <= i < |raw| && raw[i] == ' ' && ' ' !in raw[..i] ==>
              SplitId(raw) == match ParseInt32(raw[..i])
                              case None => Failure(UnparsableId(raw[..i]))
                              case Some(v) => Success((v, raw[i + 1..]))
  {
    forall i | 0 <= i < |raw| && raw[i] == ' ' && ' ' !in raw[..i]
      ensures SplitId(raw) == match ParseInt32(raw[..i])
                              case None => Failure(UnparsableId(raw[..i]))
                              case Some(v) => Success((v, raw[i + 1..]))
    {
      FirstSpaceAt(raw, i);
    }
  }

  /** A space with none before it is the one `IndexOf` finds. */
  lemma FirstSpaceAt(raw: string, i: int)
    requires 0 <= i < |raw| && raw[i] == ' ' && ' ' !in raw[..i]
    ensures IndexOf(raw, ' ') == Some(i)
  {
    assert raw == raw[..i] + [' '] + raw[i + 1..];
    IndexOfAfter(raw[..i], ' ', raw[i + 1..]);
  }

  /** Writing an id, a space and any text gives back exactly that id and that text. */
  lemma SplitWrittenId(v: int, rest: string)
    requires MIN_INT32 <= v <= MAX_INT32
    ensures SplitId(SignedDecimal(v) + " " + rest) == Success((v, rest))
  {
    var text := SignedDecimal(v);
    assert ' ' !in text by {
      var digits := if v < 0 then Decimal(-v) else Decimal(v);
      AllDigitsEach(digits);
      assert text == (if v < 0 then "-" else "") + digits;
    }
    IndexOfAfter(text, ' ', rest);
    var raw := text + " " + rest;
    assert raw[..|text|] == text && raw[|text| + 1..] == rest;
    ParseSignedDecimal(v);
  }

  /** `List<int>.Remove(x)`: the first occurrence of `x` is dropped, if there is one. */
  function RemoveFirst(s: seq<int>, x: int): seq<int>
    decreases |s|
  {
    if s == [] then []
    else if s[0] == x then s[1..]
    else [s[0]] + RemoveFirst(s[1..], x)
  }

  /** The position of the first occurrence of `x` in `s`. */
  function FirstIndex(s: seq<int>, x: int): (i: nat)
    requires x in s
    ensures i < |s| && s[i] == x && x !in s[..i]
    decreases |s|
  {
    if s[0] == x then 0
    else
      var j := FirstIndex(s[1..], x);
      assert s[..j + 1] == [s[0]] + s[1..][..j];
      j + 1
  }

  /** The first occurrence of `x` is the one removed, and the elements before and after it keep their order. */
  lemma {:induction false} RemoveFirstAt(s: seq<int>, x: int)
    requires x in s
    ensures RemoveFirst(s, x) == s[..FirstIndex(s, x)] + s[FirstIndex(s, x) + 1..]
    decreases |s|
  {
    var t := s[1..];
    if s[0] != x {
      assert x in t by {
        assert s == [s[0]] + t;
      }
      var j := FirstIndex(t, x);
      RemoveFirstAt(t, x);
      assert FirstIndex(s, x) == j + 1;
      assert RemoveFirst(s, x) == [s[0]] + RemoveFirst(t, x);
      assert [s[0]] + t[..j] == s[..j + 1];
      assert t[j + 1..] == s[j + 2..];
    } else {
      assert FirstIndex(s, x) == 0;
    }
  }

  /** Removing takes away one occurrence of `x` and nothing else, or changes nothing when there is none. */
  lemma {:induction false} RemoveFirstEffect(s: seq<int>, x: int)
    ensures x !in s ==> RemoveFirst(s, x) == s
    ensures x in s ==> |RemoveFirst(s, x)| == |s| - 1 && multiset(RemoveFirst(s, x)) == multiset(s) - multiset{x}
    decreases |s|
  {
    if s != [] && s[0] != x {
      RemoveFirstEffect(s[1..], x);
      assert s == [s[0]] + s[1..];
    } else if s != [] {
      assert s == [s[0]] + s[1..];
    }
  }

  /** In a list without repeats, removing `x` leaves exactly the other elements, still without repeats. */
  lemma {:induction false} RemoveFirstDistinct(s: seq<int>, x: int)
    requires Distinct(s)
    ensures Distinct(RemoveFirst(s, x))
    ensures forall q :: q in RemoveFirst(s, x) <==> q in s && q != x
    decreases |s|
  {
    if s != [] {
      assert Distinct(s[1..]) by {
        forall i, j | 0 <= i < j < |s[1..]|
          ensures s[1..][i] != s[1..][j]
        {
          assert s[1..][i] == s[i + 1] && s[1..][j] == s[j + 1];
        }
      }
      assert s[0] !in s[1..] by {
        forall i | 0 <= i < |s[1..]|
          ensures s[1..][i] != s[0]
        {
          assert s[1..][i] == s[i + 1];
        }
      }
      if s[0] != x {
        RemoveFirstDistinct(s[1..], x);
        var r := RemoveFirst(s, x);
        forall i, j | 0 <= i < j < |r|
          ensures r[i] != r[j]
        {
          if i > 0 {
            assert r[i] == RemoveFirst(s[1..], x)[i - 1];
          }
          assert r[j] == RemoveFirst(s[1..], x)[j - 1];
        }
      }
    }
  }

  /** One producer: id, name, the products it owns in claim order, and its display colour. */
  class Producer {
    var id: int
    var name: Option<string>
    var products: seq<int>
    var displayColour: Colour

    /** `new Producer()`: id 0, a null Name, no colour. */
    constructor Blank()
      ensures id == 0 && name == None && products == [] && displayColour == Empty
    {
      id := 0;
      name := None;
      products := [];
      displayColour := Empty;
    }

    /** `new Producer(id, name, displayColour)`; the two-argument form passes `Empty`. */
    constructor (id: int, name: Option<string>, displayColour: Colour)
      ensures this.id == id && this.name == name && products == [] && this.displayColour == displayColour
    {
      this.id := id;
      this.name := name;
      products := [];
      this.displayColour := displayColour;
    }

    /** `ParseFromString`: `<id> <name>`; on an error nothing is assigned. */
    method ParseFromString(raw: string) returns (outcome: Outcome<RegistryError>)
      modifies this
      ensures products == old(products) && displayColour == old(displayColour)
      ensures SplitId(raw).Failure? ==> outcome == Fail(SplitId(raw).error) && id == old(id) && name == old(name)
      ensures SplitId(raw).Success? ==>
                outcome == Pass && id == SplitId(raw).value.0 && name == Some(SplitId(raw).value.1)
    {
      var idEnd := IndexOf(raw, ' ');
      if idEnd.None? {
        return Fail(MalformedText(raw));
      }
      var pid := ParseInt32(raw[..idEnd.value]);
      if pid.None? {
        return Fail(UnparsableId(raw[..idEnd.value]));
      }
      id := pid.value;
      name := Some(raw[idEnd.value + 1..]);
      outcome := Pass;
    }

    method SetColour(col: Colour)
      modifies this
      ensures displayColour == col
      ensures id == old(id) && name == old(name) && products == old(products)
    {
      displayColour := col;
    }

    /** `_products.Add(id)`: appended at the end, repeats allowed. */
    method AddProduct(productId: int)
      modifies this
      ensures products == old(products) + [productId]
      ensures id == old(id) && name == old(name) && displayColour == old(displayColour)
    {
      products := products + [productId];
    }

    /** `_products.Remove(id)`: the first occurrence goes, a missing id is ignored. */
    method RemoveProduct(productId: int)
      modifies this
      ensures products == RemoveFirst(old(products), productId)
      ensures id == old(id) && name == old(name) && displayColour == old(displayColour)
    {
      products := RemoveFirst(products, productId);
    }

    /** `GetProductIDs`: a copy of the list, which later changes to the producer do not reach. */
    method GetProductIds() returns (ids: seq<int>)
      ensures ids == products
    {
      ids := products;
    }

    /** The producer's fields, as a value. */
    function Info(): ProducerInfo
      reads this
    {
      ProducerInfo(id, name, products, displayColour)
    }

    /** `Clone`: id, name and colour are copied; the product list is not. */
    method Clone() returns (c: Producer)
      ensures fresh(c)
      ensures c.id == id && c.name == name && c.displayColour == displayColour && c.products == []
    {
      c := new Producer(id, name, displayColour);
    }
  }

  /** The elements of a product list, as a set. */
  function Elements(s: seq<int>): set<int>
  {
    set q | q in s
  }

  /** A registered producer's fields, as the registry files them. */
  datatype ProducerInfo = ProducerInfo(id: int, name: Option<string>, products: seq<int>, colour: Colour)

  /** Every producer is filed under its own id. */
  predicate Filed(producers: map<int, ProducerInfo>)
  {
    forall k :: k in producers ==> producers[k].id == k
  }

  /** Where a palette colour is: at a position of the stack, or held by a registered producer. */
  datatype Place = OnStack(index: int) | HeldBy(producer: int)

  /**
   * Colour conservation and uniqueness, with `places` a record of where each
   * colour is: every stacked or held colour has exactly one place (so none is
   * stacked twice, held twice, or both), none is `Empty`, and stack and
   * producers together account for the 27 palette colours.
   */
  predicate PaletteKept(available: seq<Colour>, producers: map<int, ProducerInfo>, places: map<Colour, Place>)
  {
    && |available| + |producers| == PALETTE_SIZE
    && Empty !in places
    && (forall i :: 0 <= i < |available| ==> available[i] in places && places[available[i]] == OnStack(i))
    && (forall k :: k in producers ==> producers[k].colour in places && places[producers[k].colour] == HeldBy(k))
  }

  /** What a kept palette means: the stack repeats no colour, no held colour is stacked or `Empty`, and no two producers share one. */
  lemma PaletteUnique(available: seq<Colour>, producers: map<int, ProducerInfo>, places: map<Colour, Place>)
    requires PaletteKept(available, producers, places)
    ensures Distinct(available) && Empty !in available
    ensures forall k :: k in producers ==> producers[k].colour != Empty && producers[k].colour !in available
    ensures forall j, k :: j in producers && k in producers && j != k ==> producers[j].colour != producers[k].colour
  {
    forall k, i | k in producers && 0 <= i < |available|
      ensures available[i] != producers[k].colour
    {
      assert places[available[i]] == OnStack(i);
    }
  }

  /** Every claim names a registered producer whose list holds the product. */
  predicate ClaimsListed(claimed: map<int, int>, producers: map<int, ProducerInfo>)
  {
    forall q :: q in claimed ==> claimed[q] in producers && q in producers[claimed[q]].products
  }

  /** Every listed product is listed once, and claimed by the producer that lists it. */
  predicate ListsClaimed(claimed: map<int, int>, producers: map<int, ProducerInfo>)
  {
    forall k :: k in producers ==>
      && Distinct(producers[k].products)
      && forall q :: q in producers[k].products ==> q in claimed && claimed[q] == k
  }

  /** Distinct push positions push distinct colours. */
  lemma PushesDistinct()
    ensures forall n, m :: 1 <= n <= 27 && 1 <= m <= 27 && PushedAt(n) == PushedAt(m) ==> n == m
  {
    forall n | 1 <= n <= 27
      ensures PushRank(PushedAt(n)) == n
    {
      RanksInvert(Empty, n);
    }
  }

  /** Where each colour of a new registry is: the `n`-th colour pushed is at position `n - 1` of the stack. */
  function FreshPlaces(): map<Colour, Place>
  {
    PushesDistinct();
    map n | 1 <= n <= PALETTE_SIZE :: PushedAt(n) := OnStack(n - 1)
  }

  /** The `n`-th colour pushed sits at position `n - 1`. */
  lemma FreshPlaceOf(n: int)
    requires 1 <= n <= PALETTE_SIZE
    ensures PALETTE[n - 1] == PushedAt(n)
    ensures PushedAt(n) in FreshPlaces() && FreshPlaces()[PushedAt(n)] == OnStack(n - 1)
  {
    PushesDistinct();
  }

  /** A new registry keeps the palette: every colour on the stack, none held. */
  lemma FreshPaletteKept()
    ensures PaletteKept(PALETTE, map[], FreshPlaces())
  {
    PaletteColours();
    var places := FreshPlaces();
    forall i | 0 <= i < |PALETTE|
      ensures PALETTE[i] in places && places[PALETTE[i]] == OnStack(i)
    {
      FreshPlaceOf(i + 1);
    }
    forall n | 1 <= n <= PALETTE_SIZE
      ensures PushedAt(n) != Empty
    {
      RanksInvert(Empty, n);
    }
    assert Empty !in places;
  }

  /** Popping the top colour for a newly registered producer `p` keeps the palette. */
  lemma PopKeepsPalette(available: seq<Colour>, producers: map<int, ProducerInfo>, places: map<Colour, Place>, p: ProducerInfo)
    requires PaletteKept(available, producers, places)
    requires p.id !in producers && available != [] && p.colour == available[|available| - 1]
    ensures PaletteKept(available[..|available| - 1], producers[p.id := p], places[p.colour := HeldBy(p.id)])
  {
    var rest := available[..|available| - 1];
    var places' := places[p.colour := HeldBy(p.id)];
    forall i | 0 <= i < |rest|
      ensures rest[i] in places' && places'[rest[i]] == OnStack(i)
    {
      assert rest[i] == available[i] && places[available[i]] == OnStack(i);
    }
    assert |producers[p.id := p]| == |producers| + 1;
  }

  /** Pushing back the colour of a leaving producer `k` keeps the palette. */
  lemma PushKeepsPalette(available: seq<Colour>, producers: map<int, ProducerInfo>, places: map<Colour, Place>, k: int)
    requires PaletteKept(available, producers, places) && k in producers
    ensures PaletteKept(available + [producers[k].colour], producers - {k},
                        places[producers[k].colour := OnStack(|available|)])
  {
    var c := producers[k].colour;
    var more := available + [c];
    var places' := places[c := OnStack(|available|)];
    forall i | 0 <= i < |more|
      ensures more[i] in places' && places'[more[i]] == OnStack(i)
    {
      if i < |available| {
        assert more[i] == available[i] && places[available[i]] == OnStack(i);
      }
    }
    assert |producers - {k}| == |producers| - 1;
  }

  /** Changing only the product list of producer `k` keeps the filing and the palette. */
  lemma RelistKeepsPalette(available: seq<Colour>, producers: map<int, ProducerInfo>, places: map<Colour, Place>, k: int, s: seq<int>)
    requires k in producers
    ensures Filed(producers) ==> Filed(producers[k := producers[k].(products := s)])
    ensures PaletteKept(available, producers, places) ==>
              PaletteKept(available, producers[k := producers[k].(products := s)], places)
  {
    assert |producers[k := producers[k].(products := s)]| == |producers|;
  }

  /** Registering producer `p` keeps every claim listed; it keeps every listing claimed only when `p` lists nothing yet. */
  lemma EnlistKeeps(claimed: map<int, int>, producers: map<int, ProducerInfo>, p: ProducerInfo)
    requires p.id !in producers
    ensures ClaimsListed(claimed, producers) ==> ClaimsListed(claimed, producers[p.id := p])
    ensures ListsClaimed(claimed, producers) && p.products == [] ==> ListsClaimed(claimed, producers[p.id := p])
    ensures ClaimsListed(claimed, producers) && p.products != [] ==> !ListsClaimed(claimed, producers[p.id := p])
  {
    if ClaimsListed(claimed, producers) && p.products != [] {
      var q := p.products[0];
      assert q in producers[p.id := p][p.id].products;
      if q in claimed {
        assert claimed[q] in producers;
      }
    }
  }

  /** Claiming unclaimed product `q` for registered producer `k`, and listing it last, keeps both directions. */
  lemma ClaimKeeps(claimed: map<int, int>, producers: map<int, ProducerInfo>, k: int, q: int)
    requires q !in claimed && k in producers
    ensures ClaimsListed(claimed, producers) ==>
              ClaimsListed(claimed[q := k], producers[k := producers[k].(products := producers[k].products + [q])])
    ensures ListsClaimed(claimed, producers) ==>
              ListsClaimed(claimed[q := k], producers[k := producers[k].(products := producers[k].products + [q])])
  {
    var old_ := producers[k].products;
    var s := old_ + [q];
    var producers' := producers[k := producers[k].(products := s)];
    if ListsClaimed(claimed, producers) {
      assert q !in old_;
      forall i, j | 0 <= i < j < |s|
        ensures s[i] != s[j]
      {
        if j < |old_| {
          assert s[i] == old_[i] && s[j] == old_[j];
        } else {
          assert s[i] == old_[i];
        }
      }
      forall j, p | j in producers' && p in producers'[j].products
        ensures p in claimed[q := k] && claimed[q := k][p] == j
      {
        if j == k && p !in old_ {
          assert p == q;
        }
      }
    }
  }

  /** Removing producer `k` together with every claim on its list keeps both directions. */
  lemma UnlistKeeps(claimed: map<int, int>, producers: map<int, ProducerInfo>, k: int)
    requires k in producers
    ensures ClaimsListed(claimed, producers) ==>
              ClaimsListed(claimed - Elements(producers[k].products), producers - {k})
    ensures ListsClaimed(claimed, producers) ==>
              ListsClaimed(claimed - Elements(producers[k].products), producers - {k})
  {
  }

  /** Releasing product `q` from its owner `k`, both from the list and from the claims, keeps both directions. */
  lemma ReleaseKeeps(claimed: map<int, int>, producers: map<int, ProducerInfo>, k: int, q: int)
    requires q in claimed && claimed[q] == k && k in producers && ListsClaimed(claimed, producers)
    ensures ListsClaimed(claimed - {q}, producers[k := producers[k].(products := RemoveFirst(producers[k].products, q))])
    ensures ClaimsListed(claimed, producers) ==>
              ClaimsListed(claimed - {q}, producers[k := producers[k].(products := RemoveFirst(producers[k].products, q))])
  {
    RemoveFirstDistinct(producers[k].products, q);
  }

  /** Taking product `q` off the list of its owner `k` while leaving the claim keeps every listing claimed. */
  lemma DelistKeeps(claimed: map<int, int>, producers: map<int, ProducerInfo>, k: int, q: int)
    requires k in producers
    ensures ListsClaimed(claimed, producers) ==>
              ListsClaimed(claimed, producers[k := producers[k].(products := RemoveFirst(producers[k].products, q))])
  {
    if ListsClaimed(claimed, producers) {
      RemoveFirstDistinct(producers[k].products, q);
    }
  }

  /**
   * What the source's `RemoveProduct` does to a product `q` owned by the
   * producer with the same id: the product leaves the list but the claim stays,
   * so that claim no longer names a list holding the product.
   */
  lemma StaleClaim(claimed: map<int, int>, producers: map<int, ProducerInfo>, q: int)
    requires q in claimed && claimed[q] == q && q in producers && Distinct(producers[q].products)
    ensures !ClaimsListed(claimed, producers[q := producers[q].(products := RemoveFirst(producers[q].products, q))])
  {
    RemoveFirstDistinct(producers[q].products, q);
  }

  /**
   * `Producers`: the registry. It files a copy of each registered producer's
   * fields (see `ProducerInfo`) rather than the caller's object.
   */
  class Producers {
    /** `_producers`: producer id to producer. */
    var producers: map<int, ProducerInfo>
    /** `_claimedProducts`: product id to the id of the producer that owns it. */
    var claimed: map<int, int>
    /** `_availableColours`, bottom first: the top of the stack is the last element. */
    var available: seq<Colour>
    /** Where each palette colour is. */
    ghost var places: map<Colour, Place>

    /** Producers are filed under their ids, and the palette is kept. */
    ghost predicate Valid()
      reads this
    {
      Filed(producers) && PaletteKept(available, producers, places)
    }

    /** Every claim is on its owner's list. */
    ghost predicate Owned()
      reads this
    {
      ClaimsListed(claimed, producers)
    }

    /** Every listed product is claimed by the producer listing it. */
    ghost predicate Indexed()
      reads this
    {
      ListsClaimed(claimed, producers)
    }

    /** A new registry: nobody registered, nothing claimed, the whole palette on the stack. */
    constructor ()
      ensures Valid() && Owned() && Indexed()
      ensures producers == map[] && claimed == map[] && available == PALETTE
    {
      producers := map[];
      claimed := map[];
      available := PALETTE;
      places := FreshPlaces();
      FreshPaletteKept();
    }

    /** `Count`. */
    function Count(): nat
      reads this
    {
      |producers|
    }

    /** `ProductCount`. */
    function ProductCount(): nat
      reads this
    {
      |claimed|
    }

    /** The stack runs empty exactly when 27 producers are registered, and the registered producers hold distinct colours. */
    lemma Exhaustion()
      requires Valid()
      ensures available == [] <==> Count() == PALETTE_SIZE
      ensures forall j, k :: j in producers && k in producers && j != k ==> producers[j].colour != producers[k].colour
    {
      PaletteUnique(available, producers, places);
    }

    /** `AddProducer`: the checks in the source's order, then the top colour is popped and given to `pd`. */
    method AddProducer(pd: Producer) returns (outcome: Outcome<RegistryError>)
      requires Valid()
      modifies this, pd
      ensures Valid()
      ensures old(pd.id) in old(producers) ==> outcome == Fail(DuplicateProducerId(old(pd.id)))
      ensures old(pd.id) !in old(producers) && old(pd.displayColour) != Empty ==> outcome == Fail(ColourAlreadyAssigned)
      ensures old(pd.id) !in old(producers) && old(pd.displayColour) == Empty && old(available) == [] ==>
                outcome == Fail(PaletteExhausted)
      ensures old(pd.id) !in old(producers) && old(pd.displayColour) == Empty && old(available) != [] ==> outcome == Pass
      ensures outcome.Fail? ==> unchanged(this, pd)
      ensures outcome.Pass? ==>
                && old(pd.id) !in old(producers) && old(available) != []
                && pd.displayColour == old(available[|available| - 1])
                && pd.id == old(pd.id) && pd.name == old(pd.name) && pd.products == old(pd.products)
                && available == old(available[..|available| - 1])
                && producers == old(producers)[old(pd.id) := pd.Info()]
                && claimed == old(claimed)
      ensures old(Owned()) ==> Owned()
      ensures old(Indexed()) && old(pd.products) == [] ==> Indexed()
    {
      if pd.id in producers {
        return Fail(DuplicateProducerId(pd.id));
      }
      if pd.displayColour != Empty {
        return Fail(ColourAlreadyAssigned);
      }
      if |available| == 0 {
        return Fail(PaletteExhausted);
      }
      pd.SetColour(available[|available| - 1]);
      var info := pd.Info();
      PopKeepsPalette(available, producers, places, info);
      EnlistKeeps(claimed, producers, info);
      available, producers, places := available[..|available| - 1], producers[info.id := info], places[info.colour := HeldBy(info.id)];
      outcome := Pass;
    }

    /**
     * `AddProduct(producer, productID)`: a product already claimed is refused
     * (the message looks up its owner, which fails when the owner is gone);
     * an unknown producer fails the list lookup; otherwise the product is
     * listed last and claimed.
     */
    method AddProduct(producer: int, productId: int) returns (outcome: Outcome<RegistryError>)
      requires Valid()
      modifies this
      ensures Valid()
      ensures productId in old(claimed) ==>
                outcome == Fail(if old(claimed[productId]) in old(producers)
                                then ProductAlreadyClaimed(productId, old(claimed[productId]))
                                else UnknownProducer(old(claimed[productId])))
      ensures productId !in old(claimed) && producer !in old(producers) ==> outcome == Fail(UnknownProducer(producer))
      ensures productId !in old(claimed) && producer in old(producers) ==> outcome == Pass
      ensures outcome.Fail? ==> unchanged(this)
      ensures outcome.Pass? ==>
                && productId !in old(claimed) && producer in old(producers)
                && claimed == old(claimed)[productId := producer]
                && producers == old(producers)[producer := old(producers[producer]).(products := old(producers[producer].products) + [productId])]
                && available == old(available)
      ensures old(Owned()) ==> Owned()
      ensures old(Indexed()) ==> Indexed()
    {
      if productId in claimed {
        var owner := claimed[productId];
        return Fail(if owner in producers then ProductAlreadyClaimed(productId, owner) else UnknownProducer(owner));
      }
      if producer !in producers {
        return Fail(UnknownProducer(producer));
      }
      var listed := producers[producer].products + [productId];
      RelistKeepsPalette(available, producers, places, producer, listed);
      ClaimKeeps(claimed, producers, producer, productId);
      producers := producers[producer := producers[producer].(products := listed)];
      claimed := claimed[productId := producer];
      outcome := Pass;
    }

    /** `AddProduct(producer, raw)`: the id before the first space of `raw`, then as `AddProduct(producer, id)`. */
    method AddProductFromText(producer: int, raw: string) returns (outcome: Outcome<RegistryError>)
      requires Valid()
      modifies this
      ensures Valid()
      ensures SplitId(raw).Failure? ==> outcome == Fail(SplitId(raw).error) && unchanged(this)
      ensures SplitId(raw).Success? && SplitId(raw).value.0 in old(claimed) ==>
                && outcome == Fail(if old(claimed[SplitId(raw).value.0]) in old(producers)
                                   then ProductAlreadyClaimed(SplitId(raw).value.0, old(claimed[SplitId(raw).value.0]))
                                   else UnknownProducer(old(claimed[SplitId(raw).value.0])))
                && unchanged(this)
      ensures SplitId(raw).Success? && SplitId(raw).value.0 !in old(claimed) && producer !in old(producers) ==>
                outcome == Fail(UnknownProducer(producer)) && unchanged(this)
      ensures SplitId(raw).Success? && SplitId(raw).value.0 !in old(claimed) && producer in old(producers) ==> outcome == Pass
      ensures outcome.Pass? ==>
                && SplitId(raw).Success? && producer in old(producers)
                && claimed == old(claimed)[SplitId(raw).value.0 := producer]
                && producers == old(producers)[producer := old(producers[producer]).(products := old(producers[producer].products) + [SplitId(raw).value.0])]
                && available == old(available)
      ensures old(Owned()) ==> Owned()
      ensures old(Indexed()) ==> Indexed()
    {
      var idEnd := IndexOf(raw, ' ');
      if idEnd.None? {
        return Fail(MalformedText(raw));
      }
      var pid := ParseInt32(raw[..idEnd.value]);
      if pid.None? {
        return Fail(UnparsableId(raw[..idEnd.value]));
      }
      outcome := AddProduct(producer, pid.value);
    }

    /** `GetProducerColourCodeFromID`. */
    function ColourFromId(producerId: int): (r: Result<Colour, RegistryError>)
      reads this
      ensures r.Success? <==> producerId in producers
      ensures r.Failure? ==> r.error == UnknownProducer(producerId)
    {
      if producerId in producers then Success(producers[producerId].colour) else Failure(UnknownProducer(producerId))
    }

    /** `GetProducerColourCodeFromProduct`: the colour of the product's owner. */
    function ColourFromProduct(productId: int): (r: Result<Colour, RegistryError>)
      reads this
      ensures productId !in claimed ==> r == Failure(UnclaimedProduct(productId))
      ensures productId in claimed ==> r == ColourFromId(claimed[productId])
    {
      if productId !in claimed then Failure(UnclaimedProduct(productId)) else ColourFromId(claimed[productId])
    }

    /**
     * The colour coding means what it is for: every registered producer shows
     * a real colour that is not on the stack, two producers never share one,
     * and, when every claim is listed, two products show the same colour
     * exactly when the same producer owns them.
     */
    lemma ColourCoding(a: int, b: int)
      requires Valid()
      ensures ColourFromId(a).Success? ==> ColourFromId(a).value != Empty && ColourFromId(a).value !in available
      ensures ColourFromId(a).Success? && ColourFromId(b).Success? ==> (ColourFromId(a) == ColourFromId(b) <==> a == b)
      ensures Owned() ==> (ColourFromProduct(a).Success? <==> a in claimed)
      ensures Owned() && ColourFromProduct(a).Success? && ColourFromProduct(b).Success? ==>
                (ColourFromProduct(a) == ColourFromProduct(b) <==> claimed[a] == claimed[b])
    {
      PaletteUnique(available, producers, places);
    }

    /** `GetProducerForProduct`: a clone of the owner, which carries no product list. */
    method GetProducerForProduct(productId: int) returns (r: Result<Producer, RegistryError>)
      ensures productId !in claimed ==> r == Failure(UnclaimedProduct(productId))
      ensures productId in claimed && claimed[productId] !in producers ==> r == Failure(UnknownProducer(claimed[productId]))
      ensures r.Success? ==>
                && productId in claimed && claimed[productId] in producers
                && fresh(r.value)
                && r.value.Info() == producers[claimed[productId]].(products := [])
    {
      if productId !in claimed {
        return Failure(UnclaimedProduct(productId));
      }
      var owner := claimed[productId];
      if owner !in producers {
        return Failure(UnknownProducer(owner));
      }
      var info := producers[owner];
      var c := new Producer(info.id, info.name, info.colour);
      r := Success(c);
    }

    /**
     * `RemoveProduct(producer, productID)` as the source writes it: an
     * unclaimed product is refused; then the owner found is compared with the
     * product id rather than with `producer`, which is never used; the product
     * leaves the owner's list but its claim stays.
     */
    method RemoveProduct(producer: int, productId: int) returns (outcome: Outcome<RegistryError>)
      requires Valid()
      modifies this
      ensures Valid()
      ensures productId !in old(claimed) ==> outcome == Fail(UnclaimedProduct(productId))
      ensures productId in old(claimed) && old(claimed[productId]) != productId ==>
                outcome == Fail(if old(claimed[productId]) in old(producers)
                                then ClaimedByOther(productId, old(claimed[productId]))
                                else UnknownProducer(old(claimed[productId])))
      ensures productId in old(claimed) && old(claimed[productId]) == productId && productId !in old(producers) ==>
                outcome == Fail(UnknownProducer(productId))
      ensures productId in old(claimed) && old(claimed[productId]) == productId && productId in old(producers) ==>
                outcome == Pass
      ensures outcome.Fail? ==> unchanged(this)
      ensures outcome.Pass? ==>
                && productId in old(producers)
                && producers == old(producers)[productId := old(producers[productId]).(products := RemoveFirst(old(producers[productId].products), productId))]
                && claimed == old(claimed) && available == old(available)
      ensures old(Indexed()) ==> Indexed()
    {
      if productId !in claimed {
        return Fail(UnclaimedProduct(productId));
      }
      var owner := claimed[productId];
      if owner != productId {
        return Fail(if owner in producers then ClaimedByOther(productId, owner) else UnknownProducer(owner));
      }
      if owner !in producers {
        return Fail(UnknownProducer(owner));
      }
      var listed := RemoveFirst(producers[owner].products, productId);
      RelistKeepsPalette(available, producers, places, owner, listed);
      DelistKeeps(claimed, producers, owner, productId);
      producers := producers[owner := producers[owner].(products := listed)];
      outcome := Pass;
    }

    /**
     * `RemoveProduct` as its messages say it is meant: the owner found is
     * compared with `producer`, and the product leaves both the owner's list
     * and the claims.
     */
    method RemoveProductCorrected(producer: int, productId: int) returns (outcome: Outcome<RegistryError>)
      requires Valid()
      modifies this
      ensures Valid()
      ensures productId !in old(claimed) ==> outcome == Fail(UnclaimedProduct(productId))
      ensures productId in old(claimed) && old(claimed[productId]) != producer ==>
                outcome == Fail(if old(claimed[productId]) in old(producers)
                                then ClaimedByOther(productId, old(claimed[productId]))
                                else UnknownProducer(old(claimed[productId])))
      ensures productId in old(claimed) && old(claimed[productId]) == producer && producer !in old(producers) ==>
                outcome == Fail(UnknownProducer(producer))
      ensures productId in old(claimed) && old(claimed[productId]) == producer && producer in old(producers) ==>
                outcome == Pass
      ensures outcome.Fail? ==> unchanged(this)
      ensures outcome.Pass? ==>
                && producer in old(producers)
                && producers == old(producers)[producer := old(producers[producer]).(products := RemoveFirst(old(producers[producer].products), productId))]
                && claimed == old(claimed) - {productId} && available == old(available)
      ensures old(Indexed()) ==> Indexed() && (old(Owned()) ==> Owned())
    {
      if productId !in claimed {
        return Fail(UnclaimedProduct(productId));
      }
      var owner := claimed[productId];
      if owner != producer {
        return Fail(if owner in producers then ClaimedByOther(productId, owner) else UnknownProducer(owner));
      }
      if producer !in producers {
        return Fail(UnknownProducer(producer));
      }
      var listed := RemoveFirst(producers[producer].products, productId);
      RelistKeepsPalette(available, producers, places, producer, listed);
      if ListsClaimed(claimed, producers) {
        ReleaseKeeps(claimed, producers, producer, productId);
      }
      producers := producers[producer := producers[producer].(products := listed)];
      claimed := claimed - {productId};
      outcome := Pass;
    }

    /**
     * `RemoveProducer`: every product on the producer's list loses its claim,
     * one at a time; the producer's colour goes back on top of the stack and
     * the producer leaves the registry.
     */
    method RemoveProducer(producerId: int) returns (outcome: Outcome<RegistryError>)
      requires Valid()
      modifies this
      ensures Valid()
      ensures producerId !in old(producers) ==> outcome == Fail(UnknownProducer(producerId)) && unchanged(this)
      ensures producerId in old(producers) ==>
                && outcome == Pass
                && claimed == old(claimed) - Elements(old(producers[producerId].products))
                && available == old(available) + [old(producers[producerId].colour)]
                && producers == old(producers) - {producerId}
      ensures old(Owned()) ==> Owned()
      ensures old(Indexed()) ==> Indexed()
    {
      if producerId !in producers {
        return Fail(UnknownProducer(producerId));
      }
      var ids := producers[producerId].products;
      var i := 0;
      while i < |ids|
        invariant 0 <= i <= |ids|
        invariant claimed == old(claimed) - Elements(ids[..i])
        invariant producers == old(producers) && available == old(available) && places == old(places)
      {
        assert Elements(ids[..i + 1]) == Elements(ids[..i]) + {ids[i]} by {
          assert ids[..i + 1] == ids[..i] + [ids[i]];
        }
        claimed := claimed - {ids[i]};
        i := i + 1;
      }
      assert ids[..i] == ids;
      var colour := producers[producerId].colour;
      PushKeepsPalette(available, producers, places, producerId);
      UnlistKeeps(old(claimed), producers, producerId);
      available, producers, places := available + [colour], producers - {producerId}, places[colour := OnStack(|available|)];
      outcome := Pass;
    }

    /**
     * The stack hands colours out last in, first out: a producer added right
     * after another is removed gets the colour the removed one held.
     */
    method ReissueColour(leaving: int, pd: Producer) returns (colour: Colour)
      requires Valid() && leaving in producers
      requires pd.displayColour == Empty && (pd.id == leaving || pd.id !in producers)
      modifies this, pd
      ensures Valid()
      ensures colour == old(producers[leaving].colour) && pd.displayColour == colour
      ensures producers == old(producers)[pd.id := pd.Info()] - (if pd.id == leaving then {} else {leaving})
      ensures available == old(available)
    {
      colour := producers[leaving].colour;
      var removed := RemoveProducer(leaving);
      var added := AddProducer(pd);
    }
  }

  /** A registry in which producer 5 is registered and owns product `q`. */
  method OwnerOf(q: int) returns (registry: Producers)
    ensures fresh(registry) && registry.Valid() && registry.Owned() && registry.Indexed()
    ensures registry.claimed == map[q := 5] && registry.producers.Keys == {5} && registry.producers[5].products == [q]
  {
    PaletteColours();
    registry := new Producers();
    var five := new Producer(5, Some("Chateau"), Empty);
    var added := registry.AddProducer(five);
    var claim := registry.AddProduct(5, q);
  }

  /** The source's `RemoveProduct(5, 7)` on a product producer 5 owns refuses, naming producer 5 as "another producer". */
  method RemoveOwnedProductAsWritten() returns (outcome: Outcome<RegistryError>)
    ensures outcome == Fail(ClaimedByOther(7, 5))
  {
    var registry := OwnerOf(7);
    outcome := registry.RemoveProduct(5, 7);
  }

  /** The source's `RemoveProduct(5, 5)` passes and empties the list, but the claim stays. */
  method RemoveSameIdProductAsWritten() returns (outcome: Outcome<RegistryError>, claims: nat, listed: seq<int>)
    ensures outcome == Pass && claims == 1 && listed == []
  {
    var registry := OwnerOf(5);
    outcome := registry.RemoveProduct(5, 5);
    claims := registry.ProductCount();
    listed := registry.producers[5].products;
  }

  /** The corrected `RemoveProduct` removes either product, listing and claim together. */
  method RemoveProductAsIntended() returns (seven: Outcome<RegistryError>, five: Outcome<RegistryError>, claims: nat, listed: seq<int>)
    ensures seven == Pass && five == Pass
    ensures claims == 0 && listed == []
  {
    var first := OwnerOf(7);
    seven := first.RemoveProductCorrected(5, 7);
    var second := OwnerOf(5);
    five := second.RemoveProductCorrected(5, 5);
    claims := first.ProductCount() + second.ProductCount();
    listed := first.producers[5].products + second.producers[5].products;
  }
}
