/** Annuncio and its two subclasses: a listing with an id, a title, a
    description, a price, an owner and a list of keywords; a sale listing
    (AnnuncioVendita) also has an expiry date and a sold flag, a purchase
    listing (AnnuncioAcquisto) has nothing more. Dates are day numbers and
    the current date is the parameter `today`. */
module Listings {
  import opened Base
  import opened JavaText
  import opened Patterns
  import opened Users
  import opened Catalog

  /** What setDescrizione stores in place of a null or blank description. */
  const DefaultDescription: string := "Nessuna descrizione disponibile."

  /** The extra state of a sale listing. */
  datatype SaleInfo = SaleInfo(expiry: Option<int>, sold: bool)

  /** The value of a listing; `owner` is the owner's address and `sale` is
      present exactly for a sale listing. */
  datatype ListingData = ListingData(
    id: int32, title: string, description: string, price: int,
    owner: string, keywords: seq<string>, sale: Option<SaleInfo>)

  /** The sale arguments of an AnnuncioVendita constructor; `bypass` skips
      the expiry check (the constructor used when reading a file). */
  datatype SaleArgs = SaleArgs(sold: bool, expiry: Option<int>, bypass: bool)

  /** setParoleChiave's demand: at least one keyword, each matching the
      keyword pattern. */
  predicate ValidKeywords(ks: seq<string>) {
    |ks| > 0 && forall i :: 0 <= i < |ks| ==> MatchesKeyword(ks[i])
  }

  /** What the setters guarantee of a listing's fields. */
  predicate ValidData(d: ListingData) {
    !IsBlank(d.title) && !IsBlank(d.description) && d.price >= 0 && ValidKeywords(d.keywords)
  }

  /** setDescrizione: a null or blank description becomes the default. */
  function DescriptionOrDefault(desc: Option<string>): (r: string)
    ensures !IsBlank(r)
    ensures !NullOrBlank(desc) ==> r == desc.value
  {
    if NullOrBlank(desc) then
      assert !IsWhitespace(DefaultDescription[0]);
      DefaultDescription
    else desc.value
  }

  /** Storing a stored description again changes nothing. */
  lemma DescriptionIdempotent(desc: Option<string>)
    ensures DescriptionOrDefault(Some(DescriptionOrDefault(desc))) == DescriptionOrDefault(desc)
  {
  }

  /** The exception the Annuncio(id, …) constructor throws, if any: the
      setters run in the order title, description (which never throws),
      price, keywords, and the owner is checked last. */
  function BaseError(title: Option<string>, price: int, keywords: Option<seq<string>>, hasOwner: bool): (r: Option<Error>)
    ensures r.None? <==> !NullOrBlank(title) && price >= 0 && keywords.Some? && ValidKeywords(keywords.value) && hasOwner
    ensures NullOrBlank(title) ==> r == Some(InvalidData(Title))
    ensures !NullOrBlank(title) && price < 0 ==> r == Some(InvalidData(Price))
    ensures !NullOrBlank(title) && price >= 0 && !(keywords.Some? && ValidKeywords(keywords.value))
      ==> r == Some(InvalidData(Keywords))
  {
    if NullOrBlank(title) then Some(InvalidData(Title))
    else if price < 0 then Some(InvalidData(Price))
    else if keywords.None? || !ValidKeywords(keywords.value) then Some(InvalidData(Keywords))
    else if !hasOwner then Some(InvalidData(Owner))
    else None
  }

  /** `dataScadenza == null || dataScadenza.isBefore(LocalDate.now())`. */
  function ExpiryError(expiry: Option<int>, today: int): (r: Option<Error>)
    ensures r.None? <==> expiry.Some? && expiry.value >= today
    ensures r.Some? ==> r.value == InvalidData(Expiry)
  {
    if expiry.None? || expiry.value < today then Some(InvalidData(Expiry)) else None
  }

  /** isScaduto: the date is set and today is after it. */
  predicate Expired(expiry: Option<int>, today: int) {
    expiry.Some? && today > expiry.value
  }

  /** A date the constructors and setDataScadenza accept is not expired on
      the day it is accepted. */
  lemma AcceptedNotExpired(expiry: Option<int>, today: int)
    requires ExpiryError(expiry, today).None?
    ensures !Expired(expiry, today)
  {
  }

  /** The exception an AnnuncioAcquisto or AnnuncioVendita constructor with
      an id throws, if any: the base checks, then (for a sale without the
      bypass) the expiry date. */
  function RestoreError(title: Option<string>, price: int, keywords: Option<seq<string>>,
                        hasOwner: bool, sale: Option<SaleArgs>, today: int): (r: Option<Error>)
    ensures r.None? <==>
      BaseError(title, price, keywords, hasOwner).None?
      && (sale.Some? && !sale.value.bypass ==> ExpiryError(sale.value.expiry, today).None?)
    ensures BaseError(title, price, keywords, hasOwner).Some? ==> r == BaseError(title, price, keywords, hasOwner)
  {
    var base := BaseError(title, price, keywords, hasOwner);
    if base.Some? then base
    else if sale.Some? && !sale.value.bypass then ExpiryError(sale.value.expiry, today)
    else None
  }

  /** The listing a successful constructor builds. */
  function Restored(id: int32, title: string, description: Option<string>, price: int,
                    owner: string, keywords: seq<string>, sale: Option<SaleArgs>): ListingData
  {
    ListingData(id, title, DescriptionOrDefault(description), price, owner, keywords,
      if sale.Some? then Some(SaleInfo(sale.value.expiry, sale.value.sold)) else None)
  }

  /** Whatever a constructor accepts is a valid listing. */
  lemma RestoredValid(id: int32, title: Option<string>, description: Option<string>, price: int,
                      owner: string, keywords: Option<seq<string>>, sale: Option<SaleArgs>, today: int)
    requires RestoreError(title, price, keywords, true, sale, today).None?
    ensures title.Some? && keywords.Some?
    ensures ValidData(Restored(id, title.value, description, price, owner, keywords.value, sale))
  {
  }

  /** The id counter after restoring id `id` (`idCounter = id + 1` when
      `id >= idCounter`). It never goes back, and it is past the restored
      id unless that id is Integer.MAX_VALUE, where `id + 1` wraps; so a
      later getNextId cannot hand the same id out again. */
  function Bumped(counter: int32, id: int32): (r: int32)
    ensures r == counter || (id >= counter && r == Inc(id))
    ensures id < MaxInt32 ==> r > id && r >= counter
  {
    if id >= counter then Inc(id) else counter
  }

  /** A constructor without an id takes getNextId and passes it on: the
      counter is then already past it, so the restore does not move it
      again. */
  lemma FreshIdNotBumped(counter: int32)
    ensures Bumped(Inc(counter), counter) == Inc(counter)
  {
  }

  class Listing {
    const id: int32
    /** Final in Java: the user who created the listing. */
    const owner: User
    /** An AnnuncioVendita rather than an AnnuncioAcquisto. */
    const forSale: bool
    var title: string
    var description: string
    var price: int
    var keywords: seq<string>
    /** Meaningful for a sale listing only. */
    var sold: bool
    /** Meaningful for a sale listing only. */
    var expiry: Option<int>

    function Data(): ListingData
      reads this
    {
      ListingData(id, title, description, price, owner.email, keywords,
        if forSale then Some(SaleInfo(expiry, sold)) else None)
    }

    ghost predicate Valid()
      reads this
    {
      ValidData(Data()) && (!forSale ==> !sold && expiry.None?)
    }

    constructor Make(d: ListingData, owner: User)
      requires d.owner == owner.email
      ensures this.owner == owner && Data() == d
      ensures ValidData(d) ==> Valid()
    {
      id := d.id;
      this.owner := owner;
      forSale := d.sale.Some?;
      title := d.title;
      description := d.description;
      price := d.price;
      keywords := d.keywords;
      sold := d.sale.Some? && d.sale.value.sold;
      expiry := if d.sale.Some? then d.sale.value.expiry else None;
    }

    /** The loop of setParoleChiave: every keyword matches the pattern. */
    static method AllKeywords(ks: seq<string>) returns (ok: bool)
      ensures ok <==> forall i :: 0 <= i < |ks| ==> MatchesKeyword(ks[i])
    {
      var i := 0;
      while i < |ks|
        invariant 0 <= i <= |ks|
        invariant forall j :: 0 <= j < i ==> MatchesKeyword(ks[j])
      {
        if !MatchesKeyword(ks[i]) {
          return false;
        }
        i := i + 1;
      }
      return true;
    }

    /** The Annuncio(id, …) constructor followed by the subclass part: the
        counter moves past `id` first, then the setters validate (the
        counter keeps its new value when they throw), then a sale listing
        without the bypass checks its expiry date. */
    static method Restore(cat: Catalog, id: int32, title: Option<string>, description: Option<string>,
                          price: int, owner: User?, keywords: Option<seq<string>>,
                          sale: Option<SaleArgs>, today: int) returns (r: Result<Listing>)
      modifies cat`nextId
      ensures cat.nextId == Bumped(old(cat.nextId), id)
      ensures RestoreError(title, price, keywords, owner != null, sale, today).Some? ==>
        r == Err(RestoreError(title, price, keywords, owner != null, sale, today).value)
      ensures RestoreError(title, price, keywords, owner != null, sale, today).None? ==>
        r.Ok? && fresh(r.value) && r.value.Valid() && r.value.owner == owner
        && r.value.Data() == Restored(id, title.value, description, price, owner.email, keywords.value, sale)
    {
      if id >= cat.nextId {
        cat.nextId := Inc(id);
      }
      if NullOrBlank(title) {
        return Err(InvalidData(Title));
      }
      if price < 0 {
        return Err(InvalidData(Price));
      }
      if keywords.None? || |keywords.value| == 0 {
        return Err(InvalidData(Keywords));
      }
      var matching := AllKeywords(keywords.value);
      if !matching {
        return Err(InvalidData(Keywords));
      }
      if owner == null {
        return Err(InvalidData(Owner));
      }
      if sale.Some? && !sale.value.bypass && ExpiryError(sale.value.expiry, today).Some? {
        return Err(InvalidData(Expiry));
      }
      var l := new Listing.Make(Restored(id, title.value, description, price, owner.email, keywords.value, sale), owner);
      return Ok(l);
    }

    /** The constructors without an id: take getNextId, then restore with
        it; the counter advances by exactly one whether or not the
        constructor throws. */
    static method New(cat: Catalog, title: Option<string>, description: Option<string>,
                      price: int, owner: User?, keywords: Option<seq<string>>,
                      sale: Option<SaleArgs>, today: int) returns (r: Result<Listing>)
      requires sale.Some? ==> !sale.value.bypass
      modifies cat`nextId
      ensures cat.nextId == Inc(old(cat.nextId))
      ensures RestoreError(title, price, keywords, owner != null, sale, today).Some? ==>
        r == Err(RestoreError(title, price, keywords, owner != null, sale, today).value)
      ensures RestoreError(title, price, keywords, owner != null, sale, today).None? ==>
        r.Ok? && fresh(r.value) && r.value.Valid() && r.value.owner == owner
        && r.value.Data() == Restored(old(cat.nextId), title.value, description, price, owner.email, keywords.value, sale)
    {
      var id := cat.NextId();
      FreshIdNotBumped(id);
      r := Restore(cat, id, title, description, price, owner, keywords, sale, today);
    }

    /** setTitolo: rejects a null or blank title, stores it untrimmed. */
    method SetTitle(t: Option<string>) returns (r: Outcome)
      requires Valid()
      modifies this`title
      ensures Valid()
      ensures NullOrBlank(t) ==> r == Fail(InvalidData(Title)) && title == old(title)
      ensures !NullOrBlank(t) ==> r == Pass && title == t.value
    {
      if NullOrBlank(t) {
        return Fail(InvalidData(Title));
      }
      title := t.value;
      return Pass;
    }

    /** setDescrizione: never throws. */
    method SetDescription(d: Option<string>)
      requires Valid()
      modifies this`description
      ensures Valid()
      ensures description == DescriptionOrDefault(d)
    {
      description := DescriptionOrDefault(d);
    }

    /** setPrezzo: rejects a negative price. */
    method SetPrice(p: int) returns (r: Outcome)
      requires Valid()
      modifies this`price
      ensures Valid()
      ensures p < 0 ==> r == Fail(InvalidData(Price)) && price == old(price)
      ensures p >= 0 ==> r == Pass && price == p
    {
      if p < 0 {
        return Fail(InvalidData(Price));
      }
      price := p;
      return Pass;
    }

    /** setParoleChiave: rejects a null or empty list and a list with a
        keyword outside the pattern, keeping the old keywords. */
    method SetKeywords(ks: Option<seq<string>>) returns (r: Outcome)
      requires Valid()
      modifies this`keywords
      ensures Valid()
      ensures !(ks.Some? && ValidKeywords(ks.value)) ==> r == Fail(InvalidData(Keywords)) && keywords == old(keywords)
      ensures ks.Some? && ValidKeywords(ks.value) ==> r == Pass && keywords == ks.value
    {
      if ks.None? || |ks.value| == 0 {
        return Fail(InvalidData(Keywords));
      }
      var matching := AllKeywords(ks.value);
      if !matching {
        return Fail(InvalidData(Keywords));
      }
      keywords := ks.value;
      return Pass;
    }

    /** setDataScadenza of a sale listing: rejects a null date or one
        before today. */
    method SetExpiry(e: Option<int>, today: int) returns (r: Outcome)
      requires Valid() && forSale
      modifies this`expiry
      ensures Valid()
      ensures ExpiryError(e, today).Some? ==> r == Fail(InvalidData(Expiry)) && expiry == old(expiry)
      ensures ExpiryError(e, today).None? ==> r == Pass && expiry == e && !IsExpired(today)
    {
      if ExpiryError(e, today).Some? {
        return Fail(InvalidData(Expiry));
      }
      expiry := e;
      return Pass;
    }

    /** setVenduto of a sale listing. */
    method SetSold(b: bool)
      requires Valid() && forSale
      modifies this`sold
      ensures Valid() && sold == b
    {
      sold := b;
    }

    /** isScaduto of a sale listing. */
    predicate IsExpired(today: int)
      requires forSale
      reads this
    {
      Expired(expiry, today)
    }

    /** contieneParolaChiave: exact, case-sensitive membership; null is
        never a keyword. */
    predicate ContainsKeyword(w: Option<string>)
      reads this
    {
      w.Some? && w.value in keywords
    }
  }
}
