/** GestoreBachecaImpl: the façade over one board and the user catalog.
    It creates listings from raw arguments, forwards insertion, removal and
    search to the board, adds keywords, and writes and reads the board file.
    Files are given as their lines; the current date is the parameter
    `today`. */
module Manager {
  import opened Base
  import opened JavaText
  import opened Patterns
  import opened Seqs
  import opened Users
  import opened Catalog
  import opened Listings
  import opened Boards
  import opened LineFormat
  import opened LoadSpec

  /** The first position of a listing with this id, as the loops over
      `bacheca.getAnnunci()` find it. */
  function IdIndex(ls: seq<Listing>, id: int32): (r: Option<nat>)
    ensures r.Some? ==> r.value < |ls| && ls[r.value].id == id
    ensures r.Some? ==> forall j :: 0 <= j < r.value ==> ls[j].id != id
    ensures r.None? ==> forall j :: 0 <= j < |ls| ==> ls[j].id != id
  {
    if ls == [] then None
    else if ls[0].id == id then Some(0)
    else
      match IdIndex(ls[1..], id)
      case None => None
      case Some(k) => Some(k + 1)
  }

  /** The values of a list of listings, in order. */
  function Datas(ls: seq<Listing>): (r: seq<ListingData>)
    reads set l | l in ls
    ensures |r| == |ls| && forall i :: 0 <= i < |ls| ==> r[i] == ls[i].Data()
  {
    if ls == [] then [] else [ls[0].Data()] + Datas(ls[1..])
  }

  /** The checks creaAnnuncio makes before it builds anything: title,
      description (blank is refused here, where the constructor would
      substitute the default), price, owner. */
  function PreCheck(title: Option<string>, description: Option<string>, price: int, hasOwner: bool): (r: Option<Error>)
    ensures r.None? <==> !NullOrBlank(title) && !NullOrBlank(description) && price >= 0 && hasOwner
    ensures NullOrBlank(title) ==> r == Some(InvalidData(Title))
    ensures !NullOrBlank(title) && NullOrBlank(description) ==> r == Some(InvalidData(Description))
    ensures r.Some? ==> r.value.InvalidData?
  {
    if NullOrBlank(title) then Some(InvalidData(Title))
    else if NullOrBlank(description) then Some(InvalidData(Description))
    else if price < 0 then Some(InvalidData(Price))
    else if !hasOwner then Some(InvalidData(Owner))
    else None
  }

  /** creaAnnuncio builds a sale listing not yet sold, with the date check
      on; a purchase listing has no sale part. */
  function CreateSale(forSale: bool, expiry: Option<int>): Option<SaleArgs> {
    if forSale then Some(SaleArgs(false, expiry, false)) else None
  }

  /** The exception creaAnnuncio throws, if any: the pre-checks, then for a
      sale the date, then the constructor's own checks on the keyword list
      (a null list having become an empty one). */
  function CreateError(title: Option<string>, description: Option<string>, price: int, hasOwner: bool,
                       keywords: Option<seq<string>>, forSale: bool, expiry: Option<int>, today: int): (r: Option<Error>)
    ensures r.None? <==>
      !NullOrBlank(title) && !NullOrBlank(description) && price >= 0 && hasOwner
      && (forSale ==> ExpiryError(expiry, today).None?)
      && keywords.Some? && ValidKeywords(keywords.value)
    ensures r.Some? ==> r.value.InvalidData?
  {
    var pre := PreCheck(title, description, price, hasOwner);
    if pre.Some? then pre
    else if forSale && ExpiryError(expiry, today).Some? then ExpiryError(expiry, today)
    else RestoreError(title, price, Some(keywords.GetOr([])), hasOwner, CreateSale(forSale, expiry), today)
  }

  /** A null keyword list can never make a listing: it becomes an empty
      list, which setParoleChiave refuses. Once the other arguments pass,
      the error is exactly the keyword error. */
  lemma NullKeywordsRejected(title: Option<string>, description: Option<string>, price: int, hasOwner: bool,
                             forSale: bool, expiry: Option<int>, today: int)
    ensures CreateError(title, description, price, hasOwner, None, forSale, expiry, today).Some?
    ensures PreCheck(title, description, price, hasOwner).None? && (forSale ==> ExpiryError(expiry, today).None?) ==>
      CreateError(title, description, price, hasOwner, None, forSale, expiry, today) == Some(InvalidData(Keywords))
  {
    var ks: seq<string> := [];
    assert !ValidKeywords(ks);
  }

  /** rimuoviAnnuncio(id, email) removes, when it succeeds, every listing
      with that id owned by that address and nothing else. */
  lemma RemovedByOwner(ls: seq<Listing>, id: int32, owner: User, l: Listing)
    ensures l in Filter(ls, x => !OwnedMatch(x, id, owner)) <==>
      l in ls && !(l.id == id && l.owner.email == owner.email)
  {
    FilterMembers(ls, x => !OwnedMatch(x, id, owner), l);
  }

  /** The keyword list aggiungiParoleChiave stores is valid exactly when
      every added word is: the old keywords already are. */
  lemma MergedKeywordsValid(old_: seq<string>, words: seq<string>, merged: seq<string>)
    requires ValidKeywords(old_)
    requires forall x :: x in merged <==> x in old_ + words
    ensures ValidKeywords(merged) <==> forall i :: 0 <= i < |words| ==> MatchesKeyword(words[i])
  {
    assert old_[0] in old_ + words;
    if forall i :: 0 <= i < |words| ==> MatchesKeyword(words[i]) {
      forall i | 0 <= i < |merged| ensures MatchesKeyword(merged[i]) {
        var x := merged[i];
        assert x in old_ + words;
        if x in old_ {
          var j :| 0 <= j < |old_| && old_[j] == x;
        } else {
          assert x in words;
          var j :| 0 <= j < |words| && words[j] == x;
        }
      }
    }
    if ValidKeywords(merged) {
      forall i | 0 <= i < |words| ensures MatchesKeyword(words[i]) {
        assert words[i] in old_ + words;
        var j :| 0 <= j < |merged| && merged[j] == words[i];
      }
    }
  }

  /** The keyword field's loop: no keywords for an empty field, otherwise
      each comma-separated piece, trimmed. */
  method KeywordsOf(raw: string) returns (ks: seq<string>)
    ensures ks == ParseKeywords(raw)
  {
    ks := [];
    if raw == [] {
      return;
    }
    var pieces := Split(raw, ',');
    var i := 0;
    while i < |pieces|
      invariant 0 <= i <= |pieces|
      invariant ks == MapSeq(Trim, pieces[..i])
    {
      MapSnoc(Trim, pieces, i);
      ks := ks + [Trim(pieces[i])];
      i := i + 1;
    }
    assert pieces[..i] == pieces;
  }

  /** Reading one more listing's value. */
  lemma DatasSnoc(ls: seq<Listing>, i: nat)
    requires i < |ls|
    ensures Datas(ls[..i + 1]) == Datas(ls[..i]) + [ls[i].Data()]
  {
    var longer := Datas(ls[..i + 1]);
    var shorter := Datas(ls[..i]);
    forall k | 0 <= k < |longer| ensures longer[k] == (shorter + [ls[i].Data()])[k] {
      if k < i {
        assert ls[..i + 1][k] == ls[..i][k];
      }
    }
  }

  /** Appending a listing appends its value. */
  lemma DatasAppend(ls: seq<Listing>, l: Listing)
    ensures Datas(ls + [l]) == Datas(ls) + [l.Data()]
  {
    DatasSnoc(ls + [l], |ls|);
    assert (ls + [l])[..|ls|] == ls && (ls + [l])[..|ls| + 1] == ls + [l];
  }

  /** One more turn of salvaSuFile's loop writes the next listing. */
  lemma SaveStep(ls: seq<Listing>, i: nat)
    requires i < |ls|
    ensures [Header] + Serialized(Datas(ls[..i + 1])) == [Header] + Serialized(Datas(ls[..i])) + [Serialize(ls[i].Data())]
  {
    DatasSnoc(ls, i);
    var ds := Datas(ls[..i + 1]);
    assert ds[..i] == Datas(ls[..i]);
    MapSnoc(Serialize, ds, i);
    assert ds[..i + 1] == ds;
  }

  /** A well-formed address is also an acceptable user name. */
  lemma AddressAsName(email: string)
    requires MatchesEmail(email)
    ensures UserError(Some(email), Some(email)).None?
  {
    EmailText(email);
  }

  /** The Utente constructor stores a well-formed address used as a name
      unchanged, as trimming leaves it alone. */
  lemma AddressNameKept(email: string, name: string)
    requires MatchesEmail(email) && name == Trim(email)
    ensures name == email
  {
    EmailText(email);
    TrimFixes(email);
  }

  class Manager {
    /** The board this manager works on. */
    const board: Board
    /** The id counter and the user registry the manager consults. */
    const cat: Catalog

    /** The board holds no listing twice, the registry no address twice,
        and every listing on the board satisfies its setters' checks. */
    ghost predicate Valid()
      reads this, board, cat, set l | l in board.listings
    {
      board.Valid() && cat.Valid() && forall l :: l in board.listings ==> l.Valid()
    }

    /** The GestoreBachecaImpl constructor. */
    constructor (board: Board, cat: Catalog)
      ensures this.board == board && this.cat == cat
    {
      this.board := board;
      this.cat := cat;
    }

    /** creaAnnuncio: checks the arguments, turns a null keyword list into
        an empty one, checks a sale's date, then calls the constructor with
        the given id, which moves the counter past it before its own checks.
        The listing is not put on the board. */
    method Create(id: int32, title: Option<string>, description: Option<string>, price: int, owner: User?,
                  keywords: Option<seq<string>>, forSale: bool, expiry: Option<int>, today: int)
      returns (r: Result<Listing>)
      modifies cat`nextId
      ensures CreateError(title, description, price, owner != null, keywords, forSale, expiry, today).Some? ==>
        r == Err(CreateError(title, description, price, owner != null, keywords, forSale, expiry, today).value)
      ensures CreateError(title, description, price, owner != null, keywords, forSale, expiry, today).None? ==>
        r.Ok? && fresh(r.value) && r.value.Valid() && r.value.owner == owner
        && r.value.Data() == Restored(id, title.value, description, price, owner.email, keywords.value, CreateSale(forSale, expiry))
        && r.value.description == description.value
      ensures PreCheck(title, description, price, owner != null).Some? || (forSale && ExpiryError(expiry, today).Some?) ==>
        cat.nextId == old(cat.nextId)
      ensures PreCheck(title, description, price, owner != null).None? && !(forSale && ExpiryError(expiry, today).Some?) ==>
        cat.nextId == Bumped(old(cat.nextId), id)
    {
      var pre := PreCheck(title, description, price, owner != null);
      if pre.Some? {
        return Err(pre.value);
      }
      var ks := if keywords.None? then [] else keywords.value;
      if forSale && ExpiryError(expiry, today).Some? {
        return Err(InvalidData(Expiry));
      }
      r := Listing.Restore(cat, id, title, description, price, owner, Some(ks), CreateSale(forSale, expiry), today);
    }

    /** aggiungiAnnuncio: a null listing is refused here; otherwise the
        board's insertion, which takes an id from the counter and refuses a
        listing already there. */
    method Add(l: Listing?) returns (r: Outcome)
      requires Valid() && (l != null ==> l.Valid())
      modifies board`listings, cat`nextId
      ensures Valid()
      ensures l == null ==>
        r == Fail(ManagerError(NoListing)) && board.listings == old(board.listings) && cat.nextId == old(cat.nextId)
      ensures l != null ==> cat.nextId == Inc(old(cat.nextId))
      ensures l != null && l in old(board.listings) ==>
        r == Fail(BoardError(DuplicateListing)) && board.listings == old(board.listings)
      ensures l != null && l !in old(board.listings) ==> r == Pass && board.listings == old(board.listings) + [l]
    {
      if l == null {
        return Fail(ManagerError(NoListing));
      }
      r := board.Add(cat, l);
    }

    /** pulisciBacheca: the board's svuotaBacheca. */
    method Clear()
      requires Valid()
      modifies board`listings, cat`nextId
      ensures Valid() && board.listings == [] && cat.nextId == 1
    {
      board.Clear(cat);
    }

    /** rimuoviAnnuncio(id, email): the first listing with this id decides.
        None: IllegalArgumentException. Owned by another address (or the
        address is null): IllegalArgumentException. Otherwise the board
        removes every listing with this id whose owner equals that
        listing's owner, and the answer is true. */
    method Remove(id: int32, email: Option<string>) returns (r: Result<bool>)
      requires Valid()
      modifies board`listings
      ensures Valid()
      ensures IdIndex(old(board.listings), id).None? ==>
        r == Err(IllegalArgument(UnknownListing)) && board.listings == old(board.listings)
      ensures IdIndex(old(board.listings), id).Some? ==>
        var found := old(board.listings)[IdIndex(old(board.listings), id).value];
        (!HasEmail(found.owner, email) ==>
          r == Err(IllegalArgument(NotOwner)) && board.listings == old(board.listings))
        && (HasEmail(found.owner, email) ==>
          r == Ok(true) && board.listings == Filter(old(board.listings), x => !OwnedMatch(x, id, found.owner)))
    {
      var ls := board.Snapshot();
      var i := 0;
      while i < |ls|
        invariant 0 <= i <= |ls|
        invariant forall j :: 0 <= j < i ==> ls[j].id != id
      {
        var l := ls[i];
        if l.id == id {
          assert IdIndex(ls, id) == Some(i);
          if HasEmail(l.owner, email) {
            var _ := board.RemoveByIdAndOwner(id, l.owner);
            forall x | x in board.listings ensures x.Valid() {
              FilterMembers(ls, x => !OwnedMatch(x, id, l.owner), x);
            }
            return Ok(true);
          }
          return Err(IllegalArgument(NotOwner));
        }
        i := i + 1;
      }
      return Err(IllegalArgument(UnknownListing));
    }

    /** cercaPerParoleChiave: a null query becomes an empty one, which the
        board refuses; otherwise the board's search. */
    method Search(q: Option<seq<string>>) returns (r: Result<set<Listing>>)
      ensures q.None? || q.value == [] ==> r == Err(BoardError(EmptyQuery))
      ensures q.Some? && q.value != [] ==> r == Ok(Hits(board.listings, q.value))
      ensures r.Ok? ==> forall l :: l in r.value ==> l in board.listings
    {
      var words := if q.None? then [] else q.value;
      r := board.Search(Some(words));
      if r.Ok? {
        forall l | l in r.value ensures l in board.listings {
          HitsMembers(board.listings, words, l);
        }
      }
    }

    /** cercaAnnuncioPerId: the first listing with this id, or null. */
    method FindById(id: int32) returns (l: Listing?)
      ensures l == null <==> IdIndex(board.listings, id).None?
      ensures l != null ==> l == board.listings[IdIndex(board.listings, id).value]
    {
      var ls := board.Snapshot();
      var i := 0;
      while i < |ls|
        invariant 0 <= i <= |ls|
        invariant forall j :: 0 <= j < i ==> ls[j].id != id
      {
        if ls[i].id == id {
          assert IdIndex(ls, id) == Some(i);
          return ls[i];
        }
        i := i + 1;
      }
      return null;
    }

    /** aggiungiParoleChiave: an unknown id fails; a null word list throws
        on `addAll`; otherwise the old keywords and the new words, with
        duplicates dropped, are handed to setParoleChiave, which refuses
        the lot if one new word is not a valid keyword. */
    method AddKeywords(id: int32, words: Option<seq<string>>) returns (r: Outcome)
      requires Valid()
      modifies (set l | l in board.listings && l.id == id)`keywords
      ensures Valid()
      ensures IdIndex(board.listings, id).None? ==> r == Fail(ManagerError(UnknownId))
      ensures IdIndex(board.listings, id).Some? ==>
        var l := board.listings[IdIndex(board.listings, id).value];
        (words.None? ==> r == Fail(NullReference) && l.keywords == old(l.keywords))
        && (words.Some? && !(forall i :: 0 <= i < |words.value| ==> MatchesKeyword(words.value[i])) ==>
              r == Fail(InvalidData(Keywords)) && l.keywords == old(l.keywords))
        && (words.Some? && (forall i :: 0 <= i < |words.value| ==> MatchesKeyword(words.value[i])) ==>
              r == Pass && Distinct(l.keywords)
              && forall x :: x in l.keywords <==> x in old(l.keywords) || x in words.value)
      ensures forall m :: (m in board.listings
                           && (IdIndex(board.listings, id).None? || m != board.listings[IdIndex(board.listings, id).value]))
                          ==> m.keywords == old(m.keywords)
    {
      var l := FindById(id);
      if l == null {
        return Fail(ManagerError(UnknownId));
      }
      if words.None? {
        return Fail(NullReference);
      }
      assert l.Valid() && l.Data().keywords == l.keywords;
      var merged := Unique(l.keywords + words.value);
      MergedKeywordsValid(l.keywords, words.value, merged);
      r := l.SetKeywords(Some(merged));
    }

    /** salvaSuFile: a null or blank path is refused; otherwise the lines
        written are the header and one line per listing, in board order. */
    method Save(path: Option<string>) returns (r: Result<seq<string>>)
      ensures NullOrBlank(path) ==> r == Err(IllegalArgument(BlankPath))
      ensures !NullOrBlank(path) ==> r == Ok(SaveLines(Datas(board.listings)))
    {
      if NullOrBlank(path) {
        return Err(IllegalArgument(BlankPath));
      }
      var ls := board.Snapshot();
      var lines := [Header];
      var i := 0;
      while i < |ls|
        invariant 0 <= i <= |ls|
        invariant lines == [Header] + Serialized(Datas(ls[..i]))
      {
        SaveStep(ls, i);
        lines := lines + [Serialize(ls[i].Data())];
        i := i + 1;
      }
      assert ls[..i] == ls;
      return Ok(lines);
    }

    /** recuperaOCreaUtente: the registered user with this address, or a
        new user named after the address, registered on the spot; the
        Utente constructor refuses an address that is not well formed. */
    method FindOrCreateUser(email: string) returns (r: Result<User>)
      requires cat.Valid()
      modifies cat`users
      ensures cat.Valid()
      ensures email in Emails(old(cat.users)) ==>
        r.Ok? && r.value.email == email && r.value in cat.users && cat.users == old(cat.users)
      ensures email !in Emails(old(cat.users)) && !MatchesEmail(email) ==>
        r == Err(IllegalArgument(InvalidEmail)) && cat.users == old(cat.users)
      ensures email !in Emails(old(cat.users)) && MatchesEmail(email) ==>
        r.Ok? && fresh(r.value) && r.value.email == email && r.value.name == email
        && cat.users == old(cat.users) + [r.value]
      ensures r.Ok? ==> r.value in cat.users && Emails(cat.users) == Register(Emails(old(cat.users)), email)
    {
      var u := cat.FindUser(Some(email));
      if u != null {
        return Ok(u);
      }
      r := CreateUser(email);
    }

    /** The creating half of recuperaOCreaUtente, for an unknown address. */
    method CreateUser(email: string) returns (r: Result<User>)
      requires cat.Valid() && email !in Emails(cat.users)
      modifies cat`users
      ensures cat.Valid()
      ensures !MatchesEmail(email) ==> r == Err(IllegalArgument(InvalidEmail)) && cat.users == old(cat.users)
      ensures MatchesEmail(email) ==>
        r.Ok? && fresh(r.value) && r.value.email == email && r.value.name == email
        && cat.users == old(cat.users) + [r.value]
      ensures r.Ok? ==> r.value in cat.users && Emails(cat.users) == Emails(old(cat.users)) + [email]
    {
      if MatchesEmail(email) {
        AddressAsName(email);
      }
      var created := User.New(Some(email), Some(email));
      if created.Err? {
        return Err(created.error);
      }
      var newUser := created.value;
      AddressNameKept(email, newUser.name);
      var _ := cat.AddUser(newUser);
      EmailsSnoc(old(cat.users), newUser);
      return Ok(newUser);
    }

    /** parseAnnuncio, step by step, with the owner found or created in
        the registry: it does what the line parser of the file format
        says, leaving the counter and the registered addresses as that
        parser does. This part splits the line and reads the id. */
    method ParseLine(line: string) returns (r: Result<Listing>)
      requires cat.Valid()
      modifies cat`nextId, cat`users
      ensures cat.Valid()
      ensures var spec := LineFormat.ParseLine(line, old(cat.nextId), Emails(old(cat.users)));
        cat.nextId == spec.counter && Emails(cat.users) == spec.emails
        && (spec.outcome.Err? ==> r == Err(spec.outcome.error))
        && (spec.outcome.Ok? ==>
              r.Ok? && fresh(r.value) && r.value.Valid() && r.value.Data() == spec.outcome.value
              && r.value.owner in cat.users)
    {
      var fields := Split(line, ';');
      ParseLineOfSplit(line, fields, cat.nextId, Emails(cat.users));
      if |fields| < 6 {
        return Err(InvalidData(FieldCount));
      }
      var idText := Trim(fields[0]);
      var id: int32;
      if idText == [] {
        id := cat.NextId();
      } else {
        var parsed := ParseInt32(idText);
        if parsed.None? {
          return Err(InvalidData(Id));
        }
        id := parsed.value;
      }
      r := ParseBody(fields, id);
    }

    /** parseAnnuncio once the id is known: the price, the date and the
        sold flag. */
    method ParseBody(fields: seq<string>, id: int32) returns (r: Result<Listing>)
      requires cat.Valid() && |fields| >= 6
      modifies cat`nextId, cat`users
      ensures cat.Valid()
      ensures var spec := LineFormat.ParseBody(fields, id, old(cat.nextId), Emails(old(cat.users)));
        cat.nextId == spec.counter && Emails(cat.users) == spec.emails
        && (spec.outcome.Err? ==> r == Err(spec.outcome.error))
        && (spec.outcome.Ok? ==>
              r.Ok? && fresh(r.value) && r.value.Valid() && r.value.Data() == spec.outcome.value
              && r.value.owner in cat.users)
    {
      var title := Trim(fields[1]);
      var description := Trim(fields[2]);
      var price := ParseSigned(Trim(fields[3]));
      if price.None? {
        return Err(NumberFormat);
      }
      var email := Trim(fields[4]);
      var keywords := KeywordsOf(Trim(fields[5]));
      var sale: Option<SaleArgs> := None;
      if |fields| > 6 {
        var date := ParseSigned(Trim(fields[6]));
        if date.None? {
          return Err(DateFormat);
        }
        var sold := |fields| > 7 && ParseBoolean(Trim(fields[7]));
        sale := Some(SaleArgs(sold, date, true));
      }
      r := Build(id, title, description, price.value, email, keywords, sale);
    }

    /** The end of parseAnnuncio: the owner, then the restoring
        constructor with the date check bypassed. */
    method Build(id: int32, title: string, description: string, price: int, email: string,
                 keywords: seq<string>, sale: Option<SaleArgs>) returns (r: Result<Listing>)
      requires cat.Valid() && (sale.Some? ==> sale.value.bypass)
      modifies cat`nextId, cat`users
      ensures cat.Valid()
      ensures var spec := LineFormat.Build(id, title, description, price, email, keywords, sale,
                                           old(cat.nextId), Emails(old(cat.users)));
        cat.nextId == spec.counter && Emails(cat.users) == spec.emails
        && (spec.outcome.Err? ==> r == Err(spec.outcome.error))
        && (spec.outcome.Ok? ==>
              r.Ok? && fresh(r.value) && r.value.Valid() && r.value.Data() == spec.outcome.value
              && r.value.owner in cat.users)
    {
      var owner := FindOrCreateUser(email);
      if owner.Err? {
        return Err(owner.error);
      }
      // The date check is bypassed, so the current date plays no part.
      r := Listing.Restore(cat, id, Some(title), Some(description), price, owner.value, Some(keywords), sale, 0);
    }

    /** The loop's state as the file reader sees it: the values of the
        listings on the board, the counter and the registered addresses. */
    ghost function Current(maxId: int32, skipped: nat): LoadState
      reads this, board, cat, set l | l in board.listings
    {
      LoadState(Datas(board.listings), cat.nextId, Emails(cat.users), maxId, skipped)
    }

    /** leggiDaFile: a null or blank path is refused before anything is
        read; otherwise the lines of the file go to leggiDaReader. */
    method LoadFile(path: Option<string>, lines: seq<string>) returns (r: Outcome, skipped: nat)
      requires Valid()
      modifies board`listings, cat`nextId, cat`users
      ensures Valid()
      ensures NullOrBlank(path) ==>
        r == Fail(IllegalArgument(BlankPath)) && board.listings == old(board.listings)
        && cat.nextId == old(cat.nextId) && cat.users == old(cat.users)
      ensures !NullOrBlank(path) ==>
        var spec := LoadSpec.Load(lines, Emails(old(cat.users)));
        Current(spec.state.maxId, skipped) == spec.state
        && r == (if spec.failure.Some? then Fail(spec.failure.value) else Pass)
    {
      if NullOrBlank(path) {
        return Fail(IllegalArgument(BlankPath)), 0;
      }
      r, skipped := Read(lines);
    }

    /** leggiDaReader: empties the board, checks the header, then reads the
        remaining lines one by one; the first exception other than an
        invalid listing aborts the load, wrapped in GestoreBachecaException,
        with whatever was read so far left on the board. A finished load
        sets the counter past the largest id read. The number of skipped
        lines is returned rather than printed. */
    method Read(lines: seq<string>) returns (r: Outcome, skipped: nat)
      requires Valid()
      modifies board`listings, cat`nextId, cat`users
      ensures Valid()
      ensures var spec := LoadSpec.Load(lines, Emails(old(cat.users)));
        Current(spec.state.maxId, skipped) == spec.state
        && r == (if spec.failure.Some? then Fail(spec.failure.value) else Pass)
    {
      ghost var emails0 := Emails(cat.users);
      board.Clear(cat);
      skipped := 0;
      if |lines| == 0 || IsBlank(lines[0]) {
        return Fail(ManagerError(LoadAborted(ManagerError(MissingHeader)))), 0;
      }
      assert Current(0, 0) == Start(emails0);
      var failure, maxId;
      failure, maxId, skipped := ReadRows(lines[1..], 0, 0);
      if failure.Some? {
        LoadAborts(lines, emails0);
        return Fail(ManagerError(LoadAborted(failure.value))), skipped;
      }
      LoadAfterHeader(lines, emails0);
      cat.ResetIdCounter(Inc(maxId));
      return Pass, skipped;
    }

    /** leggiDaReader's loop over the lines after the header, from the
        largest id and skip count given; it stops at the first exception
        other than an invalid listing and hands it back. */
    method ReadRows(rows: seq<string>, maxId0: int32, skipped0: nat)
      returns (failure: Option<Error>, maxId: int32, skipped: nat)
      requires Valid()
      modifies board`listings, cat`nextId, cat`users
      ensures Valid()
      ensures var p := LoadRows(old(Current(maxId0, skipped0)), rows);
        Current(maxId, skipped) == p.state && failure == p.failure
    {
      ghost var st0 := Current(maxId0, skipped0);
      maxId, skipped := maxId0, skipped0;
      failure := None;
      var i := 0;
      assert rows[i..] == rows;
      while i < |rows|
        invariant 0 <= i <= |rows|
        invariant Valid() && failure.None?
        invariant LoadRows(st0, rows) == LoadRows(Current(maxId, skipped), rows[i..])
      {
        ghost var before := Current(maxId, skipped);
        failure, maxId, skipped := ReadRow(rows[i], maxId, skipped);
        ghost var p := Step(before, rows[i]);
        assert Current(maxId, skipped) == p.state && failure == p.failure;
        assert rows[i..][0] == rows[i];
        if failure.Some? {
          RowsStop(before, rows[i..]);
          return;
        }
        RowsCons(before, rows[i..]);
        assert rows[i..][1..] == rows[i + 1..];
        i := i + 1;
      }
      assert rows[i..] == [];
    }

    /** One turn of leggiDaReader's loop: a blank line is passed over; any
        other is parsed and its listing added to the board, raising the
        largest id; an invalid listing is counted; any other exception is
        handed back. */
    method ReadRow(line: string, maxId: int32, skipped: nat) returns (failure: Option<Error>, maxId': int32, skipped': nat)
      requires Valid()
      modifies board`listings, cat`nextId, cat`users
      ensures Valid()
      ensures var p := Step(old(Current(maxId, skipped)), line);
        Current(maxId', skipped') == p.state && failure == p.failure
    {
      maxId', skipped' := maxId, skipped;
      failure := None;
      if Trim(line) == [] {
        return;
      }
      StepParses(Current(maxId, skipped), line);
      failure, maxId', skipped' := ParseAndKeep(line, maxId, skipped);
    }

    /** A non-blank line: parseAnnuncio, then what the loop does with its
        answer. */
    method ParseAndKeep(line: string, maxId: int32, skipped: nat) returns (failure: Option<Error>, maxId': int32, skipped': nat)
      requires Valid()
      modifies board`listings, cat`nextId, cat`users
      ensures Valid()
      ensures var st := old(Current(maxId, skipped));
        var p := Apply(st, LineFormat.ParseLine(line, st.counter, st.emails));
        Current(maxId', skipped') == p.state && failure == p.failure
    {
      ghost var st := Current(maxId, skipped);
      ghost var spec := LineFormat.ParseLine(line, st.counter, st.emails);
      var parsed := ParseLine(line);
      assert Datas(board.listings) == st.board;
      ApplyKeepsNothingElse(st, Current(maxId, skipped), spec);
      failure, maxId', skipped' := Keep(parsed, spec, maxId, skipped);
    }

    /** What the loop does with the parser's answer `parsed`, which is the
        line parser's result `spec` made real. */
    method Keep(parsed: Result<Listing>, ghost spec: LineResult, maxId: int32, skipped: nat)
      returns (failure: Option<Error>, maxId': int32, skipped': nat)
      requires Valid()
      requires cat.nextId == spec.counter && Emails(cat.users) == spec.emails
      requires spec.outcome.Err? ==> parsed == Err(spec.outcome.error)
      requires spec.outcome.Ok? ==>
        parsed.Ok? && parsed.value !in board.listings && parsed.value.Valid()
        && parsed.value.Data() == spec.outcome.value
      modifies board`listings, cat`nextId
      ensures Valid()
      ensures var p := Apply(old(Current(maxId, skipped)), spec);
        Current(maxId', skipped') == p.state && failure == p.failure
    {
      ghost var st := Current(maxId, skipped);
      maxId', skipped' := maxId, skipped;
      failure := None;
      if parsed.Ok? {
        var l := parsed.value;
        ghost var ls := board.listings;
        var _ := board.Add(cat, l);
        forall m | m in board.listings
          ensures m.Valid()
        {
          if m != l { assert m in ls; }
        }
        assert Datas(ls) == st.board;
        DatasAppend(ls, l);
        maxId' := if l.id > maxId then l.id else maxId;
        assert Datas(board.listings) == st.board + [spec.outcome.value];
        assert cat.nextId == Inc(spec.counter) && Emails(cat.users) == spec.emails;
        assert Apply(st, spec) == Progress(LoadState(st.board + [spec.outcome.value], Inc(spec.counter), spec.emails, maxId', skipped'), None);
      } else if parsed.error.InvalidData? {
        skipped' := skipped' + 1;
        assert Apply(st, spec) == Progress(LoadState(st.board, spec.counter, spec.emails, maxId, skipped'), None);
      } else {
        failure := Some(parsed.error);
        assert Apply(st, spec) == Progress(LoadState(st.board, spec.counter, spec.emails, maxId, skipped), failure);
      }
    }
  }
}
