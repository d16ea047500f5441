/** The text form of a listing in the board file: serializeAnnuncio writes
    one line per listing, parseAnnuncio reads one back. The parser is given
    here as a function of the line, the id counter and the registered
    addresses, returning what it builds or throws together with the counter
    and the addresses it leaves behind. Prices and dates are written as
    decimal integers. */
module LineFormat {
  import opened Base
  import opened Seqs
  import opened JavaText
  import opened Patterns
  import opened Listings

  /** The first line salvaSuFile writes. */
  const Header: string := "Bacheca Annunci Acquisto/Vendita"

  /** How a date is written: its text, or "null" for a missing one. */
  function DateText(d: Option<int>): string {
    if d.Some? then IntText(d.value) else "null"
  }

  /** serializeAnnuncio: "; " before each field, the keywords joined with
      ',' and, for a sale listing, the date after "; " and the sold flag
      after ";". The id is not written. */
  function Serialize(d: ListingData): (r: string)
    ensures |r| >= 2 && r[..2] == "; "
  {
    "; " + d.title + "; " + d.description + "; " + IntText(d.price) + "; " + d.owner
    + "; " + Join(d.keywords, ',')
    + (if d.sale.Some? then "; " + DateText(d.sale.value.expiry) + ";" + BoolText(d.sale.value.sold) else "")
  }

  /** The fields of a written line, as split on ';' gives them back. */
  function Fields(d: ListingData): seq<string> {
    ["", " " + d.title, " " + d.description, " " + IntText(d.price), " " + d.owner, " " + Join(d.keywords, ',')]
    + (if d.sale.Some? then [" " + DateText(d.sale.value.expiry), BoolText(d.sale.value.sold)] else [])
  }

  lemma JoinCons(a: string, rest: seq<string>, sep: char)
    requires |rest| >= 1
    ensures Join([a] + rest, sep) == a + [sep] + Join(rest, sep)
  {
    assert ([a] + rest)[1..] == rest;
  }

  /** Adding one more part on the right of a join. */
  lemma {:induction false} JoinSnoc(parts: seq<string>, x: string, sep: char)
    requires |parts| >= 1
    ensures Join(parts + [x], sep) == Join(parts, sep) + [sep] + x
    decreases |parts|
  {
    if |parts| == 1 {
      assert parts + [x] == [parts[0]] + [x];
      JoinCons(parts[0], [x], sep);
    } else {
      assert (parts + [x])[1..] == parts[1..] + [x];
      JoinSnoc(parts[1..], x, sep);
      JoinCons(parts[0], parts[1..] + [x], sep);
      assert parts + [x] == [parts[0]] + (parts[1..] + [x]);
      assert parts == [parts[0]] + parts[1..];
      JoinCons(parts[0], parts[1..], sep);
    }
  }

  lemma JoinPrefix(f: seq<string>, k: nat, acc: string, x: string)
    requires 1 <= k < |f| && Join(f[..k], ';') == acc && f[k] == " " + x
    ensures Join(f[..k + 1], ';') == acc + "; " + x
  {
    assert f[..k + 1] == f[..k] + [f[k]];
    JoinSnoc(f[..k], f[k], ';');
  }

  /** The first six fields of a written line, which both kinds of
      listing have. */
  function Head(d: ListingData): string {
    "; " + d.title + "; " + d.description + "; " + IntText(d.price) + "; " + d.owner
    + "; " + Join(d.keywords, ',')
  }

  lemma HeadFields(d: ListingData)
    ensures Join(Fields(d)[..6], ';') == Head(d)
  {
    var f := Fields(d);
    assert Join(f[..1], ';') == "";
    var p1 := "; " + d.title;
    JoinPrefix(f, 1, "", d.title);
    assert "" + "; " + d.title == p1;
    var p2 := p1 + "; " + d.description;
    JoinPrefix(f, 2, p1, d.description);
    var p3 := p2 + "; " + IntText(d.price);
    JoinPrefix(f, 3, p2, IntText(d.price));
    var p4 := p3 + "; " + d.owner;
    JoinPrefix(f, 4, p3, d.owner);
    JoinPrefix(f, 5, p4, Join(d.keywords, ','));
  }

  /** The written line is its fields joined with ';', six fields for a
      purchase listing and eight for a sale listing. */
  lemma SerializeFields(d: ListingData)
    ensures |Fields(d)| == if d.sale.Some? then 8 else 6
    ensures Serialize(d) == Join(Fields(d), ';')
  {
    var f := Fields(d);
    HeadFields(d);
    if d.sale.Some? {
      SaleTail(d);
    } else {
      assert f[..6] == f;
      assert Serialize(d) == Head(d) + "";
    }
  }

  lemma SaleTail(d: ListingData)
    requires d.sale.Some? && Join(Fields(d)[..6], ';') == Head(d)
    ensures |Fields(d)| == 8 && Serialize(d) == Join(Fields(d), ';')
  {
    var f := Fields(d);
    var date := DateText(d.sale.value.expiry);
    var sold := BoolText(d.sale.value.sold);
    assert |f| == 8 && f[6] == " " + date && f[7] == sold;
    JoinPrefix(f, 6, Head(d), date);
    var upToDate := Head(d) + "; " + date;
    assert f[..8] == f[..7] + [f[7]] && f[..8] == f;
    JoinSnoc(f[..7], f[7], ';');
    assert Join(f, ';') == upToDate + [';'] + sold;
    assert Serialize(d) == Head(d) + ("; " + date + ";" + sold);
    assert Head(d) + ("; " + date + ";" + sold) == upToDate + [';'] + sold;
  }

  /** What the parser hands back: the listing it built or the exception it
      threw, with the id counter and the registered addresses as it left
      them (an id taken or a user created before the exception stays). */
  datatype LineResult = LineResult(outcome: Result<ListingData>, counter: int32, emails: seq<string>)

  /** Each piece trimmed. */
  function TrimAll(ps: seq<string>): (r: seq<string>)
    ensures |r| == |ps| && forall i :: 0 <= i < |ps| ==> r[i] == Trim(ps[i])
  {
    MapSeq(Trim, ps)
  }

  /** The keyword field: empty text gives no keywords, otherwise the pieces
      between commas, each trimmed. */
  function ParseKeywords(raw: string): seq<string> {
    if raw == [] then [] else TrimAll(Split(raw, ','))
  }

  /** recuperaOCreaUtente on the addresses: a registered address is reused,
      an unknown one is registered. */
  function Register(emails: seq<string>, email: string): (r: seq<string>)
    ensures email in r
  {
    if email in emails then emails else emails + [email]
  }

  /** parseAnnuncio. In order: fewer than six fields; the id (an empty
      field takes getNextId, text that is not an int is an error); the
      price (Double.parseDouble throws NumberFormatException); for more
      than six fields the date (LocalDate.parse throws) and the sold flag;
      the owner, found or created (an unknown, malformed address throws
      IllegalArgumentException from the Utente constructor); finally the
      restoring constructor with the date check bypassed. */
  function ParseLine(line: string, counter: int32, emails: seq<string>): (r: LineResult)
    ensures r.outcome.Ok? ==> ValidData(r.outcome.value) && r.outcome.value.owner in r.emails
    ensures r.outcome.Ok? ==> IsTrimmed(r.outcome.value.title)
    ensures forall e :: e in emails ==> e in r.emails
  {
    ParseFields(Split(line, ';'), counter, emails)
  }

  /** parseAnnuncio after `linea.split(";")`: the field count and the id. */
  function ParseFields(fields: seq<string>, counter: int32, emails: seq<string>): (r: LineResult)
    ensures r.outcome.Ok? ==> ValidData(r.outcome.value) && r.outcome.value.owner in r.emails
    ensures r.outcome.Ok? ==> IsTrimmed(r.outcome.value.title)
    ensures forall e :: e in emails ==> e in r.emails
    ensures |fields| < 6 ==> r == LineResult(Err(InvalidData(FieldCount)), counter, emails)
    ensures |fields| >= 6 && Trim(fields[0]) != [] && ParseInt32(Trim(fields[0])).None? ==>
      r == LineResult(Err(InvalidData(Id)), counter, emails)
    ensures |fields| >= 6 && Trim(fields[0]) == [] ==>
      r.counter == Inc(counter) && (r.outcome.Ok? ==> r.outcome.value.id == counter)
    ensures |fields| >= 6 && ParseInt32(Trim(fields[0])).Some? ==>
      (r.outcome.Ok? ==> r.outcome.value.id == ParseInt32(Trim(fields[0])).value)
  {
    if |fields| < 6 then LineResult(Err(InvalidData(FieldCount)), counter, emails)
    else
      var idText := Trim(fields[0]);
      var parsedId := if idText == [] then Some(counter) else ParseInt32(idText);
      if parsedId.None? then LineResult(Err(InvalidData(Id)), counter, emails)
      else ParseBody(fields, parsedId.value, if idText == [] then Inc(counter) else counter, emails)
  }

  /** The rest of parseAnnuncio once the id is known (`counter` is the id
      counter after it): the price, then for more than six fields the date
      and the sold flag. */
  function ParseBody(fields: seq<string>, id: int32, counter: int32, emails: seq<string>): (r: LineResult)
    requires |fields| >= 6
    ensures r.outcome.Ok? ==> ValidData(r.outcome.value) && r.outcome.value.owner in r.emails
    ensures r.outcome.Ok? ==> IsTrimmed(r.outcome.value.title)
    ensures forall e :: e in emails ==> e in r.emails
    ensures ParseSigned(Trim(fields[3])).None? ==> r == LineResult(Err(NumberFormat), counter, emails)
    ensures ParseSigned(Trim(fields[3])).Some? && |fields| > 6 && ParseSigned(Trim(fields[6])).None? ==>
      r == LineResult(Err(DateFormat), counter, emails)
    ensures r.counter == counter || r.counter == Bumped(counter, id)
    ensures r.outcome.Ok? ==>
      r.outcome.value.id == id && r.outcome.value.price == ParseSigned(Trim(fields[3])).value
      && r.outcome.value.owner == Trim(fields[4]) && (r.outcome.value.sale.Some? <==> |fields| > 6)
  {
    var price := ParseSigned(Trim(fields[3]));
    if price.None? then LineResult(Err(NumberFormat), counter, emails)
    else
      var date := if |fields| > 6 then ParseSigned(Trim(fields[6])) else None;
      if |fields| > 6 && date.None? then LineResult(Err(DateFormat), counter, emails)
      else
        var sold := |fields| > 7 && ParseBoolean(Trim(fields[7]));
        var sale := if |fields| > 6 then Some(SaleArgs(sold, date, true)) else None;
        TrimResult(fields[1]);
        Build(id, Trim(fields[1]), Trim(fields[2]), price.value, Trim(fields[4]),
          ParseKeywords(Trim(fields[5])), sale, counter, emails)
  }

  /** The end of parseAnnuncio: the owner found or created (an unknown,
      malformed address throws IllegalArgumentException from the Utente
      constructor), then the restoring constructor, which moves the counter
      past the id before its setters validate. */
  function Build(id: int32, title: string, description: string, price: int, email: string,
                 keywords: seq<string>, sale: Option<SaleArgs>, counter: int32, emails: seq<string>): (r: LineResult)
    ensures r.outcome.Ok? ==> ValidData(r.outcome.value) && r.outcome.value.owner in r.emails
    ensures r.outcome.Ok? ==> r.outcome.value == Restored(id, title, Some(description), price, email, keywords, sale)
    ensures forall e :: e in emails ==> e in r.emails
    ensures email !in emails && !MatchesEmail(email) ==>
      r == LineResult(Err(IllegalArgument(InvalidEmail)), counter, emails)
    ensures email in emails || MatchesEmail(email) ==>
      r.emails == Register(emails, email) && r.counter == Bumped(counter, id)
      && (r.outcome.Ok? <==> BaseError(Some(title), price, Some(keywords), true).None?)
      && (r.outcome.Err? ==> r.outcome.error.InvalidData?)
  {
    if email !in emails && !MatchesEmail(email) then
      LineResult(Err(IllegalArgument(InvalidEmail)), counter, emails)
    else
      var users := Register(emails, email);
      var afterRestore := Bumped(counter, id);
      var error := BaseError(Some(title), price, Some(keywords), true);
      if error.Some? then LineResult(Err(error.value), afterRestore, users)
      else LineResult(Ok(Restored(id, title, Some(description), price, email, keywords, sale)), afterRestore, users)
  }

  /** A listing the file format carries without loss: its text fields are
      already trimmed, free of the separators and of line terminators, and
      a sale listing has a date. */
  predicate Clean(d: ListingData) {
    ValidData(d) && IsTrimmed(d.title) && IsTrimmed(d.description)
    && ';' !in d.title && ';' !in d.description && MatchesEmail(d.owner)
    && OneLine(d.title) && OneLine(d.description)
    && (forall i :: 0 <= i < |d.keywords| ==> IsTrimmed(d.keywords[i]) && OneLine(d.keywords[i]))
    && (d.sale.Some? ==> d.sale.value.expiry.Some?)
  }

  lemma IntTextShape(n: int)
    ensures |IntText(n)| > 0 && IsTrimmed(IntText(n)) && ';' !in IntText(n)
    ensures OneLine(IntText(n))
  {
    var t := NatText(if n < 0 then -n else n);
    assert IsDigit(t[|t| - 1]) && IsDigit(t[0]);
    forall i | 0 <= i < |t| ensures t[i] != ';' && t[i] != '\n' && t[i] != '\r' {
      assert IsDigit(t[i]);
    }
    if n < 0 {
      assert IntText(n) == "-" + t;
    }
  }

  lemma KeywordsJoinTrimmed(ks: seq<string>)
    requires ValidKeywords(ks) && forall i :: 0 <= i < |ks| ==> IsTrimmed(ks[i])
    ensures |Join(ks, ',')| > 0 && IsTrimmed(Join(ks, ','))
  {
    forall i | 0 <= i < |ks| ensures ks[i] != [] {
      assert MatchesKeyword(ks[i]);
    }
    JoinEnds(ks, ',');
    assert IsTrimmed(ks[0]) && IsTrimmed(ks[|ks| - 1]);
  }

  lemma TrimAllFixes(ks: seq<string>)
    requires forall i :: 0 <= i < |ks| ==> IsTrimmed(ks[i])
    ensures TrimAll(ks) == ks
  {
    forall i | 0 <= i < |ks| ensures Trim(ks[i]) == ks[i] {
      TrimFixes(ks[i]);
    }
  }

  /** The keyword field reads back as the keywords that were written. */
  lemma KeywordsRoundTrip(ks: seq<string>)
    requires ValidKeywords(ks) && forall i :: 0 <= i < |ks| ==> IsTrimmed(ks[i])
    ensures ';' !in Join(ks, ',')
    ensures Trim(" " + Join(ks, ',')) == Join(ks, ',')
    ensures ParseKeywords(Join(ks, ',')) == ks
  {
    assert NoneContains(ks, ';') && NoneContains(ks, ',') by {
      forall i | 0 <= i < |ks| ensures ';' !in ks[i] && ',' !in ks[i] {
        KeywordText(ks[i]);
      }
    }
    JoinFree(ks, ',', ';');
    KeywordsJoinTrimmed(ks);
    TrimAfterSpace(Join(ks, ','));
    assert ks[|ks| - 1] != [] by {
      assert MatchesKeyword(ks[|ks| - 1]);
    }
    SplitOfJoin(ks, ',');
    TrimAllFixes(ks);
  }

  lemma SpacedFree(x: string)
    requires ';' !in x
    ensures ';' !in " " + x
  {
  }

  /** No field of the written line holds the field separator when no text
      field does. */
  lemma FieldsFree(d: ListingData)
    requires ';' !in d.title && ';' !in d.description && ';' !in d.owner && ';' !in Join(d.keywords, ',')
    ensures NoneContains(Fields(d), ';')
  {
    IntTextShape(d.price);
    SpacedFree(d.title);
    SpacedFree(d.description);
    SpacedFree(IntText(d.price));
    SpacedFree(d.owner);
    SpacedFree(Join(d.keywords, ','));
    if d.sale.Some? {
      if d.sale.value.expiry.Some? {
        IntTextShape(d.sale.value.expiry.value);
      }
      SpacedFree(DateText(d.sale.value.expiry));
    }
  }

  /** A clean listing is written on one line: readLine will not cut it. */
  lemma WrittenIsOneLine(d: ListingData)
    requires Clean(d)
    ensures OneLine(Serialize(d))
  {
    EmailText(d.owner);
    assert NoneContains(d.keywords, '\n') && NoneContains(d.keywords, '\r');
    JoinFree(d.keywords, ',', '\n');
    JoinFree(d.keywords, ',', '\r');
    FieldsOneLine(d);
  }

  lemma FieldsOneLine(d: ListingData)
    requires OneLine(d.title) && OneLine(d.description) && OneLine(d.owner) && OneLine(Join(d.keywords, ','))
    ensures OneLine(Serialize(d))
  {
    IntTextShape(d.price);
    if d.sale.Some? && d.sale.value.expiry.Some? {
      IntTextShape(d.sale.value.expiry.value);
    }
    var f := Fields(d);
    assert NoneContains(f, '\n') && NoneContains(f, '\r') by {
      forall i | 0 <= i < |f| ensures OneLine(f[i]) {
        if i >= 6 {
          assert d.sale.Some?;
        }
      }
    }
    JoinFree(f, ';', '\n');
    JoinFree(f, ';', '\r');
    SerializeFields(d);
  }

  /** Splitting a written line on ';' gives back its fields. */
  lemma FieldsSplit(d: ListingData)
    requires Clean(d)
    ensures Split(Serialize(d), ';') == Fields(d)
  {
    assert ';' !in d.title && ';' !in d.description && ValidKeywords(d.keywords);
    EmailText(d.owner);
    KeywordsFree(d.keywords);
    FieldsFree(d);
    FreeFieldsSplit(d);
  }

  /** The keyword field holds no ';'. */
  lemma KeywordsFree(ks: seq<string>)
    requires ValidKeywords(ks)
    ensures ';' !in Join(ks, ',')
  {
    assert NoneContains(ks, ';') by {
      forall i | 0 <= i < |ks| ensures ';' !in ks[i] {
        KeywordText(ks[i]);
      }
    }
    JoinFree(ks, ',', ';');
  }

  lemma FreeFieldsSplit(d: ListingData)
    requires NoneContains(Fields(d), ';')
    ensures Split(Serialize(d), ';') == Fields(d)
  {
    SerializeFields(d);
    var f := Fields(d);
    assert f[|f| - 1] != [];
    SplitOfJoin(f, ';');
  }

  /** The parser on fields whose trimmed texts are those of `d`. */
  lemma ParseCleanFields(fields: seq<string>, d: ListingData, counter: int32, emails: seq<string>)
    requires BaseError(Some(d.title), d.price, Some(d.keywords), true).None?
    requires MatchesEmail(d.owner) && DescriptionOrDefault(Some(d.description)) == d.description
    requires |fields| == if d.sale.Some? then 8 else 6
    requires Trim(fields[0]) == [] && Trim(fields[1]) == d.title && Trim(fields[2]) == d.description
    requires ParseSigned(Trim(fields[3])) == Some(d.price) && Trim(fields[4]) == d.owner
    requires ParseKeywords(Trim(fields[5])) == d.keywords
    requires d.sale.Some? ==>
      d.sale.value.expiry.Some?
      && ParseSigned(Trim(fields[6])) == d.sale.value.expiry
      && ParseBoolean(Trim(fields[7])) == d.sale.value.sold
    ensures ParseFields(fields, counter, emails)
      == LineResult(Ok(d.(id := counter)), Inc(counter), Register(emails, d.owner))
  {
    var sale := if d.sale.Some? then Some(SaleArgs(d.sale.value.sold, d.sale.value.expiry, true)) else None;
    assert ParseFields(fields, counter, emails) == ParseBody(fields, counter, Inc(counter), emails);
    CleanBody(fields, d, counter, emails, sale);
    CleanBuild(d, counter, emails, sale);
  }

  lemma CleanBody(fields: seq<string>, d: ListingData, counter: int32, emails: seq<string>, sale: Option<SaleArgs>)
    requires |fields| == if d.sale.Some? then 8 else 6
    requires Trim(fields[1]) == d.title && Trim(fields[2]) == d.description
    requires ParseSigned(Trim(fields[3])) == Some(d.price) && Trim(fields[4]) == d.owner
    requires ParseKeywords(Trim(fields[5])) == d.keywords
    requires d.sale.Some? ==>
      d.sale.value.expiry.Some?
      && ParseSigned(Trim(fields[6])) == d.sale.value.expiry
      && ParseBoolean(Trim(fields[7])) == d.sale.value.sold
    requires sale == if d.sale.Some? then Some(SaleArgs(d.sale.value.sold, d.sale.value.expiry, true)) else None
    ensures ParseBody(fields, counter, Inc(counter), emails)
      == Build(counter, d.title, d.description, d.price, d.owner, d.keywords, sale, Inc(counter), emails)
  {
    var date := if |fields| > 6 then ParseSigned(Trim(fields[6])) else None;
    var sold := |fields| > 7 && ParseBoolean(Trim(fields[7]));
    assert !(|fields| > 6 && date.None?);
    assert sale == if |fields| > 6 then Some(SaleArgs(sold, date, true)) else None;
  }

  lemma CleanBuild(d: ListingData, counter: int32, emails: seq<string>, sale: Option<SaleArgs>)
    requires BaseError(Some(d.title), d.price, Some(d.keywords), true).None?
    requires MatchesEmail(d.owner) && DescriptionOrDefault(Some(d.description)) == d.description
    requires sale == if d.sale.Some? then Some(SaleArgs(d.sale.value.sold, d.sale.value.expiry, true)) else None
    ensures Build(counter, d.title, d.description, d.price, d.owner, d.keywords, sale, Inc(counter), emails)
      == LineResult(Ok(d.(id := counter)), Inc(counter), Register(emails, d.owner))
  {
    FreshIdNotBumped(counter);
    assert Restored(counter, d.title, Some(d.description), d.price, d.owner, d.keywords, sale) == d.(id := counter);
  }

  /** A number written after "; " reads back as itself. */
  lemma NumberField(n: int)
    ensures ParseSigned(Trim(" " + IntText(n))) == Some(n)
  {
    IntTextShape(n);
    TrimAfterSpace(IntText(n));
    ParseIntText(n);
  }

  /** The sold flag reads back as itself. */
  lemma BoolField(b: bool)
    ensures ParseBoolean(Trim(BoolText(b))) == b
  {
    var t := BoolText(b);
    assert IsTrimmed(t);
    TrimFixes(t);
    ParseBoolText(b);
  }

  lemma IdField(d: ListingData)
    ensures Trim(Fields(d)[0]) == []
  {
    var f := Fields(d);
    assert f[0] == "";
  }

  lemma TextFields(d: ListingData)
    requires IsTrimmed(d.title) && IsTrimmed(d.description) && IsTrimmed(d.owner)
    ensures Trim(Fields(d)[1]) == d.title && Trim(Fields(d)[2]) == d.description && Trim(Fields(d)[4]) == d.owner
  {
    var f := Fields(d);
    assert f[1] == " " + d.title && f[2] == " " + d.description && f[4] == " " + d.owner;
    TrimAfterSpace(d.title);
    TrimAfterSpace(d.description);
    TrimAfterSpace(d.owner);
  }

  lemma PriceField(d: ListingData)
    ensures ParseSigned(Trim(Fields(d)[3])) == Some(d.price)
  {
    assert Fields(d)[3] == " " + IntText(d.price);
    NumberField(d.price);
  }

  lemma KeywordField(d: ListingData)
    requires Trim(" " + Join(d.keywords, ',')) == Join(d.keywords, ',')
    requires ParseKeywords(Join(d.keywords, ',')) == d.keywords
    ensures ParseKeywords(Trim(Fields(d)[5])) == d.keywords
  {
    assert Fields(d)[5] == " " + Join(d.keywords, ',');
  }

  lemma SaleFields(d: ListingData)
    requires d.sale.Some? && d.sale.value.expiry.Some?
    ensures ParseSigned(Trim(Fields(d)[6])) == d.sale.value.expiry
    ensures ParseBoolean(Trim(Fields(d)[7])) == d.sale.value.sold
  {
    var f := Fields(d);
    var e := d.sale.value.expiry.value;
    assert f[6] == " " + IntText(e) && f[7] == BoolText(d.sale.value.sold);
    NumberField(e);
    BoolField(d.sale.value.sold);
  }

  lemma ParseLineOfSplit(line: string, fields: seq<string>, counter: int32, emails: seq<string>)
    requires Split(line, ';') == fields
    ensures ParseLine(line, counter, emails) == ParseFields(fields, counter, emails)
  {
  }

  /** Reading back a written listing gives the same listing under the id
      the counter hands out (the file carries no id), takes exactly one id,
      and registers the owner if unknown. */
  lemma ParseSerialized(d: ListingData, counter: int32, emails: seq<string>)
    requires Clean(d)
    ensures ParseLine(Serialize(d), counter, emails)
      == LineResult(Ok(d.(id := counter)), Inc(counter), Register(emails, d.owner))
  {
    FieldsSplit(d);
    CleanFacts(d);
    ParseWritten(d, counter, emails);
  }

  /** What a clean listing gives the parser to work with. */
  lemma CleanFacts(d: ListingData)
    requires Clean(d)
    ensures IsTrimmed(d.title) && IsTrimmed(d.description) && IsTrimmed(d.owner)
    ensures Trim(" " + Join(d.keywords, ',')) == Join(d.keywords, ',')
    ensures ParseKeywords(Join(d.keywords, ',')) == d.keywords
    ensures d.sale.Some? ==> d.sale.value.expiry.Some?
    ensures BaseError(Some(d.title), d.price, Some(d.keywords), true).None?
    ensures MatchesEmail(d.owner) && DescriptionOrDefault(Some(d.description)) == d.description
  {
    assert BaseError(Some(d.title), d.price, Some(d.keywords), true).None? by {
      assert ValidData(d);
    }
    EmailText(d.owner);
    CleanKeywords(d.keywords);
  }

  lemma CleanKeywords(ks: seq<string>)
    requires ValidKeywords(ks) && forall i :: 0 <= i < |ks| ==> IsTrimmed(ks[i])
    ensures Trim(" " + Join(ks, ',')) == Join(ks, ',')
    ensures ParseKeywords(Join(ks, ',')) == ks
  {
    KeywordsRoundTrip(ks);
  }

  lemma ParseWritten(d: ListingData, counter: int32, emails: seq<string>)
    requires Split(Serialize(d), ';') == Fields(d)
    requires IsTrimmed(d.title) && IsTrimmed(d.description) && IsTrimmed(d.owner)
    requires Trim(" " + Join(d.keywords, ',')) == Join(d.keywords, ',')
    requires ParseKeywords(Join(d.keywords, ',')) == d.keywords
    requires d.sale.Some? ==> d.sale.value.expiry.Some?
    requires BaseError(Some(d.title), d.price, Some(d.keywords), true).None?
    requires MatchesEmail(d.owner) && DescriptionOrDefault(Some(d.description)) == d.description
    ensures ParseLine(Serialize(d), counter, emails)
      == LineResult(Ok(d.(id := counter)), Inc(counter), Register(emails, d.owner))
  {
    SerializeFields(d);
    IdField(d);
    TextFields(d);
    PriceField(d);
    KeywordField(d);
    if d.sale.Some? {
      SaleFields(d);
    }
    ParseLineOfSplit(Serialize(d), Fields(d), counter, emails);
    ParseCleanFields(Fields(d), d, counter, emails);
  }
}
