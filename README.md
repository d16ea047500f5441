# Classified-ads board (bacheca annunci) — a Dafny model

This project models the core of a Java program that keeps a board of
classified ads. Each ad (`Annuncio`) is either a purchase ad
(`AnnuncioAcquisto`) or a sale ad (`AnnuncioVendita`, which adds an expiry
date and a sold flag). Every ad belongs to a registered user (`Utente`).
The board (`Bacheca`) holds the ads. A user registry (`GestoreUtentiImpl`)
holds the users, and a board manager (`GestoreBachecaImpl`) works on both.
It creates ads, removes them by owner, searches by keyword and adds
keywords. It also saves the board to a semicolon-separated text file and
reads it back.

Modules, in dependency order:

- `Base`: `Option`, `Result`, `Outcome` (a `void` call that may throw), the
  program's exceptions as one `Error` datatype, and Java's 32-bit `int`
  (`int32`) with the wrap-around of `x + 1` (`Inc`).
- `JavaText`: the `java.lang.String` behaviour the file format depends on,
  written out with the JDK's edge cases (digits are ASCII only; see
  "Left out"):
  - `isBlank` and `trim`, which strip different characters;
  - `split` on one character, dropping trailing empty pieces;
  - `String.join`;
  - `Integer.parseInt` and `Boolean.parseBoolean`;
  - decimal text of a number.
- `Patterns`: the keyword pattern `^[a-zA-Z0-9\s]+$` and the e-mail pattern
  `^[a-zA-Z0-9._%+-]+@[a-zA-Z0-9.-]+\.[a-zA-Z]{2,}$`, as predicates, with a
  proof that the e-mail matcher accepts exactly the strings of that shape.
- `Seqs`: filtering, mapping and de-duplicating sequences.
- `Users`: `class User` (`Utente`).
- `Catalog`: `class Catalog`, the two pieces of state the Java program keeps
  in static fields:
  - the ad id counter (`Annuncio.idCounter`);
  - the registered users (`GestoreUtentiImpl.UTENTI_REGISTRATI`).

  It is passed explicitly to every operation that reads or moves them.
- `Listings`: `class Listing`, one class for both ad kinds. A sale ad
  carries `forSale`, `sold` and `expiry`. `ListingData` is an ad's value.
- `Boards`: `class Board` (`Bacheca`).
- `LineFormat`: the line `serializeAnnuncio` writes, and `parseAnnuncio` as
  a function of the line, the id counter and the registered addresses.
- `LoadSpec`: the reading loop of `leggiDaReader` as a fold over the lines.
  It includes the save-then-load round trip.
- `Manager`: `class Manager` (`GestoreBachecaImpl`). Its loader
  (`LoadFile`, `Read`, `ReadRows`, `ReadRow`) and its parser (`ParseLine`,
  `ParseBody`, `Build`) are imperative methods proved equal to the
  `LoadSpec` and `LineFormat` functions.

Behaviour the model makes explicit:

- **Every listing added to the board takes one more id from the counter.**
  `Bacheca.aggiungiAnnuncio` calls `getNextId()` and throws the value away.
- **Board membership is by reference.** `Annuncio` does not override
  `equals`, so only the same object is refused as a duplicate.
- **Saving and reading back renumbers the ads.** The serializer writes an
  empty id field. On reading, the parser takes an id from the counter, and
  adding the ad to the board takes another. A saved board of n clean ads
  therefore loads as the same ads in the same order with ids 1, 3, 5, ….
  The counter ends at 2n, or at 1 for an empty board
  (`LoadSpec.SaveThenLoad`). A clean ad has no line terminator in any
  field, so each written ad is one line of the file (`LoadSpec.SavedIsLines`).
- **Only invalid-data errors skip a line when reading.** The loop catches
  only `DatiNonValidiException`. Any other error aborts the whole load as
  `GestoreBachecaException`:
  - a price that does not parse;
  - a date that does not parse;
  - an unknown owner whose address is malformed.

  The ads read before the error stay on the board, and the id counter is
  not reset.

## Model

| member | source | states |
|---|---|---|
| Base.Inc | src/bacheca/Annuncio.java:27-29 | Java's `x + 1` on an `int`: one more below `Integer.MAX_VALUE`, which wraps to `Integer.MIN_VALUE` |
| JavaText.SplitOfJoin | src/controller/GestoreBachecaImpl.java:284 | splitting a join of separator-free parts whose last part is non-empty gives back the parts |
| JavaText.ParseIntText | src/controller/GestoreBachecaImpl.java:295 | the decimal text of any integer parses back to that integer |
| JavaText.ParseBoolText | src/controller/GestoreBachecaImpl.java:320 | `Boolean.parseBoolean` of the text of a boolean gives that boolean |
| JavaText.TrimResult | src/controller/GestoreBachecaImpl.java:303-307 | the result of `trim` has nothing trimmable at either end |
| Patterns.EmailMatcherCorrect | src/bacheca/Utente.java:41 | the matcher accepts a string exactly when it is local part, `@`, domain, `.`, and two or more letters, as the regular expression says |
| Patterns.EmailText | src/bacheca/Utente.java:41 | an accepted address is non-empty, non-blank, already trimmed and holds no `;` or `,` |
| Patterns.KeywordText | src/bacheca/Annuncio.java:24 | an accepted keyword holds no `;` or `,` |
| Users.UserError | src/bacheca/Utente.java:55-69 | the constructor refuses exactly a null or malformed address (invalid e-mail) or a null or blank name, address checked first |
| Users.User.New | src/bacheca/Utente.java:55-69 | the user is built exactly when the arguments pass, with the name trimmed; otherwise the matching error |
| Users.User.SetName | src/bacheca/Utente.java:103-108 | a null or blank name is refused and the name kept; otherwise the name is replaced |
| Users.User.Equals | src/bacheca/Utente.java:139-152 | two users are equal exactly when the other is non-null and has the same address |
| Users.EqualsIsEquivalence | src/bacheca/Utente.java:139-152 | user equality is reflexive, symmetric and transitive |
| Catalog.Catalog.constructor | src/bacheca/Annuncio.java:13 | the counter starts at 1 and no user is registered |
| Catalog.Catalog.NextId | src/bacheca/Annuncio.java:27-29 | `getNextId` returns the counter and moves it on by one, wrapping at `Integer.MAX_VALUE` |
| Catalog.Catalog.ResetIdCounter | src/bacheca/Annuncio.java:158-160 | the counter becomes the given value |
| Catalog.Catalog.AddUser | src/controller/GestoreUtentiImpl.java:44-59 | a null user and an already-registered address are refused with the registry unchanged; otherwise the user is appended; addresses stay unique |
| Catalog.Catalog.RemoveUser | src/controller/GestoreUtentiImpl.java:72-77 | removes exactly the users with the given address; reports true exactly when the address was registered |
| Catalog.RemoveByEmailAtMostOne | src/controller/GestoreUtentiImpl.java:72-77 | with unique addresses, removal by address takes away at most one user, and exactly one when the address is registered |
| Catalog.RemoveKeepsUnique | src/controller/GestoreUtentiImpl.java:72-77 | removal keeps the addresses unique |
| Catalog.Catalog.FindUser | src/controller/GestoreUtentiImpl.java:89-98 | null exactly when the address is null or unregistered; otherwise the registered user with that address |
| Catalog.Catalog.RegisteredUsers | src/controller/GestoreUtentiImpl.java:109-113 | the registered users in registration order |
| Listings.DescriptionOrDefault | src/bacheca/Annuncio.java:116-118 | a null or blank description becomes the non-blank default; any other is kept |
| Listings.DescriptionIdempotent | src/bacheca/Annuncio.java:116-118 | applying the default twice is the same as once |
| Listings.BaseError | src/bacheca/Annuncio.java:55-73 | the constructor accepts exactly a non-blank title, a non-negative price, a valid keyword list and an owner, and reports the first failing field in the setters' order |
| Listings.ExpiryError | src/bacheca/AnnuncioVendita.java:26-36 | the date check accepts exactly a present date not before today |
| Listings.AcceptedNotExpired | src/bacheca/AnnuncioVendita.java:56-75 | a date the check accepts is not expired |
| Listings.RestoreError | src/bacheca/AnnuncioVendita.java:39-49 | a sale ad adds the date check unless it is bypassed; the base checks come first |
| Listings.RestoredValid | src/bacheca/Annuncio.java:55-73 | arguments the constructor accepts give a valid ad |
| Listings.Bumped | src/bacheca/Annuncio.java:55-64 | restoring an id leaves the counter as it was or moves it to one past that id, only when the id is not below it; for an id below `Integer.MAX_VALUE` the counter ends past the id and never goes back |
| Listings.FreshIdNotBumped | src/bacheca/AnnuncioVendita.java:15 | restoring with the id just taken from the counter (`super(Annuncio.getNextId(), …)`, also AnnuncioAcquisto.java:7) leaves the counter one past it |
| Listings.Listing.AllKeywords | src/bacheca/Annuncio.java:135-146 | true exactly when every keyword matches the keyword pattern |
| Listings.Listing.Restore | src/bacheca/Annuncio.java:55-73 | the counter moves past the id first; then the ad is built exactly when the checks pass, with the given id and the default description; a sale ad (AnnuncioVendita.java:26-49) is also checked for its date unless bypassed and carries its date and sold flag; a purchase ad (AnnuncioAcquisto.java:11-13) carries no sale part |
| Listings.Listing.New | src/bacheca/AnnuncioVendita.java:14-23 | takes the next id from the counter (the counter moves whether or not the ad is built), then builds the ad exactly when the checks pass; a new sale ad is checked for its date, never bypassed; a new purchase ad (AnnuncioAcquisto.java:5-8) carries no sale part |
| Listings.Listing.SetTitle | src/bacheca/Annuncio.java:106-111 | a null or blank title is refused and the title kept; otherwise replaced; the ad stays valid |
| Listings.Listing.SetDescription | src/bacheca/Annuncio.java:116-118 | the description becomes the given one or the default |
| Listings.Listing.SetPrice | src/bacheca/Annuncio.java:123-128 | a negative price is refused and the price kept; otherwise replaced |
| Listings.Listing.SetKeywords | src/bacheca/Annuncio.java:135-146 | a null, empty or non-matching list is refused and the keywords kept; otherwise replaced |
| Listings.Listing.SetExpiry | src/bacheca/AnnuncioVendita.java:56-61 | a null or past date is refused and the date kept; otherwise replaced, and the ad is then not expired |
| Listings.Listing.SetSold | src/bacheca/AnnuncioVendita.java:68-70 | the sold flag becomes the given value |
| Boards.Board.constructor | src/bacheca/Bacheca.java:30-33 | a new board is empty |
| Boards.Board.Add | src/bacheca/Bacheca.java:45-62 | a null ad is refused; otherwise the counter moves on by one; then an ad already on the board (same object) is refused, and any other is appended |
| Boards.Board.Search | src/bacheca/Bacheca.java:75-99 | a null or empty query is refused; otherwise the ads having at least one of the query's keywords |
| Boards.HitsMembers | src/bacheca/Bacheca.java:75-99 | an ad is a hit exactly when it is on the board and has a keyword of the query |
| Boards.HitsUnion | src/bacheca/Bacheca.java:75-99 | the hits of a concatenated query are the union of the hits of its parts |
| Boards.Board.RemoveByIdAndOwner | src/bacheca/Bacheca.java:112-117 | removes exactly the ads with that id and that owner; true exactly when one existed |
| Boards.Board.RemoveAll | src/bacheca/Bacheca.java:127-134 | a null or empty list changes nothing; otherwise removes exactly the listed ads; true exactly when one was on the board |
| Boards.Board.Snapshot | src/bacheca/Bacheca.java:144-147 | the ads in board order |
| Boards.Board.Clear | src/bacheca/Bacheca.java:149-152 | the board is emptied and the counter reset to 1 |
| LineFormat.Serialize | src/controller/GestoreBachecaImpl.java:202-218 | a written line starts with "; ": the id field is left empty |
| LineFormat.SerializeFields | src/controller/GestoreBachecaImpl.java:202-218 | a written line is the join of six fields (eight for a sale ad) |
| LineFormat.KeywordsRoundTrip | src/controller/GestoreBachecaImpl.java:307-315 | joined valid trimmed keywords hold no `;` and survive the leading space and `trim` |
| LineFormat.ParseLine | src/controller/GestoreBachecaImpl.java:283-325 | a parsed ad is valid, its owner is registered, its title trimmed; no address is ever unregistered |
| LineFormat.ParseFields | src/controller/GestoreBachecaImpl.java:284-301 | fewer than six fields is invalid data (field count) with nothing changed; a non-empty id that is not an int is invalid data (id) with nothing changed; an empty id takes the counter, which then moves on by exactly one; a given id is the id of the ad built; a built ad is valid with a registered owner |
| LineFormat.ParseBody | src/controller/GestoreBachecaImpl.java:303-320 | an unparsable price gives `NumberFormatException` and an unparsable date `DateTimeParseException`, with counter and registry unchanged; otherwise the counter moves only as the restoring constructor moves it; a built ad carries the id, the price and the trimmed owner read, and a sale part exactly when there are more than six fields |
| LineFormat.Build | src/controller/GestoreBachecaImpl.java:318-324 | an unregistered malformed owner is an illegal argument with nothing changed; otherwise the owner is registered and the counter moved past the id whether or not the ad is then built, the ad is built exactly when the base checks pass, and a refusal is invalid data |
| LineFormat.ParseSerialized | src/controller/GestoreBachecaImpl.java:202-325 | parsing the line written for a clean ad gives that ad with the counter as its id, moves the counter by one and registers the owner |
| LineFormat.WrittenIsOneLine | src/controller/GestoreBachecaImpl.java:188 | the line written for a clean ad holds no `\n` or `\r`, so it is read back as one line |
| LoadSpec.Step | src/controller/GestoreBachecaImpl.java:248-264 | a line whose trim is empty changes nothing; a line that does not stop the loop adds one ad or one skip; the board only grows at its end and the largest id never drops; invalid data never stops the loop |
| LoadSpec.Apply | src/controller/GestoreBachecaImpl.java:252-264 | the loop stops exactly on an error other than invalid data; otherwise one ad or one skip is added; a parsed ad is appended and the largest id covers it; the registry is the parser's |
| LoadSpec.LoadRows | src/controller/GestoreBachecaImpl.java:247-265 | the loop only appends to the board and never lowers the largest id, and only an error other than invalid data stops it |
| LoadSpec.Load | src/controller/GestoreBachecaImpl.java:235-281 | a missing or blank header fails with nothing read; every failure reaches the caller wrapped as a load abort; a completed load sets the counter one past the largest id read |
| LoadSpec.MaxIdOf | src/controller/GestoreBachecaImpl.java:255-258 | non-negative and at least every id read |
| LoadSpec.LoadResult | src/controller/GestoreBachecaImpl.java:235-281 | after a completed load every ad is valid with a registered owner, and the counter is one past the largest id, so above every id unless that id is `Integer.MAX_VALUE` |
| LoadSpec.RowsSound | src/controller/GestoreBachecaImpl.java:247-265 | the loop keeps every ad valid with a registered owner |
| LoadSpec.LoadCount | src/controller/GestoreBachecaImpl.java:247-265 | after a completed load, ads kept plus lines skipped equal the non-blank lines after the header |
| LoadSpec.WrittenNotBlank | src/controller/GestoreBachecaImpl.java:249 | a written line is never passed over as blank |
| LoadSpec.HeaderNotBlank | src/controller/GestoreBachecaImpl.java:183 | the header written is accepted as a header |
| LoadSpec.SaveThenLoad | src/controller/GestoreBachecaImpl.java:176-281 | loading what was saved from clean ads gives the same ads, in order, renumbered 1, 3, 5, …, no line skipped, the counter at twice their number (1 for none) |
| LoadSpec.SavedIsLines | src/controller/GestoreBachecaImpl.java:183-192 | every line saved for clean ads, header included, holds no line terminator, so reading the file gives back exactly those lines |
| Manager.IdIndex | src/controller/GestoreBachecaImpl.java:354-361 | the position of the first ad with that id, or none when no ad has it |
| Manager.PreCheck | src/controller/GestoreBachecaImpl.java:60-94 | creation accepts exactly a non-blank title and description, a non-negative price and an owner, in that order |
| Manager.CreateError | src/controller/GestoreBachecaImpl.java:60-116 | creation fails exactly when the pre-checks, the sale date check or the constructor fail, always with invalid data |
| Manager.NullKeywordsRejected | src/controller/GestoreBachecaImpl.java:60-94 | a null keyword list always makes creation fail, as invalid keywords once the other checks pass |
| Manager.RemovedByOwner | src/bacheca/Bacheca.java:112-117 | an ad survives removal exactly when it is not the owner's ad with that id |
| Manager.MergedKeywordsValid | src/controller/GestoreBachecaImpl.java:365-379 | the merged keywords are valid exactly when every new word matches the pattern |
| Manager.KeywordsOf | src/controller/GestoreBachecaImpl.java:307-315 | the loop builds the keyword list the parser specifies |
| Manager.AddressNameKept | src/controller/GestoreBachecaImpl.java:335 | a valid address used as a name is kept unchanged by `trim` |
| Manager.Manager.Create | src/controller/GestoreBachecaImpl.java:60-116 | the ad is built exactly when the checks pass, with the given id; the counter moves only once the constructor is reached; the ad is not put on the board |
| Manager.Manager.Add | src/controller/GestoreBachecaImpl.java:122-128 | a null ad is refused; otherwise as the board's insertion |
| Manager.Manager.Clear | src/controller/GestoreBachecaImpl.java:131-134 | the board is emptied and the counter reset |
| Manager.Manager.Remove | src/controller/GestoreBachecaImpl.java:154-170 | an unknown id or another owner is an illegal argument with the board unchanged; otherwise the owner's ads with that id are removed |
| Manager.Manager.Search | src/controller/GestoreBachecaImpl.java:345-351 | as the board's search; every hit is on the board |
| Manager.Manager.FindById | src/controller/GestoreBachecaImpl.java:354-361 | the first ad with that id, or null when none has it |
| Manager.Manager.AddKeywords | src/controller/GestoreBachecaImpl.java:365-379 | an unknown id, a null or an invalid word list is refused with the keywords kept; otherwise the keywords become the distinct union of old and new |
| Manager.Manager.Save | src/controller/GestoreBachecaImpl.java:176-195 | a null or blank path is refused; otherwise the header followed by one written line per ad, in board order |
| Manager.Manager.FindOrCreateUser | src/controller/GestoreBachecaImpl.java:331-339 | a registered address gives its user; an unknown valid one is registered with the address as name; an unknown malformed one is an illegal argument |
| Manager.Manager.CreateUser | src/controller/GestoreBachecaImpl.java:335-336 | a new user named by their address is appended to the registry, or the address is refused |
| Manager.Manager.ParseLine | src/controller/GestoreBachecaImpl.java:283-325 | builds exactly what the line-parse function specifies: same error, or a fresh valid ad with that value and a registered owner; same counter and registry |
| Manager.Manager.ParseBody | src/controller/GestoreBachecaImpl.java:303-325 | the field-parsing stage, equal to its specification function |
| Manager.Manager.Build | src/controller/GestoreBachecaImpl.java:318-324 | finds or creates the owner and restores the ad, equal to its specification function |
| Manager.Manager.LoadFile | src/controller/GestoreBachecaImpl.java:224-232 | a null or blank path is refused with nothing changed; otherwise as reading the lines |
| Manager.Manager.Read | src/controller/GestoreBachecaImpl.java:235-281 | the board, counter, registry and skip count end as the load fold specifies, and the outcome is its failure or success |
| Manager.Manager.ReadRows | src/controller/GestoreBachecaImpl.java:247-265 | the reading loop ends where the fold over the lines ends |
| Manager.Manager.ReadRow | src/controller/GestoreBachecaImpl.java:248-264 | one line of the loop: one step of the fold |
| Manager.Manager.ParseAndKeep | src/controller/GestoreBachecaImpl.java:252-264 | a non-blank line is parsed against the live counter and user list and kept or skipped exactly as one step of the fold on the parser's answer says |
| Manager.Manager.Keep | src/controller/GestoreBachecaImpl.java:252-264 | a parsed ad is added and the largest id updated; invalid data is counted as skipped; any other error stops the loop |

## Left out

- File I/O: the lines are an input of `Read`. `Save` returns the lines it would write. `IOException` paths are not modelled.
- Console output: the skip count is returned instead of printed. `stampaTuttiAnnunci` and every `toString` are not modelled.
- The prices are `double` in Java and integers here. A price is written and read as decimal integer text, not the `100.0` that `Double.toString` writes. NaN, infinities and fractional prices are not modelled.
- The dates are `LocalDate` in Java and day numbers here, written as decimal text rather than ISO text. "Today" is a parameter wherever the source calls `LocalDate.now()`.
- Manager.Manager.ParseLine passes 0 as "today" because the restoring constructor it calls bypasses the date check.
- The e-mail pattern, the keyword pattern, `isBlank` and `trim` cover the characters those Java definitions name. Unicode digits and letters beyond ASCII are not accepted by the patterns, as in Java.
- JavaText.ParseInt32: reads ASCII digits only. `Integer.parseInt` also reads every other Unicode decimal digit (`Character.digit`), so an id field such as "٣" is id 3 in Java but invalid data (id) in this model.
- A title, description or keyword holding `\n` or `\r` is written by `salvaSuFile` but read back as two lines. The model's file is a sequence of lines, so the round trip is stated only for clean ads, which exclude line terminators; what Java then does with the broken line is not modelled.
- Keyword lists are values. `setParoleChiave` stores the caller's list and `getParoleChiave` returns the ad's own list (src/bacheca/Annuncio.java:97-98, 145), so Java code can change an ad's keywords after the check; the model cannot express that aliasing, and `Manager.Manager.Valid`'s promise that every ad meets its setters' checks holds only for the model.
- A `null` element inside a keyword list is not modelled: a list is a sequence of strings.
- Boards.Board.Search: returns a set of ads rather than the `ArrayList` built from a `HashSet`, whose order Java does not define.
- Manager.Manager.AddKeywords: states the merged keywords as a distinct set-equal list, because the order comes from a `HashSet`.
- `Bacheca.iterator`, `getAnnunci`' array copy and `getBacheca` are not modelled beyond `Boards.Board.Snapshot` and the manager's `board` field.
- The `GestoreBachecaImpl` constructor's null checks are not modelled: the Dafny constructor takes non-null references, and `Valid` is required where the source relies on that.
- `Annuncio.idCounter` and `GestoreUtentiImpl.UTENTI_REGISTRATI` are Java statics. Here they are fields of one `Catalog` object passed to the operations that use them.
- The getters, and `Listings.Listing.IsExpired` and `Listings.Listing.ContainsKeyword`, are direct reads of fields and carry no contract of their own. `Listings.AcceptedNotExpired` states what is proved about expiry.
- The user interfaces (`MainGUI`, `MainCLI`), the website, persistence of the user registry and the tests are not part of this model.
