/** leggiDaReader as a function of the file's lines: the loop reads the
    lines after the header one by one, skips blank ones, skips a line whose
    listing is invalid (DatiNonValidiException) and stops at any other
    exception. The registered addresses and the id counter are threaded
    through, as the Java program keeps them in static fields. */
module LoadSpec {
  import opened Base
  import opened JavaText
  import opened Seqs
  import opened Listings
  import opened LineFormat

  /** The loop's state: the listings on the board (as values), the id
      counter, the registered addresses, the largest id read so far and the
      number of skipped lines. */
  datatype LoadState = LoadState(board: seq<ListingData>, counter: int32, emails: seq<string>,
                                 maxId: int32, skipped: nat)

  /** Where the loop stands, and the exception that stopped it, if any. */
  datatype Progress = Progress(state: LoadState, failure: Option<Error>)

  /** One turn of the loop: a line whose trim is empty is passed over;
      any other line goes to the parser. */
  function Step(st: LoadState, line: string): (p: Progress)
    ensures Trim(line) == [] ==> p == Progress(st, None)
    ensures p.failure.Some? ==> !p.failure.value.InvalidData?
    ensures p.failure.None? ==>
      |p.state.board| + p.state.skipped == |st.board| + st.skipped + (if Trim(line) != [] then 1 else 0)
    ensures st.board <= p.state.board && p.state.maxId >= st.maxId
  {
    if Trim(line) == [] then Progress(st, None)
    else Apply(st, ParseLine(line, st.counter, st.emails))
  }

  /** What the loop does with the parser's answer: a parsed listing goes on
      the board (which takes one more id) and may raise the largest id; an
      invalid listing is counted and skipped; any other exception stops the
      loop. The parser's counter and addresses are kept in every case. */
  function Apply(st: LoadState, r: LineResult): (p: Progress)
    ensures p.failure.Some? <==> r.outcome.Err? && !r.outcome.error.InvalidData?
    ensures p.failure.None? ==> |p.state.board| + p.state.skipped == |st.board| + st.skipped + 1
    ensures p.state.emails == r.emails && st.board <= p.state.board && p.state.maxId >= st.maxId
    ensures r.outcome.Ok? ==> p.state.board == st.board + [r.outcome.value] && p.state.maxId >= r.outcome.value.id
  {
    match r.outcome
    case Ok(d) =>
      Progress(LoadState(st.board + [d], Inc(r.counter), r.emails,
                         if d.id > st.maxId then d.id else st.maxId, st.skipped), None)
    case Err(e) =>
      var after := st.(counter := r.counter, emails := r.emails);
      if e.InvalidData? then Progress(after.(skipped := st.skipped + 1), None)
      else Progress(after, Some(e))
  }

  /** The parser's answer decides the counter and the addresses: the
      loop's own counter and addresses before it play no part. */
  lemma ApplyKeepsNothingElse(st: LoadState, st': LoadState, r: LineResult)
    requires st.board == st'.board && st.maxId == st'.maxId && st.skipped == st'.skipped
    ensures Apply(st, r) == Apply(st', r)
  {
  }

  /** A line that is not blank goes to the parser. */
  lemma StepParses(st: LoadState, line: string)
    requires Trim(line) != []
    ensures Step(st, line) == Apply(st, ParseLine(line, st.counter, st.emails))
  {
  }

  /** The loop over the remaining lines. */
  function LoadRows(st: LoadState, rows: seq<string>): (p: Progress)
    ensures st.board <= p.state.board && p.state.maxId >= st.maxId
    ensures p.failure.Some? ==> !p.failure.value.InvalidData?
    decreases |rows|
  {
    if rows == [] then Progress(st, None)
    else
      var p := Step(st, rows[0]);
      if p.failure.Some? then p else LoadRows(p.state, rows[1..])
  }

  /** The state leggiDaReader starts from: svuotaBacheca has emptied the
      board and put the counter back to 1. */
  function Start(emails: seq<string>): LoadState {
    LoadState([], 1, emails, 0, 0)
  }

  /** leggiDaReader: a missing or blank header fails; otherwise the loop
      runs and, if it finishes, the counter is set to the largest id plus
      one. Every failure reaches the caller wrapped in
      GestoreBachecaException. */
  function Load(lines: seq<string>, emails: seq<string>): (p: Progress)
    ensures |lines| == 0 || IsBlank(lines[0]) ==>
      p == Progress(Start(emails), Some(ManagerError(LoadAborted(ManagerError(MissingHeader)))))
    ensures p.failure.Some? ==> p.failure.value.ManagerError? && p.failure.value.manager.LoadAborted?
    ensures p.failure.None? ==> p.state.maxId >= 0 && p.state.counter == Inc(p.state.maxId)
  {
    if |lines| == 0 || IsBlank(lines[0]) then
      Progress(Start(emails), Some(ManagerError(LoadAborted(ManagerError(MissingHeader)))))
    else
      var p := LoadRows(Start(emails), lines[1..]);
      if p.failure.Some? then Progress(p.state, Some(ManagerError(LoadAborted(p.failure.value))))
      else Progress(p.state.(counter := Inc(p.state.maxId)), None)
  }

  /** The largest id of a list of listings, and 0 for none. */
  function MaxIdOf(ds: seq<ListingData>): (m: int32)
    ensures m >= 0 && forall i :: 0 <= i < |ds| ==> ds[i].id <= m
  {
    if ds == [] then 0
    else
      var m := MaxIdOf(ds[..|ds| - 1]);
      var last := ds[|ds| - 1].id;
      assert forall i :: 0 <= i < |ds| - 1 ==> ds[i] == ds[..|ds| - 1][i];
      if last > m then last else m
  }

  /** What the loop keeps true: the largest id is tracked, every listing on
      the board is valid and its owner is registered. */
  ghost predicate Sound(st: LoadState) {
    st.maxId == MaxIdOf(st.board)
    && forall i :: 0 <= i < |st.board| ==> ValidData(st.board[i]) && st.board[i].owner in st.emails
  }

  lemma StepSound(st: LoadState, line: string)
    requires Sound(st)
    ensures Sound(Step(st, line).state)
  {
    if Trim(line) != [] {
      ApplySound(st, ParseLine(line, st.counter, st.emails));
    }
  }

  lemma ApplySound(st: LoadState, r: LineResult)
    requires Sound(st)
    requires r.outcome.Ok? ==> ValidData(r.outcome.value) && r.outcome.value.owner in r.emails
    requires forall e :: e in st.emails ==> e in r.emails
    ensures Sound(Apply(st, r).state)
  {
    var after := Apply(st, r).state;
    if r.outcome.Ok? {
      var d := r.outcome.value;
      var b := st.board + [d];
      assert after.board == b && after.emails == r.emails;
      assert b[..|b| - 1] == st.board;
      assert after.maxId == MaxIdOf(b);
      forall i | 0 <= i < |b|
        ensures ValidData(b[i]) && b[i].owner in r.emails
      {
        if i < |st.board| {
          assert b[i] == st.board[i];
        }
      }
    } else {
      assert after.board == st.board && after.maxId == st.maxId && after.emails == r.emails;
    }
  }

  /** The loop after a turn that did not stop it. */
  lemma RowsCons(st: LoadState, rows: seq<string>)
    requires rows != [] && Step(st, rows[0]).failure.None?
    ensures LoadRows(st, rows) == LoadRows(Step(st, rows[0]).state, rows[1..])
  {
  }

  lemma {:induction false} RowsSound(st: LoadState, rows: seq<string>)
    requires Sound(st)
    ensures Sound(LoadRows(st, rows).state)
    decreases |rows|
  {
    if rows != [] {
      StepSound(st, rows[0]);
      if Step(st, rows[0]).failure.None? {
        RowsSound(Step(st, rows[0]).state, rows[1..]);
      }
    }
  }

  /** After a successful load every listing is valid and owned by a
      registered address, and the counter is one past the largest id read
      (with Java's wrap-around), so the next new listing gets an id that no
      loaded listing has, unless that largest id is Integer.MAX_VALUE. */
  lemma LoadResult(lines: seq<string>, emails: seq<string>)
    requires Load(lines, emails).failure.None?
    ensures var st := Load(lines, emails).state;
      st.counter == Inc(MaxIdOf(st.board))
      && (forall i :: 0 <= i < |st.board| ==> ValidData(st.board[i]) && st.board[i].owner in st.emails)
      && (MaxIdOf(st.board) < MaxInt32 ==> forall i :: 0 <= i < |st.board| ==> st.board[i].id < st.counter)
  {
    RowsSound(Start(emails), lines[1..]);
  }

  /** The lines the loop does not pass over. */
  function NonBlank(rows: seq<string>): seq<string> {
    Filter(rows, (l: string) => Trim(l) != [])
  }

  lemma {:induction false} RowsCount(st: LoadState, rows: seq<string>)
    ensures var p := LoadRows(st, rows);
      p.failure.None? ==> |p.state.board| + p.state.skipped == |st.board| + st.skipped + |NonBlank(rows)|
    decreases |rows|
  {
    if rows != [] {
      var p := Step(st, rows[0]);
      if p.failure.None? {
        RowsCount(p.state, rows[1..]);
        assert LoadRows(st, rows) == LoadRows(p.state, rows[1..]);
        assert |NonBlank(rows)| == (if Trim(rows[0]) != [] then 1 else 0) + |NonBlank(rows[1..])|;
      }
    }
  }

  /** A successful load accounts for every non-blank line: it is either on
      the board or counted as skipped. */
  lemma LoadCount(lines: seq<string>, emails: seq<string>)
    requires Load(lines, emails).failure.None?
    ensures |Load(lines, emails).state.board| + Load(lines, emails).state.skipped == |NonBlank(lines[1..])|
  {
    RowsCount(Start(emails), lines[1..]);
  }

  /** One written line per listing, in board order. */
  function Serialized(ds: seq<ListingData>): (r: seq<string>)
    ensures |r| == |ds| && forall i :: 0 <= i < |ds| ==> r[i] == Serialize(ds[i])
  {
    MapSeq(Serialize, ds)
  }

  /** What salvaSuFile writes: the header, then the listings. */
  function SaveLines(ds: seq<ListingData>): seq<string> {
    [Header] + Serialized(ds)
  }

  /** What salvaSuFile writes for clean listings is a file of whole lines:
      neither the header nor a written listing holds a line terminator, so
      readLine gives back exactly these lines. */
  lemma SavedIsLines(ds: seq<ListingData>)
    requires forall i :: 0 <= i < |ds| ==> Clean(ds[i])
    ensures forall i :: 0 <= i < |SaveLines(ds)| ==> OneLine(SaveLines(ds)[i])
  {
    forall i | 0 <= i < |SaveLines(ds)| ensures OneLine(SaveLines(ds)[i]) {
      if i == 0 {
        HeaderOneLine();
      } else {
        SavedLine(ds, i);
        assert Serialized(ds)[i - 1] == Serialize(ds[i - 1]);
        WrittenIsOneLine(ds[i - 1]);
      }
    }
  }

  lemma SavedLine(ds: seq<ListingData>, i: nat)
    requires 0 < i <= |ds|
    ensures |SaveLines(ds)| == |ds| + 1 && SaveLines(ds)[i] == Serialized(ds)[i - 1]
  {
  }

  lemma HeaderOneLine()
    ensures OneLine(Header)
  {
  }

  /** The listings as a reload numbers them: starting from `c`, two ids
      apart (the parser takes one id for the missing id field, the board
      takes another when the listing is added). */
  function Renumbered(ds: seq<ListingData>, c: int): (r: seq<ListingData>)
    requires 0 <= c && c + 2 * |ds| <= MaxInt32 as int
    ensures |r| == |ds| && forall i :: 0 <= i < |ds| ==> r[i] == ds[i].(id := (c + 2 * i) as int32)
  {
    if ds == [] then [] else [ds[0].(id := c as int32)] + Renumbered(ds[1..], c + 2)
  }

  /** The addresses after the owners of `ds` have been found or created in turn. */
  function RegisterAll(emails: seq<string>, ds: seq<ListingData>): seq<string>
    decreases |ds|
  {
    if ds == [] then emails else RegisterAll(Register(emails, ds[0].owner), ds[1..])
  }

  /** A written line is never passed over as blank: it starts with ';'. */
  lemma WrittenNotBlank(d: ListingData)
    ensures Trim(Serialize(d)) != []
  {
    assert Serialize(d)[0] == ';';
    TrimKeepsFirst(Serialize(d));
  }

  lemma StepSaved(st: LoadState, d: ListingData)
    requires Clean(d)
    ensures Step(st, Serialize(d)) == Progress(
      LoadState(st.board + [d.(id := st.counter)], Inc(Inc(st.counter)), Register(st.emails, d.owner),
                if st.counter > st.maxId then st.counter else st.maxId, st.skipped), None)
  {
    WrittenNotBlank(d);
    ParseSerialized(d, st.counter, st.emails);
  }

  /** Every listing is clean, stated one listing at a time. */
  predicate AllClean(ds: seq<ListingData>)
    decreases |ds|
  {
    ds == [] || (Clean(ds[0]) && AllClean(ds[1..]))
  }

  lemma {:induction false} AllCleanOf(ds: seq<ListingData>)
    requires forall i :: 0 <= i < |ds| ==> Clean(ds[i])
    ensures AllClean(ds)
    decreases |ds|
  {
    if ds != [] {
      assert forall i :: 0 <= i < |ds[1..]| ==> ds[1..][i] == ds[i + 1];
      AllCleanOf(ds[1..]);
    }
  }

  /** The loop reads the first written line back and goes on with the rest. */
  lemma RowsOfSavedHead(st: LoadState, ds: seq<ListingData>)
    requires ds != [] && Clean(ds[0])
    ensures LoadRows(st, Serialized(ds)) == LoadRows(
      LoadState(st.board + [ds[0].(id := st.counter)], Inc(Inc(st.counter)), Register(st.emails, ds[0].owner),
                if st.counter > st.maxId then st.counter else st.maxId, st.skipped),
      Serialized(ds[1..]))
  {
    var rows := Serialized(ds);
    MapTail(Serialize, ds);
    StepSaved(st, ds[0]);
    RowsCons(st, rows);
  }

  lemma {:induction false} RowsOfSaved(st: LoadState, ds: seq<ListingData>)
    requires AllClean(ds)
    requires 0 <= st.maxId < st.counter && st.counter as int + 2 * |ds| <= MaxInt32 as int
    ensures LoadRows(st, Serialized(ds)) == Progress(
      LoadState(st.board + Renumbered(ds, st.counter as int), (st.counter as int + 2 * |ds|) as int32,
                RegisterAll(st.emails, ds),
                if ds == [] then st.maxId else (st.counter as int + 2 * |ds| - 2) as int32, st.skipped), None)
    decreases |ds|
  {
    if ds != [] {
      var d := ds[0];
      var c := st.counter;
      RowsOfSavedHead(st, ds);
      var next := LoadState(st.board + [d.(id := c)], (c as int + 2) as int32, Register(st.emails, d.owner), c, st.skipped);
      assert LoadState(st.board + [d.(id := c)], Inc(Inc(c)), Register(st.emails, d.owner),
                       if c > st.maxId then c else st.maxId, st.skipped) == next;
      RowsOfSaved(next, ds[1..]);
      SavedAfterHead(st, ds);
    }
  }

  /** The state after the first written line and the rest agrees with the
      state the whole of `ds` promises. */
  lemma SavedAfterHead(st: LoadState, ds: seq<ListingData>)
    requires ds != [] && 0 <= st.maxId < st.counter && st.counter as int + 2 * |ds| <= MaxInt32 as int
    ensures var c := st.counter as int;
      var next := LoadState(st.board + [ds[0].(id := c as int32)], (c + 2) as int32, Register(st.emails, ds[0].owner),
                            c as int32, st.skipped);
      LoadState(next.board + Renumbered(ds[1..], c + 2), (c + 2 + 2 * |ds[1..]|) as int32,
                RegisterAll(next.emails, ds[1..]),
                if ds[1..] == [] then next.maxId else (c + 2 + 2 * |ds[1..]| - 2) as int32, next.skipped)
      == LoadState(st.board + Renumbered(ds, c), (c + 2 * |ds|) as int32, RegisterAll(st.emails, ds),
                   (c + 2 * |ds| - 2) as int32, st.skipped)
  {
    RenumberedCons(st.board, ds, st.counter as int);
  }

  lemma RenumberedCons(b: seq<ListingData>, ds: seq<ListingData>, c: int)
    requires ds != [] && 0 <= c && c + 2 * |ds| <= MaxInt32 as int
    ensures b + Renumbered(ds, c) == (b + [ds[0].(id := c as int32)]) + Renumbered(ds[1..], c + 2)
  {
    var r := Renumbered(ds[1..], c + 2);
    assert Renumbered(ds, c) == [ds[0].(id := c as int32)] + r;
    assert b + ([ds[0].(id := c as int32)] + r) == (b + [ds[0].(id := c as int32)]) + r;
  }

  /** Saving a board of clean listings and loading the file back gives the
      same listings in the same order, renumbered 1, 3, 5, … (the file
      carries no ids), with the counter one past the last of them; nothing
      is skipped. */
  lemma SaveThenLoad(ds: seq<ListingData>, emails: seq<string>)
    requires forall i :: 0 <= i < |ds| ==> Clean(ds[i])
    requires 2 * |ds| < MaxInt32 as int
    ensures Load(SaveLines(ds), emails) == Progress(
      LoadState(Renumbered(ds, 1), if ds == [] then 1 else (2 * |ds|) as int32, RegisterAll(emails, ds),
                if ds == [] then 0 else (2 * |ds| - 1) as int32, 0), None)
  {
    AllCleanOf(ds);
    LoadSaved(ds, emails);
  }

  lemma LoadSaved(ds: seq<ListingData>, emails: seq<string>)
    requires AllClean(ds)
    requires 2 * |ds| < MaxInt32 as int
    ensures Load(SaveLines(ds), emails) == Progress(
      LoadState(Renumbered(ds, 1), if ds == [] then 1 else (2 * |ds|) as int32, RegisterAll(emails, ds),
                if ds == [] then 0 else (2 * |ds| - 1) as int32, 0), None)
  {
    SavedShape(ds);
    SavedRows(ds, emails);
    LoadAfterHeader(SaveLines(ds), emails);
  }

  /** A saved file: the header, which is not blank, then the written rows. */
  lemma SavedShape(ds: seq<ListingData>)
    ensures |SaveLines(ds)| > 0 && !IsBlank(SaveLines(ds)[0]) && SaveLines(ds)[1..] == Serialized(ds)
  {
    HeaderNotBlank();
    assert SaveLines(ds)[0] == Header;
  }

  /** The written rows, read from the start of the loop. */
  lemma SavedRows(ds: seq<ListingData>, emails: seq<string>)
    requires AllClean(ds)
    requires 2 * |ds| < MaxInt32 as int
    ensures LoadRows(Start(emails), Serialized(ds)) == Progress(
      LoadState(Renumbered(ds, 1), (1 + 2 * |ds|) as int32, RegisterAll(emails, ds),
                if ds == [] then 0 else (2 * |ds| - 1) as int32, 0), None)
  {
    RowsOfSaved(Start(emails), ds);
    assert [] + Renumbered(ds, 1) == Renumbered(ds, 1);
  }

  /** A file with a header that the loop reads to the end. */
  lemma LoadAfterHeader(lines: seq<string>, emails: seq<string>)
    requires |lines| > 0 && !IsBlank(lines[0]) && LoadRows(Start(emails), lines[1..]).failure.None?
    ensures Load(lines, emails) == Progress(
      LoadRows(Start(emails), lines[1..]).state.(counter := Inc(LoadRows(Start(emails), lines[1..]).state.maxId)), None)
  {
  }

  lemma RowsStop(st: LoadState, rows: seq<string>)
    requires rows != [] && Step(st, rows[0]).failure.Some?
    ensures LoadRows(st, rows) == Step(st, rows[0])
  {
  }

  lemma LoadAborts(lines: seq<string>, emails: seq<string>)
    requires |lines| > 0 && !IsBlank(lines[0]) && LoadRows(Start(emails), lines[1..]).failure.Some?
    ensures Load(lines, emails) == Progress(LoadRows(Start(emails), lines[1..]).state,
      Some(ManagerError(LoadAborted(LoadRows(Start(emails), lines[1..]).failure.value))))
  {
  }

  lemma HeaderNotBlank()
    ensures !IsBlank(Header)
  {
    var h := Header;
    assert h[0] == 'B' && !IsWhitespace(h[0]);
  }
}
