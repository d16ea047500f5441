/** Bacheca: the ordered list of listings on the board, with insertion,
    keyword search and the two removals. Listings are compared by
    reference, as Annuncio does not override `equals`. */
module Boards {
  import opened Base
  import opened Seqs
  import opened Users
  import opened Catalog
  import opened Listings

  /** The listing carries at least one of the query words (exact,
      case-sensitive comparison). */
  predicate Mentions(l: Listing, q: seq<string>)
    reads l
  {
    exists i :: 0 <= i < |q| && q[i] in l.keywords
  }

  /** The listings of `ls` that a search for `q` finds. */
  function Hits(ls: seq<Listing>, q: seq<string>): set<Listing>
    reads set l | l in ls
  {
    set l | l in ls && Mentions(l, q)
  }

  /** Searching for two word lists at once finds exactly what the two
      separate searches find together. */
  lemma HitsUnion(ls: seq<Listing>, q1: seq<string>, q2: seq<string>)
    ensures Hits(ls, q1 + q2) == Hits(ls, q1) + Hits(ls, q2)
  {
    forall l | l in ls
      ensures Mentions(l, q1 + q2) <==> Mentions(l, q1) || Mentions(l, q2)
    {
      if Mentions(l, q1) {
        var i :| 0 <= i < |q1| && q1[i] in l.keywords;
        assert (q1 + q2)[i] == q1[i];
      }
      if Mentions(l, q2) {
        var i :| 0 <= i < |q2| && q2[i] in l.keywords;
        assert (q1 + q2)[|q1| + i] == q2[i];
      }
      if Mentions(l, q1 + q2) {
        var i :| 0 <= i < |q1 + q2| && (q1 + q2)[i] in l.keywords;
        if i < |q1| {
          assert q1[i] == (q1 + q2)[i];
        } else {
          assert q2[i - |q1|] == (q1 + q2)[i];
        }
      }
    }
  }

  /** A listing is found exactly when it holds one of the words. */
  lemma HitsMembers(ls: seq<Listing>, q: seq<string>, l: Listing)
    ensures l in Hits(ls, q) <==> l in ls && exists w :: w in q && w in l.keywords
  {
    if l in ls && exists w :: w in q && w in l.keywords {
      var w :| w in q && w in l.keywords;
      var i :| 0 <= i < |q| && q[i] == w;
      assert Mentions(l, q);
    }
  }

  lemma HitsSnoc(ls: seq<Listing>, l: Listing, q: seq<string>)
    ensures Hits(ls + [l], q) == Hits(ls, q) + (if Mentions(l, q) then {l} else {})
  {
    assert forall x :: x in ls + [l] <==> x in ls || x == l;
  }

  /** `annuncio.getId() == id && annuncio.getUtente().equals(utente)`. */
  predicate OwnedMatch(l: Listing, id: int32, owner: User?) {
    l.id == id && l.owner.Equals(owner)
  }

  class Board {
    /** Bacheca.annunci, in insertion order. */
    var listings: seq<Listing>

    /** No listing appears twice: aggiungiAnnuncio refuses an object that
        is already there. */
    ghost predicate Valid()
      reads this
    {
      Distinct(listings)
    }

    constructor ()
      ensures Valid() && listings == []
    {
      listings := [];
    }

    /** aggiungiAnnuncio: rejects null; otherwise takes an id from the
        counter (a call kept from an older design, whose id is thrown away)
        and then appends the listing unless that very object is already on
        the board. */
    method Add(cat: Catalog, l: Listing?) returns (r: Outcome)
      requires Valid()
      modifies this`listings, cat`nextId
      ensures Valid()
      ensures l == null ==> r == Fail(BoardError(NullListing)) && listings == old(listings) && cat.nextId == old(cat.nextId)
      ensures l != null ==> cat.nextId == Inc(old(cat.nextId))
      ensures l != null && l in old(listings) ==> r == Fail(BoardError(DuplicateListing)) && listings == old(listings)
      ensures l != null && l !in old(listings) ==> r == Pass && listings == old(listings) + [l]
    {
      if l == null {
        return Fail(BoardError(NullListing));
      }
      var _ := cat.NextId();
      if l in listings {
        return Fail(BoardError(DuplicateListing));
      }
      listings := listings + [l];
      return Pass;
    }

    /** cercaPerParoleChiave: rejects a null or empty query; otherwise the
        set of listings holding at least one of the words. */
    method Search(q: Option<seq<string>>) returns (r: Result<set<Listing>>)
      ensures q.None? || q.value == [] ==> r == Err(BoardError(EmptyQuery))
      ensures q.Some? && q.value != [] ==> r == Ok(Hits(listings, q.value))
    {
      if q.None? || q.value == [] {
        return Err(BoardError(EmptyQuery));
      }
      var words := q.value;
      var found: set<Listing> := {};
      var i := 0;
      while i < |listings|
        invariant 0 <= i <= |listings|
        invariant found == Hits(listings[..i], words)
      {
        var l := listings[i];
        var j := 0;
        while j < |words|
          invariant 0 <= j <= |words|
          invariant found == Hits(listings[..i], words) + (if Mentions(l, words[..j]) then {l} else {})
        {
          if words[j] in l.keywords {
            found := found + {l};
          }
          assert Mentions(l, words[..j + 1]) <==> Mentions(l, words[..j]) || words[j] in l.keywords by {
            if Mentions(l, words[..j + 1]) {
              var k :| 0 <= k < j + 1 && words[..j + 1][k] in l.keywords;
              if k < j {
                assert words[..j][k] == words[..j + 1][k];
              }
            }
            if Mentions(l, words[..j]) {
              var k :| 0 <= k < j && words[..j][k] in l.keywords;
              assert words[..j + 1][k] == words[..j][k];
            }
            if words[j] in l.keywords {
              assert words[..j + 1][j] == words[j];
            }
          }
          j := j + 1;
        }
        assert words[..j] == words;
        HitsSnoc(listings[..i], l, words);
        assert listings[..i + 1] == listings[..i] + [l];
        i := i + 1;
      }
      assert listings[..i] == listings;
      return Ok(found);
    }

    /** rimuoviAnnuncio(id, utente): removes every listing with this id whose
        owner equals `owner` (same address); true iff something was
        removed. */
    method RemoveByIdAndOwner(id: int32, owner: User?) returns (removed: bool)
      requires Valid()
      modifies this`listings
      ensures Valid()
      ensures listings == Filter(old(listings), l => !OwnedMatch(l, id, owner))
      ensures removed <==> exists k :: 0 <= k < |old(listings)| && OwnedMatch(old(listings)[k], id, owner)
    {
      var keep := (l: Listing) => !OwnedMatch(l, id, owner);
      var all := listings;
      listings := KeepOnly(all, keep);
      FilterLength(all, keep);
      FilterDistinct(all, keep);
      removed := |listings| < |all|;
    }

    /** rimuoviAnnuncio(lista): a null or empty list removes nothing;
        otherwise every listing that is one of the given objects goes;
        true iff something was removed. */
    method RemoveAll(rs: Option<seq<Listing>>) returns (changed: bool)
      requires Valid()
      modifies this`listings
      ensures Valid()
      ensures rs.None? || rs.value == [] ==> !changed && listings == old(listings)
      ensures rs.Some? && rs.value != [] ==> listings == Filter(old(listings), l => l !in rs.value)
      ensures changed <==> exists k :: 0 <= k < |old(listings)| && rs.Some? && old(listings)[k] in rs.value
    {
      if rs.None? || rs.value == [] {
        return false;
      }
      var keep := (l: Listing) => l !in rs.value;
      var all := listings;
      listings := KeepOnly(all, keep);
      FilterLength(all, keep);
      FilterDistinct(all, keep);
      changed := |listings| < |all|;
    }

    /** getAnnunci: a copy of the listings in board order. */
    method Snapshot() returns (s: seq<Listing>)
      ensures s == listings
    {
      s := listings;
    }

    /** svuotaBacheca: empties the board and puts the id counter back to 1. */
    method Clear(cat: Catalog)
      modifies this`listings, cat`nextId
      ensures Valid() && listings == [] && cat.nextId == 1
    {
      listings := [];
      cat.ResetIdCounter(1);
    }
  }
}
