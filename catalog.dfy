/** The catalog: the state the Java program keeps in two static fields,
    the listing id counter of Annuncio and the user list of
    GestoreUtentiImpl, held here by one object that is passed explicitly.
    Its methods are getNextId and resetIdCounter of Annuncio and the
    operations of GestoreUtentiImpl. */
module Catalog {
  import opened Base
  import opened Seqs
  import opened Users

  /** The addresses of a user list, in order. */
  function Emails(us: seq<User>): (r: seq<string>)
    ensures |r| == |us| && forall i :: 0 <= i < |us| ==> r[i] == us[i].email
  {
    seq(|us|, i requires 0 <= i < |us| => us[i].email)
  }

  /** Registering one more user adds its address at the end. */
  lemma EmailsSnoc(us: seq<User>, u: User)
    ensures Emails(us + [u]) == Emails(us) + [u.email]
  {
  }

  /** The registry invariant: no two users share an address. */
  predicate UniqueEmails(us: seq<User>) {
    forall i, j :: 0 <= i < j < |us| ==> us[i].email != us[j].email
  }

  /** `u.getEmail().equals(email)`, which is false for a null address. */
  predicate HasEmail(u: User, email: Option<string>) {
    email.Some? && u.email == email.value
  }

  /** With unique addresses, removing by address removes at most one user. */
  lemma {:induction false} RemoveByEmailAtMostOne(us: seq<User>, email: Option<string>)
    requires UniqueEmails(us)
    ensures |Filter(us, u => !HasEmail(u, email))| + 1 >= |us|
    ensures email.Some? && email.value in Emails(us) ==> |Filter(us, u => !HasEmail(u, email))| + 1 == |us|
  {
    var keep := (u: User) => !HasEmail(u, email);
    if us != [] {
      assert UniqueEmails(us[1..]) by {
        forall i, j | 0 <= i < j < |us[1..]| ensures us[1..][i].email != us[1..][j].email {
          assert us[1..][i] == us[i + 1] && us[1..][j] == us[j + 1];
        }
      }
      RemoveByEmailAtMostOne(us[1..], email);
      if !keep(us[0]) {
        FilterLength(us[1..], keep);
        forall i | 0 <= i < |us[1..]| ensures keep(us[1..][i]) {
          assert us[1..][i] == us[i + 1];
        }
      } else if email.Some? && email.value in Emails(us) {
        var k :| 0 <= k < |us| && Emails(us)[k] == email.value;
        assert k > 0;
        assert Emails(us[1..])[k - 1] == email.value;
      }
    }
  }

  /** Removing by address keeps the addresses unique. */
  lemma RemoveKeepsUnique(us: seq<User>, email: Option<string>)
    requires UniqueEmails(us)
    ensures UniqueEmails(Filter(us, u => !HasEmail(u, email)))
  {
    var keep := (u: User) => !HasEmail(u, email);
    var f := Filter(us, keep);
    forall i, j | 0 <= i < j < |f| ensures f[i].email != f[j].email {
      SubsequenceOfFilter(us, keep, i, j);
    }
  }

  /** Two positions of a filtered list come from two increasing positions
      of the original. */
  lemma {:induction false} SubsequenceOfFilter(us: seq<User>, keep: User -> bool, i: int, j: int)
    requires 0 <= i < j < |Filter(us, keep)|
    ensures exists a, b :: 0 <= a < b < |us| && us[a] == Filter(us, keep)[i] && us[b] == Filter(us, keep)[j]
  {
    var rest := Filter(us[1..], keep);
    if keep(us[0]) {
      if i == 0 {
        FilterMembers(us[1..], keep, Filter(us, keep)[j]);
        var b :| 0 <= b < |us[1..]| && us[1..][b] == Filter(us, keep)[j];
        assert us[b + 1] == Filter(us, keep)[j];
      } else {
        SubsequenceOfFilter(us[1..], keep, i - 1, j - 1);
        var a, b :| 0 <= a < b < |us[1..]| && us[1..][a] == rest[i - 1] && us[1..][b] == rest[j - 1];
        assert us[a + 1] == Filter(us, keep)[i] && us[b + 1] == Filter(us, keep)[j];
      }
    } else {
      SubsequenceOfFilter(us[1..], keep, i, j);
      var a, b :| 0 <= a < b < |us[1..]| && us[1..][a] == rest[i] && us[1..][b] == rest[j];
      assert us[a + 1] == Filter(us, keep)[i] && us[b + 1] == Filter(us, keep)[j];
    }
  }

  class Catalog {
    /** Annuncio.idCounter: the next id a new listing takes. */
    var nextId: int32
    /** GestoreUtentiImpl.UTENTI_REGISTRATI, in registration order. */
    var users: seq<User>

    ghost predicate Valid()
      reads this
    {
      UniqueEmails(users)
    }

    /** The state at program start: the counter at 1, no users. */
    constructor ()
      ensures Valid() && nextId == 1 && users == []
    {
      nextId := 1;
      users := [];
    }

    /** Annuncio.getNextId: returns the counter, then increments it (Java
        `idCounter++`, wrapping at Integer.MAX_VALUE). */
    method NextId() returns (id: int32)
      modifies this`nextId
      ensures id == old(nextId) && nextId == Inc(old(nextId))
    {
      id := nextId;
      nextId := Inc(nextId);
    }

    /** Annuncio.resetIdCounter. */
    method ResetIdCounter(n: int32)
      modifies this`nextId
      ensures nextId == n
    {
      nextId := n;
    }

    /** aggiungiUtente: rejects null, then an address already registered;
        otherwise appends the user. */
    method AddUser(u: User?) returns (r: Outcome)
      requires Valid()
      modifies this`users
      ensures Valid()
      ensures u == null ==> r == Fail(IllegalArgument(NullUser)) && users == old(users)
      ensures u != null && u.email in Emails(old(users)) ==>
        r == Fail(IllegalArgument(DuplicateEmail)) && users == old(users)
      ensures u != null && u.email !in Emails(old(users)) ==> r == Pass && users == old(users) + [u]
    {
      if u == null {
        return Fail(IllegalArgument(NullUser));
      }
      var i := 0;
      while i < |users|
        invariant 0 <= i <= |users|
        invariant u.email !in Emails(users[..i])
      {
        if users[i].email == u.email {
          assert Emails(users)[i] == u.email;
          return Fail(IllegalArgument(DuplicateEmail));
        }
        assert users[..i + 1] == users[..i] + [users[i]];
        i := i + 1;
      }
      assert users[..i] == users;
      users := users + [u];
      return Pass;
    }

    /** rimuoviUtente: removes every user with exactly this address (at most
        one, by the invariant), keeping the others in order; true iff the
        list shrank. */
    method RemoveUser(email: Option<string>) returns (removed: bool)
      requires Valid()
      modifies this`users
      ensures Valid()
      ensures users == Filter(old(users), u => !HasEmail(u, email))
      ensures removed <==> |users| < |old(users)|
      ensures removed <==> email.Some? && email.value in Emails(old(users))
    {
      var keep := (u: User) => !HasEmail(u, email);
      var all := users;
      var kept := KeepOnly(all, keep);
      RemoveKeepsUnique(all, email);
      RemoveByEmailAtMostOne(all, email);
      FilterLength(all, keep);
      if email.Some? && email.value !in Emails(all) {
        forall j | 0 <= j < |all| ensures keep(all[j]) {
          assert Emails(all)[j] == all[j].email;
        }
      }
      removed := |kept| < |all|;
      users := kept;
    }

    /** cercaUtente: the first user with this address, or null; a null
        address finds nobody. */
    method FindUser(email: Option<string>) returns (u: User?)
      ensures u == null <==> email.None? || email.value !in Emails(users)
      ensures u != null ==>
        exists k :: 0 <= k < |users| && users[k] == u && u.email == email.value
          && forall j :: 0 <= j < k ==> users[j].email != email.value
    {
      if email.None? {
        return null;
      }
      var i := 0;
      while i < |users|
        invariant 0 <= i <= |users|
        invariant forall j :: 0 <= j < i ==> users[j].email != email.value
      {
        if users[i].email == email.value {
          return users[i];
        }
        i := i + 1;
      }
      return null;
    }

    /** getUtentiRegistrati: a copy of the list in registration order; a
        Dafny sequence is a value, so changing the copy cannot reach the
        registry. */
    method RegisteredUsers() returns (s: seq<User>)
      ensures s == users
    {
      s := users;
    }
  }
}
