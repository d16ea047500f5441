/** Utente: a registered person, identified by an immutable e-mail address,
    with a name that can be changed later. */
module Users {
  import opened Base
  import opened JavaText
  import opened Patterns

  /** checkEmail: false for null, otherwise the e-mail pattern. */
  predicate CheckEmail(email: Option<string>) {
    email.Some? && MatchesEmail(email.value)
  }

  /** The exception the Utente constructor throws, if any: the address is
      checked before the name. */
  function UserError(email: Option<string>, name: Option<string>): (r: Option<Error>)
    ensures r.None? <==> CheckEmail(email) && !NullOrBlank(name)
    ensures !CheckEmail(email) ==> r == Some(IllegalArgument(InvalidEmail))
    ensures CheckEmail(email) && NullOrBlank(name) ==> r == Some(IllegalArgument(BlankName))
  {
    if !CheckEmail(email) then Some(IllegalArgument(InvalidEmail))
    else if NullOrBlank(name) then Some(IllegalArgument(BlankName))
    else None
  }

  class User {
    /** Fixed at construction: the identity of the user. */
    const email: string
    var name: string

    constructor Make(email: string, name: string)
      requires UserError(Some(email), Some(name)).None?
      ensures this.email == email && this.name == Trim(name)
    {
      this.email := email;
      this.name := Trim(name);
    }

    /** The Utente constructor: rejects a null or malformed address, then a
        null or blank name; stores the name trimmed. */
    static method New(email: Option<string>, name: Option<string>) returns (r: Result<User>)
      ensures UserError(email, name).Some? ==> r == Err(UserError(email, name).value)
      ensures UserError(email, name).None? ==>
        r.Ok? && fresh(r.value) && r.value.email == email.value && r.value.name == Trim(name.value)
    {
      var error := UserError(email, name);
      if error.Some? {
        return Err(error.value);
      }
      var u := new User.Make(email.value, name.value);
      return Ok(u);
    }

    /** setNome: rejects a null or blank name and keeps the old one;
        otherwise stores the argument as given, without trimming. */
    method SetName(n: Option<string>) returns (r: Outcome)
      modifies this
      ensures NullOrBlank(n) ==> r == Fail(IllegalArgument(BlankName)) && name == old(name)
      ensures !NullOrBlank(n) ==> r == Pass && name == n.value
    {
      if NullOrBlank(n) {
        return Fail(IllegalArgument(BlankName));
      }
      name := n.value;
      return Pass;
    }

    /** equals: the same object, or another user with the same address,
        compared case-sensitively; the name plays no part. */
    predicate Equals(other: User?)
      ensures Equals(other) <==> other != null && other.email == email
    {
      other == this || (other != null && email == other.email)
    }
  }

  /** User equality is an equivalence relation on the address alone. */
  lemma EqualsIsEquivalence(a: User, b: User, c: User)
    ensures a.Equals(a)
    ensures a.Equals(b) <==> b.Equals(a)
    ensures a.Equals(b) && b.Equals(c) ==> a.Equals(c)
  {
  }
}
