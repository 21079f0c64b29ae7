/**
 The one computed property of the home screen: the name it greets the user
 with, derived from the signed-in user's e-mail.

 Foundation's `capitalized` depends on the locale and on Unicode case
 tables, so it is not defined here: `DisplayName` takes it as a parameter,
 and the properties below hold for every choice of it.
 */
module HomeView {
  import opened Domain
  import opened Split

  /** The character the e-mail is split on. */
  const At: char := '@'

  /** The name shown when the e-mail yields no piece at all. */
  const FallbackName: string := "User"

  /** Every character of `s` is an `'@'` (vacuously so for the empty string). */
  predicate AllAt(s: string)
  {
    forall i :: 0 <= i < |s| ==> s[i] == At
  }

  /** `email.split(separator: "@").first`: the piece of the e-mail that is
      capitalised. It is absent exactly when the e-mail is empty or made of
      `'@'`s only; when present it is non-empty and holds no `'@'`. */
  function NameSegment(email: string): (seg: Option<string>)
    ensures seg.None? <==> AllAt(email)
    ensures seg.Some? ==> seg.value != [] && Free(seg.value, At)
  {
    SplitEmptyIffAllSeparators(email, At);
    var pieces := SplitOn(email, At);
    if pieces == [] then None else Some(pieces[0])
  }

  /** `HomeView.displayName`: the capitalised first piece, or `"User"`. */
  function DisplayName(email: string, capitalize: string -> string): (name: string)
    ensures AllAt(email) ==> name == FallbackName
    ensures !AllAt(email) ==> name == capitalize(NameSegment(email).value)
  {
    match NameSegment(email)
    case Some(segment) => capitalize(segment)
    case None => FallbackName
  }

  /** An e-mail without `'@'` is capitalised as a whole. */
  lemma DisplayNameWithoutAt(email: string, capitalize: string -> string)
    requires email != [] && Free(email, At)
    ensures DisplayName(email, capitalize) == capitalize(email)
  {
    SplitOfFree(email, At);
  }

  /** For `local@domain` with a non-empty local part, the local part (the
      text before the first `'@'`) is what gets capitalised, whatever the
      domain holds, further `'@'`s included. */
  lemma DisplayNameOfLocalPart(local: string, domain: string, capitalize: string -> string)
    requires local != [] && Free(local, At)
    ensures DisplayName(local + [At] + domain, capitalize) == capitalize(local)
  {
    SplitFirstPiece(local, domain, At);
  }

  /** Leading `'@'`s are skipped, since the empty pieces before them are
      dropped: prefixing any number of them does not change the name. */
  lemma DisplayNameSkipsLeadingAt(lead: string, email: string, capitalize: string -> string)
    requires AllAt(lead)
    ensures DisplayName(lead + email, capitalize) == DisplayName(email, capitalize)
  {
    SplitSkipsLeadingSeparators(lead, email, At);
  }

  /** The worked example: `"@bob@x"` greets `bob`, capitalised. */
  lemma DisplayNameOfLeadingAtExample(capitalize: string -> string)
    ensures DisplayName("@bob@x", capitalize) == capitalize("bob")
  {
    assert "@bob@x" == "@" + ("bob" + [At] + "x");
    DisplayNameSkipsLeadingAt("@", "bob" + [At] + "x", capitalize);
    DisplayNameOfLocalPart("bob", "x", capitalize);
  }

  /** If capitalising never empties a non-empty string, the greeting is
      never empty, whatever the e-mail. */
  lemma DisplayNameNeverEmpty(email: string, capitalize: string -> string)
    requires forall s :: s != [] ==> capitalize(s) != []
    ensures DisplayName(email, capitalize) != []
  {
  }
}
