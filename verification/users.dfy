/**
 The user record kept by the store. A record holds one field, the user's
 name: there is no identifier inside it, so the map key the store files it
 under is the only identifier a user has.
 */
module Users {

  datatype User = User(name: string)

  /** Builds a record holding the given name. */
  function New(name: string): (u: User)
    ensures u.name == name
  {
    User(name)
  }

  /** Reads the stored name; the record itself is a value and cannot change. */
  function Name(u: User): (n: string)
    ensures New(n) == u
  {
    u.name
  }

  /** Replaces the name. With no other field, the result is a fresh record. */
  function SetName(u: User, name: string): (u': User)
    ensures Name(u') == name
    ensures u' == New(name)
  {
    u.(name := name)
  }

  /** Reading the name of a freshly built record gives back that name. */
  lemma NameOfNew(name: string)
    ensures Name(New(name)) == name
  {
  }

  /** Building a record from a record's name gives back the same record. */
  lemma NewOfName(u: User)
    ensures New(Name(u)) == u
  {
  }

  /** After `set_name(n)`, `name()` answers `n`. */
  lemma SetNameThenName(u: User, name: string)
    ensures Name(SetName(u, name)) == name
  {
  }

  /** Two renames in a row leave only the second one visible. */
  lemma SetNameLastWriteWins(u: User, first: string, second: string)
    ensures SetName(SetName(u, first), second) == SetName(u, second)
  {
  }

  /** Two records are equal exactly when their names are: nothing else is stored. */
  lemma UserIsItsName(u: User, v: User)
    ensures u == v <==> Name(u) == Name(v)
  {
  }
}
