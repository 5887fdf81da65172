/**
 The user store and its request handlers. The store is a map from a string
 key to a `User`; each handler holds the store's lock for its whole body, so
 each is modelled as one atomic transition from the map before the request to
 the map after it, together with the reply sent back.
 */
module Handlers {
  import opened Users
  import opened Decimal

  type Db = map<string, User>

  /** What a handler answers: a payload, or the not-found reply. */
  datatype Response<T> = Ok(payload: T) | NotFound

  /** The map left behind by a handler and the reply it produced. */
  datatype Transition<T> = Transition(db: Db, reply: Response<T>)

  /** The key `add_user` files a new record under: the current size plus one, in decimal. */
  function NextKey(db: Db): (k: string)
    ensures Canonical(k) && k != "0"
    ensures DecimalToNat(k) == |db| + 1
  {
    ParseOfRender(|db| + 1);
    NatToDecimal(|db| + 1)
  }

  /** `get_user`: looks a key up without touching the map. */
  function GetUser(db: Db, id: string): (t: Transition<User>)
    ensures t.db == db
    ensures t.reply.Ok? <==> id in db
    ensures t.reply.Ok? ==> t.reply.payload == db[id]
  {
    if id in db then Transition(db, Ok(db[id])) else Transition(db, NotFound)
  }

  /**
   `add_user`: stores a record with the request's name under `NextKey(db)` and
   answers with that record. When the key is already live the old record is
   replaced and the map does not grow.
   */
  function AddUser(db: Db, body: User): (t: Transition<User>)
    ensures t.reply == Ok(New(Name(body)))
    ensures NextKey(db) in t.db && t.db[NextKey(db)] == New(Name(body))
    ensures t.db.Keys == db.Keys + {NextKey(db)}
    ensures forall k :: k in db && k != NextKey(db) ==> t.db[k] == db[k]
    ensures NextKey(db) !in db <==> |t.db| == |db| + 1
    ensures NextKey(db) in db <==> |t.db| == |db|
  {
    var user := New(Name(body));
    Transition(db[NextKey(db) := user], Ok(user))
  }

  /** `get_users`: answers with a copy of the whole map and leaves it as it was. */
  function GetUsers(db: Db): (t: Transition<Db>)
    ensures t.db == db
    ensures t.reply.Ok? && t.reply.payload == db
  {
    Transition(db, Ok(db))
  }

  /**
   `update_users`: renames the record under `id` and answers with the renamed
   record; answers not-found and leaves the map alone when `id` is absent.
   */
  function UpdateUser(db: Db, id: string, body: User): (t: Transition<User>)
    ensures id !in db ==> t.db == db && t.reply == NotFound
    ensures id in db ==> t.reply.Ok? && Name(t.reply.payload) == Name(body)
    ensures id in db ==> t.db.Keys == db.Keys && t.db[id] == t.reply.payload
    ensures forall k :: k in db && k != id ==> t.db[k] == db[k]
  {
    if id in db then
      var user := SetName(db[id], Name(body));
      Transition(db[id := user], Ok(user))
    else
      Transition(db, NotFound)
  }

  /**
   `remove_user`: drops `id` if present and answers with a copy of what is
   left. An absent key is not an error: the reply is still the whole map.
   */
  function RemoveUser(db: Db, id: string): (t: Transition<Db>)
    ensures t.db.Keys == db.Keys - {id}
    ensures forall k :: k in t.db ==> t.db[k] == db[k]
    ensures t.reply == Ok(t.db)
    ensures id in db ==> |t.db| == |db| - 1
    ensures id !in db ==> t.db == db
  {
    var rest := db - {id};
    Transition(rest, Ok(rest))
  }

  /** Removing the same key twice leaves what removing it once left, with the same reply. */
  lemma RemoveUserIdempotent(db: Db, id: string)
    ensures RemoveUser(RemoveUser(db, id).db, id) == RemoveUser(db, id)
  {
  }

  /** Removal shrinks the map by at most one record. */
  lemma RemoveUserShrinksByAtMostOne(db: Db, id: string)
    ensures |db| - 1 <= |RemoveUser(db, id).db| <= |db|
  {
  }

  /** A record just created can be read back under `NextKey` of the map it was added to. */
  lemma AddThenGet(db: Db, body: User)
    ensures GetUser(AddUser(db, body).db, NextKey(db)).reply == AddUser(db, body).reply
  {
  }

  /** Updating then reading a present key gives the new name; an absent key stays not-found. */
  lemma UpdateThenGet(db: Db, id: string, body: User)
    ensures id in db ==> GetUser(UpdateUser(db, id, body).db, id).reply == Ok(SetName(db[id], Name(body)))
    ensures id !in db ==> GetUser(UpdateUser(db, id, body).db, id).reply == NotFound
  {
  }

  /** After a removal, the removed key reads as not-found and every other key reads as before. */
  lemma RemoveThenGet(db: Db, id: string, other: string)
    ensures GetUser(RemoveUser(db, id).db, id).reply == NotFound
    ensures other != id ==> GetUser(RemoveUser(db, id).db, other).reply == GetUser(db, other).reply
  {
  }

  /** `k` is the key of one of the numbers 1, ..., n: a canonical decimal of a value in that range. */
  predicate IsKeyUpTo(k: string, n: nat)
  {
    Canonical(k) && 1 <= DecimalToNat(k) <= n
  }

  /** The live keys are exactly "1", ..., "n". */
  ghost predicate KeysAreOneTo(db: Db, n: nat)
  {
    forall k :: k in db <==> IsKeyUpTo(k, n)
  }

  /** The rendering of `i` is a key up to n exactly when 1 <= i <= n. */
  lemma IsKeyUpToRendering(i: nat, n: nat)
    ensures IsKeyUpTo(NatToDecimal(i), n) <==> 1 <= i <= n
  {
    ParseOfRender(i);
  }

  /** Every key up to n is the rendering of its value. */
  lemma IsKeyUpToIsRendering(k: string, n: nat)
    requires IsKeyUpTo(k, n)
    ensures k == NatToDecimal(DecimalToNat(k))
  {
    RenderOfParse(k);
  }

  /** The keys up to n + 1 are the keys up to n and the key "n+1". */
  lemma KeyUpToNext(k: string, n: nat)
    ensures IsKeyUpTo(k, n + 1) <==> IsKeyUpTo(k, n) || k == NatToDecimal(n + 1)
  {
    IsKeyUpToRendering(n + 1, n + 1);
    if IsKeyUpTo(k, n + 1) {
      IsKeyUpToIsRendering(k, n + 1);
    }
  }

  /** The keys "1", ..., "n", as a set built one key at a time. */
  function KeysUpTo(n: nat): set<string>
    decreases n
  {
    if n == 0 then {} else KeysUpTo(n - 1) + {NatToDecimal(n)}
  }

  /** The set "1", ..., "n" holds exactly the keys up to n. */
  lemma {:induction false} KeysUpToMembers(n: nat, k: string)
    ensures k in KeysUpTo(n) <==> IsKeyUpTo(k, n)
    decreases n
  {
    if n > 0 {
      KeysUpToMembers(n - 1, k);
      KeyUpToNext(k, n - 1);
    }
  }

  /** "1", ..., "n" are n distinct keys. */
  lemma {:induction false} KeysUpToSize(n: nat)
    ensures |KeysUpTo(n)| == n
    decreases n
  {
    if n > 0 {
      KeysUpToSize(n - 1);
      KeysUpToMembers(n - 1, NatToDecimal(n));
      IsKeyUpToRendering(n, n - 1);
    }
  }

  /** Keys exactly "1", ..., "n" means the key set is the set "1", ..., "n", in both directions. */
  lemma KeysAreOneToAsSet(db: Db, n: nat)
    ensures KeysAreOneTo(db, n) <==> db.Keys == KeysUpTo(n)
  {
    forall k {
      KeysUpToMembers(n, k);
    }
  }

  /** A map whose keys are "1", ..., "n" holds n records. */
  lemma KeysAreOneToSize(db: Db, n: nat)
    requires KeysAreOneTo(db, n)
    ensures |db| == n
  {
    KeysAreOneToAsSet(db, n);
    KeysUpToSize(n);
    assert |db| == |db.Keys|;
  }

  /**
   The key invariant of `add_user`: if the live keys are exactly "1", ..., "n",
   the new key is "n+1", it is fresh, and the keys become "1", ..., "n+1".
   */
  lemma AddUserKeepsKeysContiguous(db: Db, n: nat, body: User)
    requires KeysAreOneTo(db, n)
    ensures NextKey(db) == NatToDecimal(n + 1) && NextKey(db) !in db
    ensures KeysAreOneTo(AddUser(db, body).db, n + 1)
    ensures |AddUser(db, body).db| == n + 1
  {
    KeysAreOneToSize(db, n);
    var key := NatToDecimal(n + 1);
    IsKeyUpToRendering(n + 1, n);
    IsKeyUpToRendering(n + 1, n + 1);
    var after := db[key := New(Name(body))];
    assert AddUser(db, body).db == after;
    forall k
      ensures k in after <==> IsKeyUpTo(k, n + 1)
    {
      KeyUpToNext(k, n);
    }
  }

  /**
   The collision: when the keys are "1", ..., "n" and some key other than "n"
   is removed, the next create reuses the still-live key "n" and overwrites its
   record, so the map does not grow.
   */
  lemma CreateAfterDeleteOverwrites(db: Db, n: nat, id: string, body: User)
    requires KeysAreOneTo(db, n)
    requires id in db && id != NatToDecimal(n)
    ensures var rest := RemoveUser(db, id).db;
      && NextKey(rest) == NatToDecimal(n)
      && NextKey(rest) in rest
      && |AddUser(rest, body).db| == |rest| == n - 1
      && AddUser(rest, body).db[NatToDecimal(n)] == New(Name(body))
  {
    KeysAreOneToSize(db, n);
    IsKeyUpToRendering(n, n);
  }
}
