/**
 The store driven by a sequence of requests. The lock serialises handlers, so
 a run of the server is the handlers applied one after another in the order
 they acquired the lock.
 */
module Sessions {
  import opened Users
  import opened Decimal
  import opened Handlers

  /** One request reaching one of the five store handlers. */
  datatype Request =
    | GetOne(id: string)
    | Create(body: User)
    | ListAll
    | Update(id: string, body: User)
    | Delete(id: string)

  /** A reply carries one user (get, create, update) or the whole map (list, delete). */
  datatype Payload = OneUser(user: User) | AllUsers(users: Db)

  function OneUserReply(r: Response<User>): Response<Payload>
  {
    match r
    case Ok(u) => Ok(OneUser(u))
    case NotFound => NotFound
  }

  function AllUsersReply(r: Response<Db>): Response<Payload>
  {
    match r
    case Ok(m) => Ok(AllUsers(m))
    case NotFound => NotFound
  }

  /** Dispatches one request to its handler. */
  function Step(db: Db, req: Request): (t: Transition<Payload>)
    ensures (req.GetOne? || req.ListAll?) ==> t.db == db
    ensures t.reply.NotFound? <==> (req.GetOne? || req.Update?) && req.id !in db
  {
    match req
    case GetOne(id) =>
      var t := GetUser(db, id); Transition(t.db, OneUserReply(t.reply))
    case Create(body) =>
      var t := AddUser(db, body); Transition(t.db, OneUserReply(t.reply))
    case ListAll =>
      var t := GetUsers(db); Transition(t.db, AllUsersReply(t.reply))
    case Update(id, body) =>
      var t := UpdateUser(db, id, body); Transition(t.db, OneUserReply(t.reply))
    case Delete(id) =>
      var t := RemoveUser(db, id); Transition(t.db, AllUsersReply(t.reply))
  }

  /** The map after serving the requests in order. */
  function Run(db: Db, reqs: seq<Request>): Db
    decreases |reqs|
  {
    if |reqs| == 0 then db else Run(Step(db, reqs[0]).db, reqs[1..])
  }

  /** The create requests carrying the given bodies, in order. */
  function Creates(bodies: seq<User>): (reqs: seq<Request>)
    ensures |reqs| == |bodies|
    decreases |bodies|
  {
    if |bodies| == 0 then [] else [Create(bodies[0])] + Creates(bodies[1..])
  }

  /** The i-th request of `Creates(bodies)` creates the i-th body. */
  lemma {:induction false} CreatesAt(bodies: seq<User>, i: nat)
    requires i < |bodies|
    ensures Creates(bodies)[i] == Create(bodies[i])
    decreases i
  {
    if i > 0 {
      CreatesAt(bodies[1..], i - 1);
      assert bodies[1..][i - 1] == bodies[i];
    }
  }

  /** How many of the requests are creates. */
  function CreateCount(reqs: seq<Request>): nat
    decreases |reqs|
  {
    if |reqs| == 0 then 0
    else (if reqs[0].Create? then 1 else 0) + CreateCount(reqs[1..])
  }

  /** A list of creates counts one create per body. */
  lemma {:induction false} CreateCountOfCreates(bodies: seq<User>)
    ensures CreateCount(Creates(bodies)) == |bodies|
    decreases |bodies|
  {
    if |bodies| > 0 {
      CreateCountOfCreates(bodies[1..]);
      assert Creates(bodies)[0] == Create(bodies[0]);
      assert Creates(bodies)[1..] == Creates(bodies[1..]);
    }
  }

  /** The requests that only read leave the map as it was. */
  lemma {:induction false} ReadsLeaveStoreUnchanged(db: Db, reqs: seq<Request>)
    requires forall i :: 0 <= i < |reqs| ==> reqs[i].GetOne? || reqs[i].ListAll?
    ensures Run(db, reqs) == db
    decreases |reqs|
  {
    if |reqs| > 0 {
      ReadsLeaveStoreUnchanged(Step(db, reqs[0]).db, reqs[1..]);
    }
  }

  /** True when no request in the run is a delete. */
  predicate NoDeletes(reqs: seq<Request>)
    decreases |reqs|
  {
    |reqs| == 0 || (!reqs[0].Delete? && NoDeletes(reqs[1..]))
  }

  /** A request other than a delete adds the key of a create and otherwise keeps the keys. */
  lemma StepWithoutDeleteKeys(db: Db, req: Request)
    requires !req.Delete?
    ensures req.Create? ==> Step(db, req).db.Keys == db.Keys + {NextKey(db)}
    ensures !req.Create? ==> Step(db, req).db.Keys == db.Keys
  {
  }

  /** A list of creates holds no delete. */
  lemma {:induction false} CreatesHaveNoDeletes(bodies: seq<User>)
    ensures NoDeletes(Creates(bodies))
    decreases |bodies|
  {
    if |bodies| > 0 {
      CreatesHaveNoDeletes(bodies[1..]);
      assert Creates(bodies)[1..] == Creates(bodies[1..]);
    }
  }

  /** Serving a non-empty run is serving its first request, then the rest. */
  lemma RunUnfold(db: Db, reqs: seq<Request>)
    requires |reqs| > 0
    ensures Run(db, reqs) == Run(Step(db, reqs[0]).db, reqs[1..])
  {
  }

  /** One request other than a delete keeps the keys "1", ..., "n" contiguous, one longer after a create. */
  lemma StepKeepsKeysContiguous(db: Db, n: nat, req: Request)
    requires KeysAreOneTo(db, n)
    requires !req.Delete?
    ensures KeysAreOneTo(Step(db, req).db, n + CreateCount([req]))
  {
    StepWithoutDeleteKeys(db, req);
    assert CreateCount([req]) == if req.Create? then 1 else 0;
    if req.Create? {
      AddUserKeepsKeysContiguous(db, n, req.body);
    }
  }

  /** The creates of a non-empty run are those of its first request plus those of the rest. */
  lemma CreateCountUnfold(reqs: seq<Request>)
    requires |reqs| > 0
    ensures CreateCount(reqs) == CreateCount([reqs[0]]) + CreateCount(reqs[1..])
  {
  }

  /**
   Without deletes, keys never collide: starting from keys "1", ..., "n",
   every create adds one fresh key and nothing else adds or drops one, so the
   keys end as "1", ..., "n + number of creates".
   */
  lemma {:induction false} NoDeletesKeepsKeysContiguous(db: Db, n: nat, reqs: seq<Request>)
    requires KeysAreOneTo(db, n)
    requires NoDeletes(reqs)
    ensures KeysAreOneTo(Run(db, reqs), n + CreateCount(reqs))
    decreases |reqs|
  {
    if |reqs| == 0 {
      assert Run(db, reqs) == db;
    } else {
      var next := Step(db, reqs[0]).db;
      var m := n + CreateCount([reqs[0]]);
      StepKeepsKeysContiguous(db, n, reqs[0]);
      NoDeletesKeepsKeysContiguous(next, m, reqs[1..]);
      RunUnfold(db, reqs);
      CreateCountUnfold(reqs);
    }
  }

  /** Without deletes, the store ends with exactly n + (number of creates) records. */
  lemma NoDeletesSize(db: Db, n: nat, reqs: seq<Request>)
    requires KeysAreOneTo(db, n)
    requires NoDeletes(reqs)
    ensures |Run(db, reqs)| == n + CreateCount(reqs)
  {
    NoDeletesKeepsKeysContiguous(db, n, reqs);
    KeysAreOneToSize(Run(db, reqs), n + CreateCount(reqs));
  }

  /** Serving the creates of a non-empty list is one `add_user`, then the creates of the rest. */
  lemma RunCreatesUnfold(db: Db, bodies: seq<User>)
    requires |bodies| > 0
    ensures Run(db, Creates(bodies)) == Run(AddUser(db, bodies[0]).db, Creates(bodies[1..]))
  {
    assert Creates(bodies)[0] == Create(bodies[0]);
    assert Creates(bodies)[1..] == Creates(bodies[1..]);
    RunUnfold(db, Creates(bodies));
  }

  /**
   A run of creates from keys "1", ..., "n" ends with keys "1", ..., "n + number
   of creates" and keeps every record that was there before.
   */
  lemma {:induction false} CreatesKeepKeysContiguous(db: Db, n: nat, bodies: seq<User>)
    requires KeysAreOneTo(db, n)
    ensures KeysAreOneTo(Run(db, Creates(bodies)), n + |bodies|)
    ensures forall k :: k in db ==> k in Run(db, Creates(bodies)) && Run(db, Creates(bodies))[k] == db[k]
    decreases |bodies|
  {
    if |bodies| == 0 {
      assert Run(db, Creates(bodies)) == db;
    } else {
      var next := AddUser(db, bodies[0]).db;
      var rest := bodies[1..];
      AddUserKeepsKeysContiguous(db, n, bodies[0]);
      RunCreatesUnfold(db, bodies);
      var final := Run(next, Creates(rest));
      CreatesKeepKeysContiguous(next, n + 1, rest);
      assert n + 1 + |rest| == n + |bodies|;
      forall k | k in db
        ensures k in final && final[k] == db[k]
      {
        assert k in next && next[k] == db[k];
      }
    }
  }

  /** The first create of such a run files its record under "n+1", and it stays there. */
  lemma FirstCreateRetrievable(db: Db, n: nat, bodies: seq<User>)
    requires KeysAreOneTo(db, n)
    requires |bodies| > 0
    ensures NatToDecimal(n + 1) in Run(db, Creates(bodies))
    ensures Run(db, Creates(bodies))[NatToDecimal(n + 1)] == New(Name(bodies[0]))
  {
    var next := AddUser(db, bodies[0]).db;
    AddUserKeepsKeysContiguous(db, n, bodies[0]);
    RunCreatesUnfold(db, bodies);
    CreatesKeepKeysContiguous(next, n + 1, bodies[1..]);
    assert NatToDecimal(n + 1) in next;
  }

  /** Serving `a + b` is serving `a` and then `b` on the map `a` leaves. */
  lemma {:induction false} RunAppend(db: Db, a: seq<Request>, b: seq<Request>)
    ensures Run(db, a + b) == Run(Run(db, a), b)
    decreases |a|
  {
    if |a| == 0 {
      assert a + b == b;
    } else {
      assert (a + b)[0] == a[0];
      assert (a + b)[1..] == a[1..] + b;
      RunAppend(Step(db, a[0]).db, a[1..], b);
    }
  }

  /** The creates of a list split where the list splits. */
  lemma {:induction false} CreatesAppend(bodies: seq<User>, i: nat)
    requires i <= |bodies|
    ensures Creates(bodies) == Creates(bodies[..i]) + Creates(bodies[i..])
    decreases i
  {
    if i == 0 {
      assert bodies[..0] == [];
      assert bodies[0..] == bodies;
    } else {
      CreatesAppend(bodies[1..], i - 1);
      assert bodies[1..][..i - 1] == bodies[1..i];
      assert bodies[1..][i - 1..] == bodies[i..];
      assert bodies[..i][0] == bodies[0];
      assert bodies[..i][1..] == bodies[1..i];
    }
  }

  /**
   Every create in such a run stays retrievable: the i-th new record, carrying
   the i-th request's name, ends up filed under "n + i + 1".
   */
  lemma CreatedRecordIsRetrievable(db: Db, n: nat, bodies: seq<User>, i: nat)
    requires KeysAreOneTo(db, n)
    requires i < |bodies|
    ensures NatToDecimal(n + i + 1) in Run(db, Creates(bodies))
    ensures Run(db, Creates(bodies))[NatToDecimal(n + i + 1)] == New(Name(bodies[i]))
  {
    var mid := Run(db, Creates(bodies[..i]));
    assert Run(db, Creates(bodies)) == Run(mid, Creates(bodies[i..])) by {
      CreatesAppend(bodies, i);
      RunAppend(db, Creates(bodies[..i]), Creates(bodies[i..]));
    }
    assert KeysAreOneTo(mid, n + i) by {
      CreatesKeepKeysContiguous(db, n, bodies[..i]);
    }
    FirstCreateRetrievable(mid, n + i, bodies[i..]);
  }
}
