/**
 The store as the server starts it: a map holding one record, "Alice" under
 key "1". Binding the listener and registering routes are not modelled.
 */
module Startup {
  import opened Users
  import opened Decimal
  import opened Handlers
  import opened Sessions

  /** The map the server starts with. */
  function Seed(): (db: Db)
    ensures |db| == 1 && GetUser(db, "1").reply == Ok(New("Alice"))
  {
    map["1" := New("Alice")]
  }

  /**
   The seed already follows the key rule: its only key is "1", the key the
   first create of an empty store would use, and Alice is found under it.
   */
  lemma SeedKeysAreOneTo()
    ensures KeysAreOneTo(Seed(), 1) && |Seed()| == 1
    ensures GetUser(Seed(), "1").reply == Ok(New("Alice"))
    ensures NextKey(map[]) == "1"
  {
    var db := Seed();
    assert NatToDecimal(1) == "1";
    assert db.Keys == KeysUpTo(1);
    KeysAreOneToAsSet(db, 1);
  }

  /**
   From the seed, creates alone never collide: k creates leave 1 + k records,
   Alice is still under "1", and the i-th created record is under "i + 2".
   */
  lemma CreatesFromSeed(bodies: seq<User>, i: nat)
    ensures |Run(Seed(), Creates(bodies))| == 1 + |bodies|
    ensures GetUser(Run(Seed(), Creates(bodies)), "1").reply == Ok(New("Alice"))
    ensures i < |bodies| ==>
      GetUser(Run(Seed(), Creates(bodies)), NatToDecimal(i + 2)).reply == Ok(New(Name(bodies[i])))
  {
    var seed := Seed();
    var final := Run(seed, Creates(bodies));
    SeedKeysAreOneTo();
    CreatesKeepKeysContiguous(seed, 1, bodies);
    assert "1" in seed;
    KeysAreOneToSize(final, 1 + |bodies|);
    if i < |bodies| {
      CreatedRecordIsRetrievable(seed, 1, bodies, i);
      assert 1 + i + 1 == i + 2;
    }
  }

  /** On an empty store, k creates in a row leave exactly k records. */
  lemma CreatesFromEmpty(bodies: seq<User>)
    ensures |Run(map[], Creates(bodies))| == |bodies|
  {
    var empty: Db := map[];
    KeysAreOneToAsSet(empty, 0);
    CreatesHaveNoDeletes(bodies);
    NoDeletesSize(empty, 0, Creates(bodies));
    CreateCountOfCreates(bodies);
  }

  /**
   The collision, concretely: with "1" and "2" live, deleting "1" and then
   creating files the new record under "2", replacing the one there, and
   leaves a single record.
   */
  lemma DeleteOneThenCreateOverwritesTwo(first: User, second: User, body: User)
    ensures var db := map["1" := first, "2" := second];
      var rest := RemoveUser(db, "1").db;
      && NextKey(rest) == "2"
      && AddUser(rest, body).db == map["2" := New(Name(body))]
  {
    var db := map["1" := first, "2" := second];
    var rest := RemoveUser(db, "1").db;
    assert rest == map["2" := second];
    assert NextKey(rest) == "2" by {
      assert |rest| == 1;
      assert NatToDecimal(2) == "2";
    }
  }

  /**
   A sample session: create Bob, rename Alice to Alicia, delete "2", then look
   "2" up. Bob lands under "2"; the update returns the renamed record; the
   delete returns only Alicia; the final lookup is not-found.
   */
  lemma SampleSession()
    ensures var s0 := Seed();
      var create := AddUser(s0, New("Bob"));
      var update := UpdateUser(create.db, "1", New("Alicia"));
      var delete := RemoveUser(update.db, "2");
      var lookup := GetUser(delete.db, "2");
      && create.reply == Ok(New("Bob")) && |create.db| == 2 && create.db["2"] == New("Bob")
      && update.reply == Ok(New("Alicia"))
      && delete.reply == Ok(map["1" := New("Alicia")])
      && lookup.reply == NotFound
  {
    var s0 := Seed();
    var create := AddUser(s0, New("Bob"));
    assert create.db == map["1" := New("Alice"), "2" := New("Bob")] by {
      assert NatToDecimal(2) == "2";
    }
    var update := UpdateUser(create.db, "1", New("Alicia"));
    assert update.db == map["1" := New("Alicia"), "2" := New("Bob")];
    var delete := RemoveUser(update.db, "2");
    assert delete.db == map["1" := New("Alicia")];
  }

  /** The four steps of the session below, one at a time. */
  lemma OvercountSteps(a: User, b: User, c: User)
    ensures Step(map[], Create(a)).db == map["1" := New(Name(a))]
    ensures Step(map["1" := New(Name(a))], Create(b)).db
      == map["1" := New(Name(a)), "2" := New(Name(b))]
    ensures Step(map["1" := New(Name(a)), "2" := New(Name(b))], Delete("1")).db
      == map["2" := New(Name(b))]
    ensures Step(map["2" := New(Name(b))], Create(c)).db == map["2" := New(Name(c))]
  {
    assert Step(map[], Create(a)).db == map["1" := New(Name(a))] by {
      assert NextKey(map[]) == "1";
    }
    assert Step(map["1" := New(Name(a))], Create(b)).db
      == map["1" := New(Name(a)), "2" := New(Name(b))] by {
      assert NextKey(map["1" := New(Name(a))]) == "2";
    }
    assert map["1" := New(Name(a)), "2" := New(Name(b))] - {"1"} == map["2" := New(Name(b))];
    assert Step(map["2" := New(Name(b))], Create(c)).db == map["2" := New(Name(c))] by {
      assert NextKey(map["2" := New(Name(b))]) == "2";
    }
  }

  /**
   Creates and deletes do not balance: three creates and one delete, from an
   empty store, leave one record, not two, because the third create reuses
   the live key "2" and replaces the second record.
   */
  lemma CreatesMinusDeletesCanOvercount(a: User, b: User, c: User)
    ensures var reqs := [Create(a), Create(b), Delete("1"), Create(c)];
      && CreateCount(reqs) == 3
      && Run(map[], reqs) == map["2" := New(Name(c))]
  {
    var reqs := [Create(a), Create(b), Delete("1"), Create(c)];
    var s1 := map["1" := New(Name(a))];
    var s2 := map["1" := New(Name(a)), "2" := New(Name(b))];
    var s3 := map["2" := New(Name(b))];
    var s4 := map["2" := New(Name(c))];
    OvercountSteps(a, b, c);
    assert reqs[1..][1..] == reqs[2..] && reqs[2..][1..] == reqs[3..];
    assert Run(s3, reqs[3..]) == s4 by {
      RunUnfold(s3, reqs[3..]);
    }
    assert Run(s2, reqs[2..]) == s4 by {
      RunUnfold(s2, reqs[2..]);
    }
    assert Run(s1, reqs[1..]) == s4 by {
      RunUnfold(s1, reqs[1..]);
    }
    RunUnfold(map[], reqs);
    assert CreateCount(reqs) == 3 by {
      assert CreateCount(reqs[3..]) == 1;
      assert CreateCount(reqs[2..]) == 1;
      assert CreateCount(reqs[1..]) == 2;
    }
  }
}
