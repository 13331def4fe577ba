/**
 * The transition table: one record per observed `(state, next)` pair, holding
 * the distinct tokens seen for that transition in first-seen order and the
 * number of times it was observed. `link` is an upsert that increments the
 * count and adds the token to the set.
 */
module Table {
  import opened Wrappers
  import opened Window

  /** The unique key of a record: the window and the symbol that followed it
      (null for the end of a text). */
  datatype Key = Key(state: State, next: Symbol)

  /** A token as stored: the original text, or null for the terminal link. */
  type Token = Option<string>

  /** The mutable part of a record. `tokens` is a set kept as an array, as
      `$addToSet` keeps it; the terminal link stores a null token. */
  datatype Record = Record(tokens: seq<Token>, count: nat)

  /** The whole collection: the records by key, and the keys in the order in
      which their records were created, which is the order the store's
      cursor is taken to return them in. */
  datatype Store = Store(records: map<Key, Record>, order: seq<Key>)

  /** The arguments of one call of `link`. */
  datatype LinkCall = LinkCall(state: State, next: Symbol, token: Token)

  predicate NoDuplicates<T(==)>(s: seq<T>)
  {
    forall i, j :: 0 <= i < j < |s| ==> s[i] != s[j]
  }

  /** The store's invariant: every record is listed once in `order`, has been
      observed at least once, and has at most one token per observation, all
      distinct. */
  ghost predicate WellFormed(s: Store)
  {
    && NoDuplicates(s.order)
    && (forall k :: k in s.records <==> k in s.order)
    && (forall k :: k in s.records ==>
          1 <= |s.records[k].tokens| <= s.records[k].count
          && NoDuplicates(s.records[k].tokens))
  }

  /** `$addToSet`: appends `t` unless it is already there. */
  function AddToSet(ts: seq<Token>, t: Token): (r: seq<Token>)
    ensures forall x :: x in r <==> x in ts || x == t
    ensures |ts| <= |r| <= |ts| + 1 && r[..|ts|] == ts
    ensures |r| == |ts| <==> t in ts
    ensures NoDuplicates(ts) ==> NoDuplicates(r)
  {
    if t in ts then ts else ts + [t]
  }

  /** `link(state, next, token)`: the upsert `$inc: {count: 1}`,
      `$addToSet: {tokens: token}` on the record keyed by `(state, next)`. */
  function Upsert(s: Store, c: LinkCall): (r: Store)
    ensures var k := Key(c.state, c.next);
            && k in r.records
            && (k !in s.records ==>
                  r.records[k] == Record([c.token], 1) && r.order == s.order + [k])
            && (k in s.records ==>
                  r.records[k].count == s.records[k].count + 1
                  && r.records[k].tokens == AddToSet(s.records[k].tokens, c.token)
                  && r.order == s.order)
            && (forall k' :: k' != k ==>
                  (k' in r.records <==> k' in s.records)
                  && (k' in s.records ==> r.records[k'] == s.records[k']))
    ensures WellFormed(s) ==> WellFormed(r)
  {
    var k := Key(c.state, c.next);
    if k in s.records then
      var prev := s.records[k];
      Store(s.records[k := Record(AddToSet(prev.tokens, c.token), prev.count + 1)], s.order)
    else
      Store(s.records[k := Record([c.token], 1)], s.order + [k])
  }

  /** The store after the given calls of `link`, in order. */
  function ApplyLinks(s: Store, calls: seq<LinkCall>): Store
  {
    if calls == [] then s
    else Upsert(ApplyLinks(s, calls[..|calls| - 1]), calls[|calls| - 1])
  }

  /** The sum of all counts: the number of observations the store holds. */
  function TotalCount(s: Store): nat
  {
    CountOf(s.records, s.order)
  }

  function CountOf(records: map<Key, Record>, keys: seq<Key>): nat
  {
    if keys == [] then 0
    else
      var k := keys[|keys| - 1];
      CountOf(records, keys[..|keys| - 1]) + (if k in records then records[k].count else 0)
  }

  /** The first position of `x` in `s`. */
  function IndexOf<T(==)>(s: seq<T>, x: T): (i: nat)
    requires x in s
    ensures i < |s| && s[i] == x && x !in s[..i]
  {
    if s[0] == x then 0 else 1 + IndexOf(s[1..], x)
  }

  /** `tokens` lists the distinct entries of `seen` in the order in which
      each first appears there. */
  ghost predicate FirstSeen(tokens: seq<Token>, seen: seq<Token>)
  {
    && NoDuplicates(tokens)
    && (forall x :: x in tokens <==> x in seen)
    && (forall i, j :: 0 <= i < j < |tokens| ==> IndexOf(seen, tokens[i]) < IndexOf(seen, tokens[j]))
  }

  /** The calls `link(state, next, t)` for each `t` of `tokens`, in order. */
  function Repeated(state: State, next: Symbol, tokens: seq<Token>): seq<LinkCall>
  {
    seq(|tokens|, i requires 0 <= i < |tokens| => LinkCall(state, next, tokens[i]))
  }

  /** The transition table that `link` updates in place. */
  class TransitionTable {
    var records: map<Key, Record>
    var order: seq<Key>

    ghost predicate Valid()
      reads this
    {
      WellFormed(Value())
    }

    function Value(): Store
      reads this
    {
      Store(records, order)
    }

    /** The collection as it is when opened: whatever records earlier runs
        of the builder left in it. */
    constructor (s: Store)
      requires WellFormed(s)
      ensures Valid() && Value() == s
    {
      records := s.records;
      order := s.order;
    }

    /** `link`: finds the record keyed by `(state, next)`, creating it when
        absent, increments its count and adds `token` to its tokens. The
        record the store hands back is discarded, so `link` returns nothing. */
    method Link(state: State, next: Symbol, token: Token)
      requires Valid()
      modifies this
      ensures Valid()
      ensures Value() == Upsert(old(Value()), LinkCall(state, next, token))
    {
      ghost var before := Value();
      var k := Key(state, next);
      var record: Record;
      if k in records {
        var found := records[k];
        record := Record(AddToSet(found.tokens, token), found.count + 1);
      } else {
        record := Record([token], 1);
        order := order + [k];
      }
      records := records[k := record];
      assert Value() == Upsert(before, LinkCall(state, next, token));
    }
  }

  /** Linking never deletes a record, never lowers a count, and only ever
      appends tokens: the table grows monotonically. */
  lemma {:induction false} ApplyLinksGrows(s: Store, calls: seq<LinkCall>)
    ensures var r := ApplyLinks(s, calls);
            forall k :: k in s.records ==>
              k in r.records
              && r.records[k].count >= s.records[k].count
              && |r.records[k].tokens| >= |s.records[k].tokens|
              && r.records[k].tokens[..|s.records[k].tokens|] == s.records[k].tokens
  {
    if calls != [] {
      ApplyLinksGrows(s, calls[..|calls| - 1]);
    }
  }

  /** One more call of `link` is one more upsert. */
  lemma ApplyLinksSnoc(s: Store, calls: seq<LinkCall>, c: LinkCall)
    ensures ApplyLinks(s, calls + [c]) == Upsert(ApplyLinks(s, calls), c)
  {
    assert (calls + [c])[..|calls|] == calls;
  }

  /** Every key a call names has a record afterwards. */
  lemma ApplyLinksHasKey(s: Store, calls: seq<LinkCall>, i: nat)
    requires i < |calls|
    ensures Key(calls[i].state, calls[i].next) in ApplyLinks(s, calls).records
  {
    var p := calls[..i + 1];
    assert p[..|p| - 1] == calls[..i];
    assert calls == p + calls[i + 1..];
    ApplyLinksAppend(s, p, calls[i + 1..]);
    ApplyLinksGrows(ApplyLinks(s, p), calls[i + 1..]);
  }

  /** Applying two batches of calls is applying their concatenation. */
  lemma {:induction false} ApplyLinksAppend(s: Store, a: seq<LinkCall>, b: seq<LinkCall>)
    ensures ApplyLinks(s, a + b) == ApplyLinks(ApplyLinks(s, a), b)
  {
    if b == [] {
      assert a + b == a;
    } else {
      assert (a + b)[..|a + b| - 1] == a + b[..|b| - 1];
      assert (a + b)[|a + b| - 1] == b[|b| - 1];
      ApplyLinksAppend(s, a, b[..|b| - 1]);
    }
  }

  /** A well-formed table stays well-formed under any calls of `link`. */
  lemma {:induction false} ApplyLinksWellFormed(s: Store, calls: seq<LinkCall>)
    requires WellFormed(s)
    ensures WellFormed(ApplyLinks(s, calls))
  {
    if calls != [] {
      ApplyLinksWellFormed(s, calls[..|calls| - 1]);
    }
  }

  /** Raising the count of one listed key by one raises the sum by one. */
  lemma {:induction false} CountOfBump(records: map<Key, Record>, keys: seq<Key>, k: Key, rec: Record)
    requires NoDuplicates(keys) && k in keys && k in records
    requires rec.count == records[k].count + 1
    ensures CountOf(records[k := rec], keys) == CountOf(records, keys) + 1
  {
    var last := keys[|keys| - 1];
    var init := keys[..|keys| - 1];
    if last == k {
      forall i | 0 <= i < |init| ensures init[i] != k {
        assert init[i] == keys[i];
      }
      CountOfUnlisted(records, init, k, rec);
    } else {
      assert k in init by {
        var i :| 0 <= i < |keys| && keys[i] == k;
        assert init[i] == k;
      }
      CountOfBump(records, init, k, rec);
    }
  }

  /** Changing the record of a key that is not listed leaves the sum alone. */
  lemma {:induction false} CountOfUnlisted(records: map<Key, Record>, keys: seq<Key>, k: Key, rec: Record)
    requires k !in keys
    ensures CountOf(records[k := rec], keys) == CountOf(records, keys)
  {
    if keys != [] {
      CountOfUnlisted(records, keys[..|keys| - 1], k, rec);
    }
  }

  /** Every call of `link` adds exactly one observation to the table. */
  lemma UpsertTotalCount(s: Store, c: LinkCall)
    requires WellFormed(s)
    ensures TotalCount(Upsert(s, c)) == TotalCount(s) + 1
  {
    var k := Key(c.state, c.next);
    var r := Upsert(s, c);
    if k in s.records {
      CountOfBump(s.records, s.order, k, r.records[k]);
    } else {
      CountOfUnlisted(s.records, s.order, k, r.records[k]);
      assert r.order[..|r.order| - 1] == s.order;
    }
  }

  /** The table's total count grows by exactly the number of `link` calls. */
  lemma {:induction false} ApplyLinksTotalCount(s: Store, calls: seq<LinkCall>)
    requires WellFormed(s)
    ensures TotalCount(ApplyLinks(s, calls)) == TotalCount(s) + |calls|
  {
    if calls != [] {
      var init := calls[..|calls| - 1];
      ApplyLinksTotalCount(s, init);
      ApplyLinksWellFormed(s, init);
      UpsertTotalCount(ApplyLinks(s, init), calls[|calls| - 1]);
    }
  }

  /** `$addToSet` is idempotent: adding the same token again changes nothing. */
  lemma AddToSetIdempotent(ts: seq<Token>, t: Token)
    ensures AddToSet(AddToSet(ts, t), t) == AddToSet(ts, t)
  {
  }

  /** Appending an entry keeps the first positions of the entries already there. */
  lemma IndexOfSnoc<T>(s: seq<T>, t: T, x: T)
    requires x in s
    ensures IndexOf(s + [t], x) == IndexOf(s, x)
  {
    if s[0] != x {
      assert (s + [t])[1..] == s[1..] + [t];
      IndexOfSnoc(s[1..], t, x);
    }
  }

  /** Adding each entry of `seen` in turn to an empty set lists its distinct
      entries in first-seen order. */
  lemma {:induction false} AddToSetFirstSeen(tokens: seq<Token>, seen: seq<Token>, t: Token)
    requires FirstSeen(tokens, seen)
    ensures FirstSeen(AddToSet(tokens, t), seen + [t])
  {
    var r := AddToSet(tokens, t);
    var seen' := seen + [t];
    forall x | x in tokens ensures IndexOf(seen', x) == IndexOf(seen, x) {
      IndexOfSnoc(seen, t, x);
    }
    if t !in tokens {
      assert IndexOf(seen', t) == |seen|;
      forall i, j | 0 <= i < j < |r| ensures IndexOf(seen', r[i]) < IndexOf(seen', r[j]) {
        assert r[i] in tokens;
        if j < |tokens| {
          assert r[j] in tokens;
        }
      }
    }
  }

  /** Linking the same `(state, next)` with tokens `t_1 .. t_k` into a table
      that lacks that key yields one record with `count == k` whose tokens
      are the distinct `t_i` in first-seen order, so that `tokens[0]` is the
      first token observed. */
  lemma {:induction false} LinkRepeated(s: Store, state: State, next: Symbol, tokens: seq<Token>)
    requires Key(state, next) !in s.records
    requires tokens != []
    ensures RepeatedRecord(ApplyLinks(s, Repeated(state, next, tokens)), Key(state, next), tokens)
  {
    if |tokens| == 1 {
      LinkOnce(s, state, next, tokens);
    } else {
      LinkRepeated(s, state, next, tokens[..|tokens| - 1]);
      LinkOnceMore(s, state, next, tokens);
    }
  }

  /** The record for `k` counts one observation per entry of `seen`, lists
      its distinct entries in first-seen order, and starts with the first. */
  ghost predicate RepeatedRecord(s: Store, k: Key, seen: seq<Token>)
  {
    && k in s.records
    && s.records[k].count == |seen|
    && FirstSeen(s.records[k].tokens, seen)
    && seen != [] && s.records[k].tokens != [] && s.records[k].tokens[0] == seen[0]
  }

  lemma LinkOnce(s: Store, state: State, next: Symbol, tokens: seq<Token>)
    requires Key(state, next) !in s.records && |tokens| == 1
    ensures RepeatedRecord(ApplyLinks(s, Repeated(state, next, tokens)), Key(state, next), tokens)
  {
    RepeatedSnoc(s, state, next, tokens);
    assert Repeated(state, next, tokens[..0]) == [];
    assert FirstSeen([tokens[0]], tokens);
  }

  lemma LinkOnceMore(s: Store, state: State, next: Symbol, tokens: seq<Token>)
    requires |tokens| > 1
    requires RepeatedRecord(ApplyLinks(s, Repeated(state, next, tokens[..|tokens| - 1])), Key(state, next),
                            tokens[..|tokens| - 1])
    ensures RepeatedRecord(ApplyLinks(s, Repeated(state, next, tokens)), Key(state, next), tokens)
  {
    var init := tokens[..|tokens| - 1];
    SnocInit(tokens);
    RepeatedSnoc(s, state, next, tokens);
    UpsertRepeated(ApplyLinks(s, Repeated(state, next, init)), state, next, init, tokens[|tokens| - 1]);
  }

  lemma SnocInit<T>(xs: seq<T>)
    requires xs != []
    ensures xs[..|xs| - 1] + [xs[|xs| - 1]] == xs
  {
  }

  lemma UpsertRepeated(t: Store, state: State, next: Symbol, seen: seq<Token>, tok: Token)
    requires RepeatedRecord(t, Key(state, next), seen)
    ensures RepeatedRecord(Upsert(t, LinkCall(state, next, tok)), Key(state, next), seen + [tok])
  {
    var prev := t.records[Key(state, next)];
    AddToSetFirstSeen(prev.tokens, seen, tok);
  }

  /** Linking one more token is one more upsert of the same key. */
  lemma RepeatedSnoc(s: Store, state: State, next: Symbol, tokens: seq<Token>)
    requires tokens != []
    ensures ApplyLinks(s, Repeated(state, next, tokens))
            == Upsert(ApplyLinks(s, Repeated(state, next, tokens[..|tokens| - 1])),
                      LinkCall(state, next, tokens[|tokens| - 1]))
  {
    var calls := Repeated(state, next, tokens);
    assert calls[..|tokens| - 1] == Repeated(state, next, tokens[..|tokens| - 1]);
  }

  /** The keys the given calls of `link` name. */
  function CallKeys(calls: seq<LinkCall>): set<Key>
  {
    set i | 0 <= i < |calls| :: Key(calls[i].state, calls[i].next)
  }

  /** Linking creates records only for the keys the calls name. */
  lemma {:induction false} ApplyLinksKeys(s: Store, calls: seq<LinkCall>)
    ensures forall k :: k in ApplyLinks(s, calls).records ==> k in s.records || k in CallKeys(calls)
  {
    if calls != [] {
      var init := calls[..|calls| - 1];
      ApplyLinksKeys(s, init);
      forall k | k in CallKeys(init) ensures k in CallKeys(calls) {
        var i :| 0 <= i < |init| && k == Key(init[i].state, init[i].next);
        assert init[i] == calls[i];
      }
      assert Key(calls[|calls| - 1].state, calls[|calls| - 1].next) in CallKeys(calls);
    }
  }
}
