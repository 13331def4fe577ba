/**
 * The chain generator: `nextSymbol` gathers the records whose window equals
 * the query and draws one of them with probability proportional to its
 * count; `generate` walks from the window of nulls, emitting one token per
 * draw, until it draws the null symbol.
 */
module Generator {
  import opened Wrappers
  import opened Text
  import opened Window
  import opened Table

  /** What `nextSymbol` returns: the record's next symbol and its first token. */
  datatype Candidate = Candidate(symbol: Symbol, token: Token)

  /** Why a walk gives no text: no record matches the window (the original
      then hands empty arrays to the sampler), or the walk used up the draws
      it was given before reaching a null symbol. */
  datatype GenError = NoTransitions | OutOfDraws

  /** The keys among `keys`, in order, whose window equals `state`: the
      records the query `{state: state}` returns. */
  function Matching(keys: seq<Key>, state: State): (m: seq<Key>)
    ensures forall k :: k in m <==> k in keys && k.state == state
    ensures NoDuplicates(keys) ==> NoDuplicates(m)
  {
    if keys == [] then []
    else
      var init := Matching(keys[..|keys| - 1], state);
      var k := keys[|keys| - 1];
      assert forall x :: x in keys <==> x in keys[..|keys| - 1] || x == k;
      if k.state == state then init + [k] else init
  }

  /** The entries of `m`, all listed in `keys`, come in the order in which
      `keys` lists them. */
  ghost predicate InOrderOf(keys: seq<Key>, m: seq<Key>)
  {
    (forall x :: x in m ==> x in keys)
    && forall i, j :: 0 <= i < j < |m| ==> IndexOf(keys, m[i]) < IndexOf(keys, m[j])
  }

  /** The query returns the matching keys in the order in which the cursor
      lists the collection. */
  lemma {:induction false} MatchingInOrder(keys: seq<Key>, state: State)
    requires NoDuplicates(keys)
    ensures InOrderOf(keys, Matching(keys, state))
  {
    if keys != [] {
      var init := keys[..|keys| - 1];
      var k := keys[|keys| - 1];
      NoDuplicatesInit(keys);
      MatchingInOrder(init, state);
      InOrderSnoc(keys, init, k, Matching(init, state), k.state == state);
    }
  }

  lemma NoDuplicatesInit(keys: seq<Key>)
    requires keys != [] && NoDuplicates(keys)
    ensures NoDuplicates(keys[..|keys| - 1])
  {
  }

  /** Appending one key to the listing keeps an ordered selection ordered,
      and the new key, if selected, comes last. */
  lemma InOrderSnoc(keys: seq<Key>, init: seq<Key>, k: Key, mi: seq<Key>, take: bool)
    requires keys == init + [k] && NoDuplicates(keys) && InOrderOf(init, mi)
    ensures InOrderOf(keys, if take then mi + [k] else mi)
  {
    forall x | x in init ensures IndexOf(keys, x) == IndexOf(init, x) < |init| {
      IndexOfSnoc(init, k, x);
    }
    if take {
      var m := mi + [k];
      forall i | 0 <= i < |init| ensures init[i] != k {
        assert init[i] == keys[i] && keys[|init|] == k;
      }
      assert IndexOf(keys, k) == |init|;
      forall i, j | 0 <= i < j < |m| ensures IndexOf(keys, m[i]) < IndexOf(keys, m[j]) {
        assert m[i] == mi[i] && mi[i] in init;
        if j < |mi| {
          assert m[j] == mi[j] && mi[j] in init;
        }
      }
    } else {
      forall i, j | 0 <= i < j < |mi| ensures IndexOf(keys, mi[i]) < IndexOf(keys, mi[j]) {
        assert mi[i] in init && mi[j] in init;
      }
    }
  }

  /** The option a record contributes: its next symbol and its first token. */
  function CandidateOf(s: Store, k: Key): Candidate
    requires k in s.records && s.records[k].tokens != []
  {
    Candidate(k.next, s.records[k].tokens[0])
  }

  function Options(s: Store, keys: seq<Key>): seq<Candidate>
    requires forall k :: k in keys ==> k in s.records && s.records[k].tokens != []
  {
    seq(|keys|, i requires 0 <= i < |keys| => CandidateOf(s, keys[i]))
  }

  function Weights(s: Store, keys: seq<Key>): seq<nat>
    requires forall k :: k in keys ==> k in s.records
  {
    seq(|keys|, i requires 0 <= i < |keys| => s.records[keys[i]].count)
  }

  function Sum(w: seq<nat>): nat
  {
    if w == [] then 0 else w[0] + Sum(w[1..])
  }

  /** A weighted draw: the index whose share of `[0, Sum(w))` holds `r`. */
  function Pick(w: seq<nat>, r: nat): (i: nat)
    requires r < Sum(w)
    ensures i < |w| && Sum(w[..i]) <= r < Sum(w[..i]) + w[i]
  {
    if r < w[0] then
      assert w[..0] == [];
      0
    else
      var j := Pick(w[1..], r - w[0]);
      assert w[..j + 1] == [w[0]] + w[1..][..j];
      j + 1
  }

  /** `nextSymbol(state)` with the random point `r`: the matching records,
      their first tokens and their counts, and the draw among them. */
  function Draw(s: Store, state: State, r: nat): Result<Candidate, GenError>
    requires WellFormed(s)
  {
    var keys := Matching(s.order, state);
    if keys == [] then Failure(NoTransitions)
    else
      var w := Weights(s, keys);
      SumPositive(s, keys);
      Success(CandidateOf(s, keys[Pick(w, r % Sum(w))]))
  }

  /** The sum of the counts of the records a non-empty query returns is
      positive, since every record has been observed. */
  lemma SumPositive(s: Store, keys: seq<Key>)
    requires WellFormed(s) && keys != []
    requires forall k :: k in keys ==> k in s.records
    ensures Sum(Weights(s, keys)) > 0
  {
    assert Weights(s, keys)[0] >= 1;
  }

  /** The text a token adds: JavaScript turns a null token into "null". */
  function TokenText(t: Token): string
  {
    match t
    case Some(x) => x
    case None => "null"
  }

  /** `text`, after the given draws: each token followed by a space. */
  function Emitted(cs: seq<Candidate>): string
  {
    if cs == [] then []
    else Emitted(cs[..|cs| - 1]) + TokenText(cs[|cs| - 1].token) + " "
  }

  /** The draws of a walk before the null symbol, prefixed with `done`. */
  function Then(done: seq<Candidate>, rest: Result<seq<Candidate>, GenError>): Result<seq<Candidate>, GenError>
  {
    match rest
    case Success(cs) => Success(done + cs)
    case Failure(e) => Failure(e)
  }

  /** The walk from `window`, one draw per step: the candidates drawn before
      the null symbol, or why the walk gives no text. */
  function Steps(s: Store, window: State, draws: seq<nat>): Result<seq<Candidate>, GenError>
    requires WellFormed(s)
    decreases |draws|
  {
    if draws == [] then Failure(OutOfDraws)
    else
      match Draw(s, window, draws[0])
      case Failure(e) => Failure(e)
      case Success(c) =>
        if c.symbol == None then Success([])
        else Then([c], Steps(s, Shift(window, c.symbol), draws[1..]))
  }

  /** `generate()` with the given draws: the emitted tokens, trimmed. */
  function Generation(s: Store, degree: nat, draws: seq<nat>): Result<string, GenError>
    requires WellFormed(s)
  {
    match Steps(s, Nones(degree), draws)
    case Success(cs) => Success(Trim(Emitted(cs)))
    case Failure(e) => Failure(e)
  }

  /** Walks the chain in `table`. The random draws are given: `draws[i]` is
      the point the i-th weighted draw lands on, and the walk may take at
      most `|draws|` steps. */
  class MarkovChainGenerator {
    const table: TransitionTable
    const degree: nat

    constructor (table: TransitionTable, degree: nat)
      ensures this.table == table && this.degree == degree
    {
      this.table := table;
      this.degree := degree;
    }

    /** `nextSymbol`: gathers the option `(next, tokens[0])` and the weight
        `count` of every record whose window equals `state`, in cursor
        order, and draws one. */
    method NextSymbol(state: State, r: nat) returns (next: Result<Candidate, GenError>)
      requires table.Valid()
      ensures next == Draw(table.Value(), state, r)
    {
      var options: seq<Candidate> := [];
      var weights: seq<nat> := [];
      ghost var s := table.Value();
      var j := 0;
      while j < |table.order|
        invariant 0 <= j <= |table.order|
        invariant forall k :: k in Matching(table.order[..j], state) ==> k in s.records
        invariant options == Options(s, Matching(table.order[..j], state))
        invariant weights == Weights(s, Matching(table.order[..j], state))
      {
        var k := table.order[j];
        MatchingStep(table.order, j, state);
        if k.state == state {
          OptionsSnoc(s, Matching(table.order[..j], state), k);
          var record := table.records[k];
          options := options + [Candidate(k.next, record.tokens[0])];
          weights := weights + [record.count];
        }
        j := j + 1;
      }
      assert table.order[..j] == table.order;
      if options == [] {
        next := Failure(NoTransitions);
      } else {
        SumPositive(s, Matching(table.order, state));
        next := Success(options[Pick(weights, r % Sum(weights))]);
      }
    }

    /** `generate`: starts from `degree` nulls and draws until the drawn
        symbol is null, appending each drawn token and a space to the text
        and shifting the drawn symbol into the window; returns the text
        trimmed. */
    method Generate(draws: seq<nat>) returns (result: Result<string, GenError>)
      requires table.Valid()
      ensures result == Generation(table.Value(), degree, draws)
    {
      var window := EmptyWindow(degree);
      var text := "";
      ghost var s := table.Value();
      ghost var drawn: seq<Candidate> := [];
      assert draws[0..] == draws;
      ThenNil(Steps(s, window, draws));
      var i := 0;
      while i < |draws|
        invariant 0 <= i <= |draws|
        invariant Steps(s, Nones(degree), draws) == Then(drawn, Steps(s, window, draws[i..]))
        invariant text == Emitted(drawn)
      {
        var next := NextSymbol(window, draws[i]);
        StepsUnfold(s, window, draws, i);
        if next.Failure? {
          return Failure(next.error);
        }
        if next.value.symbol == None {
          assert drawn + [] == drawn;
          GenerationOf(s, degree, draws, drawn);
          return Success(Trim(text));
        }
        text := text + TokenText(next.value.token) + " ";
        ThenAssoc(drawn, next.value, Steps(s, Shift(window, next.value.symbol), draws[i + 1..]));
        assert (drawn + [next.value])[..|drawn|] == drawn;
        drawn := drawn + [next.value];
        window := Shift(window, next.value.symbol);
        i := i + 1;
      }
      result := Failure(OutOfDraws);
    }
  }

  /** Looking at one more key extends the matching keys by that key when its
      window equals `state`. */
  lemma MatchingStep(keys: seq<Key>, j: nat, state: State)
    requires j < |keys|
    ensures Matching(keys[..j + 1], state)
            == if keys[j].state == state then Matching(keys[..j], state) + [keys[j]]
               else Matching(keys[..j], state)
  {
    assert keys[..j + 1][..j] == keys[..j];
  }

  /** One more matching key adds its option and its weight at the end. */
  lemma OptionsSnoc(s: Store, keys: seq<Key>, k: Key)
    requires forall x :: x in keys ==> x in s.records && s.records[x].tokens != []
    requires k in s.records && s.records[k].tokens != []
    ensures Options(s, keys + [k]) == Options(s, keys) + [CandidateOf(s, k)]
    ensures Weights(s, keys + [k]) == Weights(s, keys) + [s.records[k].count]
  {
  }

  /** One step of the walk over the draws from position i on. */
  lemma StepsUnfold(s: Store, window: State, draws: seq<nat>, i: nat)
    requires WellFormed(s) && i < |draws|
    ensures var d := Draw(s, window, draws[i]);
            && (d.Failure? ==> Steps(s, window, draws[i..]) == Failure(d.error))
            && (d.Success? && d.value.symbol == None ==> Steps(s, window, draws[i..]) == Success([]))
            && (d.Success? && d.value.symbol != None ==>
                  Steps(s, window, draws[i..])
                  == Then([d.value], Steps(s, Shift(window, d.value.symbol), draws[i + 1..])))
  {
    assert draws[i..][0] == draws[i] && draws[i..][1..] == draws[i + 1..];
  }

  lemma GenerationOf(s: Store, degree: nat, draws: seq<nat>, cs: seq<Candidate>)
    requires WellFormed(s) && Steps(s, Nones(degree), draws) == Success(cs)
    ensures Generation(s, degree, draws) == Success(Trim(Emitted(cs)))
  {
  }

  lemma ThenNil(rest: Result<seq<Candidate>, GenError>)
    ensures Then([], rest) == rest
  {
    if rest.Success? {
      assert [] + rest.value == rest.value;
    }
  }

  lemma ThenAssoc(done: seq<Candidate>, c: Candidate, rest: Result<seq<Candidate>, GenError>)
    ensures Then(done, Then([c], rest)) == Then(done + [c], rest)
  {
    if rest.Success? {
      assert done + ([c] + rest.value) == (done + [c]) + rest.value;
    }
  }

  /** The total weight of the records whose window equals `state`. */
  function StateTotal(s: Store, state: State): nat
    requires WellFormed(s)
  {
    Sum(Weights(s, Matching(s.order, state)))
  }

  /** The symbols of a walk; a null symbol, which a walk never emits, reads
      as the empty string. */
  function SymbolsOf(cs: seq<Candidate>): (syms: seq<string>)
    ensures |syms| == |cs|
    ensures forall i :: 0 <= i < |cs| && cs[i].symbol.Some? ==> syms[i] == cs[i].symbol.value
  {
    seq(|cs|, i requires 0 <= i < |cs| => match cs[i].symbol case Some(x) => x case None => "")
  }

  /** The text each drawn token adds, without its separator. */
  function TokenTexts(cs: seq<Candidate>): (ws: seq<string>)
    ensures |ws| == |cs| && forall i :: 0 <= i < |cs| ==> ws[i] == TokenText(cs[i].token)
  {
    seq(|cs|, i requires 0 <= i < |cs| => TokenText(cs[i].token))
  }

  lemma {:induction false} SumAppend(a: seq<nat>, b: seq<nat>)
    ensures Sum(a + b) == Sum(a) + Sum(b)
  {
    if a == [] {
      assert a + b == b;
    } else {
      assert (a + b)[0] == a[0] && (a + b)[1..] == a[1..] + b;
      SumAppend(a[1..], b);
    }
  }

  /** The shares of `[0, Sum(w))` follow one another: the share of entry i
      ends no later than the share of any later entry starts. */
  lemma SharesOrdered(w: seq<nat>, i: nat, j: nat)
    requires i < j <= |w|
    ensures Sum(w[..i]) + w[i] <= Sum(w[..j])
  {
    assert w[..j] == w[..i] + w[i..j];
    SumAppend(w[..i], w[i..j]);
    assert w[i..j] == [w[i]] + w[i + 1..j];
  }

  /** The weighted draw picks entry i exactly when `r` falls in the share of
      entry i, which is `w[i]` wide. */
  lemma PickIff(w: seq<nat>, r: nat, i: nat)
    requires r < Sum(w) && i < |w|
    ensures Pick(w, r) == i <==> Sum(w[..i]) <= r < Sum(w[..i]) + w[i]
  {
    var p := Pick(w, r);
    if p < i {
      SharesOrdered(w, p, i);
    } else if i < p {
      SharesOrdered(w, i, p);
    }
  }

  /** The `n` naturals from `a` on. */
  function Range(a: nat, n: nat): (rs: set<nat>)
    ensures forall r :: r in rs <==> a <= r < a + n
    ensures |rs| == n
  {
    if n == 0 then {} else Range(a, n - 1) + {a + n - 1}
  }

  /** The points of `[0, Sum(w))` that pick entry i form its share. */
  lemma PickShare(w: seq<nat>, i: nat)
    requires i < |w|
    ensures forall r: nat :: r < Sum(w) && Pick(w, r) == i <==> r in Range(Sum(w[..i]), w[i])
  {
    SharesOrdered(w, i, |w|);
    assert w[..|w|] == w;
    forall r: nat | r < Sum(w)
      ensures Pick(w, r) == i <==> r in Range(Sum(w[..i]), w[i])
    {
      PickIff(w, r, i);
    }
  }

  /** Of the points of `[0, Sum(w))`, exactly `w[i]` make the draw pick
      entry i: each entry is drawn in proportion to its weight. */
  lemma PickCount(w: seq<nat>, i: nat)
    requires i < |w|
    ensures |set r: nat | r < Sum(w) && Pick(w, r) == i| == w[i]
  {
    PickShare(w, i);
    assert (set r: nat | r < Sum(w) && Pick(w, r) == i) == Range(Sum(w[..i]), w[i]);
  }

  /** A drawn candidate comes from a record whose window is exactly the
      query: its symbol is that record's next symbol and its token the
      record's first token. */
  lemma DrawFromTable(s: Store, state: State, r: nat)
    requires WellFormed(s) && Draw(s, state, r).Success?
    ensures var c := Draw(s, state, r).value;
            && Key(state, c.symbol) in s.records
            && c.token == s.records[Key(state, c.symbol)].tokens[0]
  {
    var keys := Matching(s.order, state);
    var w := Weights(s, keys);
    var k := keys[Pick(w, r % Sum(w))];
    assert k in keys;
    assert k == Key(state, k.next);
  }

  /** The draw fails exactly when no record has `state` as its window. */
  lemma DrawFails(s: Store, state: State, r: nat)
    requires WellFormed(s)
    ensures Draw(s, state, r).Failure? <==> forall k :: k in s.records ==> k.state != state
  {
    var keys := Matching(s.order, state);
    if keys != [] {
      assert keys[0] in keys;
    }
  }

  /** Below the total weight the draw needs no reduction: it is the
      candidate of the picked matching record. */
  lemma DrawIsPick(s: Store, state: State, r: nat)
    requires WellFormed(s) && r < StateTotal(s, state)
    ensures var keys := Matching(s.order, state);
            && keys != []
            && Draw(s, state, r) == Success(CandidateOf(s, keys[Pick(Weights(s, keys), r)]))
  {
    var keys := Matching(s.order, state);
    var w := Weights(s, keys);
    assert Sum(w) == StateTotal(s, state);
    PositiveSumNonEmpty(w);
    assert |w| == |keys|;
    ModBelow(r, Sum(w));
  }

  lemma PositiveSumNonEmpty(w: seq<nat>)
    ensures Sum(w) > 0 ==> w != []
  {
  }

  lemma ModBelow(r: nat, n: nat)
    requires r < n
    ensures r % n == r
  {
  }

  /** Two matching records for the same window give different candidates. */
  lemma CandidatesDistinct(s: Store, state: State, k: Key, k': Key)
    requires WellFormed(s) && k in s.records && k' in s.records
    requires k.state == state && k'.state == state && k != k'
    ensures CandidateOf(s, k) != CandidateOf(s, k')
  {
  }

  /** Among the points of `[0, StateTotal(s, state))`, exactly `count` draw
      the candidate of a given matching record: `nextSymbol` draws each
      record's option with weight equal to its count. */
  lemma DrawWeighted(s: Store, state: State, k: Key)
    requires WellFormed(s) && k in s.records && k.state == state
    ensures |set r: nat | r < StateTotal(s, state) && Draw(s, state, r) == Success(CandidateOf(s, k))|
            == s.records[k].count
  {
    var keys := Matching(s.order, state);
    var w := Weights(s, keys);
    var i := IndexOf(keys, k);
    var total := StateTotal(s, state);
    assert total == Sum(w);
    var drawn := set r: nat | r < total && Draw(s, state, r) == Success(CandidateOf(s, k));
    PickShare(w, i);
    forall r: nat ensures r in drawn <==> r in Range(Sum(w[..i]), w[i]) {
      if r < total {
        DrawIsPick(s, state, r);
        var p := Pick(w, r);
        if p != i {
          assert keys[p] in keys;
          CandidatesDistinct(s, state, keys[p], k);
        }
      }
    }
    assert drawn == Range(Sum(w[..i]), w[i]);
  }

  /** `cs` is what a walk from the window reached after `p` draws with
      `draws`: step i queries the window reached after `p` and the first i
      drawn symbols (the builder's window) and draws the non-null symbol
      `cs[i]`; the step after the last draws null, within the draws given. */
  ghost predicate IsTrace(s: Store, degree: nat, p: seq<string>, draws: seq<nat>, cs: seq<Candidate>)
    requires WellFormed(s)
  {
    && |cs| < |draws|
    && (forall i :: 0 <= i < |cs| ==>
          cs[i].symbol.Some?
          && Draw(s, Slide(degree, p + SymbolsOf(cs)[..i]), draws[i]) == Success(cs[i]))
    && Draw(s, Slide(degree, p + SymbolsOf(cs)), draws[|cs|]).Success?
    && Draw(s, Slide(degree, p + SymbolsOf(cs)), draws[|cs|]).value.symbol == None
  }

  /** A successful walk is a trace of its draws. */
  lemma {:induction false} StepsTrace(s: Store, degree: nat, p: seq<string>, draws: seq<nat>)
    requires WellFormed(s) && Steps(s, Slide(degree, p), draws).Success?
    ensures IsTrace(s, degree, p, draws, Steps(s, Slide(degree, p), draws).value)
    decreases |draws|
  {
    var c := Draw(s, Slide(degree, p), draws[0]).value;
    if c.symbol == None {
      var cs := Steps(s, Slide(degree, p), draws).value;
      assert cs == [];
      assert p + SymbolsOf(cs) == p;
    } else {
      var x := c.symbol.value;
      SlideSnoc(degree, p, x);
      var rest := Steps(s, Slide(degree, p + [x]), draws[1..]);
      assert Steps(s, Slide(degree, p), draws) == Then([c], rest);
      StepsTrace(s, degree, p + [x], draws[1..]);
      TraceCons(s, degree, p, draws, c, rest.value);
    }
  }

  /** A successful walk of `generate` from the window of nulls is a trace of
      its draws: step i draws a non-null symbol from the window the builder
      reaches after the first i drawn symbols, and the step after the last
      draws null. */
  lemma WalkTrace(s: Store, degree: nat, draws: seq<nat>)
    requires WellFormed(s) && Steps(s, Nones(degree), draws).Success?
    ensures IsTrace(s, degree, [], draws, Steps(s, Nones(degree), draws).value)
  {
    var e: seq<string> := [];
    assert Slide(degree, e) == Nones(degree);
    StepsTrace(s, degree, e, draws);
  }

  /** A trace after `p + [x]`, preceded by a draw of `x` after `p`, is a
      trace after `p`. */
  lemma TraceCons(s: Store, degree: nat, p: seq<string>, draws: seq<nat>, c: Candidate, rest: seq<Candidate>)
    requires WellFormed(s) && draws != [] && c.symbol.Some?
    requires Draw(s, Slide(degree, p), draws[0]) == Success(c)
    requires IsTrace(s, degree, p + [c.symbol.value], draws[1..], rest)
    ensures IsTrace(s, degree, p, draws, [c] + rest)
  {
    var cs := [c] + rest;
    TraceShift(degree, p, c, rest);
    forall i | 0 <= i < |cs|
      ensures cs[i].symbol.Some?
      ensures Draw(s, Slide(degree, p + SymbolsOf(cs)[..i]), draws[i]) == Success(cs[i])
    {
      if i == 0 {
        assert p + SymbolsOf(cs)[..0] == p;
      } else {
        TraceConsAt(s, degree, p, draws, c, rest, i);
      }
    }
    assert draws[|cs|] == draws[1..][|rest|];
  }

  /** Step i of the longer trace is step i - 1 of the shorter one. */
  lemma TraceConsAt(s: Store, degree: nat, p: seq<string>, draws: seq<nat>, c: Candidate, rest: seq<Candidate>,
                    i: nat)
    requires WellFormed(s) && draws != [] && c.symbol.Some? && 1 <= i <= |rest|
    requires IsTrace(s, degree, p + [c.symbol.value], draws[1..], rest)
    ensures rest[i - 1].symbol.Some?
    ensures Draw(s, Slide(degree, p + SymbolsOf([c] + rest)[..i]), draws[i]) == Success(rest[i - 1])
  {
    TraceShift(degree, p, c, rest);
    assert draws[i] == draws[1..][i - 1];
    var q := p + [c.symbol.value];
    assert Draw(s, Slide(degree, q + SymbolsOf(rest)[..i - 1]), draws[1..][i - 1]) == Success(rest[i - 1]);
  }

  /** The symbols of `[c] + cs` after `p` are the symbols of `cs` after
      `p + [c's symbol]`. */
  lemma TraceShift(degree: nat, p: seq<string>, c: Candidate, cs: seq<Candidate>)
    requires c.symbol.Some?
    ensures p + [c.symbol.value] + SymbolsOf(cs) == p + SymbolsOf([c] + cs)
    ensures forall i :: 1 <= i <= |cs| ==>
              p + [c.symbol.value] + SymbolsOf(cs)[..i - 1] == p + SymbolsOf([c] + cs)[..i]
  {
    assert SymbolsOf([c] + cs) == [c.symbol.value] + SymbolsOf(cs);
    forall i | 1 <= i <= |cs|
      ensures p + [c.symbol.value] + SymbolsOf(cs)[..i - 1] == p + SymbolsOf([c] + cs)[..i]
    {
      assert SymbolsOf([c] + cs)[..i] == [c.symbol.value] + SymbolsOf(cs)[..i - 1];
    }
  }

  /** Every step of a successful walk from the window of nulls follows a
      record of the table: the record keyed by the current window and the
      drawn symbol, whose first token is the token emitted; and the window
      the walk ends in has a terminal record. */
  lemma WalkFollowsTable(s: Store, degree: nat, draws: seq<nat>)
    requires WellFormed(s) && Steps(s, Nones(degree), draws).Success?
    ensures var cs := Steps(s, Nones(degree), draws).value;
            && (forall i :: 0 <= i < |cs| ==>
                  var k := Key(Slide(degree, SymbolsOf(cs)[..i]), cs[i].symbol);
                  cs[i].symbol.Some? && k in s.records && cs[i].token == s.records[k].tokens[0])
            && Key(Slide(degree, SymbolsOf(cs)), None) in s.records
  {
    var cs := Steps(s, Nones(degree), draws).value;
    var e: seq<string> := [];
    assert Slide(degree, e) == Nones(degree);
    StepsTrace(s, degree, e, draws);
    forall i | 0 <= i < |cs|
      ensures var k := Key(Slide(degree, SymbolsOf(cs)[..i]), cs[i].symbol);
              cs[i].symbol.Some? && k in s.records && cs[i].token == s.records[k].tokens[0]
    {
      TraceStepFollows(s, degree, draws, cs, i);
    }
    TraceEndFollows(s, degree, draws, cs);
  }

  /** Step i of a trace from the window of nulls follows a record. */
  lemma TraceStepFollows(s: Store, degree: nat, draws: seq<nat>, cs: seq<Candidate>, i: nat)
    requires WellFormed(s) && IsTrace(s, degree, [], draws, cs) && i < |cs|
    ensures var k := Key(Slide(degree, SymbolsOf(cs)[..i]), cs[i].symbol);
            cs[i].symbol.Some? && k in s.records && cs[i].token == s.records[k].tokens[0]
  {
    var e: seq<string> := [];
    assert e + SymbolsOf(cs)[..i] == SymbolsOf(cs)[..i];
    DrawFromTable(s, Slide(degree, SymbolsOf(cs)[..i]), draws[i]);
  }

  /** A trace from the window of nulls ends in a window with a terminal record. */
  lemma TraceEndFollows(s: Store, degree: nat, draws: seq<nat>, cs: seq<Candidate>)
    requires WellFormed(s) && IsTrace(s, degree, [], draws, cs)
    ensures Key(Slide(degree, SymbolsOf(cs)), None) in s.records
  {
    var e: seq<string> := [];
    assert e + SymbolsOf(cs) == SymbolsOf(cs);
    DrawFromTable(s, Slide(degree, SymbolsOf(cs)), draws[|cs|]);
  }

  /** When every emitted token is a word, the text is the tokens joined by
      single spaces, with the trailing separator. */
  lemma {:induction false} EmittedJoin(cs: seq<Candidate>)
    requires cs != [] && forall i :: 0 <= i < |cs| ==> IsWord(TokenText(cs[i].token))
    ensures Emitted(cs) == Join(TokenTexts(cs)) + " "
  {
    var init := cs[..|cs| - 1];
    var t := TokenText(cs[|cs| - 1].token);
    assert TokenTexts(cs) == TokenTexts(init) + [t];
    if init == [] {
      assert TokenTexts(cs) == [t];
    } else {
      EmittedJoin(init);
      JoinSnoc(TokenTexts(init), t);
    }
  }

  /** A successful walk whose tokens are words yields exactly those tokens
      joined by single spaces, and splitting that text at whitespace gives
      the drawn tokens back. */
  lemma GeneratedText(s: Store, degree: nat, draws: seq<nat>)
    requires WellFormed(s) && Steps(s, Nones(degree), draws).Success?
    requires var cs := Steps(s, Nones(degree), draws).value;
             forall i :: 0 <= i < |cs| ==> IsWord(TokenText(cs[i].token))
    ensures var ws := TokenTexts(Steps(s, Nones(degree), draws).value);
            && Generation(s, degree, draws) == Success(Join(ws))
            && Words(Join(ws)) == ws
  {
    var cs := Steps(s, Nones(degree), draws).value;
    var ws := TokenTexts(cs);
    if cs == [] {
      assert Emitted(cs) == [] && ws == [];
    } else {
      EmittedJoin(cs);
      JoinEnds(ws);
      TrimSpaced(Join(ws));
    }
    WordsOfJoin(ws);
  }
}
