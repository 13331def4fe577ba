/** How a chain the builder trains and the generator that walks it fit
    together: what training in word mode puts in the table, what the
    generator then prints, and what happens when the two disagree on the
    degree. */
module Chain {
  import opened Wrappers
  import opened Text
  import opened Window
  import opened Table
  import opened Builder
  import opened Generator

  /** Every token recorded for a non-terminal transition is a word. */
  ghost predicate WordTokens(s: Store)
  {
    forall k, t :: k in s.records && k.next.Some? && t in s.records[k].tokens ==>
      t.Some? && IsWord(t.value)
  }

  /** A call of `link` for a non-terminal transition records a word. */
  predicate WordCall(c: LinkCall)
  {
    c.next.Some? ==> c.token.Some? && IsWord(c.token.value)
  }

  lemma UpsertWordTokens(s: Store, c: LinkCall)
    requires WordTokens(s) && WordCall(c)
    ensures WordTokens(Upsert(s, c))
  {
  }

  lemma {:induction false} ApplyLinksWordTokens(s: Store, calls: seq<LinkCall>)
    requires WordTokens(s) && forall i :: 0 <= i < |calls| ==> WordCall(calls[i])
    ensures WordTokens(ApplyLinks(s, calls))
  {
    if calls != [] {
      ApplyLinksWordTokens(s, calls[..|calls| - 1]);
      UpsertWordTokens(ApplyLinks(s, calls[..|calls| - 1]), calls[|calls| - 1]);
    }
  }

  /** In word mode, `addText` only links words: every token it passes to
      `link` along with a symbol comes from splitting at whitespace. */
  lemma WordTextCalls(degree: nat, symbolizer: Symbolizer, text: string)
    ensures var calls := TextCalls(degree, WordTokenizer, symbolizer, text);
            forall i :: 0 <= i < |calls| ==> WordCall(calls[i])
  {
    TextCallsShape(degree, WordTokenizer, symbolizer, text);
    WordsAreWords(text);
  }

  /** Training in word mode keeps every non-terminal token a word. */
  lemma {:induction false} TrainWordTokens(s: Store, degree: nat, symbolizer: Symbolizer, texts: seq<string>)
    requires WordTokens(s)
    ensures WordTokens(Train(s, degree, WordTokenizer, symbolizer, texts))
  {
    if texts != [] {
      var init := texts[..|texts| - 1];
      TrainWordTokens(s, degree, symbolizer, init);
      WordTextCalls(degree, symbolizer, texts[|texts| - 1]);
      ApplyLinksWordTokens(Train(s, degree, WordTokenizer, symbolizer, init),
                           TextCalls(degree, WordTokenizer, symbolizer, texts[|texts| - 1]));
    }
  }

  /** On a chain trained in word mode, into a collection whose records were
      all trained in word mode too, a generated text is the drawn tokens
      joined by single spaces, and splitting it at whitespace gives exactly
      those tokens back. */
  lemma TrainedOutputRetokenizes(s: Store, degree: nat, symbolizer: Symbolizer, texts: seq<string>,
                                 draws: seq<nat>)
    requires WellFormed(s) && WordTokens(s)
    ensures WellFormed(Train(s, degree, WordTokenizer, symbolizer, texts))
    ensures var t := Train(s, degree, WordTokenizer, symbolizer, texts);
            Generation(t, degree, draws).Success? ==>
              var ws := TokenTexts(Steps(t, Nones(degree), draws).value);
              && Generation(t, degree, draws) == Success(Join(ws))
              && Words(Join(ws)) == ws
  {
    var t := Train(s, degree, WordTokenizer, symbolizer, texts);
    TrainTotalCount(s, degree, WordTokenizer, symbolizer, texts);
    TrainWordTokens(s, degree, symbolizer, texts);
    if Generation(t, degree, draws).Success? {
      var cs := Steps(t, Nones(degree), draws).value;
      WalkFollowsTable(t, degree, draws);
      forall i | 0 <= i < |cs|
        ensures IsWord(TokenText(cs[i].token))
      {
        var k := Key(Slide(degree, SymbolsOf(cs)[..i]), cs[i].symbol);
        assert t.records[k].tokens[0] in t.records[k].tokens;
      }
      GeneratedText(t, degree, draws);
    }
  }

  /** A generator whose degree differs from the one the chain was built
      with finds no record for its opening window of nulls: it produces no
      text, whatever the draws. */
  lemma MismatchedDegree(s: Store, built: nat, degree: nat, draws: seq<nat>)
    requires WellFormed(s) && StatesOfLength(s, built) && degree != built
    ensures Generation(s, degree, draws) == Failure(if draws == [] then OutOfDraws else NoTransitions)
  {
    if draws != [] {
      DrawFails(s, Nones(degree), draws[0]);
    }
  }

  /** The configured run builds with degree 3 and generates with degree 2,
      so it never prints a text: not on a fresh collection, and not on one
      that earlier degree-3 runs trained. */
  lemma RunConfiguration(s: Store, texts: seq<string>, draws: seq<nat>)
    requires WellFormed(s) && StatesOfLength(s, 3)
    ensures WellFormed(Train(s, 3, WordTokenizer, WordSymbolizer, texts))
    ensures Generation(Train(s, 3, WordTokenizer, WordSymbolizer, texts), 2, draws)
            == Failure(if draws == [] then OutOfDraws else NoTransitions)
  {
    TrainTotalCount(s, 3, WordTokenizer, WordSymbolizer, texts);
    TrainStatesOfLength(s, 3, WordTokenizer, WordSymbolizer, texts);
    MismatchedDegree(Train(s, 3, WordTokenizer, WordSymbolizer, texts), 3, 2, draws);
  }

  /** With the degree it was built with, the generator always gets past
      its first draw on a chain trained from at least one text: the window
      of nulls opens every text. */
  lemma MatchedDegreeStarts(s: Store, degree: nat, tokenizer: Tokenizer, symbolizer: Symbolizer,
                            texts: seq<string>, r: nat)
    requires WellFormed(s) && texts != []
    ensures WellFormed(Train(s, degree, tokenizer, symbolizer, texts))
    ensures Draw(Train(s, degree, tokenizer, symbolizer, texts), Nones(degree), r).Success?
  {
    var t := Train(s, degree, tokenizer, symbolizer, texts);
    TrainTotalCount(s, degree, tokenizer, symbolizer, texts);
    StartEdge(Train(s, degree, tokenizer, symbolizer, texts[..|texts| - 1]), degree, tokenizer, symbolizer,
              texts[|texts| - 1]);
    DrawFails(t, Nones(degree), r);
  }

  /** Some record of `s` has `window` as its window. */
  ghost predicate HasState(s: Store, window: State)
  {
    exists k :: k in s.records && k.state == window
  }

  /** Every non-terminal record leads somewhere: the window it shifts to is
      the window of some record. */
  ghost predicate Closed(s: Store)
  {
    forall k :: k in s.records && k.next.Some? ==> HasState(s, Shift(k.state, k.next))
  }

  /** Calls in which each non-terminal call is followed by a call from the
      window it shifts to. */
  predicate Chained(calls: seq<LinkCall>)
  {
    forall i :: 0 <= i < |calls| && calls[i].next.Some? ==>
      i + 1 < |calls| && calls[i + 1].state == Shift(calls[i].state, calls[i].next)
  }

  /** The calls `addText` makes form a chain. */
  lemma TextCallsChained(degree: nat, tokenizer: Tokenizer, symbolizer: Symbolizer, text: string)
    ensures Chained(TextCalls(degree, tokenizer, symbolizer, text))
  {
    var tokens := Tokens(tokenizer, text);
    CallsChained(degree, Symbols(symbolizer, tokens), tokens);
  }

  lemma CallsChained(degree: nat, syms: seq<string>, tokens: seq<string>)
    requires |syms| == |tokens|
    ensures Chained(Calls(degree, syms, tokens))
  {
    var calls := Calls(degree, syms, tokens);
    forall i | 0 <= i < |calls| && calls[i].next.Some?
      ensures i + 1 < |calls| && calls[i + 1].state == Shift(calls[i].state, calls[i].next)
    {
      assert i < |tokens|;
      assert calls[i].state == Slide(degree, syms[..i]) && calls[i].next == Some(syms[i]);
      assert syms[..i + 1] == syms[..i] + [syms[i]];
      SlideSnoc(degree, syms[..i], syms[i]);
      if i + 1 == |tokens| {
        assert syms[..i + 1] == syms;
      }
    }
  }

  /** A chain of calls keeps a closed table closed. */
  lemma ApplyChainClosed(s: Store, calls: seq<LinkCall>)
    requires Closed(s) && Chained(calls)
    ensures Closed(ApplyLinks(s, calls))
  {
    var r := ApplyLinks(s, calls);
    ApplyLinksGrows(s, calls);
    ApplyLinksKeys(s, calls);
    forall k | k in r.records && k.next.Some?
      ensures HasState(r, Shift(k.state, k.next))
    {
      if k in s.records {
        var k' :| k' in s.records && k'.state == Shift(k.state, k.next);
        assert k' in r.records;
      } else {
        var i :| 0 <= i < |calls| && k == Key(calls[i].state, calls[i].next);
        ApplyLinksHasKey(s, calls, i + 1);
      }
    }
  }

  /** Training keeps a closed table closed. */
  lemma {:induction false} TrainClosed(s: Store, degree: nat, tokenizer: Tokenizer, symbolizer: Symbolizer, texts: seq<string>)
    requires Closed(s)
    ensures Closed(Train(s, degree, tokenizer, symbolizer, texts))
  {
    if texts != [] {
      var init := texts[..|texts| - 1];
      TrainClosed(s, degree, tokenizer, symbolizer, init);
      TextCallsChained(degree, tokenizer, symbolizer, texts[|texts| - 1]);
      ApplyChainClosed(Train(s, degree, tokenizer, symbolizer, init),
                       TextCalls(degree, tokenizer, symbolizer, texts[|texts| - 1]));
    }
  }

  /** On a closed table, a walk from a window some record has never gets
      stuck: it ends or runs out of draws. */
  lemma {:induction false} ClosedNeverStuck(s: Store, window: State, draws: seq<nat>)
    requires WellFormed(s) && Closed(s) && HasState(s, window)
    ensures Steps(s, window, draws) != Failure(NoTransitions)
    decreases |draws|
  {
    if draws != [] {
      var k0 :| k0 in s.records && k0.state == window;
      DrawFails(s, window, draws[0]);
      var c := Draw(s, window, draws[0]).value;
      if c.symbol.Some? {
        DrawFromTable(s, window, draws[0]);
        assert Key(window, c.symbol) in s.records;
        ClosedNeverStuck(s, Shift(window, c.symbol), draws[1..]);
      }
    }
  }

  /** With the degree it was built with, the generator never gets stuck on
      a chain trained from at least one text into a closed collection (a
      fresh one, or one only the builder has written): every walk ends with
      the null symbol or runs out of draws. */
  lemma MatchedDegreeNeverStuck(s: Store, degree: nat, tokenizer: Tokenizer, symbolizer: Symbolizer,
                                texts: seq<string>, draws: seq<nat>)
    requires WellFormed(s) && Closed(s) && texts != []
    ensures WellFormed(Train(s, degree, tokenizer, symbolizer, texts))
    ensures Generation(Train(s, degree, tokenizer, symbolizer, texts), degree, draws)
            != Failure(NoTransitions)
  {
    var t := Train(s, degree, tokenizer, symbolizer, texts);
    TrainTotalCount(s, degree, tokenizer, symbolizer, texts);
    TrainClosed(s, degree, tokenizer, symbolizer, texts);
    TrainStarts(s, degree, tokenizer, symbolizer, texts);
    ClosedNeverStuck(t, Nones(degree), draws);
  }

  /** A fresh collection is closed, and training keeps a collection
      closed, so every collection the builder alone has written is closed. */
  lemma BuilderOnlyClosed(degree: nat, tokenizer: Tokenizer, symbolizer: Symbolizer, texts: seq<string>)
    ensures Closed(Train(Store(map[], []), degree, tokenizer, symbolizer, texts))
  {
    TrainClosed(Store(map[], []), degree, tokenizer, symbolizer, texts);
  }

  /** A chain trained on at least one text has a record for the window of
      nulls. */
  lemma TrainStarts(s: Store, degree: nat, tokenizer: Tokenizer, symbolizer: Symbolizer, texts: seq<string>)
    requires texts != []
    ensures HasState(Train(s, degree, tokenizer, symbolizer, texts), Nones(degree))
  {
    var last := texts[|texts| - 1];
    StartEdge(Train(s, degree, tokenizer, symbolizer, texts[..|texts| - 1]), degree, tokenizer, symbolizer, last);
    var tokens := Tokens(tokenizer, last);
    var first := if tokens == [] then None else Some(Symbolize(symbolizer, tokens[0]));
    assert Key(Nones(degree), first) in Train(s, degree, tokenizer, symbolizer, texts).records;
  }

  /** The run with the builder's degree given to the generator as well:
      once at least one text is trained into a closed collection, it never
      fails for want of a transition. */
  lemma CorrectedRunConfiguration(s: Store, texts: seq<string>, draws: seq<nat>)
    requires WellFormed(s) && Closed(s) && texts != []
    ensures WellFormed(Train(s, 3, WordTokenizer, WordSymbolizer, texts))
    ensures Generation(Train(s, 3, WordTokenizer, WordSymbolizer, texts), 3, draws)
            != Failure(NoTransitions)
  {
    MatchedDegreeNeverStuck(s, 3, WordTokenizer, WordSymbolizer, texts, draws);
  }
}
