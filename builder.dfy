/**
 * The chain builder: slides a window of `degree` symbols over the tokens of a
 * text, links every window to the symbol and token that follow it, and ends
 * every text with a link from its last window to null; and folds that over a
 * corpus.
 */
module Builder {
  import opened Wrappers
  import opened Text
  import opened Window
  import opened Table

  /** The symbols of the tokens, position by position. */
  function Symbols(symbolizer: Symbolizer, tokens: seq<string>): (syms: seq<string>)
    ensures |syms| == |tokens|
    ensures forall i :: 0 <= i < |syms| ==> syms[i] == Symbolize(symbolizer, tokens[i])
  {
    seq(|tokens|, i requires 0 <= i < |tokens| => Symbolize(symbolizer, tokens[i]))
  }

  /** The calls of `link` that `addText` makes for the given symbols and
      tokens: call i links the window reached after the first i symbols to
      symbol i and token i, and the last call links the final window to null
      with a null token. */
  function Calls(degree: nat, syms: seq<string>, tokens: seq<string>): (calls: seq<LinkCall>)
    requires |syms| == |tokens|
    ensures |calls| == |tokens| + 1
  {
    seq(|tokens| + 1, i requires 0 <= i <= |tokens| =>
      if i < |tokens| then LinkCall(Slide(degree, syms[..i]), Some(syms[i]), Some(tokens[i]))
      else LinkCall(Slide(degree, syms), None, None))
  }

  /** The calls of `link` that `addText(text)` makes. */
  function TextCalls(degree: nat, tokenizer: Tokenizer, symbolizer: Symbolizer, text: string): seq<LinkCall>
  {
    var tokens := Tokens(tokenizer, text);
    Calls(degree, Symbols(symbolizer, tokens), tokens)
  }

  /** What a selector gives for a corpus record: null, `undefined` (what
      `d.text` gives for a record without that field), a string, or an
      exception the selector throws. */
  datatype Selection = Null | Undefined | Text(value: string) | Throws

  /** The texts `addDocuments` hands to `addText`, in corpus order, and
      whether a record stopped the run. Only null is skipped (the test is
      `text === null`). `undefined` reaches the tokenizer: the word
      tokenizer's `re.exec` reads it as the string "undefined", and the
      character tokenizer throws on `undefined.length` before any link, which
      ends `addDocuments` at that record. The selector is called without a
      `try`, so a selector that throws ends `addDocuments` there as well. */
  datatype Feed = Feed(texts: seq<string>, stopped: bool)

  function Fed<D>(tokenizer: Tokenizer, corpus: seq<D>, selector: D -> Selection): Feed
  {
    if corpus == [] then Feed([], false)
    else
      var f := Fed(tokenizer, corpus[..|corpus| - 1], selector);
      if f.stopped then f
      else
        match selector(corpus[|corpus| - 1])
        case Null => f
        case Text(text) => Feed(f.texts + [text], false)
        case Undefined =>
          if tokenizer == WordTokenizer then Feed(f.texts + ["undefined"], false)
          else Feed(f.texts, true)
        case Throws => Feed(f.texts, true)
  }

  /** The texts of the records that have one, in corpus order: what skipping
      null, `undefined` and a failing selector would train on. */
  function Selected<D>(corpus: seq<D>, selector: D -> Selection): seq<string>
  {
    if corpus == [] then []
    else
      var init := Selected(corpus[..|corpus| - 1], selector);
      match selector(corpus[|corpus| - 1])
      case Text(text) => init + [text]
      case _ => init
  }

  /** The store after `addText` has been run on each text, in order. */
  function Train(s: Store, degree: nat, tokenizer: Tokenizer, symbolizer: Symbolizer, texts: seq<string>): Store
  {
    if texts == [] then s
    else ApplyLinks(Train(s, degree, tokenizer, symbolizer, texts[..|texts| - 1]),
                    TextCalls(degree, tokenizer, symbolizer, texts[|texts| - 1]))
  }

  /** The number of observations `addText` adds for each text. */
  function Observations(tokenizer: Tokenizer, texts: seq<string>): nat
  {
    if texts == [] then 0
    else Observations(tokenizer, texts[..|texts| - 1]) + |Tokens(tokenizer, texts[|texts| - 1])| + 1
  }

  /** Every window of the table has length `degree`. */
  ghost predicate StatesOfLength(s: Store, degree: nat)
  {
    forall k :: k in s.records ==> |k.state| == degree
  }

  /** Builds the chain into `table`. */
  class MarkovChainBuilder {
    const table: TransitionTable
    const tokenizer: Tokenizer
    const symbolizer: Symbolizer
    const degree: nat

    /** The index creation the original performs here only affects the
        store's performance and is not modelled. */
    constructor (table: TransitionTable, tokenizer: Tokenizer, symbolizer: Symbolizer, degree: nat)
      ensures this.table == table && this.tokenizer == tokenizer
      ensures this.symbolizer == symbolizer && this.degree == degree
    {
      this.table := table;
      this.tokenizer := tokenizer;
      this.symbolizer := symbolizer;
      this.degree := degree;
    }

    /** `addText`: links every window of the text to the symbol and token
        that follow it, then the final window to null. */
    method AddText(text: string)
      requires table.Valid()
      modifies table
      ensures table.Valid()
      ensures table.Value() == ApplyLinks(old(table.Value()), TextCalls(degree, tokenizer, symbolizer, text))
    {
      var window := EmptyWindow(degree);
      var tokens := Tokenize(tokenizer, text);
      ghost var s0 := table.Value();
      ghost var syms := Symbols(symbolizer, tokens);
      var i := 0;
      while i < |tokens|
        invariant 0 <= i <= |tokens|
        invariant table.Valid()
        invariant window == Slide(degree, syms[..i])
        invariant table.Value() == ApplyLinks(s0, Calls(degree, syms, tokens)[..i])
      {
        var token := tokens[i];
        var symbol := Symbolize(symbolizer, token);
        AddTextStep(s0, degree, syms, tokens, i);
        table.Link(window, Some(symbol), Some(token));
        window := Shift(window, Some(symbol));
        i := i + 1;
      }
      AddTextLast(s0, degree, syms, tokens);
      table.Link(window, None, None);
    }

    /** `addDocuments`: runs `addText` on the value the selector gives for
        each corpus record, skipping the records for which it gives null;
        `ok` is false when a record stopped the run. */
    method AddDocuments<D>(corpus: seq<D>, selector: D -> Selection) returns (ok: bool)
      requires table.Valid()
      modifies table
      ensures table.Valid()
      ensures ok == !Fed(tokenizer, corpus, selector).stopped
      ensures table.Value() == Train(old(table.Value()), degree, tokenizer, symbolizer, Fed(tokenizer, corpus, selector).texts)
    {
      var index := 0;
      while index < |corpus|
        invariant 0 <= index <= |corpus|
        invariant table.Valid()
        invariant !Fed(tokenizer, corpus[..index], selector).stopped
        invariant table.Value() == Train(old(table.Value()), degree, tokenizer, symbolizer, Fed(tokenizer, corpus[..index], selector).texts)
      {
        var text := selector(corpus[index]);
        ghost var done := Fed(tokenizer, corpus[..index], selector).texts;
        assert corpus[..index + 1][..index] == corpus[..index];
        match text {
          case Null =>
          case Text(t) =>
            AddText(t);
            assert (done + [t])[..|done|] == done;
          case Undefined =>
            if tokenizer == LetterTokenizer {
              FedStaysStopped(tokenizer, corpus, selector, index + 1);
              assert corpus[..|corpus|] == corpus;
              return false;
            }
            AddText("undefined");
            assert (done + ["undefined"])[..|done|] == done;
          case Throws =>
            FedStaysStopped(tokenizer, corpus, selector, index + 1);
            assert corpus[..|corpus|] == corpus;
            return false;
        }
        index := index + 1;
      }
      assert corpus[..|corpus|] == corpus;
      ok := true;
    }
  }

  /** Once a record has stopped `addDocuments`, the later records change
      nothing. */
  lemma {:induction false} FedStaysStopped<D>(tokenizer: Tokenizer, corpus: seq<D>, selector: D -> Selection, n: nat)
    requires n <= |corpus| && Fed(tokenizer, corpus[..n], selector).stopped
    ensures Fed(tokenizer, corpus, selector) == Fed(tokenizer, corpus[..n], selector)
    decreases |corpus| - n
  {
    if n < |corpus| {
      assert corpus[..n + 1][..n] == corpus[..n];
      FedStaysStopped(tokenizer, corpus, selector, n + 1);
    } else {
      assert corpus[..n] == corpus;
    }
  }

  /** A selector that throws for some record ends `addDocuments`: the run
      stops there or earlier, and no later record is trained. */
  lemma ThrowStops<D>(tokenizer: Tokenizer, corpus: seq<D>, selector: D -> Selection, i: nat)
    requires i < |corpus| && selector(corpus[i]) == Throws
    ensures Fed(tokenizer, corpus, selector).stopped
    ensures Fed(tokenizer, corpus, selector) == Fed(tokenizer, corpus[..i + 1], selector)
  {
    assert corpus[..i + 1][..i] == corpus[..i];
    FedStaysStopped(tokenizer, corpus, selector, i + 1);
  }

  /** When every record selects a string or null, `addDocuments` trains on
      exactly the selected strings, in corpus order, and runs to the end. */
  lemma {:induction false} FedWithoutUndefined<D>(tokenizer: Tokenizer, corpus: seq<D>, selector: D -> Selection)
    requires forall i :: 0 <= i < |corpus| ==> selector(corpus[i]).Null? || selector(corpus[i]).Text?
    ensures Fed(tokenizer, corpus, selector) == Feed(Selected(corpus, selector), false)
  {
    if corpus != [] {
      var init := corpus[..|corpus| - 1];
      assert forall i :: 0 <= i < |init| ==> init[i] == corpus[i];
      FedWithoutUndefined(tokenizer, init, selector);
    }
  }

  /** Every text `Selected` yields is the string some record selects, and
      every record that selects a string contributes it: no text is
      invented for a record without one. */
  lemma {:induction false} SelectedTexts<D>(corpus: seq<D>, selector: D -> Selection)
    ensures forall t :: t in Selected(corpus, selector) <==>
              exists i :: 0 <= i < |corpus| && selector(corpus[i]) == Text(t)
  {
    if corpus != [] {
      var init := corpus[..|corpus| - 1];
      SelectedTexts(init, selector);
      assert forall i :: 0 <= i < |init| ==> init[i] == corpus[i];
      forall t | exists i :: 0 <= i < |corpus| && selector(corpus[i]) == Text(t)
        ensures t in Selected(corpus, selector)
      {
        var i :| 0 <= i < |corpus| && selector(corpus[i]) == Text(t);
        if i < |init| {
          assert selector(init[i]) == Text(t);
        }
      }
    }
  }

  /** As written, a record whose selector gives `undefined` is not skipped:
      in word mode it trains the text "undefined", which a model of the
      intended skip leaves out. */
  lemma UndefinedTrained<D>(s: Store, degree: nat, symbolizer: Symbolizer, corpus: seq<D>, selector: D -> Selection)
    requires |corpus| == 1 && selector(corpus[0]) == Undefined
    ensures Fed(WordTokenizer, corpus, selector) == Feed(["undefined"], false)
    ensures Selected(corpus, selector) == []
    ensures Key(Nones(degree), Some(Symbolize(symbolizer, "undefined")))
              in Train(s, degree, WordTokenizer, symbolizer, Fed(WordTokenizer, corpus, selector).texts).records
  {
    FedUndefined(corpus, selector);
    TrainUndefined(s, degree, symbolizer);
  }

  lemma FedUndefined<D>(corpus: seq<D>, selector: D -> Selection)
    requires |corpus| == 1 && selector(corpus[0]) == Undefined
    ensures Fed(WordTokenizer, corpus, selector) == Feed(["undefined"], false)
    ensures Selected(corpus, selector) == []
  {
    assert corpus[..0] == [];
  }

  lemma TrainUndefined(s: Store, degree: nat, symbolizer: Symbolizer)
    ensures Key(Nones(degree), Some(Symbolize(symbolizer, "undefined")))
              in Train(s, degree, WordTokenizer, symbolizer, ["undefined"]).records
  {
    var texts := ["undefined"];
    assert texts[..0] == [];
    assert Train(s, degree, WordTokenizer, symbolizer, texts)
        == ApplyLinks(s, TextCalls(degree, WordTokenizer, symbolizer, "undefined"));
    UndefinedWords();
    StartEdge(s, degree, WordTokenizer, symbolizer, "undefined");
  }

  /** The word tokenizer reads "undefined" as the one token "undefined". */
  lemma UndefinedWords()
    ensures Words("undefined") == ["undefined"]
  {
    var u := "undefined";
    assert NoSpace(u) && u[..|u|] == u && u[|u|..] == [];
    RunLengthIs(u, |u|);
  }

  /** Step i of the loop of `addText`: the i-th call links the current
      window to the symbol and token i, and the window then shifts. */
  lemma AddTextStep(s0: Store, degree: nat, syms: seq<string>, tokens: seq<string>, i: nat)
    requires |syms| == |tokens| && i < |tokens|
    ensures var calls := Calls(degree, syms, tokens);
            && Upsert(ApplyLinks(s0, calls[..i]), LinkCall(Slide(degree, syms[..i]), Some(syms[i]), Some(tokens[i])))
               == ApplyLinks(s0, calls[..i + 1])
            && Slide(degree, syms[..i + 1]) == Shift(Slide(degree, syms[..i]), Some(syms[i]))
  {
    var calls := Calls(degree, syms, tokens);
    assert calls[i] == LinkCall(Slide(degree, syms[..i]), Some(syms[i]), Some(tokens[i]));
    assert calls[..i + 1] == calls[..i] + [calls[i]];
    ApplyLinksSnoc(s0, calls[..i], calls[i]);
    SlidePrefix(degree, syms, i);
  }

  lemma SlidePrefix(degree: nat, syms: seq<string>, i: nat)
    requires i < |syms|
    ensures Slide(degree, syms[..i + 1]) == Shift(Slide(degree, syms[..i]), Some(syms[i]))
  {
    assert syms[..i + 1] == syms[..i] + [syms[i]];
    SlideSnoc(degree, syms[..i], syms[i]);
  }

  /** The last call of `addText` links the final window to null. */
  lemma AddTextLast(s0: Store, degree: nat, syms: seq<string>, tokens: seq<string>)
    requires |syms| == |tokens|
    ensures var calls := Calls(degree, syms, tokens);
            Upsert(ApplyLinks(s0, calls[..|tokens|]), LinkCall(Slide(degree, syms[..|tokens|]), None, None))
            == ApplyLinks(s0, calls)
  {
    var calls := Calls(degree, syms, tokens);
    assert syms[..|tokens|] == syms;
    assert calls == calls[..|tokens|] + [calls[|tokens|]];
    ApplyLinksSnoc(s0, calls[..|tokens|], calls[|tokens|]);
  }

  /** `addText` makes exactly `|tokens| + 1` calls of `link`: before token i
      the window is the one reached after the symbols of tokens `0..i-1`, and
      the last call links the final window to null with a null token. */
  lemma TextCallsShape(degree: nat, tokenizer: Tokenizer, symbolizer: Symbolizer, text: string)
    ensures var tokens := Tokens(tokenizer, text);
            var syms := Symbols(symbolizer, tokens);
            var calls := TextCalls(degree, tokenizer, symbolizer, text);
            && |calls| == |tokens| + 1
            && (forall i :: 0 <= i < |tokens| ==>
                  calls[i] == LinkCall(Slide(degree, syms[..i]), Some(syms[i]), Some(tokens[i])))
            && calls[|tokens|] == LinkCall(Slide(degree, syms), None, None)
  {
  }

  /** With `degree >= 1` every window `addText` links from has exactly
      `degree` entries: the last `degree` symbols before the token,
      left-padded with nulls. */
  lemma TextCallsWindows(degree: nat, tokenizer: Tokenizer, symbolizer: Symbolizer, text: string)
    requires degree >= 1
    ensures var tokens := Tokens(tokenizer, text);
            var syms := Symbols(symbolizer, tokens);
            var calls := TextCalls(degree, tokenizer, symbolizer, text);
            && |calls| == |tokens| + 1
            && (forall i :: 0 <= i < |tokens| ==> calls[i].state == LastPadded(degree, syms[..i]))
            && calls[|tokens|].state == LastPadded(degree, syms)
            && (forall i :: 0 <= i < |calls| ==> |calls[i].state| == degree)
  {
    var tokens := Tokens(tokenizer, text);
    var syms := Symbols(symbolizer, tokens);
    TextCallsShape(degree, tokenizer, symbolizer, text);
    forall i | 0 <= i < |tokens| ensures Slide(degree, syms[..i]) == LastPadded(degree, syms[..i]) {
      SlideIsLastPadded(degree, syms[..i]);
    }
    SlideIsLastPadded(degree, syms);
  }

  /** After `addText`, the table holds the terminal edge from the window
      reached after the whole text to null. */
  lemma TerminalEdge(s: Store, degree: nat, tokenizer: Tokenizer, symbolizer: Symbolizer, text: string)
    ensures var tokens := Tokens(tokenizer, text);
            Key(Slide(degree, Symbols(symbolizer, tokens)), None)
              in ApplyLinks(s, TextCalls(degree, tokenizer, symbolizer, text)).records
  {
    var calls := TextCalls(degree, tokenizer, symbolizer, text);
    TextCallsShape(degree, tokenizer, symbolizer, text);
    ApplyLinksHasKey(s, calls, |calls| - 1);
  }

  /** After `addText`, the fresh window of `degree` nulls has an outgoing
      edge: to the first symbol, or to null when the text has no token. */
  lemma StartEdge(s: Store, degree: nat, tokenizer: Tokenizer, symbolizer: Symbolizer, text: string)
    ensures var tokens := Tokens(tokenizer, text);
            var first := if tokens == [] then None else Some(Symbolize(symbolizer, tokens[0]));
            Key(Nones(degree), first) in ApplyLinks(s, TextCalls(degree, tokenizer, symbolizer, text)).records
  {
    var tokens := Tokens(tokenizer, text);
    var calls := TextCalls(degree, tokenizer, symbolizer, text);
    TextCallsShape(degree, tokenizer, symbolizer, text);
    assert Symbols(symbolizer, tokens)[..0] == [];
    ApplyLinksHasKey(s, calls, 0);
  }

  /** With the word tokenizer, an empty or all-whitespace text makes a single
      call of `link`: from the window of nulls to null. */
  lemma EmptyTextCalls(degree: nat, symbolizer: Symbolizer, text: string)
    requires AllSpace(text)
    ensures TextCalls(degree, WordTokenizer, symbolizer, text) == [LinkCall(Nones(degree), None, None)]
  {
    WordsEmpty(text);
    var calls := TextCalls(degree, WordTokenizer, symbolizer, text);
    assert Symbols(symbolizer, []) == [];
    assert calls[0] == LinkCall(Slide(degree, []), None, None);
  }

  /** `addText` adds exactly `|tokens| + 1` observations to the table. */
  lemma AddTextTotalCount(s: Store, degree: nat, tokenizer: Tokenizer, symbolizer: Symbolizer, text: string)
    requires WellFormed(s)
    ensures TotalCount(ApplyLinks(s, TextCalls(degree, tokenizer, symbolizer, text)))
            == TotalCount(s) + |Tokens(tokenizer, text)| + 1
  {
    TextCallsShape(degree, tokenizer, symbolizer, text);
    ApplyLinksTotalCount(s, TextCalls(degree, tokenizer, symbolizer, text));
  }

  /** Training a corpus adds one observation per token plus one per text. */
  lemma {:induction false} TrainTotalCount(s: Store, degree: nat, tokenizer: Tokenizer, symbolizer: Symbolizer, texts: seq<string>)
    requires WellFormed(s)
    ensures WellFormed(Train(s, degree, tokenizer, symbolizer, texts))
    ensures TotalCount(Train(s, degree, tokenizer, symbolizer, texts)) == TotalCount(s) + Observations(tokenizer, texts)
  {
    if texts != [] {
      var init := texts[..|texts| - 1];
      TrainTotalCount(s, degree, tokenizer, symbolizer, init);
      var t := Train(s, degree, tokenizer, symbolizer, init);
      AddTextTotalCount(t, degree, tokenizer, symbolizer, texts[|texts| - 1]);
      ApplyLinksWellFormed(t, TextCalls(degree, tokenizer, symbolizer, texts[|texts| - 1]));
    }
  }

  /** With `degree >= 1`, training keeps every window of the table exactly
      `degree` long. */
  lemma {:induction false} TrainStatesOfLength(s: Store, degree: nat, tokenizer: Tokenizer, symbolizer: Symbolizer, texts: seq<string>)
    requires degree >= 1 && StatesOfLength(s, degree)
    ensures StatesOfLength(Train(s, degree, tokenizer, symbolizer, texts), degree)
  {
    if texts != [] {
      var init := texts[..|texts| - 1];
      TrainStatesOfLength(s, degree, tokenizer, symbolizer, init);
      var t := Train(s, degree, tokenizer, symbolizer, init);
      var calls := TextCalls(degree, tokenizer, symbolizer, texts[|texts| - 1]);
      TextCallsWindows(degree, tokenizer, symbolizer, texts[|texts| - 1]);
      ApplyLinksKeys(t, calls);
    }
  }

  /** Training never removes a record or lowers a count. */
  lemma {:induction false} TrainGrows(s: Store, degree: nat, tokenizer: Tokenizer, symbolizer: Symbolizer, texts: seq<string>)
    ensures var r := Train(s, degree, tokenizer, symbolizer, texts);
            forall k :: k in s.records ==> k in r.records && r.records[k].count >= s.records[k].count
  {
    if texts != [] {
      var init := texts[..|texts| - 1];
      TrainGrows(s, degree, tokenizer, symbolizer, init);
      ApplyLinksGrows(Train(s, degree, tokenizer, symbolizer, init),
                      TextCalls(degree, tokenizer, symbolizer, texts[|texts| - 1]));
    }
  }
}
