/**
 * The window of the last `degree` symbols that both the builder and the
 * generator slide along a text: it starts as `degree` nulls, and every symbol
 * is added with `shift()` followed by `push()`.
 */
module Window {
  import opened Wrappers

  /** A symbol, or null: the padding of a fresh window and the end of a text. */
  type Symbol = Option<string>

  /** A window: the query key of the transition table. */
  type State = seq<Symbol>

  /** The window a builder or generator starts from: `degree` nulls. */
  function Nones(degree: nat): (w: State)
    ensures |w| == degree && forall j :: 0 <= j < |w| ==> w[j] == None
  {
    seq(degree, _ => None)
  }

  /** `prevStates.shift(); prevStates.push(symbol);` -- shifting an empty
      array changes nothing, so an empty window grows to one symbol. */
  function Shift(w: State, symbol: Symbol): (r: State)
    ensures |r| == if w == [] then 1 else |w|
    ensures r[|r| - 1] == symbol
    ensures forall j :: 0 <= j < |r| - 1 ==> r[j] == w[j + 1]
  {
    if w == [] then [symbol] else w[1..] + [symbol]
  }

  /** The window after the symbols `syms` have been pushed, one after another,
      into a fresh window of `degree` nulls. */
  function Slide(degree: nat, syms: seq<string>): State
  {
    if syms == [] then Nones(degree)
    else Shift(Slide(degree, syms[..|syms| - 1]), Some(syms[|syms| - 1]))
  }

  /** The last `degree` symbols of `syms`, with nulls in front where `syms`
      is shorter than `degree`. */
  function LastPadded(degree: nat, syms: seq<string>): State
  {
    seq(degree, j requires 0 <= j < degree =>
      if |syms| - degree + j >= 0 then Some(syms[|syms| - degree + j]) else None)
  }

  /** Fills a window with `degree` nulls, as the loops at the start of
      `addText` and `generate` do. */
  method EmptyWindow(degree: nat) returns (w: State)
    ensures w == Nones(degree)
  {
    w := [];
    var i := 0;
    while i < degree
      invariant 0 <= i <= degree
      invariant w == Nones(i)
    {
      w := w + [None];
      i := i + 1;
    }
  }

  /** With `degree >= 1` the window always has `degree` entries: the last
      `degree` symbols pushed, left-padded with nulls. */
  lemma {:induction false} SlideIsLastPadded(degree: nat, syms: seq<string>)
    requires degree >= 1
    ensures Slide(degree, syms) == LastPadded(degree, syms)
    ensures |Slide(degree, syms)| == degree
  {
    if syms != [] {
      var p := syms[..|syms| - 1];
      SlideIsLastPadded(degree, p);
      var w := LastPadded(degree, p);
      var r := Slide(degree, syms);
      assert r == Shift(w, Some(syms[|syms| - 1]));
      forall j | 0 <= j < degree ensures r[j] == LastPadded(degree, syms)[j] {
        if j < degree - 1 {
          assert r[j] == w[j + 1];
          if |p| - degree + j + 1 >= 0 {
            assert p[|p| - degree + j + 1] == syms[|syms| - degree + j];
          }
        }
      }
    }
  }

  /** With `degree == 0` the window is empty until the first symbol and then
      holds only the latest symbol. */
  lemma {:induction false} SlideDegreeZero(syms: seq<string>)
    ensures Slide(0, syms) == if syms == [] then [] else [Some(syms[|syms| - 1])]
  {
    if syms != [] {
      SlideDegreeZero(syms[..|syms| - 1]);
    }
  }

  /** Pushing one more symbol extends the slide by one step. */
  lemma SlideSnoc(degree: nat, syms: seq<string>, x: string)
    ensures Slide(degree, syms + [x]) == Shift(Slide(degree, syms), Some(x))
  {
    assert (syms + [x])[..|syms|] == syms;
  }

  /** The windows of a text are never longer than `degree`, except that a
      zero-degree window holds one symbol. */
  lemma SlideLength(degree: nat, syms: seq<string>)
    ensures |Slide(degree, syms)| == if degree == 0 && syms != [] then 1 else degree
  {
    if degree == 0 {
      SlideDegreeZero(syms);
    } else {
      SlideIsLastPadded(degree, syms);
    }
  }
}
