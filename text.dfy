/**
 * The text helpers of the chain: the word tokenizer (a scan for maximal runs of
 * non-whitespace), the word symbolizer (trim, lower-case, delete the first
 * non-word character), and the degenerate character mode in which every
 * character is a token of its own.
 */
module Text {

  /** JavaScript's `\s` class, which is also what `String.prototype.trim`
      removes: the ECMAScript WhiteSpace and LineTerminator code points. */
  predicate IsSpace(c: char)
  {
    var n := c as int;
    n == 0x09 || n == 0x0A || n == 0x0B || n == 0x0C || n == 0x0D || n == 0x20
    || n == 0xA0 || n == 0x1680 || (0x2000 <= n <= 0x200A) || n == 0x2028
    || n == 0x2029 || n == 0x202F || n == 0x205F || n == 0x3000 || n == 0xFEFF
  }

  /** JavaScript's `\w` class (a regular expression without the `u` flag). */
  predicate IsWordChar(c: char)
  {
    'a' <= c <= 'z' || 'A' <= c <= 'Z' || '0' <= c <= '9' || c == '_'
  }

  predicate IsUpper(c: char)
  {
    'A' <= c <= 'Z'
  }

  predicate AllSpace(s: string)
  {
    forall k :: 0 <= k < |s| ==> IsSpace(s[k])
  }

  predicate NoSpace(s: string)
  {
    forall k :: 0 <= k < |s| ==> !IsSpace(s[k])
  }

  predicate AllWord(s: string)
  {
    forall k :: 0 <= k < |s| ==> IsWordChar(s[k])
  }

  /** A token the word tokenizer can produce: non-empty and free of whitespace. */
  predicate IsWord(w: string)
  {
    w != [] && NoSpace(w)
  }

  function LowerChar(c: char): char
  {
    if IsUpper(c) then (c as int + 32) as char else c
  }

  /** `toLowerCase`, restricted to the ASCII letters. */
  function Lower(s: string): (r: string)
    ensures |r| == |s|
    ensures forall k :: 0 <= k < |r| ==> !IsUpper(r[k])
    ensures forall k :: 0 <= k < |r| ==> IsUpper(s[k]) || r[k] == s[k]
    ensures forall k :: 0 <= k < |r| && IsUpper(s[k]) ==> r[k] as int == s[k] as int + 32
  {
    seq(|s|, k requires 0 <= k < |s| => LowerChar(s[k]))
  }

  /** The number of whitespace characters that start `s`. */
  function Leading(s: string): (n: nat)
    ensures n <= |s| && AllSpace(s[..n])
    ensures n < |s| ==> !IsSpace(s[n])
  {
    if s == [] || !IsSpace(s[0]) then 0
    else
      var n := 1 + Leading(s[1..]);
      assert s[..n] == [s[0]] + s[1..][..n - 1];
      n
  }

  /** Drops the trailing whitespace. */
  function TrimEnd(s: string): (r: string)
    ensures |r| <= |s| && r == s[..|r|]
    ensures AllSpace(s[|r|..])
    ensures r != [] ==> !IsSpace(r[|r| - 1])
  {
    if s != [] && IsSpace(s[|s| - 1]) then TrimEnd(s[..|s| - 1]) else s
  }

  /** `String.prototype.trim`: the slice of `s` left once the whitespace at
      both ends is gone. */
  function Trim(s: string): (r: string)
    ensures var n := Leading(s);
            |r| <= |s| - n && r == s[n..n + |r|] && AllSpace(s[n + |r|..])
    ensures r != [] ==> !IsSpace(r[0]) && !IsSpace(r[|r| - 1])
    ensures r == [] <==> AllSpace(s)
  {
    TrimParts(s);
    TrimEnd(s[Leading(s)..])
  }

  /** The index of the first character outside `\w`, or `|s|` if there is none. */
  function FirstNonWord(s: string): (i: nat)
    ensures i <= |s| && AllWord(s[..i])
    ensures i < |s| ==> !IsWordChar(s[i])
  {
    if s == [] || !IsWordChar(s[0]) then 0
    else
      var i := 1 + FirstNonWord(s[1..]);
      assert s[..i] == [s[0]] + s[1..][..i - 1];
      i
  }

  /** `s.replace(/[^\w]/, '')`: the pattern has no `g` flag, so only the first
      non-word character is deleted. */
  function RemoveFirstNonWord(s: string): string
  {
    if s == [] then []
    else if !IsWordChar(s[0]) then s[1..]
    else [s[0]] + RemoveFirstNonWord(s[1..])
  }

  /** The deletion removes exactly the character at `FirstNonWord(s)`, and
      leaves a string of word characters unchanged. */
  lemma {:induction false} RemovesFirstNonWord(s: string)
    ensures var i := FirstNonWord(s);
            RemoveFirstNonWord(s) == if i < |s| then s[..i] + s[i + 1..] else s
  {
    if s != [] {
      HeadTail(s);
      if IsWordChar(s[0]) {
        RemovesFirstNonWord(s[1..]);
        RemovesAfterWordChar(s[0], s[1..]);
        assert FirstNonWord(s) == FirstNonWord([s[0]] + s[1..]);
        assert RemoveFirstNonWord(s) == RemoveFirstNonWord([s[0]] + s[1..]);
      }
    }
  }

  lemma HeadTail<T>(s: seq<T>)
    requires s != []
    ensures [s[0]] + s[1..] == s && s[..0] + s[1..] == s[1..]
  {
  }

  lemma RemovesAfterWordChar(c: char, t: string)
    requires IsWordChar(c)
    requires var j := FirstNonWord(t);
             RemoveFirstNonWord(t) == if j < |t| then t[..j] + t[j + 1..] else t
    ensures var s := [c] + t;
            var i := FirstNonWord(s);
            RemoveFirstNonWord(s) == if i < |s| then s[..i] + s[i + 1..] else s
  {
    var s := [c] + t;
    assert s[0] == c && s[1..] == t;
    var j := FirstNonWord(t);
    assert FirstNonWord(s) == j + 1;
    assert RemoveFirstNonWord(s) == [c] + RemoveFirstNonWord(t);
    if j < |t| {
      RemovesInside(c, t, j);
    }
  }

  lemma RemovesInside(c: char, t: string, j: nat)
    requires j < |t|
    ensures [c] + (t[..j] + t[j + 1..]) == ([c] + t)[..j + 1] + ([c] + t)[j + 2..]
  {
    var s := [c] + t;
    assert s[..j + 1] == [c] + t[..j];
    assert s[j + 2..] == t[j + 1..];
  }

  /** The word symbolizer: trims and lower-cases the token, then deletes its
      first non-word character; when that deletion leaves nothing, the trimmed
      lower-cased text is the symbol. */
  function WordSymbolize(token: string): (r: string)
    ensures var l := Lower(Trim(token));
            var i := FirstNonWord(l);
            (i == |l| ==> r == l)
            && (i < |l| && |l| > 1 ==> r == l[..i] + l[i + 1..])
            && (i < |l| && |l| == 1 ==> r == l)
    ensures r == [] <==> AllSpace(token)
  {
    var l := Lower(Trim(token));
    var symbol := RemoveFirstNonWord(l);
    SymbolCases(l);
    if symbol != [] then symbol else l
  }

  /** What the word symbolizer makes of a trimmed, lower-cased text `l`. */
  lemma SymbolCases(l: string)
    ensures var i := FirstNonWord(l);
            var symbol := RemoveFirstNonWord(l);
            var r := if symbol != [] then symbol else l;
            && (i == |l| ==> r == l)
            && (i < |l| && |l| > 1 ==> r == l[..i] + l[i + 1..])
            && (i < |l| && |l| == 1 ==> r == l)
            && (r == [] <==> l == [])
  {
    var i := FirstNonWord(l);
    RemovesFirstNonWord(l);
    if i < |l| {
      assert |l[..i] + l[i + 1..]| == |l| - 1;
    }
  }

  /** The character symbolizer: the token lower-cased. */
  function LetterSymbolize(token: string): (r: string)
    ensures |r| == |token|
    ensures forall k :: 0 <= k < |r| ==> !IsUpper(r[k])
    ensures forall k :: 0 <= k < |r| ==> IsUpper(token[k]) || r[k] == token[k]
    ensures forall k :: 0 <= k < |r| && IsUpper(token[k]) ==> r[k] as int == token[k] as int + 32
  {
    Lower(token)
  }

  /** The length of the run of non-whitespace characters that starts `s`. */
  function RunLength(s: string): (n: nat)
    ensures n <= |s| && NoSpace(s[..n])
    ensures n < |s| ==> IsSpace(s[n])
  {
    if s == [] || IsSpace(s[0]) then 0
    else
      var n := 1 + RunLength(s[1..]);
      assert s[..n] == [s[0]] + s[1..][..n - 1];
      n
  }

  /** The tokens of `/[^\s]+/g`: the maximal runs of non-whitespace, from left
      to right. */
  function Words(s: string): seq<string>
    decreases |s|
  {
    if s == [] then []
    else if IsSpace(s[0]) then Words(s[1..])
    else
      var n := RunLength(s);
      [s[..n]] + Words(s[n..])
  }

  /** The characters of `s` that are not whitespace, in order. */
  function RemoveSpaces(s: string): string
  {
    if s == [] then []
    else if IsSpace(s[0]) then RemoveSpaces(s[1..])
    else [s[0]] + RemoveSpaces(s[1..])
  }

  /** The strings of `ws` one after another. */
  function Concat(ws: seq<string>): string
  {
    if ws == [] then [] else ws[0] + Concat(ws[1..])
  }

  /** The strings of `ws` separated by single spaces. */
  function Join(ws: seq<string>): string
  {
    if ws == [] then []
    else if |ws| == 1 then ws[0]
    else ws[0] + " " + Join(ws[1..])
  }

  /** In character mode, `tokenize` returns the text itself, and indexing it
      makes every character a token. */
  function LetterTokens(text: string): seq<string>
  {
    seq(|text|, k requires 0 <= k < |text| => [text[k]])
  }

  /** Which tokenizer a builder was given. */
  datatype Tokenizer = LetterTokenizer | WordTokenizer

  /** Which symbolizer a builder was given. */
  datatype Symbolizer = LetterSymbolizer | WordSymbolizer

  function Tokens(tokenizer: Tokenizer, text: string): seq<string>
  {
    match tokenizer
    case LetterTokenizer => LetterTokens(text)
    case WordTokenizer => Words(text)
  }

  function Symbolize(symbolizer: Symbolizer, token: string): string
  {
    match symbolizer
    case LetterSymbolizer => LetterSymbolize(token)
    case WordSymbolizer => WordSymbolize(token)
  }

  /** The word tokenizer's `scan`: repeatedly finds the leftmost maximal run of
      non-whitespace at or after the end of the previous match. */
  method Scan(text: string) returns (r: seq<string>)
    ensures r == Words(text)
  {
    r := [];
    var i := 0;
    assert text[0..] == text;
    while i < |text|
      invariant 0 <= i <= |text|
      invariant r + Words(text[i..]) == Words(text)
    {
      if IsSpace(text[i]) {
        WordsSkip(text, i);
        i := i + 1;
      } else {
        var j := i;
        while j < |text| && !IsSpace(text[j])
          invariant i <= j <= |text|
          invariant forall k :: i <= k < j ==> !IsSpace(text[k])
        {
          j := j + 1;
        }
        WordsMatch(text, i, j);
        r := r + [text[i..j]];
        i := j;
      }
    }
  }

  /** A whitespace character before the rest of the text adds no token. */
  lemma WordsSkip(text: string, i: nat)
    requires i < |text| && IsSpace(text[i])
    ensures Words(text[i..]) == Words(text[i + 1..])
  {
    assert text[i..][1..] == text[i + 1..];
  }

  /** A maximal run of non-whitespace from `i` to `j` is the next token. */
  lemma WordsMatch(text: string, i: nat, j: nat)
    requires i < j <= |text|
    requires forall k :: i <= k < j ==> !IsSpace(text[k])
    requires j < |text| ==> IsSpace(text[j])
    ensures Words(text[i..]) == [text[i..j]] + Words(text[j..])
  {
    var t := text[i..];
    assert !IsSpace(t[0]);
    assert t[..j - i] == text[i..j];
    assert t[j - i..] == text[j..];
    RunLengthIs(t, j - i);
  }

  /** `tokenize` of the chosen tokenizer. */
  method Tokenize(tokenizer: Tokenizer, text: string) returns (tokens: seq<string>)
    ensures tokens == Tokens(tokenizer, text)
  {
    match tokenizer
    case LetterTokenizer =>
      tokens := LetterTokens(text);
    case WordTokenizer =>
      tokens := Scan(text);
  }

  /** A run that cannot be extended is the run `RunLength` measures. */
  lemma {:induction false} RunLengthIs(s: string, n: nat)
    requires n <= |s| && NoSpace(s[..n])
    requires n < |s| ==> IsSpace(s[n])
    ensures RunLength(s) == n
  {
  }

  /** The two halves of `Trim` put together. */
  lemma TrimParts(s: string)
    ensures var n := Leading(s);
            var r := TrimEnd(s[n..]);
            && |r| <= |s| - n && r == s[n..n + |r|] && AllSpace(s[n + |r|..])
            && (r != [] ==> !IsSpace(r[0]) && !IsSpace(r[|r| - 1]))
            && (r == [] <==> AllSpace(s))
  {
    var n := Leading(s);
    TrimEndSlice(s, n);
    TrimEndEnds(s, n);
    TrimEndEmptyIff(s, n);
  }

  lemma TrimEndSlice(s: string, n: nat)
    requires n <= |s|
    ensures var r := TrimEnd(s[n..]);
            |r| <= |s| - n && r == s[n..n + |r|] && AllSpace(s[n + |r|..])
  {
    var t := s[n..];
    var r := TrimEnd(t);
    assert s[n + |r|..] == t[|r|..];
    assert s[n..n + |r|] == t[..|r|];
  }

  lemma TrimEndEnds(s: string, n: nat)
    requires n <= |s| && (n < |s| ==> !IsSpace(s[n]))
    ensures var r := TrimEnd(s[n..]);
            r != [] ==> !IsSpace(r[0]) && !IsSpace(r[|r| - 1])
  {
    var t := s[n..];
    var r := TrimEnd(t);
    if r != [] {
      assert r[0] == t[0] == s[n];
    }
  }

  lemma TrimEndEmptyIff(s: string, n: nat)
    requires n <= |s| && AllSpace(s[..n]) && (n < |s| ==> !IsSpace(s[n]))
    ensures TrimEnd(s[n..]) == [] <==> AllSpace(s)
  {
    var t := s[n..];
    if n < |s| {
      assert t[0] == s[n];
      TrimEndEmpty(t);
    } else {
      assert s[..n] == s;
      assert t == [];
    }
  }

  /** Trimming the end of a string that starts with a non-space character
      leaves something. */
  lemma TrimEndEmpty(t: string)
    requires t != [] ==> !IsSpace(t[0])
    ensures TrimEnd(t) == [] ==> t == []
  {
    assert t[0..] == t;
  }

  /** Every token of the word tokenizer is non-empty and free of whitespace. */
  lemma {:induction false} WordsAreWords(s: string)
    ensures forall k :: 0 <= k < |Words(s)| ==> IsWord(Words(s)[k])
    decreases |s|
  {
    if s == [] {
    } else if IsSpace(s[0]) {
      WordsAreWords(s[1..]);
    } else {
      var n := RunLength(s);
      WordsAreWords(s[n..]);
    }
  }

  lemma {:induction false} RemoveSpacesAppend(a: string, b: string)
    ensures RemoveSpaces(a + b) == RemoveSpaces(a) + RemoveSpaces(b)
  {
    if a == [] {
      assert a + b == b;
    } else {
      assert (a + b)[0] == a[0] && (a + b)[1..] == a[1..] + b;
      RemoveSpacesAppend(a[1..], b);
    }
  }

  lemma {:induction false} RemoveSpacesNone(a: string)
    requires NoSpace(a)
    ensures RemoveSpaces(a) == a
  {
    if a != [] {
      assert NoSpace(a[1..]) by {
        forall k | 0 <= k < |a| - 1 ensures !IsSpace(a[1..][k]) {
          assert a[1..][k] == a[k + 1];
        }
      }
      RemoveSpacesNone(a[1..]);
    }
  }

  lemma RemoveSpacesOfRun(s: string, n: nat)
    requires n <= |s| && NoSpace(s[..n])
    ensures RemoveSpaces(s) == s[..n] + RemoveSpaces(s[n..])
  {
    assert s == s[..n] + s[n..];
    RemoveSpacesAppend(s[..n], s[n..]);
    RemoveSpacesNone(s[..n]);
  }

  /** Read one after another, the tokens give back the text without its
      whitespace: nothing but whitespace is lost, and the order is kept. */
  lemma {:induction false} WordsConcat(s: string)
    ensures Concat(Words(s)) == RemoveSpaces(s)
    decreases |s|
  {
    if s == [] {
    } else if IsSpace(s[0]) {
      WordsConcat(s[1..]);
    } else {
      var n := RunLength(s);
      WordsConcat(s[n..]);
      RemoveSpacesOfRun(s, n);
      var ws := [s[..n]] + Words(s[n..]);
      assert ws[0] == s[..n] && ws[1..] == Words(s[n..]);
    }
  }

  /** The word tokenizer returns no token exactly when the text is empty or
      all whitespace. */
  lemma {:induction false} WordsEmpty(s: string)
    ensures Words(s) == [] <==> AllSpace(s)
    decreases |s|
  {
    if s != [] {
      WordsEmpty(s[1..]);
      if IsSpace(s[0]) {
        if AllSpace(s[1..]) {
          forall k | 0 <= k < |s| ensures IsSpace(s[k]) {
            if k > 0 { assert s[k] == s[1..][k - 1]; }
          }
        }
      }
    }
  }

  /** Tokenizing words joined by single spaces gives the words back. */
  lemma {:induction false} WordsOfJoin(ws: seq<string>)
    requires forall k :: 0 <= k < |ws| ==> IsWord(ws[k])
    ensures Words(Join(ws)) == ws
  {
    if ws == [] {
    } else {
      var w := ws[0];
      if |ws| == 1 {
        RunLengthIs(w, |w|);
        assert w[..|w|] == w && w[|w|..] == [];
      } else {
        var rest := Join(ws[1..]);
        var s := w + " " + rest;
        assert s[..|w|] == w;
        assert s[|w|] == ' ';
        RunLengthIs(s, |w|);
        assert s[|w|..][1..] == rest;
        WordsOfJoin(ws[1..]);
      }
    }
  }

  /** Joining one more word appends a space and that word. */
  lemma {:induction false} JoinSnoc(ws: seq<string>, w: string)
    requires ws != []
    ensures Join(ws + [w]) == Join(ws) + " " + w
  {
    if |ws| == 1 {
      assert (ws + [w])[1..] == [w];
    } else {
      assert (ws + [w])[0] == ws[0] && (ws + [w])[1..] == ws[1..] + [w];
      JoinSnoc(ws[1..], w);
    }
  }

  /** Joined words neither start nor end with whitespace. */
  lemma {:induction false} JoinEnds(ws: seq<string>)
    requires ws != [] && forall k :: 0 <= k < |ws| ==> IsWord(ws[k])
    ensures var j := Join(ws);
            j != [] && !IsSpace(j[0]) && !IsSpace(j[|j| - 1])
  {
    if |ws| > 1 {
      JoinEnds(ws[1..]);
      var j := Join(ws);
      var rest := Join(ws[1..]);
      assert j == ws[0] + " " + rest;
      assert j[0] == ws[0][0];
      assert j[|j| - 1] == rest[|rest| - 1];
    }
  }

  /** Trimming a text with no whitespace at either end, followed by one
      space, gives the text back. */
  lemma TrimSpaced(x: string)
    requires x != [] && !IsSpace(x[0]) && !IsSpace(x[|x| - 1])
    ensures Trim(x + " ") == x
  {
    var t := x + " ";
    assert Leading(t) == 0 by {
      assert t[0] == x[0];
    }
    assert t[0..] == t;
    assert t[..|t| - 1] == x;
    assert TrimEnd(t) == TrimEnd(x);
  }

  /** In character mode the tokens, read one after another, are the text. */
  lemma {:induction false} LetterTokensConcat(text: string)
    ensures |LetterTokens(text)| == |text|
    ensures Concat(LetterTokens(text)) == text
  {
    if text != [] {
      assert LetterTokens(text)[1..] == LetterTokens(text[1..]);
      LetterTokensConcat(text[1..]);
    }
  }

  /** Because the replacement is not global, the word symbolizer keeps every
      non-word character but the first, so applying it again changes the
      symbol: it is not idempotent. */
  lemma SymbolizeNotIdempotent()
    ensures WordSymbolize("a.b.") == "ab."
    ensures WordSymbolize("ab.") == "ab"
  {
    SymbolizeDotted();
    SymbolizeDottedOnce();
  }

  lemma SymbolizeDotted()
    ensures WordSymbolize("a.b.") == "ab."
  {
    var t := "a.b.";
    var rest := t[1..];
    assert rest == ".b.";
    assert RemoveFirstNonWord(rest) == "b." by {
      assert !IsWordChar(rest[0]) && rest[1..] == "b.";
    }
    assert RemoveFirstNonWord(t) == "ab." by {
      assert IsWordChar(t[0]);
      assert RemoveFirstNonWord(t) == [t[0]] + RemoveFirstNonWord(rest);
    }
    SymbolizePlain(t);
  }

  lemma SymbolizeDottedOnce()
    ensures WordSymbolize("ab.") == "ab"
  {
    var u := "ab.";
    assert RemoveFirstNonWord(u) == "ab" by {
      assert IsWordChar(u[0]) && IsWordChar(u[1]) && !IsWordChar(u[2]);
      assert RemoveFirstNonWord(u[2..]) == [];
      assert RemoveFirstNonWord(u[1..]) == "b";
    }
    SymbolizePlain(u);
  }

  /** A token made only of non-word characters loses just its first one; a
      single such character is kept as it is. */
  lemma SymbolizePunctuation()
    ensures WordSymbolize("!!!") == "!!"
    ensures WordSymbolize("!") == "!"
  {
    SymbolizeBangs();
    SymbolizeBang();
  }

  lemma SymbolizeBangs()
    ensures WordSymbolize("!!!") == "!!"
  {
    var t := "!!!";
    assert RemoveFirstNonWord(t) == "!!" by {
      assert !IsWordChar(t[0]);
    }
    SymbolizePlain(t);
  }

  lemma SymbolizeBang()
    ensures WordSymbolize("!") == "!"
  {
    var u := "!";
    assert RemoveFirstNonWord(u) == [] by {
      assert !IsWordChar(u[0]);
    }
    SymbolizePlain(u);
  }

  /** A token without whitespace at its ends and without capitals is its own
      trimmed, lower-cased form. */
  lemma PlainToken(s: string)
    requires s != [] && !IsSpace(s[0]) && !IsSpace(s[|s| - 1])
    requires forall k :: 0 <= k < |s| ==> !IsUpper(s[k])
    ensures Lower(Trim(s)) == s
  {
    assert Leading(s) == 0 && s[0..] == s;
    assert TrimEnd(s) == s;
  }

  /** The word symbol of such a token is the token minus its first non-word
      character, or the token itself if that leaves nothing. */
  lemma SymbolizePlain(s: string)
    requires s != [] && !IsSpace(s[0]) && !IsSpace(s[|s| - 1])
    requires forall k :: 0 <= k < |s| ==> !IsUpper(s[k])
    ensures WordSymbolize(s) == if RemoveFirstNonWord(s) != [] then RemoveFirstNonWord(s) else s
  {
    PlainToken(s);
  }
}
