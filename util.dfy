/** The quoted-argument tokenizer `split` of oi/util.py.

    `Split` is the source's loop: it scans the cleaned-up text one character at
    a time, keeps a `quoted` flag and a `part` buffer, and appends finished
    tokens to `parts`.  Its specification `Tokens` is the same scan written as
    a left fold (`Run`) of the per-character transition `Step`; the lemmas
    below state what the scan guarantees. */
module Util {
  import opened Python

  const Quote: char := '"'
  const Space: char := ' '

  /** The scanner's variables: the `quoted` flag, the `part` buffer and the
      tokens emitted so far. */
  datatype Scan = Scan(quoted: bool, part: string, parts: seq<string>)

  const Start: Scan := Scan(false, "", [])

  /** `text.strip()` followed by `re.sub(r'\s+', ' ', text)`. */
  function Normalize(text: string): string {
    Collapse(Strip(text))
  }

  /** One iteration of the loop body, branch for branch. */
  function Step(st: Scan, c: char): (r: Scan)
    ensures |st.parts| <= |r.parts| <= |st.parts| + 1 && r.parts[..|st.parts|] == st.parts
    ensures c == Quote && st.quoted ==> |r.parts| == |st.parts| + 1 && r.part == ""
  {
    if c == Quote && !st.quoted then
      st.(quoted := true)                              // an opening quote keeps the buffer
    else if c == Quote && st.quoted then
      Scan(false, "", st.parts + [Strip(st.part)])     // a closing quote always emits
    else if c == Space && st.quoted then
      st.(part := st.part + [c])
    else if c == Space then
      if st.part != "" then Scan(st.quoted, "", st.parts + [st.part]) else st
    else
      st.(part := st.part + [c])
  }

  /** The loop over `s`, started in state `st`. */
  function Run(st: Scan, s: string): (r: Scan)
    ensures |st.parts| <= |r.parts| <= |st.parts| + |s| && r.parts[..|st.parts|] == st.parts
    decreases |s|
  {
    if s == [] then st else Step(Run(st, s[..|s| - 1]), s[|s| - 1])
  }

  /** After the loop: a non-empty buffer is emitted stripped. */
  function Finish(st: Scan): (r: seq<string>)
    ensures |st.parts| <= |r| <= |st.parts| + 1 && r[..|st.parts|] == st.parts
    ensures st.part == "" ==> r == st.parts
  {
    if st.part != "" then st.parts + [Strip(st.part)] else st.parts
  }

  /** What `split(text)` returns. */
  function Tokens(text: string): seq<string> {
    Finish(Run(Start, Normalize(text)))
  }

  /** `split(text)`: the loop of the source, proved to compute `Tokens`. */
  method Split(text: string) returns (parts: seq<string>)
    ensures parts == Tokens(text)
    ensures forall k :: 0 <= k < |parts| ==> Quote !in parts[k]
  {
    var t := Normalize(text);
    parts := [];
    var part, quoted := "", false;
    for i := 0 to |t|
      invariant Run(Start, t[..i]) == Scan(quoted, part, parts)
    {
      var c := t[i];
      assert t[..i + 1][..i] == t[..i];
      if c == Quote && !quoted {
        quoted := true;
      } else if c == Quote && quoted {
        quoted := false;
        parts := parts + [Strip(part)];
        part := "";
      } else if c == Space && quoted {
        part := part + [c];
      } else if c == Space {
        if part != "" {
          parts := parts + [part];
          part := "";
        }
      } else {
        part := part + [c];
      }
    }
    assert t[..|t|] == t;
    if part != "" {
      parts := parts + [Strip(part)];
    }
    TokensHaveNoQuotes(text);
  }

  // ---------------------------------------------------------------------
  // Structure of the fold

  lemma {:induction false} RunAppend(st: Scan, x: string, y: string)
    ensures Run(st, x + y) == Run(Run(st, x), y)
    decreases |y|
  {
    if y == [] {
      assert x + y == x;
    } else {
      assert (x + y)[..|x + y| - 1] == x + y[..|y| - 1];
      RunAppend(st, x, y[..|y| - 1]);
    }
  }

  lemma RunOne(st: Scan, c: char)
    ensures Run(st, [c]) == Step(st, c)
  {
    assert [c][..0] == [];
  }

  /** Tokens are only ever appended: earlier tokens are never changed. */
  lemma {:induction false} RunExtendsParts(st: Scan, s: string)
    ensures |Run(st, s).parts| >= |st.parts|
    ensures Run(st, s).parts[..|st.parts|] == st.parts
    decreases |s|
  {
    if s != [] {
      RunExtendsParts(st, s[..|s| - 1]);
    }
  }

  // ---------------------------------------------------------------------
  // Quote characters never reach the output

  lemma StripMembers(s: string, c: char)
    requires c in Strip(s)
    ensures c in s
  {
    StripStartSpec(s);
    StripEndSpec(StripStart(s));
  }

  ghost predicate QuoteFree(st: Scan) {
    Quote !in st.part && forall k :: 0 <= k < |st.parts| ==> Quote !in st.parts[k]
  }

  lemma {:induction false} RunQuoteFree(st: Scan, s: string)
    requires QuoteFree(st)
    ensures QuoteFree(Run(st, s))
    decreases |s|
  {
    if s != [] {
      RunQuoteFree(st, s[..|s| - 1]);
      var p := Run(st, s[..|s| - 1]);
      if Quote in Strip(p.part) {
        StripMembers(p.part, Quote);
      }
    }
  }

  /** No token returned by `split` contains a `"` character. */
  lemma TokensHaveNoQuotes(text: string)
    ensures forall k :: 0 <= k < |Tokens(text)| ==> Quote !in Tokens(text)[k]
  {
    var st := Run(Start, Normalize(text));
    RunQuoteFree(Start, Normalize(text));
    if Quote in Strip(st.part) {
      StripMembers(st.part, Quote);
    }
  }

  // ---------------------------------------------------------------------
  // Whitespace: blank input, padding, run length

  /** Empty or all-whitespace input gives no tokens. */
  lemma BlankGivesNoTokens(text: string)
    requires Solid(text) == []
    ensures Tokens(text) == []
  {
    StripSpec(text);
  }

  /** Whitespace only ever appears in the normalized text as single spaces
      between other characters. */
  ghost predicate Canonical(s: string) {
    Spaced(s) && (s != [] ==> !IsSpace(s[0]) && !IsSpace(s[|s| - 1]))
  }

  lemma NormalizeCanonical(text: string)
    ensures Canonical(Normalize(text))
    ensures Solid(Normalize(text)) == Solid(text)
  {
    StripSpec(text);
    CollapseSpacedResult(Strip(text));
    CollapseEnds(Strip(text));
    CollapseSolid(Strip(text));
  }

  lemma CanonicalIsNormal(s: string)
    requires Canonical(s)
    ensures Normalize(s) == s
  {
    if s != [] {
      assert StripStart(s) == s;
      assert StripEnd(s) == s;
    }
    CollapseSpaced(s);
  }

  /** Normalizing twice is normalizing once. */
  lemma NormalizeIdempotent(text: string)
    ensures Normalize(Normalize(text)) == Normalize(text)
  {
    NormalizeCanonical(text);
    CanonicalIsNormal(Normalize(text));
  }

  /** The tokens depend only on the whitespace-normalized text. */
  lemma TokensOfNormalized(text: string)
    ensures Tokens(Normalize(text)) == Tokens(text)
  {
    NormalizeIdempotent(text);
  }

  /** Leading and trailing whitespace do not change the tokens. */
  lemma TokensIgnorePadding(w1: string, s: string, w2: string)
    requires Solid(w1) == [] && Solid(w2) == []
    ensures Tokens(w1 + s + w2) == Tokens(s)
  {
    StripPadding(w1, s, w2);
  }

  /** A run of whitespace anywhere in the text acts as a single space. */
  lemma TokensIgnoreRunLength(a: string, w: string, b: string)
    requires w != [] && Solid(w) == []
    ensures Tokens(a + w + b) == Tokens(a + " " + b)
  {
    NormalizeRun(a, w, b);
  }

  lemma NormalizeRun(a: string, w: string, b: string)
    requires w != [] && Solid(w) == []
    ensures Normalize(a + w + b) == Normalize(a + " " + b)
  {
    SolidOne(' ');
    if Solid(a) == [] {
      RunBesideBlankLeft(a, w, b);
      RunBesideBlankLeft(a, " ", b);
    } else if Solid(b) == [] {
      RunBesideBlankRight(a, w, b);
      RunBesideBlankRight(a, " ", b);
    } else {
      StripAround(a, w, b);
      StripAround(a, " ", b);
      CollapseRun(StripStart(a), w, StripEnd(b));
    }
  }

  /** A blank run after blank text merges into the leading padding. */
  lemma RunBesideBlankLeft(a: string, w: string, b: string)
    requires Solid(a) == [] && Solid(w) == []
    ensures Strip(a + w + b) == Strip(b)
  {
    SolidAppend(a, w);
    StripBlankFront(a + w, b);
  }

  /** A blank run before blank text merges into the trailing padding. */
  lemma RunBesideBlankRight(a: string, w: string, b: string)
    requires Solid(w) == [] && Solid(b) == []
    ensures Strip(a + w + b) == Strip(a)
  {
    SolidAppend(w, b);
    Assoc(a, w, b);
    StripBlankBack(a, w + b);
  }

  // ---------------------------------------------------------------------
  // Quoted segments

  /** Inside quotes every character that is not a quote is kept in the buffer,
      spaces included. */
  lemma {:induction false} RunQuotedBody(st: Scan, s: string)
    requires st.quoted && Quote !in s
    ensures Run(st, s) == st.(part := st.part + s)
    decreases |s|
  {
    if s == [] {
      assert st.part + s == st.part;
    } else {
      var s' := s[..|s| - 1];
      assert s == s' + [s[|s| - 1]];
      RunQuotedBody(st, s');
      assert st.part + s' + [s[|s| - 1]] == st.part + s;
    }
  }

  /** A quoted segment read outside quotes ends as exactly one new token: the
      buffer from before the opening quote (which is not flushed) followed by
      the segment, stripped.  So `ab"cd"` gives `abcd` and `""` gives `""`. */
  lemma QuotedSegment(st: Scan, s: string)
    requires !st.quoted && Quote !in s
    ensures Run(st, [Quote] + s + [Quote]) == Scan(false, "", st.parts + [Strip(st.part + s)])
  {
    RunAppend(st, [Quote] + s, [Quote]);
    RunAppend(st, [Quote], s);
    RunOne(st, Quote);
    RunQuotedBody(st.(quoted := true), s);
    RunOne(Run(st, [Quote] + s), Quote);
  }

  // ---------------------------------------------------------------------
  // Text without quotes

  /** The non-empty pieces, in order. */
  function NonEmpty(pieces: seq<string>): (r: seq<string>)
    ensures forall k :: 0 <= k < |r| ==> r[k] != []
  {
    if pieces == [] then []
    else
      var front := NonEmpty(pieces[..|pieces| - 1]);
      if pieces[|pieces| - 1] == [] then front else front + [pieces[|pieces| - 1]]
  }

  /** The reference for unquoted text: the non-empty words between spaces. */
  function Words(s: string): seq<string> {
    NonEmpty(SplitOn(s, Space))
  }

  ghost predicate NoSpace(s: string) {
    forall i :: 0 <= i < |s| ==> !IsSpace(s[i])
  }

  lemma SpacedPrefix(s: string, k: nat)
    requires Spaced(s) && k <= |s|
    ensures Spaced(s[..k])
  {
    assert forall i :: 0 <= i < k ==> s[..k][i] == s[i];
  }

  /** The scanner state that RunUnquoted describes. */
  ghost predicate ReadsWords(s: string) {
    var sp := SplitOn(s, Space);
    Run(Start, s) == Scan(false, sp[|sp| - 1], NonEmpty(sp[..|sp| - 1])) && NoSpace(sp[|sp| - 1])
  }

  /** A space outside quotes hands the current word over, if there is one. */
  lemma ReadsWordsSpace(s': string)
    requires ReadsWords(s')
    ensures ReadsWords(s' + [Space])
  {
    var s := s' + [Space];
    var init := SplitOn(s', Space);
    var x, l := init[..|init| - 1], init[|init| - 1];
    assert s[..|s| - 1] == s';
    var sp := SplitOn(s, Space);
    assert sp == init + [[]];
    assert sp[..|sp| - 1] == init;
    assert init == x + [l];
    NonEmptySnoc(x, l);
  }

  /** Any other character outside quotes extends the current word. */
  lemma ReadsWordsChar(s': string, c: char)
    requires ReadsWords(s') && c != Quote && !IsSpace(c)
    ensures ReadsWords(s' + [c])
  {
    var s := s' + [c];
    var init := SplitOn(s', Space);
    var x, l := init[..|init| - 1], init[|init| - 1];
    assert IsSpace(Space);
    SplitOnSnoc(s', c);
    var sp := SplitOn(s, Space);
    assert sp[..|sp| - 1] == x;
    assert s[..|s| - 1] == s';
    assert Run(Start, s) == Step(Run(Start, s'), c);
    assert forall i :: 0 <= i < |l| ==> (l + [c])[i] == l[i];
  }

  /** On quote-free text with single spaces the scan never enters quotes: the
      buffer is the current word and the tokens are the finished words. */
  lemma {:induction false} RunUnquoted(s: string)
    requires Quote !in s && Spaced(s)
    ensures ReadsWords(s)
    decreases |s|
  {
    if s == [] {
      assert SplitOn(s, Space) == [[]];
    } else {
      var s', c := s[..|s| - 1], s[|s| - 1];
      SpacedPrefix(s, |s| - 1);
      assert Quote !in s' by {
        assert forall i :: 0 <= i < |s'| ==> s'[i] == s[i];
      }
      RunUnquoted(s');
      assert s' + [c] == s;
      if c == Space {
        ReadsWordsSpace(s');
      } else {
        ReadsWordsChar(s', c);
      }
    }
  }

  lemma NoSpaceStrip(s: string)
    requires NoSpace(s)
    ensures Strip(s) == s
  {
  }

  /** For text with no `"`, `split` returns exactly the non-empty
      space-separated words of the whitespace-normalized text. */
  lemma TokensWithoutQuotes(text: string)
    requires Quote !in text
    ensures Tokens(text) == Words(Normalize(text))
  {
    var n := Normalize(text);
    NormalizeCanonical(text);
    assert Quote !in n by {
      if Quote in n {
        SolidMembers(n, Quote);
        SolidMembers(text, Quote);
      }
    }
    RunUnquoted(n);
    var sp := SplitOn(n, Space);
    NoSpaceStrip(sp[|sp| - 1]);
    assert sp == sp[..|sp| - 1] + [sp[|sp| - 1]];
  }

  /** So a space outside quotes never produces an empty token. */
  lemma UnquotedTokensAreNonEmpty(text: string)
    requires Quote !in text
    ensures forall k :: 0 <= k < |Tokens(text)| ==> Tokens(text)[k] != []
  {
    TokensWithoutQuotes(text);
  }

  // ---------------------------------------------------------------------
  // Order: the tokens hold the visible characters of the text, in order

  /** The characters that are neither whitespace nor `"`. */
  function Ink(s: string): string {
    if s == [] then []
    else (if IsSpace(s[0]) || s[0] == Quote then [] else [s[0]]) + Ink(s[1..])
  }

  /** The tokens one after another. */
  function Concat(tokens: seq<string>): string {
    if tokens == [] then [] else Concat(tokens[..|tokens| - 1]) + tokens[|tokens| - 1]
  }

  lemma {:induction false} InkAppend(a: string, b: string)
    ensures Ink(a + b) == Ink(a) + Ink(b)
  {
    if a == [] {
      assert a + b == b;
    } else {
      var t, h := a[1..], if IsSpace(a[0]) || a[0] == Quote then [] else [a[0]];
      InkAppend(t, b);
      assert (a + b)[1..] == t + b;
      Assoc(h, Ink(t), Ink(b));
    }
  }

  lemma InkOne(c: char)
    ensures Ink([c]) == if IsSpace(c) || c == Quote then [] else [c]
  {
    assert [c][1..] == [];
  }

  lemma {:induction false} InkOfSolid(s: string)
    ensures Ink(Solid(s)) == Ink(s)
  {
    if s != [] {
      InkOfSolid(s[1..]);
      var head := if IsSpace(s[0]) then [] else [s[0]];
      InkAppend(head, Solid(s[1..]));
      if !IsSpace(s[0]) {
        InkOne(s[0]);
      }
    }
  }

  /** Stripping and normalizing only remove whitespace. */
  lemma InkOfStrip(s: string)
    ensures Ink(Strip(s)) == Ink(s)
  {
    StripSpec(s);
    InkOfSolid(Strip(s));
    InkOfSolid(s);
  }

  lemma InkOfNormalize(text: string)
    ensures Ink(Normalize(text)) == Ink(text)
  {
    NormalizeCanonical(text);
    InkOfSolid(Normalize(text));
    InkOfSolid(text);
  }

  /** The visible characters held by a scanner state. */
  function Held(st: Scan): string {
    Ink(Concat(st.parts)) + Ink(st.part)
  }

  lemma StepKeepsInk(p: Scan, c: char)
    ensures Held(Step(p, c)) == Held(p) + Ink([c])
  {
    InkOne(c);
    var q := Step(p, c);
    if c == Quote && p.quoted {
      InkOfStrip(p.part);
      assert Concat(q.parts) == Concat(p.parts) + Strip(p.part);
      InkAppend(Concat(p.parts), Strip(p.part));
    } else if c == Space && !p.quoted && p.part != "" {
      assert Concat(q.parts) == Concat(p.parts) + p.part;
      InkAppend(Concat(p.parts), p.part);
    } else if c != Quote && !(c == Space && !p.quoted) {
      assert q.part == p.part + [c] && q.parts == p.parts;
      InkAppend(p.part, [c]);
    }
  }

  lemma {:induction false} RunKeepsInk(st: Scan, s: string)
    ensures Held(Run(st, s)) == Held(st) + Ink(s)
    decreases |s|
  {
    if s != [] {
      var s', c := s[..|s| - 1], s[|s| - 1];
      RunKeepsInk(st, s');
      assert s == s' + [c];
      InkAppend(s', [c]);
      StepKeepsInk(Run(st, s'), c);
    }
  }

  /** Read one after another, the tokens hold exactly the characters of the
      text other than whitespace and `"`, in their original order. */
  lemma TokensKeepOrder(text: string)
    ensures Ink(Concat(Tokens(text))) == Ink(text)
  {
    var n := Normalize(text);
    var st := Run(Start, n);
    assert Tokens(text) == Finish(st);
    RunKeepsInk(Start, n);
    InkOfNormalize(text);
    assert Held(Start) == [];
    FinishKeepsInk(st);
  }

  lemma FinishKeepsInk(st: Scan)
    ensures Ink(Concat(Finish(st))) == Held(st)
  {
    if st.part != "" {
      InkOfStrip(st.part);
      assert Concat(Finish(st)) == Concat(st.parts) + Strip(st.part);
      InkAppend(Concat(st.parts), Strip(st.part));
    } else {
      assert Ink(st.part) == [];
    }
  }

  // ---------------------------------------------------------------------
  // When the result is empty; where empty tokens come from

  function QuoteCount(s: string): nat {
    multiset(s)[Quote]
  }

  lemma {:induction false} SolidQuoteCount(s: string)
    ensures QuoteCount(Solid(s)) == QuoteCount(s)
  {
    if s != [] {
      var t, h := s[1..], if IsSpace(s[0]) then [] else [s[0]];
      SolidQuoteCount(t);
      assert s == [s[0]] + t;
      assert multiset(s) == multiset([s[0]]) + multiset(t);
      assert multiset(Solid(s)) == multiset(h) + multiset(Solid(t));
    }
  }

  lemma QuoteCountOfNormalize(text: string)
    ensures QuoteCount(Normalize(text)) == QuoteCount(text)
  {
    NormalizeCanonical(text);
    SolidQuoteCount(Normalize(text));
    SolidQuoteCount(text);
  }

  lemma QuoteCountLast(s: string)
    requires s != []
    ensures QuoteCount(s) == QuoteCount(s[..|s| - 1]) + if s[|s| - 1] == Quote then 1 else 0
  {
    var p, c := s[..|s| - 1], s[|s| - 1];
    assert s == p + [c];
    assert multiset(s) == multiset(p) + multiset{c};
  }

  /** Only a `"` moves the scanner into or out of quotes. */
  lemma StepQuoted(st: Scan, c: char)
    ensures Step(st, c).quoted == (st.quoted != (c == Quote))
  {
  }

  /** The scanner is inside quotes exactly after an odd number of `"`. */
  lemma {:induction false} RunQuotedParity(st: Scan, s: string)
    ensures Run(st, s).quoted == (st.quoted != (QuoteCount(s) % 2 == 1))
    decreases |s|
  {
    if s != [] {
      var p, c := s[..|s| - 1], s[|s| - 1];
      RunQuotedParity(st, p);
      QuoteCountLast(s);
      var q, n := Run(st, p), QuoteCount(p);
      assert Run(st, s) == Step(q, c);
      StepQuoted(q, c);
      if c == Quote {
        assert (n + 1) % 2 == 1 <==> n % 2 != 1;
      }
    }
  }

  /** A closing quote is reached once enough `"` have been read, and it emits a token. */
  lemma {:induction false} RunEmitsAtClosingQuote(st: Scan, s: string)
    requires QuoteCount(s) >= (if st.quoted then 1 else 2)
    ensures |Run(st, s).parts| > |st.parts|
    decreases |s|
  {
    var s', c := s[..|s| - 1], s[|s| - 1];
    assert s == s' + [c];
    RunExtendsParts(st, s');
    RunQuotedParity(st, s');
    if c == Quote && Run(st, s').quoted {
    } else {
      RunEmitsAtClosingQuote(st, s');
    }
  }

  lemma InkMembers(s: string, c: char)
    requires c in s && !IsSpace(c) && c != Quote
    ensures c in Ink(s)
  {
    var i :| 0 <= i < |s| && s[i] == c;
    assert s == s[..i] + [c] + s[i + 1..];
    InkAppend(s[..i] + [c], s[i + 1..]);
    InkAppend(s[..i], [c]);
    InkOne(c);
  }

  lemma QuotesAtBothEnds(n: string)
    requires |n| >= 2 && n[0] == Quote && n[|n| - 1] == Quote
    ensures QuoteCount(n) >= 2
  {
    assert n == [n[0]] + n[1..|n| - 1] + [n[|n| - 1]];
  }

  /** Normalized text with no visible character and at most one `"` is empty or that `"`. */
  lemma OnlyQuote(n: string)
    requires Canonical(n) && n != [] && Ink(n) == [] && QuoteCount(n) <= 1
    ensures n == [Quote]
  {
    if n[|n| - 1] != Quote {
      InkMembers(n, n[|n| - 1]);
    }
    assert n[0] == Quote && n[|n| - 1] == Quote;
    if |n| >= 2 {
      QuotesAtBothEnds(n);
      assert false;
    }
  }

  /** `split` returns nothing exactly when the text holds nothing but
      whitespace and at most one `"`. */
  lemma TokensEmptyIff(text: string)
    ensures Tokens(text) == [] <==> Ink(text) == [] && QuoteCount(text) <= 1
  {
    var n := Normalize(text);
    InkOfNormalize(text);
    QuoteCountOfNormalize(text);
    if Tokens(text) == [] {
      TokensKeepOrder(text);
      if QuoteCount(n) >= 2 {
        RunEmitsAtClosingQuote(Start, n);
      }
    }
    if Ink(text) == [] && QuoteCount(text) <= 1 {
      NormalizeCanonical(text);
      if n != [] {
        OnlyQuote(n);
        RunOne(Start, Quote);
      }
    }
  }

  function EmptyCount(tokens: seq<string>): nat {
    if tokens == [] then 0
    else EmptyCount(tokens[..|tokens| - 1]) + (if tokens[|tokens| - 1] == [] then 1 else 0)
  }

  /** The invariant behind EmptyTokensNeedQuotes: every empty token so far
      used up an opening and a closing quote, outside quotes the buffer holds
      no whitespace, and unless the text read so far ends in a space the
      buffer does not end in whitespace. */
  ghost predicate QuoteBudget(st: Scan, s: string) {
    && 2 * EmptyCount(st.parts) + (if st.quoted then 1 else 0) <= QuoteCount(s)
    && (!st.quoted ==> NoSpace(st.part))
    && (s == [] || s[|s| - 1] == Space || st.part == [] || !IsSpace(st.part[|st.part| - 1]))
  }

  lemma StepQuoteBudget(p: Scan, s': string, c: char)
    requires QuoteBudget(p, s') && (c == Space || c == Quote || !IsSpace(c))
    ensures QuoteBudget(Step(p, c), s' + [c])
  {
    var s := s' + [c];
    assert QuoteCount(s) == QuoteCount(s') + (if c == Quote then 1 else 0);
    assert s[|s| - 1] == c;
    if c == Quote && p.quoted {
      var ps := p.parts + [Strip(p.part)];
      assert ps[..|p.parts|] == p.parts;
      assert EmptyCount(ps) <= EmptyCount(p.parts) + 1;
    } else if c == Space && !p.quoted && p.part != "" {
      var ps := p.parts + [p.part];
      assert ps[..|p.parts|] == p.parts;
      assert EmptyCount(ps) == EmptyCount(p.parts);
    } else if c != Quote && c != Space {
      var q := Step(p, c);
      assert q.part == p.part + [c];
      assert forall i :: 0 <= i < |p.part| ==> q.part[i] == p.part[i];
    }
  }

  lemma {:induction false} RunQuoteBudget(s: string)
    requires Spaced(s)
    ensures QuoteBudget(Run(Start, s), s)
    decreases |s|
  {
    if s != [] {
      var s', c := s[..|s| - 1], s[|s| - 1];
      SpacedPrefix(s, |s| - 1);
      RunQuoteBudget(s');
      assert s == s' + [c];
      StepQuoteBudget(Run(Start, s'), s', c);
    }
  }

  /** A buffer that does not end in whitespace is emitted as a non-empty token. */
  lemma FinishEmptyCount(st: Scan)
    requires st.part == [] || !IsSpace(st.part[|st.part| - 1])
    ensures EmptyCount(Finish(st)) == EmptyCount(st.parts)
  {
    if st.part != "" {
      StripSpec(st.part);
      SolidMembers(st.part, st.part[|st.part| - 1]);
      var f := Finish(st);
      assert f[..|f| - 1] == st.parts;
    }
  }

  /** Every empty token comes from a pair of quotes with only spaces between
      them: there are at most half as many empty tokens as `"` characters. */
  lemma EmptyTokensNeedQuotes(text: string)
    ensures 2 * EmptyCount(Tokens(text)) <= QuoteCount(text)
  {
    var n := Normalize(text);
    NormalizeCanonical(text);
    QuoteCountOfNormalize(text);
    RunQuoteBudget(n);
    var st := Run(Start, n);
    assert Tokens(text) == Finish(st);
    assert IsSpace(Space);
    FinishEmptyCount(st);
  }

  // ---------------------------------------------------------------------
  // Re-joining the tokens of quote-free text with single spaces

  lemma LastPieceEmpty(s: string, sep: char)
    ensures var sp := SplitOn(s, sep); sp[|sp| - 1] == [] <==> s == [] || s[|s| - 1] == sep
  {
  }

  /** Joining the words of collapsed text with single spaces gives the text
      back (apart from one trailing space). */
  lemma {:induction false} JoinWords(s: string)
    requires Spaced(s) && (s == [] || s[0] != Space)
    ensures Join(Words(s), " ") + (if s != [] && s[|s| - 1] == Space then " " else "") == s
    decreases |s|
  {
    if s != [] {
      var s', c := s[..|s| - 1], s[|s| - 1];
      SpacedPrefix(s, |s| - 1);
      JoinWords(s');
      assert s' + [c] == s;
      if c == Space {
        assert s' != [] && s'[|s'| - 1] != Space by {
          assert s[|s'| - 1] == s'[|s'| - 1];
        }
        JoinWordsSpace(s');
      } else {
        JoinWordsStep(s', c);
      }
    } else {
      var none: seq<string> := [];
      NonEmptySnoc(none, []);
      assert none + [[]] == [[]];
    }
  }

  /** The step of JoinWords for a space after a word. */
  lemma JoinWordsSpace(s': string)
    requires s' != [] && s'[|s'| - 1] != Space
    requires Join(Words(s'), " ") == s'
    ensures Join(Words(s' + [Space]), " ") + " " == s' + [Space]
  {
    var s := s' + [Space];
    var init := SplitOn(s', Space);
    assert s[..|s| - 1] == s';
    assert SplitOn(s, Space) == init + [[]];
    NonEmptySnoc(init, []);
  }

  lemma NonEmptySnoc(pieces: seq<string>, last: string)
    ensures NonEmpty(pieces + [last]) == NonEmpty(pieces) + (if last == [] then [] else [last])
  {
    assert (pieces + [last])[..|pieces|] == pieces;
  }

  /** How `str.split(' ')` grows by a character that is not a space. */
  lemma SplitOnSnoc(s': string, c: char)
    requires c != Space
    ensures var init := SplitOn(s', Space);
      SplitOn(s' + [c], Space) == init[..|init| - 1] + [init[|init| - 1] + [c]]
  {
    var s := s' + [c];
    assert s[..|s| - 1] == s';
  }

  /** How the words grow by a character that is not a space: with
      `init == x + [l]` the pieces before it, the last piece `l` grows. */
  lemma WordsSnoc(s': string, c: char)
    requires c != Space
    ensures var init := SplitOn(s', Space);
      var x, l := init[..|init| - 1], init[|init| - 1];
      && Words(s' + [c]) == NonEmpty(x) + [l + [c]]
      && Words(s') == NonEmpty(x) + (if l == [] then [] else [l])
      && (l == [] <==> s' == [] || s'[|s'| - 1] == Space)
      && (s' == [] ==> x == [])
  {
    var init := SplitOn(s', Space);
    var x, l := init[..|init| - 1], init[|init| - 1];
    assert init == x + [l];
    SplitOnSnoc(s', c);
    NonEmptySnoc(x, l + [c]);
    NonEmptySnoc(x, l);
    LastPieceEmpty(s', Space);
  }

  /** The step of JoinWords for a character that is not a space. */
  lemma JoinWordsStep(s': string, c: char)
    requires c != Space && (s' == [] || s'[0] != Space)
    requires Join(Words(s'), " ") + (if s' != [] && s'[|s'| - 1] == Space then " " else "") == s'
    ensures Join(Words(s' + [c]), " ") == s' + [c]
  {
    var init := SplitOn(s', Space);
    var x, l := init[..|init| - 1], init[|init| - 1];
    WordsSnoc(s', c);
    var w := NonEmpty(x);
    if l == [] {
      assert Words(s') == w;
      assert s' != [] ==> Join(w, " ") + " " == s';
      JoinWordsNewWord(s', c, w);
    } else {
      assert Words(s') == w + [l];
      assert Join(w + [l], " ") == s';
      JoinExtend(w + [l], [c], " ");
      assert (w + [l])[..|w|] == w;
    }
  }

  /** A character after a space, or at the start, begins a new word. */
  lemma JoinWordsNewWord(s': string, c: char, w: seq<string>)
    requires s' == [] ==> w == []
    requires s' != [] ==> s'[0] != Space && Join(w, " ") + " " == s'
    ensures Join(w + [[] + [c]], " ") == s' + [c]
  {
    assert [] + [c] == [c];
    if s' != [] {
      var j := Join(w, " ");
      assert j != [] by {
        assert (j + " ")[0] == if j == [] then ' ' else j[0];
      }
      JoinSnoc(w, [c], " ");
    }
  }

  /** For quote-free text, joining the tokens with single spaces and splitting
      again gives the same tokens. */
  lemma TokensRejoin(text: string)
    requires Quote !in text
    ensures Tokens(Join(Tokens(text), " ")) == Tokens(text)
  {
    var n := Normalize(text);
    TokensWithoutQuotes(text);
    NormalizeCanonical(text);
    JoinWords(n);
    assert Join(Tokens(text), " ") == n;
    TokensOfNormalized(text);
  }

  // ---------------------------------------------------------------------
  // A reference grammar: bare words and quoted phrases between single spaces

  /** One argument as a user writes it on the command line. */
  datatype Arg = Bare(word: string) | Quoted(phrase: string)

  /** An argument that can be written unambiguously: a bare word is non-empty
      and holds no whitespace and no `"`; a phrase holds no `"` and only single
      spaces as whitespace. */
  ghost predicate WellFormed(a: Arg) {
    match a
    case Bare(w) => w != [] && Quote !in w && NoSpace(w)
    case Quoted(p) => Quote !in p && Spaced(p)
  }

  function Written(a: Arg): string {
    match a
    case Bare(w) => w
    case Quoted(p) => [Quote] + p + [Quote]
  }

  /** The arguments written out, separated by single spaces. */
  function Render(args: seq<Arg>): string {
    if |args| == 0 then []
    else if |args| == 1 then Written(args[0])
    else Render(args[..|args| - 1]) + " " + Written(args[|args| - 1])
  }

  lemma RenderSnoc(args: seq<Arg>, a: Arg)
    requires args != []
    ensures Render(args + [a]) == Render(args) + " " + Written(a)
  {
    assert (args + [a])[..|args|] == args;
  }

  /** The token each argument is meant to give: a phrase loses its outer spaces. */
  function Meaning(a: Arg): string {
    match a
    case Bare(w) => w
    case Quoted(p) => Strip(p)
  }

  function Meanings(args: seq<Arg>): (r: seq<string>)
    ensures |r| == |args|
  {
    seq(|args|, k requires 0 <= k < |args| => Meaning(args[k]))
  }

  /** Outside quotes a word of ordinary characters goes into the buffer. */
  lemma {:induction false} RunWord(st: Scan, w: string)
    requires !st.quoted && Quote !in w && Space !in w
    ensures Run(st, w) == st.(part := st.part + w)
    decreases |w|
  {
    if w == [] {
      assert st.part + w == st.part;
    } else {
      var w' := w[..|w| - 1];
      assert w == w' + [w[|w| - 1]];
      assert Quote !in w' && Space !in w' by {
        assert forall i :: 0 <= i < |w'| ==> w'[i] == w[i];
      }
      RunWord(st, w');
      assert st.part + w' + [w[|w| - 1]] == st.part + w;
    }
  }

  /** Reading one more argument after the finished state of the ones before. */
  lemma RunArg(st: Scan, a: Arg)
    requires !st.quoted && st.part == [] && WellFormed(a)
    ensures Run(st, Written(a)) == match a
      case Bare(w) => Scan(false, w, st.parts)
      case Quoted(p) => Scan(false, [], st.parts + [Strip(p)])
  {
    match a
    case Bare(w) =>
      assert IsSpace(Space);
      RunWord(st, w);
    case Quoted(p) =>
      QuotedSegment(st, p);
      assert st.part + p == p;
  }

  /** The state after reading rendered arguments: the tokens of all but a
      trailing bare word, which is still in the buffer. */
  function AfterArgs(args: seq<Arg>): Scan
    requires args != []
  {
    match args[|args| - 1]
    case Bare(w) => Scan(false, w, Meanings(args[..|args| - 1]))
    case Quoted(p) => Scan(false, [], Meanings(args))
  }

  lemma MeaningsSnoc(args: seq<Arg>, a: Arg)
    ensures Meanings(args + [a]) == Meanings(args) + [Meaning(a)]
  {
  }

  /** The space after an argument hands a pending bare word over as a token. */
  lemma SpaceAfterArgs(args: seq<Arg>)
    requires args != [] && WellFormed(args[|args| - 1])
    ensures Run(AfterArgs(args), " ") == Scan(false, [], Meanings(args))
  {
    RunOne(AfterArgs(args), Space);
    var a := args[|args| - 1];
    if a.Bare? {
      assert args == args[..|args| - 1] + [a];
      MeaningsSnoc(args[..|args| - 1], a);
    }
  }

  lemma {:induction false} RunRendered(args: seq<Arg>)
    requires args != [] && forall k :: 0 <= k < |args| ==> WellFormed(args[k])
    ensures Run(Start, Render(args)) == AfterArgs(args)
    decreases |args|
  {
    var a := args[|args| - 1];
    var front := args[..|args| - 1];
    assert args == front + [a];
    MeaningsSnoc(front, a);
    if |args| == 1 {
      RunArg(Start, a);
    } else {
      RunRendered(front);
      RunAppend(Start, Render(front) + " ", Written(a));
      RunAppend(Start, Render(front), " ");
      SpaceAfterArgs(front);
      RunArg(Scan(false, [], Meanings(front)), a);
    }
  }

  lemma SpacedJoin(x: string, y: string)
    requires Spaced(x) && Spaced(y) && x != [] && y != []
    requires !IsSpace(x[|x| - 1]) && !IsSpace(y[0])
    ensures Spaced(x + " " + y)
  {
    var z := x + " " + y;
    forall i | 0 <= i < |z| && IsSpace(z[i])
      ensures z[i] == ' ' && (i + 1 < |z| ==> z[i + 1] != ' ')
    {
      if i < |x| {
        assert z[i] == x[i];
        assert i + 1 < |x| ==> z[i + 1] == x[i + 1];
      } else if i > |x| {
        assert z[i] == y[i - |x| - 1];
        assert i + 1 < |z| ==> z[i + 1] == y[i - |x|];
      }
    }
  }

  lemma WrittenCanonical(a: Arg)
    requires WellFormed(a)
    ensures Canonical(Written(a)) && Written(a) != []
  {
    match a
    case Bare(w) =>
    case Quoted(p) =>
      var z := [Quote] + p + [Quote];
      forall i | 0 <= i < |z| && IsSpace(z[i])
        ensures z[i] == ' ' && (i + 1 < |z| ==> z[i + 1] != ' ')
      {
        assert 0 < i < |z| - 1;
        assert z[i] == p[i - 1];
        if i < |p| {
          assert z[i + 1] == p[i];
        }
      }
  }

  lemma {:induction false} RenderCanonical(args: seq<Arg>)
    requires forall k :: 0 <= k < |args| ==> WellFormed(args[k])
    ensures Canonical(Render(args))
    ensures args != [] ==> Render(args) != []
    decreases |args|
  {
    if |args| == 1 {
      WrittenCanonical(args[0]);
    } else if |args| > 1 {
      var front := args[..|args| - 1];
      RenderCanonical(front);
      WrittenCanonical(args[|args| - 1]);
      SpacedJoin(Render(front), Written(args[|args| - 1]));
      var z := Render(args);
      assert z[0] == Render(front)[0];
      assert z[|z| - 1] == Written(args[|args| - 1])[|Written(args[|args| - 1])| - 1];
    }
  }

  /** The buffer left by a trailing bare word is its token. */
  lemma FinishAfterArgs(args: seq<Arg>)
    requires args != [] && WellFormed(args[|args| - 1])
    ensures Finish(AfterArgs(args)) == Meanings(args)
  {
    var front, a := args[..|args| - 1], args[|args| - 1];
    assert args == front + [a];
    MeaningsSnoc(front, a);
    if a.Bare? {
      NoSpaceStrip(a.word);
    }
  }

  /** For well-formed arguments written with single spaces, `split` returns
      each bare word and each quoted phrase without its outer spaces. */
  lemma TokensOfRendered(args: seq<Arg>)
    requires forall k :: 0 <= k < |args| ==> WellFormed(args[k])
    ensures Tokens(Render(args)) == Meanings(args)
  {
    var text := Render(args);
    RenderCanonical(args);
    CanonicalIsNormal(text);
    assert Tokens(text) == Finish(Run(Start, text));
    if args != [] {
      RunRendered(args);
      FinishAfterArgs(args);
    }
  }
}
