/** The cases of the repository's tokenizer test, and further cases of
    `split`. Each case is first proved for any words made of letters and
    digits, then instantiated with the words of the case. */
module TestUtil {
  import opened Python
  import opened Util

  /** A word of lower-case letters and digits: no whitespace, no quote. */
  predicate Plain(w: string) {
    w != [] && forall i :: 0 <= i < |w| ==> 'a' <= w[i] <= 'z' || '0' <= w[i] <= '9'
  }

  /** `s` between a pair of double quotes. */
  function InQuotes(s: string): string {
    [Quote] + s + [Quote]
  }

  lemma PlainWord(w: string)
    requires Plain(w)
    ensures WellFormed(Bare(w)) && Meaning(Bare(w)) == w
    ensures NoSpace(w) && Quote !in w && Space !in w
  {
  }

  /** Two plain words with one space between them form a phrase that `strip`
      leaves alone. */
  lemma PlainPhrase(x: string, y: string)
    requires Plain(x) && Plain(y)
    ensures WellFormed(Quoted(x + " " + y)) && Meaning(Quoted(x + " " + y)) == x + " " + y
  {
    var p := x + " " + y;
    SpacedJoin(x, y);
    assert p[0] == x[0] && p[|p| - 1] == y[|y| - 1];
    assert Quote !in p by {
      assert forall i :: 0 <= i < |p| ==> p[i] == Quote ==> (i < |x| && x[i] == Quote) || (i > |x| && y[i - |x| - 1] == Quote);
    }
    StripSpec(p);
  }

  lemma NoSpaceAppend(x: string, y: string)
    requires NoSpace(x) && NoSpace(y)
    ensures NoSpace(x + y)
  {
    assert forall i :: 0 <= i < |x + y| ==> (x + y)[i] == if i < |x| then x[i] else y[i - |x|];
  }

  lemma BlankSpace()
    ensures IsSpace(Space) && !IsSpace(Quote) && Solid(" ") == []
  {
  }

  // ---------------------------------------------------------------------
  // The shapes of the cases, for any plain words

  /** A single word is its own token. */
  lemma OneWordShape(text: string, a: string)
    requires Plain(a) && text == a
    ensures Tokens(text) == [a]
  {
    PlainWord(a);
    TokensOfRendered([Bare(a)]);
    assert Meanings([Bare(a)]) == [a];
  }

  /** Whitespace around a single word is dropped. */
  lemma PaddedShape(text: string, w1: string, a: string, w2: string)
    requires Solid(w1) == [] && Solid(w2) == [] && Plain(a) && text == w1 + a + w2
    ensures Tokens(text) == [a]
  {
    TokensIgnorePadding(w1, a, w2);
    OneWordShape(a, a);
  }

  /** Two words separated by one space are two tokens. */
  lemma TwoWordShape(text: string, a: string, b: string)
    requires Plain(a) && Plain(b) && text == a + " " + b
    ensures Tokens(text) == [a, b]
  {
    var args := [Bare(a), Bare(b)];
    PlainWord(a);
    PlainWord(b);
    RenderSnoc([Bare(a)], Bare(b));
    assert [Bare(a)] + [Bare(b)] == args;
    TokensOfRendered(args);
    assert Meanings(args) == [a, b];
  }

  /** Two words separated by any run of whitespace, with any whitespace
      around them, are two tokens. */
  lemma LooseShape(text: string, w1: string, a: string, w: string, b: string, w2: string)
    requires Solid(w1) == [] && Solid(w2) == [] && w != [] && Solid(w) == []
    requires Plain(a) && Plain(b) && text == w1 + (a + w + b) + w2
    ensures Tokens(text) == [a, b]
  {
    TokensIgnorePadding(w1, a + w + b, w2);
    TokensIgnoreRunLength(a, w, b);
    TwoWordShape(a + " " + b, a, b);
  }

  /** The whitespace inside quotes at the ends of a phrase is stripped. */
  lemma PaddedPhraseArg(a: string)
    requires Plain(a)
    ensures WellFormed(Quoted(" " + a + " ")) && Meaning(Quoted(" " + a + " ")) == a
  {
    var p := " " + a + " ";
    PlainWord(a);
    BlankSpace();
    assert Spaced(p) by {
      assert forall i :: 0 < i < |p| - 1 ==> p[i] == a[i - 1];
      assert p[1] == a[0];
    }
    assert Quote !in p by {
      assert forall i :: 0 < i < |p| - 1 ==> p[i] == a[i - 1];
    }
    StripPadding(" ", a, " ");
    NoSpaceStrip(a);
  }

  /** A quoted, padded word with padding around the quotes is one token. */
  lemma PaddedPhraseShape(text: string, a: string)
    requires Plain(a) && text == " " + InQuotes(" " + a + " ") + " "
    ensures Tokens(text) == [a]
  {
    var args := [Quoted(" " + a + " ")];
    PaddedPhraseArg(a);
    TokensOfRendered(args);
    assert Meanings(args) == [a];
    BlankSpace();
    TokensIgnorePadding(" ", Render(args), " ");
  }

  lemma PhraseRender(args: seq<Arg>, a: string, b: string, c: string, d: string)
    requires args == [Bare(a), Quoted(b + " " + c), Bare(d)]
    ensures Render(args) == a + " " + InQuotes(b + " " + c) + " " + d
  {
    var a1, a2, a3 := args[0], args[1], args[2];
    RenderSnoc([a1], a2);
    assert [a1] + [a2] == [a1, a2];
    RenderSnoc([a1, a2], a3);
    assert [a1, a2] + [a3] == args;
  }

  /** A quoted phrase between two words is one token, its space kept. */
  lemma PhraseShape(text: string, a: string, b: string, c: string, d: string)
    requires Plain(a) && Plain(b) && Plain(c) && Plain(d)
    requires text == a + " " + InQuotes(b + " " + c) + " " + d
    ensures Tokens(text) == [a, b + " " + c, d]
  {
    var args := [Bare(a), Quoted(b + " " + c), Bare(d)];
    PhraseRender(args, a, b, c, d);
    PlainWord(a);
    PlainWord(d);
    PlainPhrase(b, c);
    TokensOfRendered(args);
    assert Meanings(args) == [a, b + " " + c, d];
  }

  lemma MixedRender(args: seq<Arg>, a: string, b: string, c: string, d: string, e: string, f: string, g: string, h: string)
    requires args == [Bare(a), Bare(b), Quoted(c + " " + d), Bare(e), Bare(f), Quoted(g + " " + h)]
    ensures Render(args) == a + " " + b + " " + InQuotes(c + " " + d) + " " + e + " " + f + " " + InQuotes(g + " " + h)
  {
    var a1, a2, a3, a4, a5, a6 := args[0], args[1], args[2], args[3], args[4], args[5];
    RenderSnoc([a1], a2);
    assert [a1] + [a2] == [a1, a2];
    RenderSnoc([a1, a2], a3);
    assert [a1, a2] + [a3] == [a1, a2, a3];
    RenderSnoc([a1, a2, a3], a4);
    assert [a1, a2, a3] + [a4] == [a1, a2, a3, a4];
    RenderSnoc([a1, a2, a3, a4], a5);
    assert [a1, a2, a3, a4] + [a5] == [a1, a2, a3, a4, a5];
    RenderSnoc([a1, a2, a3, a4, a5], a6);
    assert [a1, a2, a3, a4, a5] + [a6] == args;
  }

  lemma MixedArgs(args: seq<Arg>, a: string, b: string, c: string, d: string, e: string, f: string, g: string, h: string)
    requires Plain(a) && Plain(b) && Plain(c) && Plain(d) && Plain(e) && Plain(f) && Plain(g) && Plain(h)
    requires args == [Bare(a), Bare(b), Quoted(c + " " + d), Bare(e), Bare(f), Quoted(g + " " + h)]
    ensures forall k :: 0 <= k < |args| ==> WellFormed(args[k])
    ensures Meanings(args) == [a, b, c + " " + d, e, f, g + " " + h]
  {
    PlainWord(a);
    PlainWord(b);
    PlainWord(e);
    PlainWord(f);
    PlainPhrase(c, d);
    PlainPhrase(g, h);
  }

  /** Words and quoted phrases in any mix, each one a token. */
  lemma MixedShape(text: string, a: string, b: string, c: string, d: string, e: string, f: string, g: string, h: string)
    requires Plain(a) && Plain(b) && Plain(c) && Plain(d) && Plain(e) && Plain(f) && Plain(g) && Plain(h)
    requires text == a + " " + b + " " + InQuotes(c + " " + d) + " " + e + " " + f + " " + InQuotes(g + " " + h)
    ensures Tokens(text) == [a, b, c + " " + d, e, f, g + " " + h]
  {
    var args := [Bare(a), Bare(b), Quoted(c + " " + d), Bare(e), Bare(f), Quoted(g + " " + h)];
    MixedRender(args, a, b, c, d, e, f, g, h);
    MixedArgs(args, a, b, c, d, e, f, g, h);
    TokensOfRendered(args);
  }

  lemma TwoPhrasesRender(args: seq<Arg>, a: string, b: string, c: string, d: string, e: string, f: string, g: string)
    requires args == [Bare(a), Bare(b), Quoted(c + " " + d), Bare(e), Quoted(f + " " + g)]
    ensures Render(args) == a + " " + b + " " + InQuotes(c + " " + d) + " " + e + " " + InQuotes(f + " " + g)
  {
    var a1, a2, a3, a4, a5 := args[0], args[1], args[2], args[3], args[4];
    RenderSnoc([a1], a2);
    assert [a1] + [a2] == [a1, a2];
    RenderSnoc([a1, a2], a3);
    assert [a1, a2] + [a3] == [a1, a2, a3];
    RenderSnoc([a1, a2, a3], a4);
    assert [a1, a2, a3] + [a4] == [a1, a2, a3, a4];
    RenderSnoc([a1, a2, a3, a4], a5);
    assert [a1, a2, a3, a4] + [a5] == args;
  }

  lemma TwoPhrasesArgs(args: seq<Arg>, a: string, b: string, c: string, d: string, e: string, f: string, g: string)
    requires Plain(a) && Plain(b) && Plain(c) && Plain(d) && Plain(e) && Plain(f) && Plain(g)
    requires args == [Bare(a), Bare(b), Quoted(c + " " + d), Bare(e), Quoted(f + " " + g)]
    ensures forall k :: 0 <= k < |args| ==> WellFormed(args[k])
    ensures Meanings(args) == [a, b, c + " " + d, e, f + " " + g]
  {
    PlainWord(a);
    PlainWord(b);
    PlainWord(e);
    PlainPhrase(c, d);
    PlainPhrase(f, g);
  }

  lemma TwoPhrasesShape(text: string, a: string, b: string, c: string, d: string, e: string, f: string, g: string)
    requires Plain(a) && Plain(b) && Plain(c) && Plain(d) && Plain(e) && Plain(f) && Plain(g)
    requires text == a + " " + b + " " + InQuotes(c + " " + d) + " " + e + " " + InQuotes(f + " " + g)
    ensures Tokens(text) == [a, b, c + " " + d, e, f + " " + g]
  {
    var args := [Bare(a), Bare(b), Quoted(c + " " + d), Bare(e), Quoted(f + " " + g)];
    TwoPhrasesRender(args, a, b, c, d, e, f, g);
    TwoPhrasesArgs(args, a, b, c, d, e, f, g);
    TokensOfRendered(args);
  }

  lemma GluedNormal(text: string, a: string, b: string, c: string)
    requires Plain(a) && Plain(b) && Plain(c) && text == a + InQuotes(b) + c
    ensures Normalize(text) == text
  {
    PlainWord(a);
    PlainWord(b);
    PlainWord(c);
    BlankSpace();
    assert NoSpace([Quote]);
    NoSpaceAppend(a, [Quote]);
    NoSpaceAppend(a + [Quote], b);
    NoSpaceAppend(a + [Quote] + b, [Quote]);
    NoSpaceAppend(a + [Quote] + b + [Quote], c);
    assert text == a + [Quote] + b + [Quote] + c;
    assert Canonical(text) by {
      assert text[0] == a[0] && text[|text| - 1] == c[|c| - 1];
    }
    CanonicalIsNormal(text);
  }

  /** Outside quotes a plain word goes into the empty buffer. */
  lemma RunPlainWord(st: Scan, w: string)
    requires Plain(w) && st.part == [] && !st.quoted
    ensures Run(st, w) == st.(part := w)
  {
    PlainWord(w);
    RunWord(st, w);
    assert st.part + w == w;
  }

  lemma GluedHead(a: string, b: string)
    requires Plain(a) && Plain(b)
    ensures Run(Start, a + InQuotes(b)) == Scan(false, "", [a + b])
  {
    var s1 := Scan(false, a, []);
    RunPlainWord(Start, a);
    RunAppend(Start, a, InQuotes(b));
    PlainWord(b);
    QuotedSegment(s1, b);
    PlainWord(a);
    NoSpaceAppend(a, b);
    NoSpaceStrip(a + b);
    assert s1.parts + [Strip(s1.part + b)] == [a + b];
  }

  lemma GluedRun(a: string, b: string, c: string)
    requires Plain(a) && Plain(b) && Plain(c)
    ensures Run(Start, a + InQuotes(b) + c) == Scan(false, c, [a + b])
  {
    var h := a + InQuotes(b);
    RunAppend(Start, h, c);
    GluedHead(a, b);
    RunPlainWord(Scan(false, "", [a + b]), c);
  }

  /** A closing quote ends its token at once, and text glued before the
      opening quote joins the quoted token. */
  lemma GluedShape(text: string, a: string, b: string, c: string)
    requires Plain(a) && Plain(b) && Plain(c) && text == a + InQuotes(b) + c
    ensures Tokens(text) == [a + b, c]
  {
    GluedNormal(text, a, b, c);
    GluedRun(a, b, c);
    PlainWord(c);
    NoSpaceStrip(c);
  }

  lemma UnterminatedNormal(text: string, a: string, b: string, c: string)
    requires Plain(a) && Plain(b) && Plain(c) && text == a + " " + [Quote] + (b + " " + c)
    ensures Normalize(text) == text
  {
    PlainWord(a);
    PlainWord(b);
    PlainWord(c);
    BlankSpace();
    var q := [Quote] + b;
    assert NoSpace(q) by {
      assert NoSpace([Quote]);
      NoSpaceAppend([Quote], b);
    }
    SpacedJoin(q, c);
    Assoc([Quote], b + " ", c);
    var y := [Quote] + (b + " " + c);
    assert q + " " + c == y;
    assert y[|y| - 1] == c[|c| - 1];
    SpacedJoin(a, y);
    Assoc(a + " ", [Quote], b + " " + c);
    assert text == a + " " + y;
    assert Canonical(text) by {
      assert text[0] == a[0] && text[|text| - 1] == y[|y| - 1];
    }
    CanonicalIsNormal(text);
  }

  lemma UnterminatedHead(a: string)
    requires Plain(a)
    ensures Run(Start, a + " " + [Quote]) == Scan(true, "", [a])
  {
    BlankSpace();
    RunPlainWord(Start, a);
    RunAppend(Start, a, " ");
    RunOne(Scan(false, a, []), Space);
    RunAppend(Start, a + " ", [Quote]);
    RunOne(Scan(false, "", [a]), Quote);
  }

  lemma UnterminatedRun(a: string, b: string, c: string)
    requires Plain(a) && Plain(b) && Plain(c)
    ensures Run(Start, a + " " + [Quote] + (b + " " + c)) == Scan(true, b + " " + c, [a])
  {
    var h, t := a + " " + [Quote], b + " " + c;
    RunAppend(Start, h, t);
    UnterminatedHead(a);
    PlainPhrase(b, c);
    RunQuotedBody(Scan(true, "", [a]), t);
    assert "" + t == t;
  }

  /** An unterminated quote still gives the rest of the text as its last
      token, spaces kept. */
  lemma UnterminatedShape(text: string, a: string, b: string, c: string)
    requires Plain(a) && Plain(b) && Plain(c) && text == a + " " + [Quote] + (b + " " + c)
    ensures Tokens(text) == [a, b + " " + c]
  {
    UnterminatedNormal(text, a, b, c);
    UnterminatedRun(a, b, c);
    PlainPhrase(b, c);
  }

  // ---------------------------------------------------------------------
  // The cases of test/test_util.py

  lemma SplitOne(text: string)
    requires text == "one"
    ensures Tokens(text) == ["one"]
  {
    OneWordShape(text, "one");
  }

  lemma SplitPadded(text: string)
    requires text == " one "
    ensures Tokens(text) == ["one"]
  {
    BlankSpace();
    assert text == " " + "one" + " ";
    PaddedShape(text, " ", "one", " ");
  }

  lemma SplitPaddedPhrase(text: string)
    requires text == " \" one \" "
    ensures Tokens(text) == ["one"]
  {
    assert text == " " + InQuotes(" " + "one" + " ") + " ";
    PaddedPhraseShape(text, "one");
  }

  lemma SplitTwo(text: string)
    requires text == "one two"
    ensures Tokens(text) == ["one", "two"]
  {
    assert text == "one" + " " + "two";
    TwoWordShape(text, "one", "two");
  }

  lemma SplitSpaceRun(text: string)
    requires text == "one   two"
    ensures Tokens(text) == ["one", "two"]
  {
    assert Solid("   ") == [];
    assert text == "" + ("one" + "   " + "two") + "";
    LooseShape(text, "", "one", "   ", "two", "");
  }

  lemma PhraseText(text: string)
    requires text == "one \"two three\" four"
    ensures text == "one" + " " + InQuotes("two" + " " + "three") + " " + "four"
  {
  }

  lemma PhraseList()
    ensures ["one", "two" + " " + "three", "four"] == ["one", "two three", "four"]
  {
    assert "two" + " " + "three" == "two three";
  }

  lemma SplitPhrase(text: string)
    requires text == "one \"two three\" four"
    ensures Tokens(text) == ["one", "two three", "four"]
  {
    PhraseText(text);
    PhraseList();
    PhraseShape(text, "one", "two", "three", "four");
  }

  lemma MixedPlain()
    ensures Plain("1") && Plain("2") && Plain("3") && Plain("4")
    ensures Plain("5") && Plain("6") && Plain("7") && Plain("8")
  {
  }

  lemma MixedText(text: string)
    requires text == "1 2 \"3 4\" 5 6 \"7 8\""
    ensures text == "1" + " " + "2" + " " + InQuotes("3" + " " + "4") + " " + "5" + " " + "6" + " " + InQuotes("7" + " " + "8")
  {
  }

  lemma MixedList()
    ensures ["1", "2", "3" + " " + "4", "5", "6", "7" + " " + "8"] == ["1", "2", "3 4", "5", "6", "7 8"]
  {
    assert "3" + " " + "4" == "3 4";
    assert "7" + " " + "8" == "7 8";
  }

  lemma SplitMixed(text: string)
    requires text == "1 2 \"3 4\" 5 6 \"7 8\""
    ensures Tokens(text) == ["1", "2", "3 4", "5", "6", "7 8"]
  {
    MixedPlain();
    MixedText(text);
    MixedList();
    MixedShape(text, "1", "2", "3", "4", "5", "6", "7", "8");
  }

  // ---------------------------------------------------------------------
  // Further cases of `split`

  lemma TwoPhrasesText(text: string)
    requires text == "1 2 \"3 4\" 5 \"6 7\""
    ensures text == "1" + " " + "2" + " " + InQuotes("3" + " " + "4") + " " + "5" + " " + InQuotes("6" + " " + "7")
  {
  }

  lemma TwoPhrasesList()
    ensures ["1", "2", "3" + " " + "4", "5", "6" + " " + "7"] == ["1", "2", "3 4", "5", "6 7"]
  {
    assert "3" + " " + "4" == "3 4";
    assert "6" + " " + "7" == "6 7";
  }

  lemma SplitTwoPhrases(text: string)
    requires text == "1 2 \"3 4\" 5 \"6 7\""
    ensures Tokens(text) == ["1", "2", "3 4", "5", "6 7"]
  {
    MixedPlain();
    TwoPhrasesText(text);
    TwoPhrasesList();
    TwoPhrasesShape(text, "1", "2", "3", "4", "5", "6", "7");
  }

  lemma SplitEmpty(text: string)
    requires text == ""
    ensures Tokens(text) == []
  {
    BlankGivesNoTokens("");
  }

  lemma SplitLoose(text: string)
    requires text == "  a   b  "
    ensures Tokens(text) == ["a", "b"]
  {
    assert Solid("  ") == [] && Solid("   ") == [];
    assert text == "  " + ("a" + "   " + "b") + "  ";
    LooseShape(text, "  ", "a", "   ", "b", "  ");
  }

  // Quirks of the scan

  lemma SplitGlued(text: string)
    requires text == "ab\"cd\"ef"
    ensures Tokens(text) == ["abcd", "ef"]
  {
    assert text == "ab" + InQuotes("cd") + "ef";
    GluedShape(text, "ab", "cd", "ef");
    assert "ab" + "cd" == "abcd";
  }

  /** An empty pair of quotes is an empty token. */
  lemma SplitEmptyQuotes(text: string)
    requires text == "\"\""
    ensures Tokens(text) == [""]
  {
    CanonicalIsNormal(text);
    assert text == [Quote] + "" + [Quote];
    QuotedSegment(Start, "");
  }

  lemma SplitUnterminated(text: string)
    requires text == "a \"b c"
    ensures Tokens(text) == ["a", "b c"]
  {
    assert text == "a" + " " + [Quote] + ("b" + " " + "c");
    UnterminatedShape(text, "a", "b", "c");
    assert "b" + " " + "c" == "b c";
  }
}
