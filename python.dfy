/** The part of Python's built-in behaviour that the oi package relies on:
    values and their truthiness, the whitespace class shared by `str.strip()`
    and the regular expression `\s`, `re.sub(r'\s+', ' ', ·)`, `str.split(' ')`,
    `sep.join(·)` and `str.lower()`.  Strings are sequences of code points. */
module Python {

  datatype Option<+T> = None | Some(value: T)

  /** The Python values a command handler can return. */
  datatype Value =
    | NoneValue
    | Bool(b: bool)
    | Int(i: int)
    | Str(s: string)
    | List(items: seq<Value>)

  /** `bool(v)`: None, False, 0, '' and [] are false, everything else true. */
  predicate Truthy(v: Value) {
    match v
    case NoneValue => false
    case Bool(b) => b
    case Int(i) => i != 0
    case Str(s) => s != ""
    case List(items) => items != []
  }

  /** Converts an optional text (a description, an error) to a Python value. */
  function OptionalText(t: Option<string>): (v: Value)
    ensures t.None? <==> v == NoneValue
    ensures t.Some? ==> v == Str(t.value)
  {
    match t
    case None => NoneValue
    case Some(s) => Str(s)
  }

  /** The characters CPython classifies as whitespace (Py_UNICODE_ISSPACE);
      `str.strip()` and the regular-expression class `\s` use this one set. */
  predicate IsSpace(c: char) {
    || c == ' '
    || '\t' <= c <= '\r'
    || '\U{1C}' <= c <= '\U{1F}'
    || c == '\U{85}'
    || c == '\U{A0}'
    || c == '\U{1680}'
    || '\U{2000}' <= c <= '\U{200A}'
    || c == '\U{2028}'
    || c == '\U{2029}'
    || c == '\U{202F}'
    || c == '\U{205F}'
    || c == '\U{3000}'
  }

  /** Concatenation is associative.  Stated once so that proofs can cite it
      instead of leaving the solver to rediscover it element by element. */
  lemma Assoc<T>(x: seq<T>, y: seq<T>, z: seq<T>)
    ensures x + (y + z) == (x + y) + z
  {
  }

  /** The non-whitespace characters of `s`, in order. `Solid(s) == []` says
      that `s` is empty or all whitespace. */
  function Solid(s: string): (r: string)
    ensures |r| <= |s|
  {
    if s == [] then []
    else (if IsSpace(s[0]) then [] else [s[0]]) + Solid(s[1..])
  }

  lemma {:induction false} SolidAppend(a: string, b: string)
    ensures Solid(a + b) == Solid(a) + Solid(b)
  {
    if a == [] {
      assert a + b == b;
    } else {
      var t, h := a[1..], if IsSpace(a[0]) then [] else [a[0]];
      SolidAppend(t, b);
      assert (a + b)[1..] == t + b;
      Assoc(h, Solid(t), Solid(b));
    }
  }

  lemma SolidOne(c: char)
    ensures Solid([c]) == if IsSpace(c) then [] else [c]
  {
    assert [c][1..] == [];
  }

  /** Splits off the last character: `s == s[..|s|-1] + [s[|s|-1]]`. */
  lemma SolidLast(s: string)
    requires s != []
    ensures Solid(s) == Solid(s[..|s| - 1]) + (if IsSpace(s[|s| - 1]) then [] else [s[|s| - 1]])
  {
    var p, c := s[..|s| - 1], s[|s| - 1];
    SolidAppend(p, [c]);
    SolidOne(c);
    assert p + [c] == s;
  }

  /** A character that is not whitespace survives in `Solid`, and `Solid`
      invents no character. */
  lemma {:induction false} SolidMembers(s: string, c: char)
    ensures c in Solid(s) <==> c in s && !IsSpace(c)
  {
    if s != [] {
      SolidMembers(s[1..], c);
      assert s == [s[0]] + s[1..];
    }
  }

  /** `str.lstrip()`. */
  function StripStart(s: string): (r: string)
    ensures |r| <= |s|
    ensures s != [] && IsSpace(s[0]) ==> |r| < |s|
  {
    if s != [] && IsSpace(s[0]) then StripStart(s[1..]) else s
  }

  /** `str.rstrip()`. */
  function StripEnd(s: string): (r: string)
    ensures |r| <= |s|
  {
    if s != [] && IsSpace(s[|s| - 1]) then StripEnd(s[..|s| - 1]) else s
  }

  /** `str.strip()`. */
  function Strip(s: string): string {
    StripEnd(StripStart(s))
  }

  /** What `str.lstrip()` keeps is a suffix of the text, and what it drops
      is whitespace. */
  lemma {:induction false} StripStartSuffix(s: string)
    ensures StripStart(s) == s[|s| - |StripStart(s)|..]
    ensures Solid(s[..|s| - |StripStart(s)|]) == []
  {
    if s != [] && IsSpace(s[0]) {
      var t := s[1..];
      StripStartSuffix(t);
      var k := |t| - |StripStart(t)|;
      assert s[..k + 1] == [s[0]] + t[..k];
      SolidAppend([s[0]], t[..k]);
      SolidOne(s[0]);
    } else {
      assert s[..0] == [];
    }
  }

  /** What `str.lstrip()` keeps is empty or starts with a non-whitespace character. */
  lemma {:induction false} StripStartFirst(s: string)
    ensures StripStart(s) == [] || !IsSpace(StripStart(s)[0])
  {
    if s != [] && IsSpace(s[0]) {
      StripStartFirst(s[1..]);
    }
  }

  /** `str.lstrip()` removes exactly the leading whitespace: what it drops is
      whitespace and what it keeps is empty or starts with a non-whitespace
      character. */
  lemma StripStartSpec(s: string)
    ensures StripStart(s) == s[|s| - |StripStart(s)|..]
    ensures Solid(s[..|s| - |StripStart(s)|]) == []
    ensures Solid(StripStart(s)) == Solid(s)
    ensures StripStart(s) == [] || !IsSpace(StripStart(s)[0])
    ensures StripStart(s) == [] <==> Solid(s) == []
  {
    StripStartSuffix(s);
    StripStartFirst(s);
    var t := StripStart(s);
    var k := |s| - |t|;
    assert s == s[..k] + t;
    SolidAppend(s[..k], t);
    if t != [] {
      assert t == [t[0]] + t[1..];
      SolidAppend([t[0]], t[1..]);
      SolidOne(t[0]);
    }
  }

  /** What `str.rstrip()` keeps is a prefix of the text, and what it drops
      is whitespace. */
  lemma {:induction false} StripEndPrefix(s: string)
    ensures StripEnd(s) == s[..|StripEnd(s)|]
    ensures Solid(s[|StripEnd(s)|..]) == []
  {
    if s != [] && IsSpace(s[|s| - 1]) {
      var p, c := s[..|s| - 1], s[|s| - 1];
      StripEndPrefix(p);
      var k := |StripEnd(p)|;
      assert s[k..] == p[k..] + [c];
      SolidAppend(p[k..], [c]);
      SolidOne(c);
    } else {
      assert s[|s|..] == [];
    }
  }

  /** What `str.rstrip()` keeps is empty or ends with a non-whitespace character. */
  lemma {:induction false} StripEndLast(s: string)
    ensures StripEnd(s) == [] || !IsSpace(StripEnd(s)[|StripEnd(s)| - 1])
  {
    if s != [] && IsSpace(s[|s| - 1]) {
      StripEndLast(s[..|s| - 1]);
    }
  }

  /** `str.rstrip()` removes exactly the trailing whitespace. */
  lemma StripEndSpec(s: string)
    ensures StripEnd(s) == s[..|StripEnd(s)|]
    ensures Solid(s[|StripEnd(s)|..]) == []
    ensures Solid(StripEnd(s)) == Solid(s)
    ensures StripEnd(s) == [] || !IsSpace(StripEnd(s)[|StripEnd(s)| - 1])
    ensures StripEnd(s) == [] <==> Solid(s) == []
  {
    StripEndPrefix(s);
    StripEndLast(s);
    var t := StripEnd(s);
    assert s == t + s[|t|..];
    SolidAppend(t, s[|t|..]);
    if t != [] {
      SolidLast(t);
    }
  }

  /** `str.strip()` keeps every non-whitespace character, and leaves no
      whitespace at either end. */
  lemma StripSpec(s: string)
    ensures Solid(Strip(s)) == Solid(s)
    ensures Strip(s) == [] <==> Solid(s) == []
    ensures Strip(s) != [] ==> !IsSpace(Strip(s)[0]) && !IsSpace(Strip(s)[|Strip(s)| - 1])
  {
    StripStartSpec(s);
    StripEndSpec(StripStart(s));
    var t := StripStart(s);
    if t != [] && Strip(s) != [] {
      assert Strip(s) == t[..|Strip(s)|];
      assert Strip(s)[0] == t[0];
    }
  }

  /** Leading whitespace in front of `y` is invisible to `str.lstrip()`;
      once `x` holds a non-whitespace character, `y` is kept untouched. */
  lemma {:induction false} StripStartAppend(x: string, y: string)
    ensures Solid(x) == [] ==> StripStart(x + y) == StripStart(y)
    ensures Solid(x) != [] ==> StripStart(x + y) == StripStart(x) + y
  {
    if x == [] {
      assert x + y == y;
    } else {
      assert (x + y)[0] == x[0];
      assert (x + y)[1..] == x[1..] + y;
      assert x == [x[0]] + x[1..];
      SolidAppend([x[0]], x[1..]);
      SolidOne(x[0]);
      StripStartAppend(x[1..], y);
    }
  }

  /** The mirror image of StripStartAppend for `str.rstrip()`. */
  lemma {:induction false} StripEndPrepend(x: string, y: string)
    ensures Solid(y) == [] ==> StripEnd(x + y) == StripEnd(x)
    ensures Solid(y) != [] ==> StripEnd(x + y) == x + StripEnd(y)
    decreases |y|
  {
    if y != [] {
      var y' := y[..|y| - 1];
      assert (x + y)[|x + y| - 1] == y[|y| - 1];
      assert (x + y)[..|x + y| - 1] == x + y';
      SolidLast(y);
      StripEndPrepend(x, y');
    } else {
      assert x + y == x;
    }
  }

  /** `str.strip()` leaves alone a text whose ends are not whitespace. */
  lemma StripInked(s: string)
    requires s != [] && !IsSpace(s[0]) && !IsSpace(s[|s| - 1])
    ensures Strip(s) == s
  {
  }

  /** Whitespace around `s` does not change `s.strip()`. */
  lemma StripPadding(w1: string, s: string, w2: string)
    requires Solid(w1) == [] && Solid(w2) == []
    ensures Strip(w1 + s + w2) == Strip(s)
  {
    assert w1 + s + w2 == w1 + (s + w2);
    StripBlankFront(w1, s + w2);
    StripBlankBack(s, w2);
  }

  /** Whitespace in front does not change `str.strip()`. */
  lemma StripBlankFront(x: string, y: string)
    requires Solid(x) == []
    ensures Strip(x + y) == Strip(y)
  {
    StripStartAppend(x, y);
  }

  /** Whitespace behind does not change `str.strip()`. */
  lemma StripBlankBack(x: string, y: string)
    requires Solid(y) == []
    ensures Strip(x + y) == Strip(x)
  {
    StripStartAppend(x, y);
    if Solid(x) != [] {
      StripEndPrepend(StripStart(x), y);
    } else {
      SolidAppend(x, y);
      StripStartSpec(x + y);
      StripStartSpec(x);
    }
  }

  /** When both `a` and `b` hold a non-whitespace character, `str.strip()`
      of `a + m + b` only trims the outer ends. */
  lemma StripAround(a: string, m: string, b: string)
    requires Solid(a) != [] && Solid(b) != []
    ensures Strip(a + m + b) == StripStart(a) + m + StripEnd(b)
  {
    assert a + m + b == a + (m + b);
    StripStartAppend(a, m + b);
    assert StripStart(a) + (m + b) == (StripStart(a) + m) + b;
    StripEndPrepend(StripStart(a) + m, b);
  }

  /** `re.sub(r'\s+', ' ', s)`: every maximal run of whitespace becomes one space. */
  function Collapse(s: string): (r: string)
    ensures r == [] <==> s == []
    ensures s != [] ==> (IsSpace(r[0]) <==> IsSpace(s[0]))
    decreases |s|
  {
    if s == [] then []
    else if IsSpace(s[0]) then [' '] + Collapse(StripStart(s))
    else [s[0]] + Collapse(s[1..])
  }

  /** Text whose only whitespace is single spaces that never stand side by side. */
  ghost predicate Spaced(s: string) {
    forall i :: 0 <= i < |s| && IsSpace(s[i]) ==> s[i] == ' ' && (i + 1 < |s| ==> s[i + 1] != ' ')
  }

  /** `re.sub(r'\s+', ' ', ·)` keeps the non-whitespace characters in order. */
  lemma {:induction false} CollapseSolid(s: string)
    ensures Solid(Collapse(s)) == Solid(s)
    decreases |s|
  {
    if s != [] {
      var t := if IsSpace(s[0]) then StripStart(s) else s[1..];
      CollapseSolid(t);
      var head := if IsSpace(s[0]) then ' ' else s[0];
      SolidAppend([head], Collapse(t));
      SolidOne(head);
      SolidOne(s[0]);
      if IsSpace(s[0]) {
        StripStartSpec(s);
        var k := |s| - |t|;
        assert s == s[..k] + t;
        SolidAppend(s[..k], t);
      } else {
        assert s == [s[0]] + t;
        SolidAppend([s[0]], t);
      }
    }
  }

  /** Text that `str.lstrip()` empties ends in whitespace. */
  lemma BlankLast(s: string)
    requires s != [] && StripStart(s) == []
    ensures IsSpace(s[|s| - 1])
  {
    StripStartSuffix(s);
    assert s[..|s|] == s;
    SolidMembers(s, s[|s| - 1]);
  }

  /** The last character of `Collapse(s)` is whitespace exactly when that of
      `s` is. */
  lemma {:induction false} CollapseLast(s: string)
    requires s != []
    ensures IsSpace(Collapse(s)[|Collapse(s)| - 1]) <==> IsSpace(s[|s| - 1])
    decreases |s|
  {
    var t := if IsSpace(s[0]) then StripStart(s) else s[1..];
    var h := if IsSpace(s[0]) then ' ' else s[0];
    var r := Collapse(s);
    assert r == [h] + Collapse(t);
    if t == [] {
      if IsSpace(s[0]) {
        BlankLast(s);
      }
      assert r == [h];
    } else {
      CollapseLast(t);
      if IsSpace(s[0]) {
        StripStartSuffix(s);
      }
      assert t[|t| - 1] == s[|s| - 1];
      assert r[|r| - 1] == Collapse(t)[|Collapse(t)| - 1];
    }
  }

  /** The result of `Collapse` is empty only for empty text, and its first and
      last characters are whitespace exactly when those of the text are. */
  lemma CollapseEnds(s: string)
    ensures Collapse(s) == [] <==> s == []
    ensures s != [] ==> (IsSpace(Collapse(s)[0]) <==> IsSpace(s[0]))
    ensures s != [] ==> (IsSpace(Collapse(s)[|Collapse(s)| - 1]) <==> IsSpace(s[|s| - 1]))
  {
    if s != [] {
      CollapseLast(s);
    }
  }

  /** A character in front of spaced text keeps it spaced, unless it is a
      space before a space or other whitespace. */
  lemma SpacedCons(h: char, c: string)
    requires Spaced(c)
    requires IsSpace(h) ==> h == ' ' && (c == [] || !IsSpace(c[0]))
    ensures Spaced([h] + c)
  {
    var r := [h] + c;
    assert IsSpace(' ');
    forall i | 0 <= i < |r| && IsSpace(r[i])
      ensures r[i] == ' ' && (i + 1 < |r| ==> r[i + 1] != ' ')
    {
      if i > 0 {
        assert r[i] == c[i - 1];
        if i + 1 < |r| {
          assert r[i + 1] == c[i];
        }
      } else if i + 1 < |r| {
        assert r[1] == c[0];
      }
    }
  }

  /** After `Collapse`, the only whitespace left is single spaces. */
  lemma {:induction false} CollapseSpacedResult(s: string)
    ensures Spaced(Collapse(s))
    decreases |s|
  {
    if s != [] {
      var t := if IsSpace(s[0]) then StripStart(s) else s[1..];
      var h := if IsSpace(s[0]) then ' ' else s[0];
      CollapseSpacedResult(t);
      assert Collapse(s) == [h] + Collapse(t);
      if IsSpace(s[0]) && t != [] {
        StripStartFirst(s);
      }
      SpacedCons(h, Collapse(t));
    }
  }

  /** Text that is already collapsed is left as it is. */
  lemma {:induction false} CollapseSpaced(s: string)
    requires Spaced(s)
    ensures Collapse(s) == s
    decreases |s|
  {
    if s != [] {
      assert Spaced(s[1..]) by {
        forall i | 0 <= i < |s[1..]| && IsSpace(s[1..][i])
          ensures s[1..][i] == ' ' && (i + 1 < |s[1..]| ==> s[1..][i + 1] != ' ')
        {
          assert s[1..][i] == s[i + 1];
        }
      }
      if IsSpace(s[0]) {
        if |s| > 1 {
          assert !IsSpace(s[1]);
          assert StripStart(s[1..]) == s[1..];
        }
        assert StripStart(s) == s[1..];
      }
      CollapseSpaced(s[1..]);
      assert s == [s[0]] + s[1..];
    }
  }

  /** A run of whitespace collapses to the same single space whatever its length. */
  lemma {:induction false} CollapseRun(a: string, w: string, b: string)
    requires w != [] && Solid(w) == []
    ensures Collapse(a + w + b) == Collapse(a + [' '] + b)
    decreases |a|
  {
    var x, y := a + w + b, a + [' '] + b;
    SolidOne(' ');
    if a == [] {
      assert x == w + b && y == [' '] + b;
      assert IsSpace(w[0]) by { SolidMembers(w, w[0]); }
      assert IsSpace(x[0]) && IsSpace(y[0]);
      StripStartAppend(w, b);
      StripStartAppend([' '], b);
      assert StripStart(x) == StripStart(y);
    } else if !IsSpace(a[0]) {
      assert x[0] == a[0] && y[0] == a[0];
      assert x[1..] == a[1..] + w + b;
      assert y[1..] == a[1..] + [' '] + b;
      CollapseRun(a[1..], w, b);
      assert Collapse(x) == [a[0]] + Collapse(x[1..]);
      assert Collapse(y) == [a[0]] + Collapse(y[1..]);
    } else {
      assert IsSpace(x[0]) && IsSpace(y[0]);
      assert Collapse(x) == [' '] + Collapse(StripStart(x));
      assert Collapse(y) == [' '] + Collapse(StripStart(y));
      CollapseRunStrip(a, w, b);
    }
  }

  /** The step of CollapseRun where `a` starts with whitespace. */
  lemma {:induction false} CollapseRunStrip(a: string, w: string, b: string)
    requires w != [] && Solid(w) == [] && a != [] && IsSpace(a[0])
    ensures Collapse(StripStart(a + w + b)) == Collapse(StripStart(a + [' '] + b))
    decreases |a|, 0
  {
    SolidOne(' ');
    if Solid(a) == [] {
      assert a + w + b == (a + w) + b;
      assert a + [' '] + b == (a + [' ']) + b;
      SolidAppend(a, w);
      SolidAppend(a, [' ']);
      StripStartAppend(a + w, b);
      StripStartAppend(a + [' '], b);
    } else {
      assert a + w + b == a + (w + b);
      assert a + [' '] + b == a + ([' '] + b);
      StripStartAppend(a, w + b);
      StripStartAppend(a, [' '] + b);
      var a' := StripStart(a);
      assert a' + (w + b) == a' + w + b;
      assert a' + ([' '] + b) == a' + [' '] + b;
      CollapseRun(a', w, b);
    }
  }

  /** A non-whitespace character at the end passes through `Collapse` unchanged. */
  lemma {:induction false} CollapseAppendSolid(x: string, c: char)
    requires !IsSpace(c)
    ensures Collapse(x + [c]) == Collapse(x) + [c]
    decreases |x|
  {
    if x == [] {
      assert Collapse([c]) == [c] + Collapse([]);
    } else if !IsSpace(x[0]) {
      assert (x + [c])[1..] == x[1..] + [c];
      CollapseAppendSolid(x[1..], c);
    } else {
      StripStartAppend(x, [c]);
      SolidOne(c);
      StripStartAppend([c], []);
      assert [c] + [] == [c];
      if Solid(x) == [] {
        StripStartSpec(x);
        assert Collapse(x + [c]) == [' '] + Collapse([c]);
        assert Collapse([c]) == [c] + Collapse([]);
      } else {
        CollapseAppendSolid(StripStart(x), c);
      }
    }
  }

  /** A non-whitespace character at the front passes through `Collapse` unchanged. */
  lemma CollapsePrependSolid(c: char, x: string)
    requires !IsSpace(c)
    ensures Collapse([c] + x) == [c] + Collapse(x)
  {
    assert ([c] + x)[1..] == x;
  }

  /** `str.split(sep)` for a one-character separator: the pieces between the
      occurrences of `sep`, empty pieces included, never fewer than one. */
  function SplitOn(s: string, sep: char): (r: seq<string>)
    ensures |r| >= 1
  {
    if s == [] then [[]]
    else
      var init := SplitOn(s[..|s| - 1], sep);
      if s[|s| - 1] == sep then init + [[]]
      else init[..|init| - 1] + [init[|init| - 1] + [s[|s| - 1]]]
  }

  /** `sep.join(parts)`. */
  function Join(parts: seq<string>, sep: string): string {
    if |parts| == 0 then []
    else if |parts| == 1 then parts[0]
    else Join(parts[..|parts| - 1], sep) + sep + parts[|parts| - 1]
  }

  lemma JoinSnoc(parts: seq<string>, x: string, sep: string)
    requires parts != []
    ensures Join(parts + [x], sep) == Join(parts, sep) + sep + x
  {
    assert (parts + [x])[..|parts|] == parts;
  }

  /** Appending text to the last piece appends it to the joined text. */
  lemma JoinExtend(parts: seq<string>, w: string, sep: string)
    requires parts != []
    ensures Join(parts[..|parts| - 1] + [parts[|parts| - 1] + w], sep) == Join(parts, sep) + w
  {
    var front, last := parts[..|parts| - 1], parts[|parts| - 1];
    if front != [] {
      JoinSnoc(front, last + w, sep);
      assert parts == front + [last];
      JoinSnoc(front, last, sep);
      Assoc(Join(front, sep) + sep, last, w);
    }
  }

  /** The joined text starts where its first piece starts. */
  lemma {:induction false} JoinFirst(parts: seq<string>, sep: string)
    requires parts != [] && parts[0] != []
    ensures Join(parts, sep) != [] && Join(parts, sep)[0] == parts[0][0]
    decreases |parts|
  {
    if |parts| > 1 {
      var front := parts[..|parts| - 1];
      JoinFirst(front, sep);
    }
  }

  /** The joined text ends where its last piece ends. */
  lemma JoinLast(parts: seq<string>, sep: string)
    requires parts != [] && parts[|parts| - 1] != []
    ensures Join(parts, sep) != [] && Join(parts, sep)[|Join(parts, sep)| - 1] == parts[|parts| - 1][|parts[|parts| - 1]| - 1]
  {
  }

  /** Splitting on `sep` then joining with `sep` gives the text back. */
  lemma {:induction false} JoinSplitOn(s: string, sep: char)
    ensures Join(SplitOn(s, sep), [sep]) == s
  {
    if s != [] {
      var p, c := s[..|s| - 1], s[|s| - 1];
      var init, r := SplitOn(p, sep), SplitOn(s, sep);
      JoinSplitOn(p, sep);
      assert p + [c] == s;
      if c == sep {
        assert r == init + [[]];
        JoinSnoc(init, [], [sep]);
        assert Join(r, [sep]) == p + [sep] + [];
      } else {
        assert r == init[..|init| - 1] + [init[|init| - 1] + [c]];
        JoinExtend(init, [c], [sep]);
      }
    }
  }

  /** No piece of `str.split(sep)` holds the separator. */
  lemma {:induction false} SplitOnPieces(s: string, sep: char)
    ensures forall k :: 0 <= k < |SplitOn(s, sep)| ==> sep !in SplitOn(s, sep)[k]
  {
    if s != [] {
      var p, c := s[..|s| - 1], s[|s| - 1];
      var init := SplitOn(p, sep);
      SplitOnPieces(p, sep);
      var r := SplitOn(s, sep);
      forall k | 0 <= k < |r| ensures sep !in r[k] {
        if k < |r| - 1 {
          assert r[k] == init[k];
        } else if c != sep {
          assert r[k] == init[|init| - 1] + [c];
        }
      }
    }
  }

  /** Text without the separator only extends the last piece. */
  lemma {:induction false} SplitOnAppendPlain(x: string, w: string, sep: char)
    requires sep !in w
    ensures SplitOn(x + w, sep) == SplitOn(x, sep)[..|SplitOn(x, sep)| - 1] + [SplitOn(x, sep)[|SplitOn(x, sep)| - 1] + w]
    decreases |w|
  {
    var init := SplitOn(x, sep);
    var n := |init|;
    if w == [] {
      assert x + w == x;
      assert init[n - 1] + w == init[n - 1];
      assert init[..n - 1] + [init[n - 1]] == init;
    } else {
      var w', c := w[..|w| - 1], w[|w| - 1];
      assert sep !in w' by {
        assert forall i :: 0 <= i < |w'| ==> w'[i] == w[i];
      }
      SplitOnAppendPlain(x, w', sep);
      var mid := SplitOn(x + w', sep);
      assert (x + w)[..|x + w| - 1] == x + w';
      assert (x + w)[|x + w| - 1] == c;
      assert mid[..|mid| - 1] == init[..n - 1];
      Assoc(init[n - 1], w', [c]);
      assert w' + [c] == w;
    }
  }

  /** Joining with `sep` then splitting on `sep` gives the pieces back when no
      piece holds `sep`. */
  lemma {:induction false} SplitOnJoin(parts: seq<string>, sep: char)
    requires |parts| >= 1
    requires forall k :: 0 <= k < |parts| ==> sep !in parts[k]
    ensures SplitOn(Join(parts, [sep]), sep) == parts
    decreases |parts|
  {
    var front, last := parts[..|parts| - 1], parts[|parts| - 1];
    if front == [] {
      SplitOnAppendPlain([], last, sep);
      assert [] + last == last;
      assert parts == [last];
    } else {
      SplitOnJoin(front, sep);
      assert parts == front + [last];
      JoinSnoc(front, last, [sep]);
      var j := Join(front, [sep]) + [sep];
      assert j[..|j| - 1] == Join(front, [sep]);
      assert SplitOn(j, sep) == front + [[]];
      SplitOnAppendPlain(j, last, sep);
      assert (front + [[]])[..|front|] == front;
      assert [] + last == last;
    }
  }

  /** The first piece of `str.split(sep)` is not empty when the text does
      not start with `sep`. */
  lemma {:induction false} SplitOnFirst(s: string, sep: char)
    requires s != [] && s[0] != sep
    ensures SplitOn(s, sep)[0] != []
    decreases |s|
  {
    var p := s[..|s| - 1];
    if p != [] {
      assert p[0] == s[0];
      SplitOnFirst(p, sep);
    }
  }

  /** The ASCII part of `str.lower()`. */
  function LowerChar(c: char): char {
    if 'A' <= c <= 'Z' then (c as int + 32) as char else c
  }

  /** `str.lower()`, character by character. */
  function Lower(s: string): (r: string)
    ensures |r| == |s|
    ensures forall i :: 0 <= i < |s| ==> r[i] == LowerChar(s[i])
  {
    seq(|s|, i requires 0 <= i < |s| => LowerChar(s[i]))
  }

  /** Lower-casing keeps exactly the whitespace where it was. */
  lemma LowerKeepsSpaces(s: string)
    ensures forall i :: 0 <= i < |s| ==> (IsSpace(Lower(s)[i]) <==> IsSpace(s[i]))
    ensures forall i :: 0 <= i < |s| ==> (Lower(s)[i] == ' ' <==> s[i] == ' ')
  {
  }

  /** `str(n)` for a natural number. */
  function NatToString(n: nat): (r: string)
    ensures r != []
    ensures forall i :: 0 <= i < |r| ==> '0' <= r[i] <= '9'
  {
    if n < 10 then [(n + '0' as int) as char]
    else NatToString(n / 10) + [(n % 10 + '0' as int) as char]
  }

  /** The number a string of decimal digits denotes, read left to right. */
  ghost function DecimalValue(s: string): int
    decreases |s|
  {
    if s == [] then 0 else DecimalValue(s[..|s| - 1]) * 10 + (s[|s| - 1] as int - '0' as int)
  }

  /** `str(n)` is the decimal form of `n`: its digits denote `n`, and it has
      no leading zero. */
  lemma {:induction false} NatToStringValue(n: nat)
    ensures DecimalValue(NatToString(n)) == n
    ensures |NatToString(n)| > 1 ==> NatToString(n)[0] != '0'
  {
    if n >= 10 {
      NatToStringValue(n / 10);
      var s := NatToString(n);
      assert s[..|s| - 1] == NatToString(n / 10);
    }
  }

  lemma LowerAppend(x: string, y: string)
    ensures Lower(x + y) == Lower(x) + Lower(y)
  {
  }

  /** Text whose pieces `str.lower()` leaves alone, joined by spaces, is
      left alone too. */
  lemma {:induction false} LowerJoin(parts: seq<string>)
    requires forall k :: 0 <= k < |parts| ==> Lower(parts[k]) == parts[k]
    ensures Lower(Join(parts, " ")) == Join(parts, " ")
    decreases |parts|
  {
    if |parts| > 1 {
      var front, last := parts[..|parts| - 1], parts[|parts| - 1];
      LowerJoin(front);
      LowerAppend(Join(front, " ") + " ", last);
      LowerAppend(Join(front, " "), " ");
    }
  }
}
